/**
 The per-client rate limiter of pkg/registry/docs/docs_http_ratelimit.go: sharded
 maps of token buckets, with idle sweeping and arbitrary eviction.

 Times and rates are reals, in seconds. A shard is locked for the whole of a take,
 so the runs of a shard are sequences of takes at nondecreasing times.
 */
module RateLimit {
  import opened Sequences

  const LIMITER_SHARDS: nat := 64

  datatype Mode = Off | Shadow | Enforce

  datatype Config = Config(mode: Mode, rps: real, burst: int, trustedHeader: string, maxClients: int, idleTTL: real)

  /** Whether the header name is blank. */
  predicate Blank(s: string) {
    forall i :: 0 <= i < |s| ==> s[i] in " \t\n\r"
  }

  datatype ConfigError = BadRps | BadBurst | HeaderRequired

  function Validate(c: Config): Option<ConfigError> {
    if c.mode == Off then None
    else if c.rps <= 0.0 then Some(BadRps)
    else if c.burst < 1 then Some(BadBurst)
    else if c.mode == Enforce && Blank(c.trustedHeader) then Some(HeaderRequired)
    else None
  }

  /** A configuration is accepted exactly if the limiter is off, or has a rate and a burst to
      enforce and, to enforce them, some visible header name. */
  lemma ValidIff(c: Config)
    ensures Validate(c) == None <==>
              c.mode == Off
              || (&& c.rps > 0.0 && c.burst >= 1
                  && (c.mode == Enforce ==> exists i :: 0 <= i < |c.trustedHeader| && c.trustedHeader[i] !in " \t\n\r"))
  {
  }

  /** What a limiter that is on works with. */
  datatype Limits = Limits(rps: real, burst: nat, idleTTL: real, perShard: nat)

  ghost predicate Proper(l: Limits) {
    l.rps > 0.0 && l.burst >= 1 && l.idleTTL > 0.0 && l.perShard >= 1
  }

  function LimitsOf(c: Config): (l: Limits)
    requires c.mode != Off && Validate(c) == None
    ensures Proper(l) && l.rps == c.rps && l.burst == c.burst
    ensures if c.idleTTL > 0.0 then l.idleTTL == c.idleTTL else l.idleTTL == 600.0
    ensures
      var clients := if c.maxClients <= 0 then 100_000 else c.maxClients;
      if clients < 64 then l.perShard == 1 else l.perShard * 64 <= clients < l.perShard * 64 + 64
    ensures c.maxClients >= 128 ==> l.perShard > 1
    ensures LIMITER_SHARDS * l.perShard <= Max(if c.maxClients <= 0 then 100_000 else c.maxClients, LIMITER_SHARDS)
  {
    var clients := if c.maxClients <= 0 then 100_000 else c.maxClients;
    Limits(c.rps, c.burst, if c.idleTTL <= 0.0 then 600.0 else c.idleTTL, Max(1, clients / LIMITER_SHARDS))
  }

  function Max(a: int, b: int): int {
    if a >= b then a else b
  }

  function MinReal(a: real, b: real): real {
    if a <= b then a else b
  }

  // ------------------------------------------------------------------
  // Token buckets
  // ------------------------------------------------------------------

  /** A client's bucket: the tokens there were at the time of the last allowed take,
      when the client last asked, and whether that was over budget. */
  datatype Bucket = Bucket(tokens: real, last: real, lastSeen: real, limited: bool)

  /** A bucket that was never used is full; from when on does not matter. */
  function NewBucket(l: Limits, now: real): Bucket {
    Bucket(l.burst as real, now, now, false)
  }

  /** The tokens that a stretch of time adds. */
  function Earned(l: Limits, time: real): real {
    l.rps * time
  }

  function TokensAt(l: Limits, b: Bucket, now: real): real {
    MinReal(l.burst as real, b.tokens + Earned(l, if now < b.last then 0.0 else now - b.last))
  }

  predicate Allows(l: Limits, b: Bucket, now: real) {
    1 <= l.burst && TokensAt(l, b, now) - 1.0 >= 0.0
  }

  function Ceil(x: real): int {
    -((-x).Floor)
  }

  function RetryAfter(l: Limits, b: Bucket, now: real): int
    requires l.rps > 0.0
  {
    Max(1, Ceil((1.0 - TokensAt(l, b, now)) / l.rps))
  }

  datatype Answer = Answer(allowed: bool, retryAfter: int, startedLimiting: bool)

  function AnswerOf(l: Limits, b: Bucket, now: real): Answer
    requires l.rps > 0.0
  {
    var allowed := Allows(l, b, now);
    Answer(allowed, if allowed then 0 else RetryAfter(l, b, now), !allowed && !b.limited)
  }

  /** The bucket after a take; a denied take spends nothing. */
  function Taken(l: Limits, b: Bucket, now: real): Bucket {
    if Allows(l, b, now) then Bucket(TokensAt(l, b, now) - 1.0, now, b.lastSeen, false)
    else b.(limited := true)
  }

  // ------------------------------------------------------------------
  // Shards
  // ------------------------------------------------------------------

  /** lastSweep is None before the first sweep. */
  datatype ShardState = ShardState(clients: map<string, Bucket>, lastSweep: Option<real>)

  predicate Idle(l: Limits, b: Bucket, now: real) {
    now - b.lastSeen > l.idleTTL
  }

  predicate SweepDue(l: Limits, lastSweep: Option<real>, now: real) {
    lastSweep.None? || now - lastSweep.value >= l.idleTTL / 10.0
  }

  /** What a sweep leaves. */
  function Unswept(l: Limits, s: ShardState, now: real): ShardState {
    ShardState(map k | k in s.clients && !Idle(l, s.clients[k], now) :: s.clients[k], Some(now))
  }

  /** The buckets of a sweep that has yet to visit some clients. */
  ghost predicate PartlySwept(l: Limits, start: map<string, Bucket>, todo: set<string>, now: real, clients: map<string, Bucket>) {
    clients == map k | k in start && (k in todo || !Idle(l, start[k], now)) :: start[k]
  }

  lemma SweepVisits(l: Limits, start: map<string, Bucket>, todo: set<string>, now: real, clients: map<string, Bucket>, k: string)
    requires PartlySwept(l, start, todo, now, clients) && k in todo && k in start
    ensures PartlySwept(l, start, todo - {k}, now, if Idle(l, start[k], now) then clients - {k} else clients)
  {
  }

  /** A full shard that has not swept for a while drops its idle buckets. */
  function Swept(l: Limits, s: ShardState, now: real): ShardState {
    if |s.clients| >= l.perShard && SweepDue(l, s.lastSweep, now) then Unswept(l, s, now) else s
  }

  /** The bucket evicted to make room, which may be any one. */
  ghost predicate LegalVictim(l: Limits, s: ShardState, key: string, now: real, victim: Option<string>) {
    if key !in s.clients && |Swept(l, s, now).clients| >= l.perShard
    then victim.Some? && victim.value in Swept(l, s, now).clients
    else victim.None?
  }

  /** The shard once it has made room for one more client. */
  function Relieved(l: Limits, s: ShardState, now: real, victim: Option<string>): ShardState {
    var swept := Swept(l, s, now);
    if victim.Some? then swept.(clients := swept.clients - {victim.value}) else swept
  }

  /** The shard once the client's bucket is in place. */
  function Admitted(l: Limits, s: ShardState, key: string, now: real, victim: Option<string>): (r: ShardState)
    ensures key in r.clients
  {
    if key in s.clients then s.(clients := s.clients[key := s.clients[key].(lastSeen := now)])
    else
      var r := Relieved(l, s, now, victim);
      r.(clients := r.clients[key := NewBucket(l, now)])
  }

  function AfterTake(l: Limits, s: ShardState, key: string, now: real, victim: Option<string>): ShardState {
    var admitted := Admitted(l, s, key, now, victim);
    admitted.(clients := admitted.clients[key := Taken(l, admitted.clients[key], now)])
  }

  function TakeAnswer(l: Limits, s: ShardState, key: string, now: real, victim: Option<string>): Answer
    requires l.rps > 0.0
  {
    AnswerOf(l, Admitted(l, s, key, now, victim).clients[key], now)
  }

  class ClientBucket {
    ghost const owner: string  // the one client that has this bucket
    var tokens: real
    var last: real
    var lastSeen: real
    var limited: bool

    constructor (l: Limits, now: real, ghost owner: string)
      ensures View() == NewBucket(l, now) && this.owner == owner
    {
      this.owner := owner;
      tokens, last, lastSeen, limited := l.burst as real, now, now, false;
    }

    ghost function View(): Bucket
      reads this
    {
      Bucket(tokens, last, lastSeen, limited)
    }

    method AvailableAt(l: Limits, now: real) returns (t: real)
      ensures t == TokensAt(l, View(), now)
    {
      var elapsed := if now < last then 0.0 else now - last;
      t := tokens + l.rps * elapsed;
      if t > l.burst as real {
        t := l.burst as real;
      }
    }

    /** Takes one token if there is one. */
    method Allow(l: Limits, now: real) returns (ok: bool)
      modifies this
      ensures ok == Allows(l, old(View()), now)
      ensures View() == if ok then Taken(l, old(View()), now).(limited := old(limited)) else old(View())
    {
      var t := AvailableAt(l, now);
      ok := 1 <= l.burst && t - 1.0 >= 0.0;
      if ok {
        tokens, last := t - 1.0, now;
      }
    }
  }

  class Shard {
    var clients: map<string, ClientBucket>
    var lastSweep: Option<real>
    ghost var contents: map<string, Bucket>  // the clients' buckets, as values
    ghost var repr: set<ClientBucket>

    ghost predicate Valid()
      reads this, repr
    {
      && (forall k :: k in contents ==> k in clients)
      && (forall k :: k in clients ==>
            k in contents && clients[k] in repr && clients[k].owner == k && clients[k].View() == contents[k])
    }

    ghost function View(): ShardState
      reads this
    {
      ShardState(contents, lastSweep)
    }

    constructor ()
      ensures Valid() && View() == ShardState(map[], None) && repr == {}
    {
      clients, lastSweep, contents, repr := map[], None, map[], {};
    }

    lemma SameSize()
      requires Valid()
      ensures |clients| == |contents| && clients.Keys == contents.Keys
    {
      assert clients.Keys == contents.Keys;
    }

    method Delete(k: string)
      requires Valid() && k in clients
      modifies this`clients, this`contents
      ensures Valid() && contents == old(contents) - {k}
    {
      clients, contents := clients - {k}, contents - {k};
    }

    method Insert(l: Limits, key: string, now: real)
      requires Valid()
      modifies this`clients, this`contents, this`repr
      ensures Valid() && fresh(repr - old(repr))
      ensures contents == old(contents)[key := NewBucket(l, now)]
    {
      var b := new ClientBucket(l, now, key);
      clients, contents := clients[key := b], contents[key := NewBucket(l, now)];
      repr := repr + {b};
    }

    method Refresh(key: string, now: real)
      requires Valid() && key in clients
      modifies this`contents, clients[key]
      ensures Valid() && contents == old(contents)[key := old(contents)[key].(lastSeen := now)]
    {
      clients[key].lastSeen := now;
      contents := contents[key := contents[key].(lastSeen := now)];
    }

    /** Drops the idle buckets, visiting the map in any order. */
    method Sweep(l: Limits, now: real)
      requires Valid()
      modifies this`clients, this`contents, this`lastSweep
      ensures Valid()
      ensures View() == Unswept(l, old(View()), now)
    {
      lastSweep := Some(now);
      ghost var start := contents;
      var todo := clients.Keys;
      while todo != {}
        invariant Valid() && lastSweep == Some(now)
        invariant todo <= start.Keys && PartlySwept(l, start, todo, now, contents)
        decreases |todo|
      {
        var k :| k in todo;
        SweepVisits(l, start, todo, now, contents, k);
        if now - clients[k].lastSeen > l.idleTTL {
          Delete(k);
        }
        todo := todo - {k};
      }
    }

    method SweepIfFull(l: Limits, now: real)
      requires Valid()
      modifies this`clients, this`contents, this`lastSweep
      ensures Valid()
      ensures View() == Swept(l, old(View()), now)
    {
      SameSize();
      if |clients| >= l.perShard {
        if lastSweep.None? || now - lastSweep.value >= l.idleTTL / 10.0 {
          Sweep(l, now);
        }
      }
    }

    /** Sweeps a full shard if it is time to, and evicts any one bucket if it is
        still full. */
    method MakeRoom(l: Limits, now: real) returns (ghost victim: Option<string>)
      requires Valid() && Proper(l)
      modifies this`clients, this`contents, this`lastSweep
      ensures Valid()
      ensures victim.Some? <==> |Swept(l, old(View()), now).clients| >= l.perShard
      ensures victim.Some? ==> victim.value in Swept(l, old(View()), now).clients
      ensures View() == Relieved(l, old(View()), now, victim)
    {
      victim := None;
      SweepIfFull(l, now);
      SameSize();
      if |clients| >= l.perShard {
        var k :| k in clients;
        Delete(k);
        victim := Some(k);
      }
    }

    method BucketLocked(l: Limits, key: string, now: real) returns (ghost victim: Option<string>)
      requires Valid() && Proper(l)
      modifies this, repr
      ensures Valid() && fresh(repr - old(repr))
      ensures key in clients
      ensures LegalVictim(l, old(View()), key, now, victim)
      ensures View() == Admitted(l, old(View()), key, now, victim)
    {
      if key in clients {
        victim := None;
        Refresh(key, now);
      } else {
        victim := MakeRoom(l, now);
        Insert(l, key, now);
      }
    }

    /** Takes a token from the client's bucket. */
    method Charge(l: Limits, key: string, now: real) returns (answer: Answer)
      requires Valid() && Proper(l) && key in clients
      modifies this`contents, clients[key]
      ensures Valid() && contents == old(contents)[key := Taken(l, old(contents)[key], now)]
      ensures answer == AnswerOf(l, old(contents)[key], now)
    {
      var b := clients[key];
      ghost var was := contents[key];
      var wasLimited := b.limited;
      var allowed := b.Allow(l, now);
      var retryAfter := 0;
      if !allowed {
        var available := b.AvailableAt(l, now);
        var deficit := 1.0 - available;
        retryAfter := Max(1, Ceil(deficit / l.rps));
      }
      b.limited := !allowed;
      contents := contents[key := Taken(l, was, now)];
      answer := Answer(allowed, retryAfter, !allowed && !wasLimited);
    }

    method Take(l: Limits, key: string, now: real) returns (answer: Answer, ghost victim: Option<string>)
      requires Valid() && Proper(l)
      modifies this, repr
      ensures Valid() && fresh(repr - old(repr))
      ensures LegalVictim(l, old(View()), key, now, victim)
      ensures answer == TakeAnswer(l, old(View()), key, now, victim)
      ensures View() == AfterTake(l, old(View()), key, now, victim)
    {
      victim := BucketLocked(l, key, now);
      answer := Charge(l, key, now);
    }
  }

  lemma UpdateSize(m: map<string, Bucket>, k: string, b: Bucket)
    ensures |m[k := b]| == if k in m then |m| else |m| + 1
  {
    assert m[k := b].Keys == m.Keys + {k};
    assert |m| == |m.Keys| && |m[k := b]| == |m[k := b].Keys|;
  }

  lemma SubmapSize(a: map<string, Bucket>, b: map<string, Bucket>)
    requires a.Keys <= b.Keys
    ensures |a| <= |b|
  {
    SubsetCardinality(a.Keys, b.Keys);
    assert |a| == |a.Keys| && |b| == |b.Keys|;
  }

  lemma RelievedHasRoom(l: Limits, s: ShardState, now: real, victim: Option<string>)
    requires |s.clients| <= l.perShard && l.perShard >= 1
    requires |Swept(l, s, now).clients| >= l.perShard ==> victim.Some? && victim.value in Swept(l, s, now).clients
    ensures |Relieved(l, s, now, victim).clients| < l.perShard
  {
    var swept := Swept(l, s, now).clients;
    SubmapSize(swept, s.clients);
    if victim.Some? && victim.value in swept {
      var kept := swept - {victim.value};
      UpdateSize(kept, victim.value, swept[victim.value]);
      assert kept[victim.value := swept[victim.value]] == swept;
    } else if victim.Some? {
      assert swept - {victim.value} == swept;
    }
  }

  /** A shard never holds more clients than its share. */
  lemma TakeKeepsShare(l: Limits, s: ShardState, key: string, now: real, victim: Option<string>)
    requires Proper(l) && |s.clients| <= l.perShard && LegalVictim(l, s, key, now, victim)
    ensures |AfterTake(l, s, key, now, victim).clients| <= l.perShard
  {
    var admitted := Admitted(l, s, key, now, victim).clients;
    UpdateSize(admitted, key, Taken(l, admitted[key], now));
    if key in s.clients {
      UpdateSize(s.clients, key, admitted[key]);
    } else {
      RelievedHasRoom(l, s, now, victim);
      UpdateSize(Relieved(l, s, now, victim).clients, key, admitted[key]);
    }
  }

  class RateLimiter {
    const limits: Limits
    const hash: string -> nat
    const shards: seq<Shard>

    ghost predicate ValidShard(i: nat)
      requires i < |shards|
      reads shards[i], shards[i].repr
    {
      shards[i].Valid() && |shards[i].contents| <= limits.perShard
    }

    ghost predicate Valid()
      reads shards, set i, b | 0 <= i < |shards| && b in shards[i].repr :: b
    {
      && Proper(limits) && |shards| == LIMITER_SHARDS
      && (forall i :: 0 <= i < |shards| ==> ValidShard(i))
      && (forall i, j :: 0 <= i < j < |shards| ==> shards[i] != shards[j] && shards[i].repr !! shards[j].repr)
    }

    constructor (c: Config, hash: string -> nat)
      requires c.mode != Off && Validate(c) == None
      ensures Valid() && limits == LimitsOf(c) && this.hash == hash
      ensures forall i :: 0 <= i < |shards| ==> fresh(shards[i]) && shards[i].View() == ShardState(map[], None)
    {
      limits := LimitsOf(c);
      this.hash := hash;
      var made: seq<Shard> := [];
      while |made| < LIMITER_SHARDS
        invariant |made| <= LIMITER_SHARDS
        invariant forall i :: 0 <= i < |made| ==>
          fresh(made[i]) && made[i].Valid() && made[i].repr == {} && made[i].View() == ShardState(map[], None)
        invariant forall i, j :: 0 <= i < j < |made| ==> made[i] != made[j]
      {
        var shard := new Shard();
        made := made + [shard];
      }
      shards := made;
    }

    function ShardOf(key: string): (i: nat)
      ensures i < LIMITER_SHARDS
    {
      hash(key) % LIMITER_SHARDS
    }

    /** A take is a take on the key's own shard, and touches no other. */
    method Take(key: string, now: real) returns (answer: Answer, ghost victim: Option<string>)
      requires Valid()
      modifies shards[ShardOf(key)], shards[ShardOf(key)].repr
      ensures Valid()
      ensures LegalVictim(limits, old(shards[ShardOf(key)].View()), key, now, victim)
      ensures answer == TakeAnswer(limits, old(shards[ShardOf(key)].View()), key, now, victim)
      ensures shards[ShardOf(key)].View() == AfterTake(limits, old(shards[ShardOf(key)].View()), key, now, victim)
      ensures forall i :: 0 <= i < |shards| && i != ShardOf(key) ==> shards[i].View() == old(shards[i].View())
    {
      var i := ShardOf(key);
      assert ValidShard(i);
      ghost var before := shards[i].View();
      answer, victim := shards[i].Take(limits, key, now);
      TakeKeepsShare(limits, before, key, now, victim);
      assert ValidShard(i);
      forall j | 0 <= j < |shards| && j != i
        ensures ValidShard(j)
      {
        assert old(ValidShard(j));
        assert shards[j] != shards[i] && shards[j].repr == old(shards[j].repr);
      }
    }

    ghost function ClientsIn(n: nat): nat
      requires n <= |shards|
      reads shards
    {
      if n == 0 then 0 else ClientsIn(n - 1) + |shards[n - 1].contents|
    }

    /** The number of clients, which the configured maximum bounds. */
    method Size() returns (n: nat)
      requires Valid()
      ensures n == ClientsIn(LIMITER_SHARDS)
      ensures n <= LIMITER_SHARDS * limits.perShard
    {
      n := 0;
      for i := 0 to LIMITER_SHARDS
        invariant n == ClientsIn(i) && n <= i * limits.perShard
      {
        assert ValidShard(i);
        shards[i].SameSize();
        n := n + |shards[i].clients|;
      }
    }
  }
}
