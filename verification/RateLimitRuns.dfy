/**
 What runs of the rate limiter guarantee to one client: the bound on any window of
 time, the exactness of the retry time, and that neither other clients nor idle
 sweeps can be noticed.
 */
module RateLimitRuns {
  import opened Sequences
  import opened RateLimit

  // ------------------------------------------------------------------
  // The retry time
  // ------------------------------------------------------------------

  lemma EarnedInOrder(l: Limits, x: real, y: real)
    requires Proper(l)
    ensures x <= y ==> Earned(l, x) <= Earned(l, y)
    ensures x < y ==> Earned(l, x) < Earned(l, y)
    ensures Earned(l, 0.0) == 0.0
  {
  }

  lemma EarnedAdds(l: Limits, x: real, y: real)
    ensures Earned(l, x + y) == Earned(l, x) + Earned(l, y)
  {
  }

  /** What a bucket holds later is what it holds now and what the time adds, up to
      the burst. */
  lemma TokensLater(l: Limits, b: Bucket, x: real, y: real)
    requires Proper(l) && b.last <= x <= y
    ensures TokensAt(l, b, y) == MinReal(l.burst as real, TokensAt(l, b, x) + Earned(l, y - x))
    ensures TokensAt(l, b, x) <= TokensAt(l, b, y)
  {
    EarnedAdds(l, x - b.last, y - x);
    assert x - b.last + (y - x) == y - b.last;
    EarnedInOrder(l, 0.0, y - x);
  }

  /** Whether the client is allowed once it has waited for some whole seconds. */
  predicate AllowedAfter(l: Limits, b: Bucket, now: real, seconds: int) {
    Allows(l, b, now + seconds as real)
  }

  /** A denied client is allowed again once the time earns what is missing. */
  lemma WaitEarnsToken(l: Limits, b: Bucket, now: real, seconds: int)
    requires Proper(l) && b.last <= now && seconds >= 0 && !Allows(l, b, now)
    ensures AllowedAfter(l, b, now, seconds) <==> Earned(l, seconds as real) >= 1.0 - TokensAt(l, b, now)
  {
    TokensLater(l, b, now, now + seconds as real);
    assert now + seconds as real - now == seconds as real;
  }

  /** After a denial the client is told the least whole number of seconds, at least
      one, after which it is allowed again. */
  lemma RetryIsExact(l: Limits, b: Bucket, now: real)
    requires Proper(l) && b.last <= now && !Allows(l, b, now)
    ensures
      var retry := AnswerOf(l, b, now).retryAfter;
      var after := Taken(l, b, now);
      && retry >= 1
      && AllowedAfter(l, after, now, retry)
      && forall j :: 1 <= j < retry ==> !AllowedAfter(l, after, now, j)
  {
    var wait := (1.0 - TokensAt(l, b, now)) / l.rps;
    var retry := AnswerOf(l, b, now).retryAfter;
    var after := Taken(l, b, now);
    assert TokensAt(l, after, now) == TokensAt(l, b, now);
    assert Earned(l, wait) == 1.0 - TokensAt(l, b, now);
    assert wait > 0.0;
    CeilIsLeast(wait, 0);
    CeilIsLeast(wait, retry);
    EarnedInOrder(l, wait, retry as real);
    WaitEarnsToken(l, after, now, retry);
    forall j | 1 <= j < retry ensures !AllowedAfter(l, after, now, j) {
      CeilIsLeast(wait, j);
      EarnedInOrder(l, j as real, wait);
      WaitEarnsToken(l, after, now, j);
    }
  }

  lemma CeilIsLeast(x: real, j: int)
    ensures j as real >= x <==> j >= Ceil(x)
  {
  }

  // ------------------------------------------------------------------
  // One client by itself
  // ------------------------------------------------------------------

  /** The bucket a take at a given time works on, for a client with no others around. */
  function Seen(l: Limits, b: Option<Bucket>, now: real): Bucket {
    if b.Some? then b.value.(lastSeen := now) else NewBucket(l, now)
  }

  /** The answers to a client that is alone in a limiter that never forgets. */
  function Alone(l: Limits, b: Option<Bucket>, times: seq<real>): (r: seq<Answer>)
    requires l.rps > 0.0
    ensures |r| == |times|
    decreases |times|
  {
    if times == [] then []
    else
      var seen := Seen(l, b, times[0]);
      [AnswerOf(l, seen, times[0])] + Alone(l, Some(Taken(l, seen, times[0])), times[1..])
  }

  /** The number of takes allowed in a window of time. */
  function AllowedIn(answers: seq<Answer>, times: seq<real>, from: real, to: real): nat
    requires |answers| == |times|
  {
    if times == [] then 0
    else (if answers[0].allowed && from <= times[0] <= to then 1 else 0) + AllowedIn(answers[1..], times[1..], from, to)
  }

  ghost predicate InOrder(times: seq<real>, start: real) {
    times == [] || (start <= times[0] && InOrder(times[1..], times[0]))
  }

  /** What every bucket in use satisfies at a time. */
  ghost predicate Sound(l: Limits, b: Bucket, now: real) {
    0.0 <= b.tokens <= l.burst as real && b.last <= b.lastSeen <= now
  }

  lemma TakenIsSound(l: Limits, b: Bucket, now: real)
    requires Proper(l) && Sound(l, b, now)
    ensures Sound(l, Taken(l, b.(lastSeen := now), now), now)
    ensures 0.0 <= TokensAt(l, b, now) <= l.burst as real
  {
    EarnedInOrder(l, 0.0, now - b.last);
  }

  lemma NewIsSound(l: Limits, now: real)
    requires Proper(l)
    ensures Sound(l, NewBucket(l, now), now)
  {
  }

  function MaxReal(a: real, b: real): real {
    if a >= b then a else b
  }

  /** What a client can still be allowed up to the end of a window. */
  function Budget(l: Limits, b: Bucket, from: real, to: real): real {
    var start := MaxReal(from, b.last);
    TokensAt(l, b, start) + Earned(l, to - start)
  }

  /** A take in or before the window uses up at least what it is allowed. */
  lemma TakeUsesBudget(l: Limits, b: Bucket, now: real, from: real, to: real)
    requires Proper(l) && Sound(l, b, now) && from <= to && now <= to
    ensures
      var next := Taken(l, b.(lastSeen := now), now);
      var counted := if Allows(l, b, now) && from <= now then 1.0 else 0.0;
      counted + Budget(l, next, from, to) <= Budget(l, b, from, to)
  {
    var seen := b.(lastSeen := now);
    var next := Taken(l, seen, now);
    assert TokensAt(l, seen, now) == TokensAt(l, b, now);
    EarnedInOrder(l, 0.0, 0.0);
    if Allows(l, b, now) {
      var start := MaxReal(from, b.last);
      if from <= now {
        TokensLater(l, b, start, now);
        EarnedAdds(l, now - start, to - now);
        assert now - start + (to - now) == to - start;
      } else {
        TokensLater(l, b, now, from);
        TokensLater(l, next, now, from);
      }
    }
  }

  lemma {:induction false} LateTakesDoNotCount(answers: seq<Answer>, times: seq<real>, from: real, to: real, start: real)
    requires |answers| == |times| && InOrder(times, start) && start > to
    ensures AllowedIn(answers, times, from, to) == 0
  {
    if times != [] {
      LateTakesDoNotCount(answers[1..], times[1..], from, to, times[0]);
    }
  }

  lemma {:induction false} AllowedWithinBudget(l: Limits, b: Bucket, times: seq<real>, now: real, from: real, to: real)
    requires Proper(l) && Sound(l, b, now) && InOrder(times, now) && from <= to && b.last <= to
    ensures AllowedIn(Alone(l, Some(b), times), times, from, to) as real <= Budget(l, b, from, to)
    decreases |times|
  {
    EarnedInOrder(l, 0.0, to - MaxReal(from, b.last));
    EarnedInOrder(l, 0.0, MaxReal(from, b.last) - b.last);
    if times != [] {
      var answers := Alone(l, Some(b), times);
      if times[0] > to {
        LateTakesDoNotCount(answers[1..], times[1..], from, to, times[0]);
      } else {
        var seen := b.(lastSeen := times[0]);
        var next := Taken(l, seen, times[0]);
        TakenIsSound(l, b, times[0]);
        TakeUsesBudget(l, b, times[0], from, to);
        AllowedWithinBudget(l, next, times[1..], times[0], from, to);
        assert answers[1..] == Alone(l, Some(next), times[1..]);
      }
    }
  }

  /** In any window a client alone is allowed at most the burst and what the rate adds. */
  lemma AloneWindowBound(l: Limits, answers: seq<Answer>, times: seq<real>, start: real, from: real, to: real)
    requires Proper(l) && InOrder(times, start) && from <= to && answers == Alone(l, None, times)
    ensures AllowedIn(answers, times, from, to) as real <= l.burst as real + Earned(l, to - from)
  {
    EarnedInOrder(l, 0.0, to - from);
    if times != [] {
      var unused := NewBucket(l, times[0]);
      NewIsSound(l, times[0]);
      assert Alone(l, None, times) == Alone(l, Some(unused), times);
      if times[0] > to {
        LateTakesDoNotCount(answers[1..], times[1..], from, to, times[0]);
      } else {
        AllowedWithinBudget(l, unused, times, times[0], from, to);
        EarnedInOrder(l, to - MaxReal(from, times[0]), to - from);
      }
    }
  }

  // ------------------------------------------------------------------
  // One client among others
  // ------------------------------------------------------------------

  /** One take on a shard, and the bucket that was evicted for it, if any. */
  datatype Take = Take(key: string, now: real, victim: Option<string>)

  function Next(l: Limits, s: ShardState, take: Take): ShardState {
    AfterTake(l, s, take.key, take.now, take.victim)
  }

  /** Runs the shard can have: time goes forward, and a full shard evicts. */
  ghost predicate LegalRun(l: Limits, s: ShardState, takes: seq<Take>, start: real)
    decreases |takes|
  {
    takes == [] ||
    (&& start <= takes[0].now
     && LegalVictim(l, s, takes[0].key, takes[0].now, takes[0].victim)
     && LegalRun(l, Next(l, s, takes[0]), takes[1..], takes[0].now))
  }

  /** The client's bucket is never evicted, and it is swept only if a bucket that has
      been idle for so long is full again. */
  ghost predicate Undisturbed(l: Limits, s: ShardState, takes: seq<Take>, key: string)
    decreases |takes|
  {
    takes == [] ||
    (var next := Next(l, s, takes[0]);
     && takes[0].victim != Some(key)
     && (key in s.clients && key !in next.clients ==> Earned(l, l.idleTTL) >= l.burst as real)
     && Undisturbed(l, next, takes[1..], key))
  }

  function TimesOf(takes: seq<Take>, key: string): seq<real> {
    if takes == [] then []
    else (if takes[0].key == key then [takes[0].now] else []) + TimesOf(takes[1..], key)
  }

  /** What the shard answers to one client in the course of a run. */
  function AnswersTo(l: Limits, s: ShardState, takes: seq<Take>, key: string): (r: seq<Answer>)
    requires l.rps > 0.0
    ensures |r| == |TimesOf(takes, key)|
    decreases |takes|
  {
    if takes == [] then []
    else
      (if takes[0].key == key then [TakeAnswer(l, s, key, takes[0].now, takes[0].victim)] else [])
      + AnswersTo(l, Next(l, s, takes[0]), takes[1..], key)
  }

  function BucketOf(s: ShardState, key: string): Option<Bucket> {
    if key in s.clients then Some(s.clients[key]) else None
  }

  /** A bucket that holds the burst from some time on. */
  ghost predicate FullBy(l: Limits, b: Bucket, now: real) {
    TokensAt(l, b, now) == l.burst as real
  }

  /** What the shard holds for the client answers as what the client would have had
      alone: the same bucket, or none where that one is full or was never there. */
  ghost predicate Equivalent(l: Limits, here: Option<Bucket>, alone: Option<Bucket>, now: real) {
    && (alone.Some? ==> Sound(l, alone.value, now))
    && (here == alone || (here.None? && FullBy(l, alone.value, now)))
  }

  /** A full bucket and a new one cannot be told apart by a take. */
  lemma FullIsNew(l: Limits, b: Bucket, now: real, later: real)
    requires Proper(l) && Sound(l, b, now) && FullBy(l, b, now) && now <= later
    ensures
      var seen, new_ := b.(lastSeen := later), NewBucket(l, later);
      && Taken(l, seen, later) == Taken(l, new_, later)
      && AnswerOf(l, seen, later) == AnswerOf(l, new_, later)
      && FullBy(l, b, later)
  {
    TokensLater(l, b, now, later);
    EarnedInOrder(l, 0.0, later - now);
    TokensLater(l, NewBucket(l, later), later, later);
  }

  /** A bucket idle for longer than the limit is full, if the rate refills it in
      that time. */
  lemma IdleIsFull(l: Limits, b: Bucket, now: real)
    requires Proper(l) && Sound(l, b, now) && Idle(l, b, now) && Earned(l, l.idleTTL) >= l.burst as real
    ensures FullBy(l, b, now)
  {
    EarnedInOrder(l, l.idleTTL, now - b.last);
  }

  /** The client's own take keeps the two equivalent, and is answered the same. */
  lemma OwnTake(l: Limits, s: ShardState, take: Take, alone: Option<Bucket>, now: real)
    requires Proper(l) && Equivalent(l, BucketOf(s, take.key), alone, now) && now <= take.now
    ensures
      var seen := Seen(l, alone, take.now);
      && TakeAnswer(l, s, take.key, take.now, take.victim) == AnswerOf(l, seen, take.now)
      && Equivalent(l, BucketOf(Next(l, s, take), take.key), Some(Taken(l, seen, take.now)), take.now)
  {
    if alone.Some? {
      TakenIsSound(l, alone.value.(lastSeen := now), take.now);
      if FullBy(l, alone.value, now) { FullIsNew(l, alone.value, now, take.now); }
    } else {
      NewIsSound(l, take.now);
      TakenIsSound(l, NewBucket(l, take.now), take.now);
    }
  }

  /** Another client's take leaves the bucket alone, or sweeps it when it is full. */
  lemma OthersTake(l: Limits, s: ShardState, take: Take, key: string, alone: Option<Bucket>, now: real)
    requires Proper(l) && Equivalent(l, BucketOf(s, key), alone, now) && now <= take.now && take.key != key
    requires take.victim != Some(key)
    requires key in s.clients && key !in Next(l, s, take).clients ==> Earned(l, l.idleTTL) >= l.burst as real
    ensures Equivalent(l, BucketOf(Next(l, s, take), key), alone, take.now)
  {
    if key in s.clients && key !in Next(l, s, take).clients {
      assert Idle(l, s.clients[key], take.now);
      IdleIsFull(l, s.clients[key], take.now);
    } else if alone.Some? && FullBy(l, alone.value, now) {
      FullIsNew(l, alone.value, now, take.now);
    }
  }

  /** A client whose bucket is not evicted is answered as if it were alone: nothing
      that other clients do, and no sweep of a bucket that is full again, shows. */
  lemma {:induction false} ClientsAreIsolated(l: Limits, s: ShardState, takes: seq<Take>, key: string, alone: Option<Bucket>, now: real)
    requires Proper(l) && LegalRun(l, s, takes, now) && Undisturbed(l, s, takes, key)
    requires Equivalent(l, BucketOf(s, key), alone, now)
    ensures AnswersTo(l, s, takes, key) == Alone(l, alone, TimesOf(takes, key))
    decreases |takes|
  {
    if takes != [] {
      var take := takes[0];
      var next := Next(l, s, take);
      if take.key == key {
        OwnTake(l, s, take, alone, now);
        var after := Some(Taken(l, Seen(l, alone, take.now), take.now));
        ClientsAreIsolated(l, next, takes[1..], key, after, take.now);
        assert TimesOf(takes, key)[1..] == TimesOf(takes[1..], key);
      } else {
        OthersTake(l, s, take, key, alone, now);
        ClientsAreIsolated(l, next, takes[1..], key, alone, take.now);
        assert TimesOf(takes, key) == TimesOf(takes[1..], key);
      }
    }
  }

  lemma {:induction false} TimesInOrder(l: Limits, s: ShardState, takes: seq<Take>, key: string, start: real, now: real)
    requires LegalRun(l, s, takes, now) && start <= now
    ensures InOrder(TimesOf(takes, key), start)
    decreases |takes|
  {
    if takes != [] {
      var next := Next(l, s, takes[0]);
      if takes[0].key == key {
        TimesInOrder(l, next, takes[1..], key, takes[0].now, takes[0].now);
        assert TimesOf(takes, key)[1..] == TimesOf(takes[1..], key);
      } else {
        TimesInOrder(l, next, takes[1..], key, start, takes[0].now);
        assert TimesOf(takes, key) == TimesOf(takes[1..], key);
      }
    }
  }

  /** In any run of a shard, a client that is new to it and whose bucket is not
      evicted is allowed, in any window of time, at most the burst and what the rate
      adds in that time. */
  lemma WindowBound(l: Limits, s: ShardState, takes: seq<Take>, key: string, start: real, from: real, to: real)
    requires Proper(l) && key !in s.clients && from <= to
    requires LegalRun(l, s, takes, start) && Undisturbed(l, s, takes, key)
    ensures AllowedIn(AnswersTo(l, s, takes, key), TimesOf(takes, key), from, to) as real
            <= l.burst as real + Earned(l, to - from)
  {
    ClientsAreIsolated(l, s, takes, key, None, start);
    TimesInOrder(l, s, takes, key, start, start);
    AloneWindowBound(l, AnswersTo(l, s, takes, key), TimesOf(takes, key), start, from, to);
  }

  /** The client's bucket is never evicted. */
  ghost predicate NeverVictim(takes: seq<Take>, key: string) {
    forall i :: 0 <= i < |takes| ==> takes[i].victim != Some(key)
  }

  /** Nothing is removed but by idle sweeps. */
  ghost predicate OnlySweeps(takes: seq<Take>) {
    forall i :: 0 <= i < |takes| ==> takes[i].victim.None?
  }

  lemma {:induction false} RefilledIsUndisturbed(l: Limits, s: ShardState, takes: seq<Take>, key: string)
    requires NeverVictim(takes, key) && Earned(l, l.idleTTL) >= l.burst as real
    ensures Undisturbed(l, s, takes, key)
    decreases |takes|
  {
    if takes != [] {
      assert takes[0].victim != Some(key);
      RefilledIsUndisturbed(l, Next(l, s, takes[0]), takes[1..], key);
    }
  }

  /** A shard before its first client. */
  function Empty(): ShardState {
    ShardState(map[], None)
  }

  /** The client is answered as by a map without bounds. */
  ghost predicate AnsweredAsAlone(l: Limits, takes: seq<Take>, key: string)
    requires l.rps > 0.0
  {
    AnswersTo(l, Empty(), takes, key) == Alone(l, None, TimesOf(takes, key))
  }

  /** Where the rate refills the burst in the idle time, a run whose only removals are
      idle sweeps answers every client as a map without bounds would. */
  lemma IdleSweepsAreInvisible(l: Limits, takes: seq<Take>, start: real, key: string)
    requires Proper(l) && Earned(l, l.idleTTL) >= l.burst as real
    requires LegalRun(l, Empty(), takes, start) && OnlySweeps(takes)
    ensures AnsweredAsAlone(l, takes, key)
  {
    RefilledIsUndisturbed(l, Empty(), takes, key);
    ClientsAreIsolated(l, Empty(), takes, key, None, start);
  }

  // ------------------------------------------------------------------
  // When a sweep can be noticed
  // ------------------------------------------------------------------

  /** Forgetting the bucket changes no answer from now on. */
  ghost predicate Unnoticed(l: Limits, b: Bucket, now: real)
    requires l.rps > 0.0
  {
    forall times :: InOrder(times, now) ==> Alone(l, Some(b), times) == Alone(l, None, times)
  }

  /** Several takes at once. */
  function AtOnce(now: real, n: nat): (r: seq<real>)
    ensures |r| == n
  {
    if n == 0 then [] else [now] + AtOnce(now, n - 1)
  }

  lemma {:induction false} AtOnceInOrder(now: real, n: nat)
    ensures InOrder(AtOnce(now, n), now)
  {
    if n > 0 { AtOnceInOrder(now, n - 1); }
  }

  predicate AllAllowed(answers: seq<Answer>) {
    forall i :: 0 <= i < |answers| ==> answers[i].allowed
  }

  lemma AllAllowedFirst(a: Answer, rest: seq<Answer>)
    ensures AllAllowed([a] + rest) <==> a.allowed && AllAllowed(rest)
  {
    var all := [a] + rest;
    assert all[0] == a && forall i :: 0 <= i < |rest| ==> all[i + 1] == rest[i];
    assert forall i :: 0 < i < |all| ==> all[i] == rest[i - 1];
  }

  /** A bucket allows as many takes at once as it holds tokens. */
  lemma {:induction false} HoldsItsTokens(l: Limits, b: Bucket, now: real, n: nat)
    requires Proper(l) && Sound(l, b, now)
    ensures AllAllowed(Alone(l, Some(b), AtOnce(now, n))) <==> n as real <= TokensAt(l, b, now)
    decreases n
  {
    TakenIsSound(l, b, now);
    if n > 0 {
      var seen := b.(lastSeen := now);
      var next := Taken(l, seen, now);
      HoldsItsTokens(l, next, now, n - 1);
      assert AtOnce(now, n)[1..] == AtOnce(now, n - 1);
      AllAllowedFirst(AnswerOf(l, seen, now), Alone(l, Some(next), AtOnce(now, n - 1)));
      assert TokensAt(l, seen, now) == TokensAt(l, b, now);
      EarnedInOrder(l, 0.0, 0.0);
      if Allows(l, b, now) { assert TokensAt(l, next, now) == TokensAt(l, b, now) - 1.0; }
    }
  }

  /** Forgetting a bucket goes unnoticed exactly when it is full. */
  lemma OnlyFullIsUnnoticed(l: Limits, b: Bucket, now: real)
    requires Proper(l) && Sound(l, b, now)
    ensures Unnoticed(l, b, now) <==> FullBy(l, b, now)
  {
    if FullBy(l, b, now) {
      forall times | InOrder(times, now)
        ensures Alone(l, Some(b), times) == Alone(l, None, times)
      {
        if times != [] { FullIsNew(l, b, now, times[0]); }
      }
    } else {
      var times := AtOnce(now, l.burst);
      AtOnceInOrder(now, l.burst);
      NewIsSound(l, now);
      TakenIsSound(l, b, now);
      HoldsItsTokens(l, b, now, l.burst);
      HoldsItsTokens(l, NewBucket(l, now), now, l.burst);
      EarnedInOrder(l, 0.0, 0.0);
      assert Alone(l, None, times) == Alone(l, Some(NewBucket(l, now)), times);
    }
  }

  /** The bucket after a client's takes. */
  function After(l: Limits, b: Option<Bucket>, times: seq<real>): Option<Bucket>
    decreases |times|
  {
    if times == [] then b else After(l, Some(Taken(l, Seen(l, b, times[0]), times[0])), times[1..])
  }

  /** A client can use up its burst at once. */
  lemma {:induction false} BurstIsSpent(l: Limits, b: Bucket, now: real, n: nat)
    requires Proper(l) && Sound(l, b, now) && b.lastSeen == b.last == now && b.tokens == n as real
    ensures After(l, Some(b), AtOnce(now, n)).Some?
    ensures var r := After(l, Some(b), AtOnce(now, n)).value; r.tokens == 0.0 && r.last == r.lastSeen == now
    decreases n
  {
    if n > 0 {
      EarnedInOrder(l, 0.0, 0.0);
      TakenIsSound(l, b, now);
      BurstIsSpent(l, Taken(l, b.(lastSeen := now), now), now, n - 1);
      assert AtOnce(now, n)[1..] == AtOnce(now, n - 1);
    }
  }

  // ------------------------------------------------------------------
  // A shard of one client
  // ------------------------------------------------------------------

  /** In a shard with room for one client, a client that was swept has been away for the
      idle time when its successor came. */
  ghost predicate Succeeded(l: Limits, s: ShardState, b: Bucket) {
    exists x :: x in s.clients && s.clients[x].lastSeen - b.lastSeen > l.idleTTL
  }

  ghost predicate LoneEquivalent(l: Limits, s: ShardState, key: string, alone: Option<Bucket>, now: real) {
    && (alone.Some? ==> Sound(l, alone.value, now))
    && (forall x, y :: x in s.clients && y in s.clients ==> x == y)
    && (forall x :: x in s.clients ==> s.clients[x].lastSeen <= now)
    && (BucketOf(s, key) == alone || (key !in s.clients && Succeeded(l, s, alone.value)))
  }

  /** Without an eviction, a newcomer finds such a shard swept empty. */
  lemma NewcomerFindsNone(l: Limits, s: ShardState, key: string, now: real)
    requires l.perShard == 1 && key !in s.clients && LegalVictim(l, s, key, now, None)
    ensures forall x :: x in s.clients ==> Idle(l, s.clients[x], now)
    ensures Relieved(l, s, now, None).clients == map[]
  {
    assert Swept(l, s, now).clients == map[];
    if s.clients != map[] {
      forall x | x in s.clients
        ensures Idle(l, s.clients[x], now)
      {
        assert x !in Swept(l, s, now).clients;
      }
    }
  }

  /** So a client that returns has been away for twice the idle time. */
  lemma LoneOwnTake(l: Limits, s: ShardState, take: Take, alone: Option<Bucket>, now: real)
    requires Proper(l) && l.perShard == 1 && 2.0 * Earned(l, l.idleTTL) >= l.burst as real
    requires LoneEquivalent(l, s, take.key, alone, now) && now <= take.now
    requires take.victim.None? && LegalVictim(l, s, take.key, take.now, None)
    ensures
      var seen := Seen(l, alone, take.now);
      && TakeAnswer(l, s, take.key, take.now, take.victim) == AnswerOf(l, seen, take.now)
      && LoneEquivalent(l, Next(l, s, take), take.key, Some(Taken(l, seen, take.now)), take.now)
  {
    NewIsSound(l, take.now);
    TakenIsSound(l, Seen(l, alone, take.now), take.now);
    if take.key !in s.clients {
      NewcomerFindsNone(l, s, take.key, take.now);
      if alone.Some? {
        var b := alone.value;
        var x :| x in s.clients && s.clients[x].lastSeen - b.lastSeen > l.idleTTL;
        AwayTwiceIsFull(l, b, take.now);
        FullIsNew(l, b, take.now, take.now);
      }
    }
  }

  lemma AwayTwiceIsFull(l: Limits, b: Bucket, now: real)
    requires Proper(l) && Sound(l, b, now) && now - b.lastSeen > 2.0 * l.idleTTL
    requires 2.0 * Earned(l, l.idleTTL) >= l.burst as real
    ensures FullBy(l, b, now)
  {
    EarnedAdds(l, l.idleTTL, l.idleTTL);
    EarnedInOrder(l, l.idleTTL + l.idleTTL, now - b.last);
  }

  lemma LoneOthersTake(l: Limits, s: ShardState, take: Take, key: string, alone: Option<Bucket>, now: real)
    requires Proper(l) && l.perShard == 1 && take.key != key
    requires LoneEquivalent(l, s, key, alone, now) && now <= take.now
    requires take.victim.None? && LegalVictim(l, s, take.key, take.now, None)
    ensures LoneEquivalent(l, Next(l, s, take), key, alone, take.now)
  {
    var next := Next(l, s, take);
    if take.key !in s.clients {
      NewcomerFindsNone(l, s, take.key, take.now);
    }
    assert take.key in next.clients && next.clients[take.key].lastSeen == take.now;
    if alone.Some? {
      assert Succeeded(l, next, alone.value);
    }
  }

  lemma {:induction false} LoneIsIsolated(l: Limits, s: ShardState, takes: seq<Take>, key: string, alone: Option<Bucket>, now: real)
    requires Proper(l) && l.perShard == 1 && 2.0 * Earned(l, l.idleTTL) >= l.burst as real
    requires LegalRun(l, s, takes, now) && OnlySweeps(takes)
    requires LoneEquivalent(l, s, key, alone, now)
    ensures AnswersTo(l, s, takes, key) == Alone(l, alone, TimesOf(takes, key))
    decreases |takes|
  {
    if takes != [] {
      var take := takes[0];
      var next := Next(l, s, take);
      assert take.victim.None?;
      if take.key == key {
        LoneOwnTake(l, s, take, alone, now);
        var after := Some(Taken(l, Seen(l, alone, take.now), take.now));
        LoneIsIsolated(l, next, takes[1..], key, after, take.now);
        assert TimesOf(takes, key)[1..] == TimesOf(takes[1..], key);
      } else {
        LoneOthersTake(l, s, take, key, alone, now);
        LoneIsIsolated(l, next, takes[1..], key, alone, take.now);
        assert TimesOf(takes, key) == TimesOf(takes[1..], key);
      }
    }
  }

  // ------------------------------------------------------------------
  // A run in which a sweep shows
  // ------------------------------------------------------------------

  /** The takes lead from one state to another. */
  ghost predicate Leads(l: Limits, s: ShardState, takes: seq<Take>, start: real, end: real, last: ShardState)
    decreases |takes|
  {
    if takes == [] then start <= end && s == last
    else
      && start <= takes[0].now
      && LegalVictim(l, s, takes[0].key, takes[0].now, takes[0].victim)
      && Leads(l, Next(l, s, takes[0]), takes[1..], takes[0].now, end, last)
  }

  lemma LeadsFirst(l: Limits, s: ShardState, take: Take, next: ShardState, rest: seq<Take>,
                   start: real, end: real, last: ShardState)
    requires start <= take.now && LegalVictim(l, s, take.key, take.now, take.victim)
    requires next == Next(l, s, take) && Leads(l, next, rest, take.now, end, last)
    ensures Leads(l, s, [take] + rest, start, end, last)
  {
    assert ([take] + rest)[1..] == rest;
  }

  lemma {:induction false} LeadsLegally(l: Limits, s: ShardState, takes: seq<Take>, start: real, end: real, last: ShardState)
    requires Leads(l, s, takes, start, end, last)
    ensures LegalRun(l, s, takes, start)
    decreases |takes|
  {
    if takes != [] {
      LeadsLegally(l, Next(l, s, takes[0]), takes[1..], takes[0].now, end, last);
    }
  }

  lemma {:induction false} LeadsOn(l: Limits, s: ShardState, a: seq<Take>, start: real, mid: real, m: ShardState,
                                   b: seq<Take>, end: real, last: ShardState)
    requires Leads(l, s, a, start, mid, m) && Leads(l, m, b, mid, end, last)
    ensures Leads(l, s, a + b, start, end, last)
    decreases |a|
  {
    if a == [] {
      assert a + b == b;
      LeadsSooner(l, s, b, start, mid, end, last);
    } else {
      LeadsOn(l, Next(l, s, a[0]), a[1..], a[0].now, mid, m, b, end, last);
      LeadsFirst(l, s, a[0], Next(l, s, a[0]), a[1..] + b, start, end, last);
      assert a + b == [a[0]] + (a[1..] + b);
    }
  }

  lemma LeadsSooner(l: Limits, s: ShardState, takes: seq<Take>, sooner: real, start: real, end: real, last: ShardState)
    requires sooner <= start && Leads(l, s, takes, start, end, last)
    ensures Leads(l, s, takes, sooner, end, last)
  {
  }

  lemma TimesFirst(take: Take, rest: seq<Take>, key: string)
    ensures TimesOf([take] + rest, key) == (if take.key == key then [take.now] else []) + TimesOf(rest, key)
  {
    assert ([take] + rest)[1..] == rest;
  }

  lemma {:induction false} TimesConcat(a: seq<Take>, b: seq<Take>, key: string)
    ensures TimesOf(a + b, key) == TimesOf(a, key) + TimesOf(b, key)
  {
    if a == [] {
      assert a + b == b;
    } else {
      assert a == [a[0]] + a[1..];
      TimesConcat(a[1..], b, key);
      TimesFirst(a[0], a[1..], key);
      TimesFirst(a[0], a[1..] + b, key);
      Associates([a[0]], a[1..], b);
      Associates(if a[0].key == key then [a[0].now] else [], TimesOf(a[1..], key), TimesOf(b, key));
    }
  }

  lemma AnswersFirst(l: Limits, s: ShardState, take: Take, rest: seq<Take>, key: string)
    requires l.rps > 0.0
    ensures AnswersTo(l, s, [take] + rest, key)
            == (if take.key == key then [TakeAnswer(l, s, key, take.now, take.victim)] else [])
               + AnswersTo(l, Next(l, s, take), rest, key)
  {
    assert ([take] + rest)[1..] == rest;
  }

  lemma AnswersBehind(l: Limits, s: ShardState, take: Take, a: seq<Take>, m: ShardState, b: seq<Take>, key: string)
    requires l.rps > 0.0
    requires AnswersTo(l, Next(l, s, take), a + b, key) == AnswersTo(l, Next(l, s, take), a, key) + AnswersTo(l, m, b, key)
    ensures AnswersTo(l, s, [take] + a + b, key) == AnswersTo(l, s, [take] + a, key) + AnswersTo(l, m, b, key)
  {
    var own := if take.key == key then [TakeAnswer(l, s, key, take.now, take.victim)] else [];
    AnswersFirst(l, s, take, a, key);
    AnswersFirst(l, s, take, a + b, key);
    Associates([take], a, b);
    Associates(own, AnswersTo(l, Next(l, s, take), a, key), AnswersTo(l, m, b, key));
  }

  lemma {:induction false} AnswersConcat(l: Limits, s: ShardState, a: seq<Take>, start: real, mid: real, m: ShardState,
                                         b: seq<Take>, key: string)
    requires l.rps > 0.0 && Leads(l, s, a, start, mid, m)
    ensures AnswersTo(l, s, a + b, key) == AnswersTo(l, s, a, key) + AnswersTo(l, m, b, key)
    decreases |a|
  {
    if a == [] {
      assert a + b == b;
    } else {
      assert a == [a[0]] + a[1..];
      AnswersConcat(l, Next(l, s, a[0]), a[1..], a[0].now, mid, m, b, key);
      AnswersBehind(l, s, a[0], a[1..], m, b, key);
    }
  }

  lemma {:induction false} AloneConcat(l: Limits, b: Option<Bucket>, x: seq<real>, y: seq<real>)
    requires l.rps > 0.0
    ensures Alone(l, b, x + y) == Alone(l, b, x) + Alone(l, After(l, b, x), y)
    decreases |x|
  {
    if x == [] {
      assert x + y == y;
    } else {
      assert (x + y)[1..] == x[1..] + y;
      AloneConcat(l, Some(Taken(l, Seen(l, b, x[0]), x[0])), x[1..], y);
    }
  }

  /** Different clients for different numbers. */
  function Name(i: nat): (name: string)
    ensures |name| == i
  {
    seq(i, _ => 'x')
  }

  function Repeats(key: string, now: real, n: nat): (r: seq<Take>)
    ensures |r| == n
  {
    if n == 0 then [] else [Take(key, now, None)] + Repeats(key, now, n - 1)
  }

  /** One take each of n clients, at the start. */
  function Fillers(i: nat, n: nat): seq<Take>
    decreases n
  {
    if n == 0 then [] else [Take(Name(i), 0.0, None)] + Fillers(i + 1, n - 1)
  }

  lemma {:induction false} TimesOfRepeats(key: string, now: real, n: nat)
    ensures TimesOf(Repeats(key, now, n), key) == AtOnce(now, n)
  {
    if n > 0 {
      TimesOfRepeats(key, now, n - 1);
      assert Repeats(key, now, n)[1..] == Repeats(key, now, n - 1);
    }
  }

  lemma {:induction false} TimesOfFillers(i: nat, n: nat)
    requires i > 0
    ensures TimesOf(Fillers(i, n), Name(0)) == []
    decreases n
  {
    if n > 0 {
      TimesOfFillers(i + 1, n - 1);
      assert Fillers(i, n)[1..] == Fillers(i + 1, n - 1);
    }
  }

  /** Clients whose last takes are the same. */
  ghost predicate SameClients(s: ShardState, t: ShardState) {
    && t.lastSweep == s.lastSweep && t.clients.Keys == s.clients.Keys
    && forall x :: x in s.clients ==> t.clients[x].lastSeen == s.clients[x].lastSeen
  }

  lemma {:induction false} RepeatsLead(l: Limits, s: ShardState, key: string, now: real, n: nat) returns (last: ShardState)
    requires key in s.clients && s.clients[key].lastSeen == now
    ensures Leads(l, s, Repeats(key, now, n), now, now, last) && SameClients(s, last)
    decreases n
  {
    last := s;
    if n > 0 {
      var next := Next(l, s, Take(key, now, None));
      last := RepeatsLead(l, next, key, now, n - 1);
      LeadsFirst(l, s, Take(key, now, None), next, Repeats(key, now, n - 1), now, now, last);
    }
  }

  /** The shard has n clients, all from the start. */
  ghost predicate Filled(s: ShardState, n: nat) {
    && s.lastSweep.None? && |s.clients| == n
    && forall x :: x in s.clients ==> |x| < n && s.clients[x].lastSeen == 0.0
  }

  lemma FillNext(l: Limits, s: ShardState, n: nat)
    requires Filled(s, n) && n < l.perShard
    ensures LegalVictim(l, s, Name(n), 0.0, None)
    ensures Filled(Next(l, s, Take(Name(n), 0.0, None)), n + 1)
  {
    var admitted := Admitted(l, s, Name(n), 0.0, None).clients;
    UpdateSize(s.clients, Name(n), NewBucket(l, 0.0));
    UpdateSize(admitted, Name(n), Taken(l, admitted[Name(n)], 0.0));
  }

  lemma {:induction false} FillersLead(l: Limits, s: ShardState, i: nat, n: nat) returns (last: ShardState)
    requires Filled(s, i) && i + n <= l.perShard
    ensures Leads(l, s, Fillers(i, n), 0.0, 0.0, last) && Filled(last, i + n)
    decreases n
  {
    last := s;
    if n > 0 {
      FillNext(l, s, i);
      var next := Next(l, s, Take(Name(i), 0.0, None));
      last := FillersLead(l, next, i + 1, n - 1);
      LeadsFirst(l, s, Take(Name(i), 0.0, None), next, Fillers(i + 1, n - 1), 0.0, 0.0, last);
    }
  }

  /** A client that the shard does not know takes its burst at once. */
  function Burst(l: Limits, now: real, victim: Option<string>): (r: seq<Take>)
    requires Proper(l)
    ensures |r| == l.burst
  {
    [Take(Name(0), now, victim)] + Repeats(Name(0), now, l.burst - 1)
  }

  lemma TimesOfBurst(l: Limits, now: real, victim: Option<string>)
    requires Proper(l)
    ensures TimesOf(Burst(l, now, victim), Name(0)) == AtOnce(now, l.burst)
  {
    TimesOfRepeats(Name(0), now, l.burst - 1);
    TimesFirst(Take(Name(0), now, victim), Repeats(Name(0), now, l.burst - 1), Name(0));
  }

  lemma BurstLeads(l: Limits, s: ShardState, start: real, now: real, victim: Option<string>) returns (last: ShardState)
    requires Proper(l) && Name(0) !in s.clients && start <= now
    requires LegalVictim(l, s, Name(0), now, victim)
    ensures Leads(l, s, Burst(l, now, victim), start, now, last)
    ensures SameClients(Next(l, s, Take(Name(0), now, victim)), last)
    ensures AnswersTo(l, s, Burst(l, now, victim), Name(0)) == Alone(l, None, AtOnce(now, l.burst))
  {
    var take, rest := Take(Name(0), now, victim), Repeats(Name(0), now, l.burst - 1);
    var first := Next(l, s, take);
    assert first.clients[Name(0)].lastSeen == now;
    last := RepeatsLead(l, first, Name(0), now, l.burst - 1);
    LeadsFirst(l, s, take, first, rest, start, now, last);
    LeadsLegally(l, s, Burst(l, now, victim), start, now, last);
    BurstUndisturbed(l, s, now, victim);
    ClientsAreIsolated(l, s, Burst(l, now, victim), Name(0), None, start);
    TimesOfBurst(l, now, victim);
  }

  lemma BurstUndisturbed(l: Limits, s: ShardState, now: real, victim: Option<string>)
    requires Proper(l) && Name(0) !in s.clients && LegalVictim(l, s, Name(0), now, victim)
    ensures Undisturbed(l, s, Burst(l, now, victim), Name(0))
  {
    var take, rest := Take(Name(0), now, victim), Repeats(Name(0), now, l.burst - 1);
    RepeatsUndisturbed(l, Next(l, s, take), Name(0), now, l.burst - 1);
    assert ([take] + rest)[1..] == rest;
  }

  lemma {:induction false} RepeatsUndisturbed(l: Limits, s: ShardState, key: string, now: real, n: nat)
    requires key in s.clients
    ensures Undisturbed(l, s, Repeats(key, now, n), key)
    decreases n
  {
    if n > 0 {
      RepeatsUndisturbed(l, Next(l, s, Take(key, now, None)), key, now, n - 1);
      assert Repeats(key, now, n)[1..] == Repeats(key, now, n - 1);
    }
  }

  lemma SpendingLeads(l: Limits) returns (last: ShardState)
    requires Proper(l)
    ensures Leads(l, Empty(), Burst(l, 0.0, None), 0.0, 0.0, last) && Filled(last, 1)
    ensures AnswersTo(l, Empty(), Burst(l, 0.0, None), Name(0)) == Alone(l, None, AtOnce(0.0, l.burst))
  {
    FillNext(l, Empty(), 0);
    last := BurstLeads(l, Empty(), 0.0, 0.0, None);
    SameAreFilled(Next(l, Empty(), Take(Name(0), 0.0, None)), last);
  }

  lemma SameAreFilled(s: ShardState, t: ShardState)
    requires Filled(s, 1) && SameClients(s, t)
    ensures Filled(t, 1)
  {
    assert |t.clients| == |t.clients.Keys| && |s.clients| == |s.clients.Keys|;
  }

  /** A newcomer that comes once all are idle has the shard to itself. */
  lemma NewcomerSweeps(l: Limits, s: ShardState, now: real) returns (last: ShardState)
    requires Proper(l) && Filled(s, l.perShard) && now > l.idleTTL
    ensures Leads(l, s, [Take(Name(l.perShard), now, None)], 0.0, now, last)
    ensures HasOnlyNewcomer(l, last, now)
  {
    var take := Take(Name(l.perShard), now, None);
    assert take.key !in s.clients;
    assert Swept(l, s, now).clients == map[];
    last := Next(l, s, take);
    assert [take][1..] == [];
  }

  ghost predicate HasOnlyNewcomer(l: Limits, s: ShardState, now: real) {
    && s.clients.Keys == {Name(l.perShard)} && s.lastSweep == Some(now)
    && s.clients[Name(l.perShard)].lastSeen == now
  }

  /** When the first client may come back without an eviction: at once if there is room,
      or once the newcomer is idle. */
  function Return(l: Limits, now: real): real {
    if l.perShard == 1 then now + now else now
  }

  /** It comes back then, or at once and evicts the newcomer if there is no room. */
  predicate Returns(l: Limits, now: real, back: real, victim: Option<string>) {
    if victim.None? && l.perShard == 1 then back == Return(l, now)
    else back == now && victim == if l.perShard == 1 then Some(Name(1)) else None
  }

  lemma ReturnIsLegal(l: Limits, s: ShardState, now: real, back: real, victim: Option<string>)
    requires Proper(l) && now > l.idleTTL && HasOnlyNewcomer(l, s, now) && Returns(l, now, back, victim)
    ensures Name(0) !in s.clients && LegalVictim(l, s, Name(0), back, victim)
    ensures now <= back
  {
    assert |s.clients| == |s.clients.Keys| == 1;
    if l.perShard == 1 && victim.None? {
      assert back - now == now;
      assert Swept(l, s, back).clients == map[];
    } else if l.perShard == 1 {
      assert Swept(l, s, back) == s;
    }
  }

  /** Others fill the shard, and a newcomer sweeps it. */
  function Between(l: Limits, now: real): seq<Take>
    requires Proper(l)
  {
    Fillers(1, l.perShard - 1) + [Take(Name(l.perShard), now, None)]
  }

  lemma TimesOfBetween(l: Limits, now: real)
    requires Proper(l)
    ensures TimesOf(Between(l, now), Name(0)) == []
  {
    var newcomer := Take(Name(l.perShard), now, None);
    TimesOfFillers(1, l.perShard - 1);
    TimesConcat(Fillers(1, l.perShard - 1), [newcomer], Name(0));
    TimesFirst(newcomer, [], Name(0));
    assert [newcomer] + [] == [newcomer];
  }

  lemma BetweenLeads(l: Limits, s: ShardState, now: real) returns (last: ShardState)
    requires Proper(l) && Filled(s, 1) && now > l.idleTTL
    ensures Leads(l, s, Between(l, now), 0.0, now, last) && HasOnlyNewcomer(l, last, now)
  {
    var filled := FillersLead(l, s, 1, l.perShard - 1);
    last := NewcomerSweeps(l, filled, now);
    LeadsOn(l, s, Fillers(1, l.perShard - 1), 0.0, 0.0, filled, [Take(Name(l.perShard), now, None)], now, last);
  }

  /** The whole run: a client spends its burst, is swept, and comes back. */
  function Showing(l: Limits, now: real, back: real, victim: Option<string>): seq<Take>
    requires Proper(l)
  {
    Burst(l, 0.0, None) + (Between(l, now) + Burst(l, back, victim))
  }

  lemma TimesOfShowing(l: Limits, now: real, back: real, victim: Option<string>)
    requires Proper(l)
    ensures TimesOf(Showing(l, now, back, victim), Name(0)) == AtOnce(0.0, l.burst) + AtOnce(back, l.burst)
  {
    TimesConcat(Between(l, now), Burst(l, back, victim), Name(0));
    TimesConcat(Burst(l, 0.0, None), Between(l, now) + Burst(l, back, victim), Name(0));
    TimesOfBetween(l, now);
    TimesOfBurst(l, 0.0, None);
    TimesOfBurst(l, back, victim);
  }

  lemma ShowingLeads(l: Limits, now: real, back: real, victim: Option<string>)
    returns (spent: ShardState, swept: ShardState, last: ShardState)
    requires Proper(l) && now > l.idleTTL && Returns(l, now, back, victim)
    ensures Leads(l, Empty(), Burst(l, 0.0, None), 0.0, 0.0, spent)
    ensures Leads(l, spent, Between(l, now), 0.0, now, swept)
    ensures Leads(l, swept, Burst(l, back, victim), now, back, last)
    ensures AnswersTo(l, Empty(), Burst(l, 0.0, None), Name(0)) == Alone(l, None, AtOnce(0.0, l.burst))
    ensures AnswersTo(l, swept, Burst(l, back, victim), Name(0)) == Alone(l, None, AtOnce(back, l.burst))
  {
    spent := SpendingLeads(l);
    swept := BetweenLeads(l, spent, now);
    ReturnIsLegal(l, swept, now, back, victim);
    last := BurstLeads(l, swept, now, back, victim);
  }

  lemma ShowingIsLegal(l: Limits, now: real, back: real, victim: Option<string>)
    requires Proper(l) && now > l.idleTTL && Returns(l, now, back, victim)
    ensures LegalRun(l, Empty(), Showing(l, now, back, victim), 0.0)
  {
    var spent, swept, last := ShowingLeads(l, now, back, victim);
    LeadsOn(l, spent, Between(l, now), 0.0, now, swept, Burst(l, back, victim), back, last);
    LeadsOn(l, Empty(), Burst(l, 0.0, None), 0.0, 0.0, spent, Between(l, now) + Burst(l, back, victim), back, last);
    LeadsLegally(l, Empty(), Showing(l, now, back, victim), 0.0, back, last);
  }

  /** Takes of others answer the client nothing. */
  lemma OthersAnswerNothing(l: Limits, s: ShardState, a: seq<Take>, start: real, mid: real, m: ShardState,
                            b: seq<Take>, key: string)
    requires l.rps > 0.0 && Leads(l, s, a, start, mid, m) && TimesOf(a, key) == []
    ensures AnswersTo(l, s, a + b, key) == AnswersTo(l, m, b, key)
  {
    var none := AnswersTo(l, s, a, key);
    AnswersConcat(l, s, a, start, mid, m, b, key);
    assert |none| == 0;
    NothingBefore(none, AnswersTo(l, m, b, key));
  }

  lemma NothingBefore(none: seq<Answer>, answers: seq<Answer>)
    requires |none| == 0
    ensures none + answers == answers
  {
  }

  lemma AnswersAround(l: Limits, s: ShardState, a: seq<Take>, start: real, mid: real, m: ShardState,
                      b: seq<Take>, late: real, n: ShardState, c: seq<Take>, key: string)
    requires l.rps > 0.0 && Leads(l, s, a, start, mid, m) && Leads(l, m, b, mid, late, n) && TimesOf(b, key) == []
    ensures AnswersTo(l, s, a + (b + c), key) == AnswersTo(l, s, a, key) + AnswersTo(l, n, c, key)
  {
    AnswersConcat(l, s, a, start, mid, m, b + c, key);
    OthersAnswerNothing(l, m, b, mid, late, n, c, key);
  }

  /** The client gets its burst both times. */
  lemma ShowingAnswers(l: Limits, now: real, back: real, victim: Option<string>)
    requires Proper(l) && now > l.idleTTL && Returns(l, now, back, victim)
    ensures AnswersTo(l, Empty(), Showing(l, now, back, victim), Name(0))
            == Alone(l, None, AtOnce(0.0, l.burst)) + Alone(l, None, AtOnce(back, l.burst))
  {
    var spent, swept, last := ShowingLeads(l, now, back, victim);
    TimesOfBetween(l, now);
    AnswersAround(l, Empty(), Burst(l, 0.0, None), 0.0, 0.0, spent, Between(l, now), now, swept, Burst(l, back, victim), Name(0));
  }

  /** So it gets more than it has earned, and more than it would alone. */
  lemma SweepShows(l: Limits, now: real, back: real, victim: Option<string>)
    requires Proper(l) && now > l.idleTTL && Returns(l, now, back, victim) && Earned(l, back) < l.burst as real
    ensures LegalRun(l, Empty(), Showing(l, now, back, victim), 0.0)
    ensures !AnsweredAsAlone(l, Showing(l, now, back, victim), Name(0))
    ensures !KeepsBound(l, Showing(l, now, back, victim), Name(0), 0.0, back)
  {
    var spent, again := AtOnce(0.0, l.burst), AtOnce(back, l.burst);
    EarnedInOrder(l, 0.0, back);
    assert back > 0.0;
    ShowingIsLegal(l, now, back, victim);
    ShowingAnswers(l, now, back, victim);
    TimesOfShowing(l, now, back, victim);
    AloneConcat(l, None, spent, again);
    BurstsDiffer(l, back);
    BackDiffers(Alone(l, None, spent), Alone(l, None, again), Alone(l, None, spent), Alone(l, After(l, None, spent), again));
    NewAllowsBurst(l, 0.0);
    NewAllowsBurst(l, back);
    AllowedConcat(Alone(l, None, spent), spent, Alone(l, None, again), again, 0.0, back);
    AllAreAllowedIn(l, Alone(l, None, spent), 0.0, l.burst, 0.0, back);
    AllAreAllowedIn(l, Alone(l, None, again), back, l.burst, 0.0, back);
    assert back - 0.0 == back;
  }

  lemma NewAllowsBurst(l: Limits, now: real)
    requires Proper(l)
    ensures AllAllowed(Alone(l, None, AtOnce(now, l.burst)))
  {
    var b := NewBucket(l, now);
    NewIsSound(l, now);
    EarnedInOrder(l, 0.0, 0.0);
    HoldsItsTokens(l, b, now, l.burst);
    assert Alone(l, None, AtOnce(now, l.burst)) == Alone(l, Some(b), AtOnce(now, l.burst));
  }

  lemma {:induction false} AllAreAllowedIn(l: Limits, answers: seq<Answer>, now: real, n: nat, from: real, to: real)
    requires |answers| == n && AllAllowed(answers) && from <= now <= to
    ensures AllowedIn(answers, AtOnce(now, n), from, to) == n
    decreases n
  {
    if n > 0 {
      assert answers == [answers[0]] + answers[1..];
      AllAllowedFirst(answers[0], answers[1..]);
      AllAreAllowedIn(l, answers[1..], now, n - 1, from, to);
      assert AtOnce(now, n)[1..] == AtOnce(now, n - 1);
    }
  }

  lemma {:induction false} AllowedConcat(a: seq<Answer>, x: seq<real>, b: seq<Answer>, y: seq<real>, from: real, to: real)
    requires |a| == |x| && |b| == |y|
    ensures AllowedIn(a + b, x + y, from, to) == AllowedIn(a, x, from, to) + AllowedIn(b, y, from, to)
  {
    if x == [] {
      assert a + b == b && x + y == y;
    } else {
      assert (a + b)[1..] == a[1..] + b && (x + y)[1..] == x[1..] + y;
      AllowedConcat(a[1..], x[1..], b, y, from, to);
    }
  }

  lemma BackDiffers(a: seq<Answer>, b: seq<Answer>, c: seq<Answer>, d: seq<Answer>)
    requires |a| == |c| && b != d
    ensures a + b != c + d
  {
    assert (a + b)[|a|..] == b && (c + d)[|c|..] == d;
  }

  /** A new bucket allows the burst, and one that was spent does not yet. */
  lemma BurstsDiffer(l: Limits, back: real)
    requires Proper(l) && back > 0.0 && Earned(l, back) < l.burst as real
    ensures Alone(l, None, AtOnce(back, l.burst)) != Alone(l, After(l, None, AtOnce(0.0, l.burst)), AtOnce(back, l.burst))
  {
    var unused, fresh_ := NewBucket(l, 0.0), NewBucket(l, back);
    NewIsSound(l, 0.0);
    NewIsSound(l, back);
    BurstIsSpent(l, unused, 0.0, l.burst);
    assert After(l, None, AtOnce(0.0, l.burst)) == After(l, Some(unused), AtOnce(0.0, l.burst));
    assert Alone(l, None, AtOnce(back, l.burst)) == Alone(l, Some(fresh_), AtOnce(back, l.burst));
    var b := After(l, Some(unused), AtOnce(0.0, l.burst)).value;
    EarnedInOrder(l, 0.0, 0.0);
    assert TokensAt(l, b, back) == MinReal(l.burst as real, Earned(l, back));
    HoldsItsTokens(l, fresh_, back, l.burst);
    HoldsItsTokens(l, b, back, l.burst);
  }

  /** In every run without evictions, every client is answered as by a map without bounds. */
  ghost predicate SweepsAreInvisible(l: Limits)
    requires l.rps > 0.0
  {
    forall takes, start, key ::
      LegalRun(l, Empty(), takes, start) && OnlySweeps(takes) ==> AnsweredAsAlone(l, takes, key)
  }

  /** What the rate earns while a client that returns has been away, at the least. */
  function EarnedAway(l: Limits): real {
    if l.perShard == 1 then 2.0 * Earned(l, l.idleTTL) else Earned(l, l.idleTTL)
  }

  /** Idle sweeps are invisible exactly when the rate refills the burst in the idle time,
      or in twice that where a shard has room for one client only. Nothing validates it. */
  lemma SweepsAreInvisibleIff(l: Limits)
    requires Proper(l)
    ensures SweepsAreInvisible(l) <==> EarnedAway(l) >= l.burst as real
  {
    if EarnedAway(l) >= l.burst as real {
      forall takes, start, key | LegalRun(l, Empty(), takes, start) && OnlySweeps(takes)
        ensures AnsweredAsAlone(l, takes, key)
      {
        if l.perShard == 1 {
          LoneIsIsolated(l, Empty(), takes, key, None, start);
        } else {
          IdleSweepsAreInvisible(l, takes, start, key);
        }
      }
    } else {
      var now := TooSoon(l);
      SweepShows(l, now, Return(l, now), None);
      ShowingVictims(l, now, Return(l, now), None);
    }
  }

  lemma TooSoon(l: Limits) returns (now: real)
    requires Proper(l) && EarnedAway(l) < l.burst as real
    ensures now > l.idleTTL && Earned(l, Return(l, now)) < l.burst as real
  {
    var more := (l.burst as real - EarnedAway(l)) / l.rps / 4.0;
    now := l.idleTTL + more;
    EarnedAdds(l, l.idleTTL, more);
    EarnedAdds(l, now, now);
    assert Earned(l, more) == (l.burst as real - EarnedAway(l)) / 4.0;
    assert more > 0.0;
  }

  lemma {:induction false} RepeatsOnlySweep(key: string, now: real, n: nat)
    ensures OnlySweeps(Repeats(key, now, n))
  {
    if n > 0 { RepeatsOnlySweep(key, now, n - 1); }
  }

  lemma {:induction false} FillersOnlySweep(i: nat, n: nat)
    ensures OnlySweeps(Fillers(i, n))
    decreases n
  {
    if n > 0 { FillersOnlySweep(i + 1, n - 1); }
  }

  /** The run evicts no more than it says. */
  lemma ShowingVictims(l: Limits, now: real, back: real, victim: Option<string>)
    requires Proper(l) && Returns(l, now, back, victim)
    ensures NeverVictim(Showing(l, now, back, victim), Name(0))
    ensures victim.None? ==> OnlySweeps(Showing(l, now, back, victim))
  {
    RepeatsOnlySweep(Name(0), 0.0, l.burst - 1);
    RepeatsOnlySweep(Name(0), back, l.burst - 1);
    FillersOnlySweep(1, l.perShard - 1);
    assert Name(1) != Name(0);
  }

  // ------------------------------------------------------------------
  // What a client that is never evicted can rely on
  // ------------------------------------------------------------------

  /** In a window of a run, the client is allowed at most the burst and what the rate adds. */
  ghost predicate KeepsBound(l: Limits, takes: seq<Take>, key: string, from: real, to: real)
    requires l.rps > 0.0
  {
    AllowedIn(AnswersTo(l, Empty(), takes, key), TimesOf(takes, key), from, to) as real
    <= l.burst as real + Earned(l, to - from)
  }

  /** The window bound, for every client that is never evicted, in every run. */
  ghost predicate BoundHolds(l: Limits)
    requires l.rps > 0.0
  {
    forall takes, start, key, from, to ::
      LegalRun(l, Empty(), takes, start) && NeverVictim(takes, key) && from <= to ==> KeepsBound(l, takes, key, from, to)
  }

  /** Every client that is never evicted is answered as by a map without bounds, in every run. */
  ghost predicate IsolationHolds(l: Limits)
    requires l.rps > 0.0
  {
    forall takes, start, key ::
      LegalRun(l, Empty(), takes, start) && NeverVictim(takes, key) ==> AnsweredAsAlone(l, takes, key)
  }

  /** A run in which a client that is never evicted gets too much, if the rate does not
      refill the burst in the idle time. */
  lemma UnevictedShows(l: Limits) returns (takes: seq<Take>, back: real)
    requires Proper(l) && Earned(l, l.idleTTL) < l.burst as real
    ensures LegalRun(l, Empty(), takes, 0.0) && NeverVictim(takes, Name(0)) && 0.0 <= back
    ensures !AnsweredAsAlone(l, takes, Name(0)) && !KeepsBound(l, takes, Name(0), 0.0, back)
  {
    var more := (l.burst as real - Earned(l, l.idleTTL)) / l.rps / 2.0;
    var victim := if l.perShard == 1 then Some(Name(1)) else None;
    back := l.idleTTL + more;
    EarnedAdds(l, l.idleTTL, more);
    assert Earned(l, more) == (l.burst as real - Earned(l, l.idleTTL)) / 2.0;
    assert more > 0.0;
    takes := Showing(l, back, back, victim);
    SweepShows(l, back, back, victim);
    ShowingVictims(l, back, back, victim);
  }

  /** The bound on any window holds for all clients that are never evicted exactly when the
      rate refills the burst within the idle time. */
  lemma WindowBoundIff(l: Limits)
    requires Proper(l)
    ensures BoundHolds(l) <==> Earned(l, l.idleTTL) >= l.burst as real
  {
    if Earned(l, l.idleTTL) >= l.burst as real {
      forall takes, start, key, from, to | LegalRun(l, Empty(), takes, start) && NeverVictim(takes, key) && from <= to
        ensures KeepsBound(l, takes, key, from, to)
      {
        RefilledIsUndisturbed(l, Empty(), takes, key);
        WindowBound(l, Empty(), takes, key, start, from, to);
      }
    } else {
      var takes, back := UnevictedShows(l);
    }
  }

  /** And so does their isolation from the others. */
  lemma ClientsAreIsolatedIff(l: Limits)
    requires Proper(l)
    ensures IsolationHolds(l) <==> Earned(l, l.idleTTL) >= l.burst as real
  {
    if Earned(l, l.idleTTL) >= l.burst as real {
      forall takes, start, key | LegalRun(l, Empty(), takes, start) && NeverVictim(takes, key)
        ensures AnsweredAsAlone(l, takes, key)
      {
        RefilledIsUndisturbed(l, Empty(), takes, key);
        ClientsAreIsolated(l, Empty(), takes, key, None, start);
      }
    } else {
      var takes, back := UnevictedShows(l);
    }
  }

  // ------------------------------------------------------------------
  // Who is removed, and when
  // ------------------------------------------------------------------

  /** A take sweeps exactly if its client is new, the shard is full, and the last sweep is at
      least a tenth of the idle time ago. */
  ghost predicate TakeSweeps(l: Limits, s: ShardState, take: Take) {
    && take.key !in s.clients && |s.clients| >= l.perShard
    && (s.lastSweep.Some? ==> 10.0 * (take.now - s.lastSweep.value) >= l.idleTTL)
  }

  /** Another client is removed by a take exactly if it is evicted, or if the take sweeps and it
      has not been seen for longer than the idle time; else its bucket stays as it is. */
  lemma OthersStayOrGo(l: Limits, s: ShardState, take: Take, key: string)
    requires Proper(l) && LegalVictim(l, s, take.key, take.now, take.victim)
    requires key in s.clients && key != take.key
    ensures key !in Next(l, s, take).clients <==>
              take.victim == Some(key) || (TakeSweeps(l, s, take) && take.now - s.clients[key].lastSeen > l.idleTTL)
    ensures key in Next(l, s, take).clients ==> Next(l, s, take).clients[key] == s.clients[key]
    ensures Next(l, s, take).lastSweep == if TakeSweeps(l, s, take) then Some(take.now) else s.lastSweep
  {
  }

  // ------------------------------------------------------------------
  // When limiting starts
  // ------------------------------------------------------------------

  /** Whether limiting is reported to start at a denial that follows on an allowed take, or on
      none, and nowhere else; denied tells about the take before the first. */
  predicate StartsAt(answers: seq<Answer>, denied: bool, i: nat)
    requires i < |answers|
  {
    answers[i].startedLimiting <==> !answers[i].allowed && !(if i == 0 then denied else !answers[i - 1].allowed)
  }

  ghost predicate StartsAreFirst(answers: seq<Answer>, denied: bool) {
    forall i :: 0 <= i < |answers| ==> StartsAt(answers, denied, i)
  }

  lemma StartsPrepend(a: Answer, rest: seq<Answer>, denied: bool)
    requires a.startedLimiting <==> !a.allowed && !denied
    requires StartsAreFirst(rest, !a.allowed)
    ensures StartsAreFirst([a] + rest, denied)
  {
    var all := [a] + rest;
    forall i | 0 <= i < |all|
      ensures StartsAt(all, denied, i)
    {
      if i > 0 {
        assert StartsAt(rest, !a.allowed, i - 1);
        assert all[i] == rest[i - 1] && all[i - 1] == if i == 1 then a else rest[i - 2];
      }
    }
  }

  lemma NewcomerIsAllowed(l: Limits, s: ShardState, take: Take)
    requires Proper(l) && take.key !in s.clients
    ensures TakeAnswer(l, s, take.key, take.now, take.victim).allowed
  {
    EarnedInOrder(l, 0.0, 0.0);
  }

  lemma {:induction false} StartsOnce(l: Limits, s: ShardState, takes: seq<Take>, key: string, denied: bool)
    requires Proper(l) && (key in s.clients ==> s.clients[key].limited == denied)
    ensures StartsAreFirst(AnswersTo(l, s, takes, key), denied)
    decreases |takes|
  {
    if takes != [] {
      var take := takes[0];
      var next := Next(l, s, take);
      if take.key == key {
        var a := TakeAnswer(l, s, key, take.now, take.victim);
        if key !in s.clients { NewcomerIsAllowed(l, s, take); }
        StartsOnce(l, next, takes[1..], key, !a.allowed);
        StartsPrepend(a, AnswersTo(l, next, takes[1..], key), denied);
      } else {
        StartsOnce(l, next, takes[1..], key, denied);
        assert AnswersTo(l, s, takes, key) == AnswersTo(l, next, takes[1..], key);
      }
    }
  }

  /** In every run, with whatever sweeps and evictions, a client is reported to start being limited
      exactly at a denial whose previous take, if any, was allowed. */
  lemma LimitingStartsOnce(l: Limits, takes: seq<Take>, key: string, i: nat)
    requires Proper(l) && i < |AnswersTo(l, Empty(), takes, key)|
    ensures
      var a := AnswersTo(l, Empty(), takes, key);
      a[i].startedLimiting <==> !a[i].allowed && (i == 0 || a[i - 1].allowed)
  {
    StartsOnce(l, Empty(), takes, key, false);
    assert StartsAt(AnswersTo(l, Empty(), takes, key), false, i);
  }

  // ------------------------------------------------------------------
  // The retry time, in a run
  // ------------------------------------------------------------------

  /** What the i-th take of a run is answered. */
  function AnswerAt(l: Limits, s: ShardState, takes: seq<Take>, i: nat): Answer
    requires l.rps > 0.0 && i < |takes|
    decreases i
  {
    if i == 0 then TakeAnswer(l, s, takes[0].key, takes[0].now, takes[0].victim)
    else AnswerAt(l, Next(l, s, takes[0]), takes[1..], i - 1)
  }

  ghost predicate AllSound(l: Limits, s: ShardState, now: real) {
    forall x :: x in s.clients ==> Sound(l, s.clients[x], now)
  }

  lemma AdmittedIsSound(l: Limits, s: ShardState, take: Take, now: real)
    requires Proper(l) && AllSound(l, s, now) && now <= take.now
    ensures Sound(l, Admitted(l, s, take.key, take.now, take.victim).clients[take.key], take.now)
    ensures AllSound(l, Next(l, s, take), take.now)
  {
    var b := Admitted(l, s, take.key, take.now, take.victim).clients[take.key];
    NewIsSound(l, take.now);
    assert b.lastSeen == take.now && b.(lastSeen := take.now) == b;
    TakenIsSound(l, b, take.now);
  }

  /** A bucket that allows a take by some time still does after the takes of others, even
      if it is swept or evicted meanwhile. */
  lemma {:induction false} OthersDoNotDeny(l: Limits, s: ShardState, takes: seq<Take>, now: real, b: Bucket, j: nat)
    requires Proper(l) && j < |takes| && LegalRun(l, s, takes, now)
    requires BucketOf(s, takes[j].key) in {None, Some(b)} && Allows(l, b, takes[j].now)
    requires forall m :: 0 <= m < j ==> takes[m].key != takes[j].key
    ensures AnswerAt(l, s, takes, j).allowed
    decreases j
  {
    if j == 0 {
      EarnedInOrder(l, 0.0, 0.0);
    } else {
      var rest := takes[1..];
      assert rest[j - 1] == takes[j] && takes[0].key != takes[j].key;
      assert forall m :: 0 <= m < j - 1 ==> rest[m] == takes[m + 1];
      OthersDoNotDeny(l, Next(l, s, takes[0]), rest, takes[0].now, b, j - 1);
    }
  }

  lemma {:induction false} RetryHolds(l: Limits, s: ShardState, takes: seq<Take>, now: real, i: nat, j: nat)
    requires Proper(l) && AllSound(l, s, now) && LegalRun(l, s, takes, now) && i < j < |takes|
    requires takes[j].key == takes[i].key && forall m :: i < m < j ==> takes[m].key != takes[i].key
    requires !AnswerAt(l, s, takes, i).allowed
    requires takes[j].now >= takes[i].now + AnswerAt(l, s, takes, i).retryAfter as real
    ensures AnswerAt(l, s, takes, j).allowed
    decreases i
  {
    var take, rest := takes[0], takes[1..];
    AdmittedIsSound(l, s, take, now);
    assert rest[j - 1] == takes[j];
    assert forall m :: 0 <= m < j - 1 ==> rest[m] == takes[m + 1];
    if i == 0 {
      var b := Admitted(l, s, take.key, take.now, take.victim).clients[take.key];
      var retry := AnswerOf(l, b, take.now).retryAfter;
      RetryIsExact(l, b, take.now);
      TokensLater(l, Taken(l, b, take.now), take.now + retry as real, takes[j].now);
      OthersDoNotDeny(l, Next(l, s, take), rest, take.now, Taken(l, b, take.now), j - 1);
    } else {
      assert rest[i - 1] == takes[i];
      RetryHolds(l, Next(l, s, take), rest, take.now, i - 1, j - 1);
    }
  }

  /** In every run, with whatever evictions, the next take of a client that was denied is
      allowed if it keeps to the retry time. */
  lemma RetryIsHonoured(l: Limits, takes: seq<Take>, start: real, i: nat, j: nat)
    requires Proper(l) && LegalRun(l, Empty(), takes, start) && i < j < |takes|
    requires takes[j].key == takes[i].key && forall m :: i < m < j ==> takes[m].key != takes[i].key
    requires !AnswerAt(l, Empty(), takes, i).allowed
    requires takes[j].now >= takes[i].now + AnswerAt(l, Empty(), takes, i).retryAfter as real
    ensures AnswerAt(l, Empty(), takes, j).allowed
  {
    RetryHolds(l, Empty(), takes, start, i, j);
  }
}
