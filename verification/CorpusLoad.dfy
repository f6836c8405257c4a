/**
 Shared corpus loads, from pkg/registry/docs/docs_corpus.go: callers that ask for the
 same key join one load, slots bound the loads under way across the client, and
 loads that keep timing out are remembered as failed.

 The protocol is a state machine. A step is one critical section of one goroutine,
 so its runs are the interleavings of callers and loads.
 */
module CorpusLoad {
  import opened Sequences

  const SHARD_CONCURRENCY: nat := 4
  const MAX_CONSECUTIVE_TIMEOUTS: nat := 3

  type Key = string
  type Caller = nat
  type Value = nat  // which manifest or shard was parsed

  // ------------------------------------------------------------------
  // Counting timeouts
  // ------------------------------------------------------------------

  type Counts = map<Key, nat>

  function CountOf(counts: Counts, key: Key): nat {
    if key in counts then counts[key] else 0
  }

  /** Whether a timeout of the key is one too many. */
  predicate IsLast(counts: Counts, key: Key) {
    CountOf(counts, key) + 1 >= MAX_CONSECUTIVE_TIMEOUTS
  }

  function Noted(counts: Counts, key: Key): Counts {
    if IsLast(counts, key) then counts - {key} else counts[key := CountOf(counts, key) + 1]
  }

  function Cleared(counts: Counts, key: Key): Counts {
    counts - {key}
  }

  class TimeoutCounter {
    var timeouts: Counts

    constructor ()
      ensures timeouts == map[]
    {
      timeouts := map[];
    }

    method NoteTimeout(key: Key) returns (cacheFailure: bool)
      modifies this
      ensures cacheFailure == IsLast(old(timeouts), key)
      ensures timeouts == Noted(old(timeouts), key)
    {
      timeouts := timeouts[key := (if key in timeouts then timeouts[key] else 0) + 1];
      if timeouts[key] < MAX_CONSECUTIVE_TIMEOUTS {
        return false;
      }
      timeouts := timeouts - {key};
      return true;
    }

    method ClearTimeouts(key: Key)
      modifies this
      ensures timeouts == Cleared(old(timeouts), key)
    {
      timeouts := timeouts - {key};
    }
  }

  // ------------------------------------------------------------------
  // The protocol
  // ------------------------------------------------------------------

  datatype Outcome = Loaded(value: Value) | HardError | TimedOut

  /** Where a load is. From Loading to Releasing it holds a slot. */
  datatype Phase =
    | Starting
    | Waiting
    | Loading
    | Noting
    | Clearing(value: Value)
    | Storing(entry: Option<Value>)
    | Releasing(result: Option<Value>)
    | Done(result: Option<Value>)

  predicate Holds(p: Phase) {
    !p.Starting? && !p.Waiting? && !p.Done?
  }

  /** A caller awaits a key's load, until it is given its result or gives up with none. */
  datatype Waiter = Awaits(key: Key) | Given(key: Key, result: Option<Value>)

  /** cache holds None for a key that is negatively cached. log has, for each key,
      what its loads came to, in the order in which that was recorded. */
  datatype State = State(
    cache: map<Key, Option<Value>>,
    flights: map<Key, Phase>,
    callers: map<Caller, Waiter>,
    slots: nat,
    timeouts: Counts,
    log: map<Key, seq<Outcome>>)

  function Initial(): State {
    State(map[], map[], map[], 0, map[], map[])
  }

  datatype Step =
    | Join(caller: Caller, key: Key)        // a caller missed the cache
    | Leave(caller: Caller)                 // a caller's context is done
    | Forget(key: Key)                      // a cache entry expires or is evicted
    | Look(key: Key)                        // the load looks in the cache again
    | Acquire(key: Key)
    | GiveUp(key: Key)                      // the load's deadline passes before a slot is free
    | Finish(key: Key, outcome: Outcome)
    | Note(key: Key)
    | Clear(key: Key)
    | Store(key: Key)
    | Release(key: Key)
    | Deliver(key: Key)

  predicate Enabled(s: State, step: Step) {
    match step
    case Join(c, _) => c !in s.callers
    case Leave(c) => c in s.callers && s.callers[c].Awaits?
    case Forget(k) => k in s.cache
    case Look(k) => k in s.flights && s.flights[k].Starting?
    case Acquire(k) => k in s.flights && s.flights[k].Waiting? && s.slots < SHARD_CONCURRENCY
    case GiveUp(k) => k in s.flights && s.flights[k].Waiting?
    case Finish(k, _) => k in s.flights && s.flights[k].Loading?
    case Note(k) => k in s.flights && s.flights[k].Noting?
    case Clear(k) => k in s.flights && s.flights[k].Clearing?
    case Store(k) => k in s.flights && s.flights[k].Storing?
    case Release(k) => k in s.flights && s.flights[k].Releasing? && s.slots > 0
    case Deliver(k) => k in s.flights && s.flights[k].Done?
  }

  function LogOf(s: State, key: Key): seq<Outcome> {
    if key in s.log then s.log[key] else []
  }

  function Logged(s: State, key: Key, outcome: Outcome): map<Key, seq<Outcome>> {
    s.log[key := LogOf(s, key) + [outcome]]
  }

  function To(s: State, key: Key, phase: Phase): State {
    s.(flights := s.flights[key := phase])
  }

  /** Every caller that still waits for the key is given its load's result. */
  function Served(callers: map<Caller, Waiter>, key: Key, result: Option<Value>): map<Caller, Waiter> {
    map c | c in callers :: if callers[c] == Awaits(key) then Given(key, result) else callers[c]
  }

  function Next(s: State, step: Step): State
    requires Enabled(s, step)
  {
    match step
    case Join(c, k) =>
      var joined := s.(callers := s.callers[c := Awaits(k)]);
      if k in s.flights then joined else To(joined, k, Starting)
    case Leave(c) => s.(callers := s.callers[c := Given(s.callers[c].key, None)])
    case Forget(k) => s.(cache := s.cache - {k})
    case Look(k) => To(s, k, if k in s.cache then Done(s.cache[k]) else Waiting)
    case Acquire(k) => To(s.(slots := s.slots + 1), k, Loading)
    case GiveUp(k) => To(s, k, Done(None))
    case Finish(k, outcome) =>
      (match outcome
       case Loaded(v) => To(s, k, Clearing(v))
       case HardError => To(s.(log := Logged(s, k, HardError)), k, Storing(None))
       case TimedOut => To(s, k, Noting))
    case Note(k) =>
      To(s.(timeouts := Noted(s.timeouts, k), log := Logged(s, k, TimedOut)),
         k, if IsLast(s.timeouts, k) then Storing(None) else Releasing(None))
    case Clear(k) =>
      var v := s.flights[k].value;
      To(s.(timeouts := Cleared(s.timeouts, k), log := Logged(s, k, Loaded(v))), k, Storing(Some(v)))
    case Store(k) =>
      var entry := s.flights[k].entry;
      To(s.(cache := s.cache[k := entry]), k, Releasing(entry))
    case Release(k) => To(s.(slots := s.slots - 1), k, Done(s.flights[k].result))
    case Deliver(k) =>
      s.(flights := s.flights - {k}, callers := Served(s.callers, k, s.flights[k].result))
  }

  ghost predicate Legal(s: State, steps: seq<Step>)
    decreases |steps|
  {
    steps == [] || (Enabled(s, steps[0]) && Legal(Next(s, steps[0]), steps[1..]))
  }

  function Run(s: State, steps: seq<Step>): State
    requires Legal(s, steps)
    decreases |steps|
  {
    if steps == [] then s else Run(Next(s, steps[0]), steps[1..])
  }

  // ------------------------------------------------------------------
  // What every interleaving keeps
  // ------------------------------------------------------------------

  /** The keys whose load holds a slot. */
  function Holding(flights: map<Key, Phase>): set<Key> {
    set k | k in flights && Holds(flights[k])
  }

  /** The timeouts in a log since the last load that succeeded. */
  function SinceSuccess(log: seq<Outcome>): nat {
    if log == [] then 0
    else
      var last := log[|log| - 1];
      if last.Loaded? then 0
      else SinceSuccess(log[..|log| - 1]) + (if last.TimedOut? then 1 else 0)
  }

  ghost predicate Inv(s: State) {
    && s.slots == |Holding(s.flights)|
    && s.slots <= SHARD_CONCURRENCY
    && (forall c :: c in s.callers && s.callers[c].Awaits? ==> s.callers[c].key in s.flights)
    && (forall k :: Counted(s, k))
  }

  lemma SinceSuccessNext(log: seq<Outcome>, outcome: Outcome)
    ensures SinceSuccess(log + [outcome])
            == if outcome.Loaded? then 0 else SinceSuccess(log) + (if outcome.TimedOut? then 1 else 0)
  {
    assert (log + [outcome])[..|log|] == log;
  }

  /** Moving a load to another phase changes who holds a slot by at most that load. */
  lemma HoldingMoved(flights: map<Key, Phase>, k: Key, phase: Phase)
    ensures |Holding(flights[k := phase])|
            == |Holding(flights)| + (if Holds(phase) then 1 else 0) - (if k in flights && Holds(flights[k]) then 1 else 0)
  {
    HoldingAt(flights, k);
    HoldingAt(flights[k := phase], k);
    assert Holding(flights) - {k} == Holding(flights[k := phase]) - {k};
  }

  lemma HoldingAt(flights: map<Key, Phase>, k: Key)
    ensures |Holding(flights)| == |Holding(flights) - {k}| + (if k in flights && Holds(flights[k]) then 1 else 0)
  {
    if k in flights && Holds(flights[k]) {
      assert Holding(flights) == Holding(flights) - {k} + {k};
    } else {
      assert Holding(flights) == Holding(flights) - {k};
    }
  }

  lemma HoldingRemoved(flights: map<Key, Phase>, k: Key)
    requires k in flights && !Holds(flights[k])
    ensures Holding(flights - {k}) == Holding(flights)
  {
  }

  lemma StepKeepsSlots(s: State, step: Step)
    requires Inv(s) && Enabled(s, step)
    ensures Next(s, step).slots == |Holding(Next(s, step).flights)| <= SHARD_CONCURRENCY
  {
    if step.Deliver? {
      HoldingRemoved(s.flights, step.key);
    } else if !step.Leave? && !step.Forget? && !(step.Join? && step.key in s.flights) {
      HoldingMoved(s.flights, step.key, Next(s, step).flights[step.key]);
    }
  }

  lemma StepKeepsCallers(s: State, step: Step)
    requires Inv(s) && Enabled(s, step)
    ensures
      var next := Next(s, step);
      forall c :: c in next.callers && next.callers[c].Awaits? ==> next.callers[c].key in next.flights
  {
  }

  /** The counter of a key agrees with its log. */
  ghost predicate Counted(s: State, k: Key) {
    CountOf(s.timeouts, k) == SinceSuccess(LogOf(s, k)) % MAX_CONSECUTIVE_TIMEOUTS
  }

  /** What a step adds to the log of its key. */
  function LoggedBy(s: State, step: Step): Option<Outcome>
    requires Enabled(s, step)
  {
    if step.Note? then Some(TimedOut)
    else if step.Clear? then Some(Loaded(s.flights[step.key].value))
    else if step.Finish? && step.outcome.HardError? then Some(HardError)
    else None
  }

  lemma StepLogs(s: State, step: Step, k: Key)
    requires Enabled(s, step)
    ensures
      var next, outcome := Next(s, step), LoggedBy(s, step);
      if outcome.Some? && step.key == k then
        && LogOf(next, k) == LogOf(s, k) + [outcome.value]
        && CountOf(next.timeouts, k)
           == if outcome.value.TimedOut? then (if IsLast(s.timeouts, k) then 0 else CountOf(s.timeouts, k) + 1)
              else if outcome.value.Loaded? then 0 else CountOf(s.timeouts, k)
      else LogOf(next, k) == LogOf(s, k) && CountOf(next.timeouts, k) == CountOf(s.timeouts, k)
  {
  }

  lemma Recount(count: nat, log: seq<Outcome>, outcome: Outcome)
    requires count == SinceSuccess(log) % MAX_CONSECUTIVE_TIMEOUTS
    ensures SinceSuccess(log + [outcome]) % MAX_CONSECUTIVE_TIMEOUTS
            == if outcome.TimedOut? then (if count + 1 >= MAX_CONSECUTIVE_TIMEOUTS then 0 else count + 1)
               else if outcome.Loaded? then 0 else count
  {
    SinceSuccessNext(log, outcome);
  }

  lemma StepKeepsCount(s: State, step: Step, k: Key)
    requires Counted(s, k) && Enabled(s, step)
    ensures Counted(Next(s, step), k)
  {
    StepLogs(s, step, k);
    var next, outcome := Next(s, step), LoggedBy(s, step);
    if outcome.Some? && step.key == k {
      Recount(CountOf(s.timeouts, k), LogOf(s, k), outcome.value);
      assert Counted(next, k);
    } else {
      assert Counted(next, k);
    }
  }

  lemma StepKeepsInv(s: State, step: Step)
    requires Inv(s) && Enabled(s, step)
    ensures Inv(Next(s, step))
  {
    StepKeepsSlots(s, step);
    StepKeepsCallers(s, step);
    forall k ensures Counted(Next(s, step), k) { StepKeepsCount(s, step, k); }
  }

  /** What holds initially holds after every run. */
  lemma {:induction false} RunKeepsInv(s: State, steps: seq<Step>)
    requires Inv(s) && Legal(s, steps)
    ensures Inv(Run(s, steps))
    decreases |steps|
  {
    if steps != [] {
      StepKeepsInv(s, steps[0]);
      RunKeepsInv(Next(s, steps[0]), steps[1..]);
    }
  }

  ghost predicate Reaches(steps: seq<Step>, s: State) {
    Legal(Initial(), steps) && Run(Initial(), steps) == s
  }

  /** The states that some interleaving of callers and loads leads to. */
  ghost predicate Reachable(s: State) {
    exists steps :: Reaches(steps, s)
  }

  lemma InitiallyInv()
    ensures Inv(Initial())
  {
    assert Holding(Initial().flights) == {};
    forall k ensures Counted(Initial(), k) {
      assert LogOf(Initial(), k) == [];
    }
  }

  /** In every interleaving the slots taken are the loads that hold one, and at most the
      maximum; every caller waits for a load under way; and a key's counter is that of
      its timeouts since its last success, starting again after each third. */
  lemma ReachableKeepsInv(s: State)
    requires Reachable(s)
    ensures s.slots == |Holding(s.flights)| <= SHARD_CONCURRENCY
    ensures forall c :: c in s.callers && s.callers[c].Awaits? ==> s.callers[c].key in s.flights
    ensures forall k :: CountOf(s.timeouts, k) == SinceSuccess(LogOf(s, k)) % MAX_CONSECUTIVE_TIMEOUTS
    ensures Inv(s)
  {
    var steps :| Reaches(steps, s);
    InitiallyInv();
    RunKeepsInv(Initial(), steps);
    forall k ensures CountOf(s.timeouts, k) == SinceSuccess(LogOf(s, k)) % MAX_CONSECUTIVE_TIMEOUTS {
      assert Counted(s, k);
    }
  }

  // ------------------------------------------------------------------
  // When a timeout is remembered as a failure
  // ------------------------------------------------------------------

  /** A timeout is cached as a failure exactly if, counting it, the timeouts since the
      last load that succeeded come to a multiple of three; otherwise the load goes on
      to return its slot with nothing cached. */
  lemma ThirdTimeoutIsCached(s: State, key: Key)
    requires Reachable(s) && Enabled(s, Note(key))
    ensures
      var next := Next(s, Note(key));
      if (SinceSuccess(LogOf(s, key)) + 1) % MAX_CONSECUTIVE_TIMEOUTS == 0
      then next.flights[key] == Storing(None) && Next(next, Store(key)).cache == s.cache[key := None]
      else next.flights[key] == Releasing(None)
  {
    ReachableKeepsInv(s);
    assert Counted(s, key);
  }

  /** A hard error is cached as a failure, and neither counts as a timeout nor clears
      the count. */
  lemma HardErrorIsCached(s: State, key: Key)
    requires Enabled(s, Finish(key, HardError))
    ensures
      var next := Next(s, Finish(key, HardError));
      && next.flights[key] == Storing(None) && Next(next, Store(key)).cache == s.cache[key := None]
      && next.timeouts == s.timeouts
      && SinceSuccess(LogOf(next, key)) == SinceSuccess(LogOf(s, key))
  {
    SinceSuccessNext(LogOf(s, key), HardError);
  }

  // ------------------------------------------------------------------
  // Loads do not depend on their callers
  // ------------------------------------------------------------------

  /** The loads alone: everything but who is waiting for them, and who was. */
  function Loads(s: State): State {
    s.(callers := map[])
  }

  predicate LoadEnabled(s: State, step: Step) {
    step.Join? || step.Leave? || Enabled(s, step)
  }

  /** A step as the loads see it: a caller only ever starts one. */
  function LoadNext(s: State, step: Step): State
    requires LoadEnabled(s, step)
  {
    match step
    case Join(_, k) => if k in s.flights then s else To(s, k, Starting)
    case Leave(_) => s
    case _ => Next(s, step)
  }

  ghost predicate LoadLegal(s: State, steps: seq<Step>)
    decreases |steps|
  {
    steps == [] || (LoadEnabled(s, steps[0]) && LoadLegal(LoadNext(s, steps[0]), steps[1..]))
  }

  function LoadRun(s: State, steps: seq<Step>): State
    requires LoadLegal(s, steps)
    decreases |steps|
  {
    if steps == [] then s else LoadRun(LoadNext(s, steps[0]), steps[1..])
  }

  lemma StepIgnoresCallers(s: State, step: Step)
    requires Enabled(s, step)
    ensures LoadEnabled(Loads(s), step) && Loads(Next(s, step)) == LoadNext(Loads(s), step)
  {
    if step.Deliver? {
      assert Next(Loads(s), step).callers == map[];
    } else if !step.Join? && !step.Leave? {
      TurnIgnoresCallers(s, step);
    }
  }

  lemma TurnIgnoresCallers(s: State, step: Step)
    requires Enabled(s, step) && !step.Join? && !step.Leave? && !step.Deliver?
    ensures Enabled(Loads(s), step) && Loads(Next(s, step)) == Next(Loads(s), step)
  {
    if step.Note? || step.Clear? || step.Store? || step.Release? {
      EndingIgnoresCallers(s, step);
    } else {
      StartIgnoresCallers(s, step);
    }
  }

  lemma EndingIgnoresCallers(s: State, step: Step)
    requires Enabled(s, step) && (step.Note? || step.Clear? || step.Store? || step.Release?)
    ensures Enabled(Loads(s), step) && Loads(Next(s, step)) == Next(Loads(s), step)
  {
  }

  lemma StartIgnoresCallers(s: State, step: Step)
    requires Enabled(s, step) && (step.Forget? || step.Look? || step.Acquire? || step.GiveUp? || step.Finish?)
    ensures Enabled(Loads(s), step) && Loads(Next(s, step)) == Next(Loads(s), step)
  {
  }

  /** Slots, loads, cache and counters go the same way whoever is still waiting: the
      loads are a machine of their own, which never looks at the callers. */
  lemma {:induction false} LoadsIgnoreCallers(s: State, steps: seq<Step>)
    requires Legal(s, steps)
    ensures LoadLegal(Loads(s), steps) && Loads(Run(s, steps)) == LoadRun(Loads(s), steps)
    decreases |steps|
  {
    if steps != [] {
      StepIgnoresCallers(s, steps[0]);
      LoadsIgnoreCallers(Next(s, steps[0]), steps[1..]);
    }
  }

  // ------------------------------------------------------------------
  // Every load can finish
  // ------------------------------------------------------------------

  /** How many steps a load still has to take. */
  function Rank(p: Phase): nat {
    match p
    case Starting => 8
    case Waiting => 7
    case Loading => 6
    case Noting => 5
    case Clearing(_) => 5
    case Storing(_) => 4
    case Releasing(_) => 3
    case Done(_) => 2
  }

  /** The next step of a load, if it gets a slot and then an outcome. */
  function Advance(s: State, k: Key, outcome: Outcome): Step
    requires k in s.flights
  {
    match s.flights[k]
    case Starting => Look(k)
    case Waiting => Acquire(k)
    case Loading => Finish(k, outcome)
    case Noting => Note(k)
    case Clearing(_) => Clear(k)
    case Storing(_) => Store(k)
    case Releasing(_) => Release(k)
    case Done(_) => Deliver(k)
  }

  /** A load that holds a slot or can get one. */
  predicate CanMove(s: State, k: Key) {
    k in s.flights && (Holds(s.flights[k]) || s.slots < SHARD_CONCURRENCY)
  }

  lemma AdvanceEnabled(s: State, k: Key, outcome: Outcome)
    requires Inv(s) && CanMove(s, k)
    ensures Enabled(s, Advance(s, k, outcome))
  {
    if Holds(s.flights[k]) { assert k in Holding(s.flights); }
  }

  lemma AdvanceProgresses(s: State, k: Key, outcome: Outcome)
    requires Inv(s) && CanMove(s, k) && Enabled(s, Advance(s, k, outcome))
    ensures
      var next := Next(s, Advance(s, k, outcome));
      if s.flights[k].Done? then next.flights == s.flights - {k}
      else CanMove(next, k) && Rank(next.flights[k]) < Rank(s.flights[k])
           && next.flights == s.flights[k := next.flights[k]]
  {
    var step := Advance(s, k, outcome);
    if !s.flights[k].Done? {
      RankFalls(s, k, outcome);
      MovedTo(s, step, k, Next(s, step).flights[k]);
    }
  }

  lemma RankFalls(s: State, k: Key, outcome: Outcome)
    requires k in s.flights && !s.flights[k].Done? && Enabled(s, Advance(s, k, outcome))
    ensures
      var phase := Next(s, Advance(s, k, outcome)).flights[k];
      && Rank(phase) < Rank(s.flights[k])
      && (Holds(phase) <==> Advance(s, k, outcome).Acquire? || (Holds(s.flights[k]) && !Advance(s, k, outcome).Release?))
  {
    match s.flights[k]
    case Starting => assert Advance(s, k, outcome) == Look(k);
    case Waiting => assert Advance(s, k, outcome) == Acquire(k);
    case Loading => assert Advance(s, k, outcome) == Finish(k, outcome);
    case Noting => assert Advance(s, k, outcome) == Note(k);
    case Clearing(_) => assert Advance(s, k, outcome) == Clear(k);
    case Storing(_) => assert Advance(s, k, outcome) == Store(k);
    case Releasing(_) => assert Advance(s, k, outcome) == Release(k);
  }

  lemma MovedTo(s: State, step: Step, k: Key, phase: Phase)
    requires Enabled(s, step) && !step.Join? && !step.Leave? && !step.Forget? && !step.Deliver? && step.key == k
    requires Next(s, step).flights[k] == phase
    ensures Next(s, step).flights == s.flights[k := phase]
    ensures Next(s, step).slots == s.slots + (if step.Acquire? then 1 else 0) - (if step.Release? then 1 else 0)
  {
  }

  /** Steps of loads that do not wait for a deadline. */
  ghost predicate OwnSteps(steps: seq<Step>) {
    forall i :: 0 <= i < |steps| ==>
      !steps[i].Join? && !steps[i].Leave? && !steps[i].Forget? && !steps[i].GiveUp?
  }

  lemma {:induction false} FinishLoad(s: State, k: Key, outcome: Outcome) returns (steps: seq<Step>)
    requires Inv(s) && CanMove(s, k)
    ensures Legal(s, steps) && OwnSteps(steps)
    ensures Inv(Run(s, steps)) && Run(s, steps).flights == s.flights - {k}
    decreases Rank(s.flights[k])
  {
    var step := Advance(s, k, outcome);
    AdvanceEnabled(s, k, outcome);
    AdvanceProgresses(s, k, outcome);
    StepKeepsInv(s, step);
    var next := Next(s, step);
    if k in next.flights {
      var rest := FinishLoad(next, k, outcome);
      assert next.flights - {k} == s.flights - {k};
      steps := [step] + rest;
      RunPrepend(s, step, rest);
    } else {
      steps := [step] + [];
      RunPrepend(s, step, []);
    }
  }

  lemma RunPrepend(s: State, step: Step, steps: seq<Step>)
    requires Enabled(s, step) && Legal(Next(s, step), steps)
    ensures Legal(s, [step] + steps) && Run(s, [step] + steps) == Run(Next(s, step), steps)
  {
    assert ([step] + steps)[1..] == steps;
  }

  lemma {:induction false} RunConcat(s: State, a: seq<Step>, b: seq<Step>)
    requires Legal(s, a) && Legal(Run(s, a), b)
    ensures Legal(s, a + b) && Run(s, a + b) == Run(Run(s, a), b)
    decreases |a|
  {
    if a == [] {
      assert a + b == b;
    } else {
      assert (a + b)[1..] == a[1..] + b;
      RunConcat(Next(s, a[0]), a[1..], b);
    }
  }

  lemma {:induction false} FinishAll(s: State, outcome: Outcome) returns (steps: seq<Step>)
    requires Inv(s)
    ensures Legal(s, steps) && OwnSteps(steps)
    ensures
      var end := Run(s, steps);
      end.flights == map[] && end.slots == 0 && forall c :: c in end.callers ==> end.callers[c].Given?
    decreases |s.flights.Keys|
  {
    if s.flights == map[] {
      steps := [];
      assert Holding(s.flights) == {};
    } else {
      var k: Key;
      if Holding(s.flights) != {} {
        k :| k in Holding(s.flights);
      } else {
        k :| k in s.flights;
      }
      var first := FinishLoad(s, k, outcome);
      assert k in s.flights.Keys;
      var rest := FinishAll(Run(s, first), outcome);
      steps := first + rest;
      RunConcat(s, first, rest);
    }
  }

  /** From every reachable state a load that holds a slot, or that can get one, can go all
      the way by itself; it then has returned its slot, and no other load has moved. */
  lemma LoadCompletes(s: State, k: Key, outcome: Outcome) returns (steps: seq<Step>)
    requires Reachable(s) && CanMove(s, k)
    ensures Legal(s, steps) && OwnSteps(steps)
    ensures Run(s, steps).flights == s.flights - {k}
    ensures Run(s, steps).slots == |Holding(s.flights) - {k}|
  {
    ReachableKeepsInv(s);
    steps := FinishLoad(s, k, outcome);
    assert Holding(s.flights - {k}) == Holding(s.flights) - {k};
  }

  /** From every reachable state, with whatever outcome, all loads can finish without
      any deadline passing and without any caller: then no slot is taken and nobody
      is left waiting. The slots never deadlock, and abandoned loads return theirs. */
  lemma AllLoadsCanFinish(s: State, outcome: Outcome) returns (steps: seq<Step>)
    requires Reachable(s)
    ensures Legal(s, steps) && OwnSteps(steps)
    ensures
      var end := Run(s, steps);
      end.flights == map[] && end.slots == 0 && forall c :: c in end.callers ==> end.callers[c].Given?
  {
    ReachableKeepsInv(s);
    steps := FinishAll(s, outcome);
  }

  // ------------------------------------------------------------------
  // Every load that is given its turns finishes
  // ------------------------------------------------------------------

  predicate IsTurn(step: Step, k: Key) {
    !step.Join? && !step.Leave? && !step.Forget? && step.key == k
  }

  /** How many steps of a run are those of the key's load. */
  function Turns(steps: seq<Step>, k: Key): nat {
    if steps == [] then 0 else (if IsTurn(steps[0], k) then 1 else 0) + Turns(steps[1..], k)
  }

  /** A load that holds a slot always has a step to take, and so has one that waits while
      a slot is free. */
  lemma LoadIsNotStuck(s: State, k: Key, outcome: Outcome)
    requires Reachable(s) && CanMove(s, k)
    ensures Enabled(s, Advance(s, k, outcome)) && IsTurn(Advance(s, k, outcome), k)
  {
    ReachableKeepsInv(s);
    AdvanceEnabled(s, k, outcome);
  }

  /** Its own steps bring a load nearer its end, and those of others leave it alone. */
  lemma TurnsAdvance(s: State, step: Step, k: Key)
    requires Enabled(s, step) && k in s.flights && step != Deliver(k)
    ensures k in Next(s, step).flights
    ensures if IsTurn(step, k) then Rank(Next(s, step).flights[k]) < Rank(s.flights[k])
            else Next(s, step).flights[k] == s.flights[k]
  {
    if IsTurn(step, k) { OwnTurnAdvances(s, step, k); } else { OthersLeaveAlone(s, step, k); }
  }

  lemma OwnTurnAdvances(s: State, step: Step, k: Key)
    requires Enabled(s, step) && IsTurn(step, k) && !step.Deliver?
    ensures k in Next(s, step).flights && Rank(Next(s, step).flights[k]) < Rank(s.flights[k])
  {
    if step.Note? || step.Clear? || step.Store? || step.Release? {
      LateTurnAdvances(s, step, k);
    } else {
      EarlyTurnAdvances(s, step, k);
    }
  }

  lemma LateTurnAdvances(s: State, step: Step, k: Key)
    requires Enabled(s, step) && (step.Note? || step.Clear? || step.Store? || step.Release?) && step.key == k
    ensures k in Next(s, step).flights && Rank(Next(s, step).flights[k]) < Rank(s.flights[k])
  {
  }

  lemma EarlyTurnAdvances(s: State, step: Step, k: Key)
    requires Enabled(s, step) && (step.Look? || step.Acquire? || step.GiveUp? || step.Finish?) && step.key == k
    ensures k in Next(s, step).flights && Rank(Next(s, step).flights[k]) < Rank(s.flights[k])
  {
  }

  lemma OthersLeaveAlone(s: State, step: Step, k: Key)
    requires Enabled(s, step) && k in s.flights && !IsTurn(step, k)
    ensures k in Next(s, step).flights && Next(s, step).flights[k] == s.flights[k]
  {
  }

  lemma {:induction false} TurnsAreFew(s: State, steps: seq<Step>, k: Key)
    requires Legal(s, steps) && k in s.flights && Deliver(k) !in steps
    ensures k in Run(s, steps).flights
    ensures Turns(steps, k) + Rank(Run(s, steps).flights[k]) <= Rank(s.flights[k])
    decreases |steps|
  {
    if steps != [] {
      TurnsAdvance(s, steps[0], k);
      TurnsAreFew(Next(s, steps[0]), steps[1..], k);
    }
  }

  /** In every run a load delivers its result at the latest with its seventh step, whatever
      comes between and whoever has left. */
  lemma SeventhTurnDelivers(s: State, steps: seq<Step>, k: Key)
    requires Legal(s, steps) && k in s.flights && Turns(steps, k) >= 7
    ensures Deliver(k) in steps
  {
    if Deliver(k) !in steps { TurnsAreFew(s, steps, k); }
  }

  // ------------------------------------------------------------------
  // What callers get
  // ------------------------------------------------------------------

  /** What a load will give its callers, once that is settled. */
  function Settled(p: Phase): Option<Option<Value>> {
    match p
    case Noting => Some(None)
    case Clearing(v) => Some(Some(v))
    case Storing(entry) => Some(entry)
    case Releasing(result) => Some(result)
    case Done(result) => Some(result)
    case _ => None
  }

  /** The steps that settle it. */
  predicate Settles(s: State, step: Step) {
    step.Finish? || step.GiveUp? || (step.Look? && step.key in s.cache)
  }

  /** The value that was loaded, or found in the cache; nothing on a failure or a deadline. */
  function ResultOf(s: State, step: Step): Option<Value>
    requires Settles(s, step)
  {
    if step.Look? then s.cache[step.key]
    else if step.Finish? && step.outcome.Loaded? then Some(step.outcome.value)
    else None
  }

  lemma StepSettles(s: State, step: Step)
    requires Enabled(s, step) && Settles(s, step)
    ensures step.key in Next(s, step).flights && Settled(Next(s, step).flights[step.key]) == Some(ResultOf(s, step))
  {
    if step.Finish? {
      FinishSettles(s, step.key, step.outcome);
    } else {
      assert Next(s, step) == To(s, step.key, Done(ResultOf(s, step)));
    }
  }

  lemma FinishSettles(s: State, k: Key, outcome: Outcome)
    requires Enabled(s, Finish(k, outcome))
    ensures
      var next := Next(s, Finish(k, outcome));
      k in next.flights && Settled(next.flights[k]) == Some(if outcome.Loaded? then Some(outcome.value) else None)
  {
  }

  lemma TurnKeepsSettled(s: State, step: Step, k: Key)
    requires Enabled(s, step) && IsTurn(step, k) && step != Deliver(k) && Settled(s.flights[k]).Some?
    ensures k in Next(s, step).flights && Settled(Next(s, step).flights[k]) == Settled(s.flights[k])
  {
  }

  lemma {:induction false} RunKeepsSettled(s: State, steps: seq<Step>, k: Key)
    requires Legal(s, steps) && Deliver(k) !in steps && k in s.flights && Settled(s.flights[k]).Some?
    ensures k in Run(s, steps).flights && Settled(Run(s, steps).flights[k]) == Settled(s.flights[k])
    decreases |steps|
  {
    if steps != [] {
      if IsTurn(steps[0], k) { TurnKeepsSettled(s, steps[0], k); } else { OthersLeaveAlone(s, steps[0], k); }
      RunKeepsSettled(Next(s, steps[0]), steps[1..], k);
    }
  }

  /** A caller waits on through every step but its own leaving and the delivery of the load it
      waits for, and is given something only by those; what it was given stays. */
  lemma CallerWaitsOn(s: State, step: Step, c: Caller)
    requires Enabled(s, step) && c in s.callers
    ensures c in Next(s, step).callers && Next(s, step).callers[c].key == s.callers[c].key
    ensures Next(s, step).callers[c] != s.callers[c] <==>
              s.callers[c].Awaits? && (step == Leave(c) || step == Deliver(s.callers[c].key))
    ensures s.callers[c].Awaits? && step == Leave(c) ==> Next(s, step).callers[c] == Given(s.callers[c].key, None)
    ensures s.callers[c].Awaits? && step == Deliver(s.callers[c].key) ==>
              Next(s, step).callers[c] == Given(s.callers[c].key, s.flights[s.callers[c].key].result)
  {
  }

  lemma {:induction false} CallerWaitsOut(s: State, steps: seq<Step>, c: Caller, k: Key)
    requires Legal(s, steps) && c in s.callers && s.callers[c] == Awaits(k)
    requires Leave(c) !in steps && Deliver(k) !in steps
    ensures c in Run(s, steps).callers && Run(s, steps).callers[c] == Awaits(k)
    decreases |steps|
  {
    if steps != [] {
      CallerWaitsOn(s, steps[0], c);
      CallerWaitsOut(Next(s, steps[0]), steps[1..], c, k);
    }
  }

  /** In every run, a caller that waits when its load is settled and does not leave is given what
      the load came to: the value it loaded or found in the cache, and nothing on an error, a
      timeout or a deadline that passed before a slot was free. */
  lemma CallersGetTheResult(s: State, step: Step, steps: seq<Step>, c: Caller)
    requires Enabled(s, step) && Settles(s, step) && c in s.callers && s.callers[c] == Awaits(step.key)
    requires Legal(Next(s, step), steps) && Deliver(step.key) !in steps && Leave(c) !in steps
    requires Enabled(Run(Next(s, step), steps), Deliver(step.key))
    ensures
      var end := Next(Run(Next(s, step), steps), Deliver(step.key));
      c in end.callers && end.callers[c] == Given(step.key, ResultOf(s, step))
  {
    StepSettles(s, step);
    CallerWaitsOn(s, step, c);
    CallerWaitsOut(Next(s, step), steps, c, step.key);
    RunKeepsSettled(Next(s, step), steps, step.key);
    CallerWaitsOn(Run(Next(s, step), steps), Deliver(step.key), c);
  }

  /** Whether a load of the key has come to the value. */
  predicate WasLoaded(past: seq<Step>, k: Key, v: Value) {
    Finish(k, Loaded(v)) in past
  }

  /** Whatever value is cached under a key, is about to be given out for it, or was given out for
      it, was loaded by a load of that very key. */
  ghost predicate Sourced(s: State, past: seq<Step>) {
    && (forall k :: k in s.cache && s.cache[k].Some? ==> WasLoaded(past, k, s.cache[k].value))
    && (forall k :: k in s.flights ==> FlightIsSourced(s.flights[k], k, past))
    && (forall c :: c in s.callers && s.callers[c].Given? && s.callers[c].result.Some? ==>
          WasLoaded(past, s.callers[c].key, s.callers[c].result.value))
  }

  predicate FlightIsSourced(p: Phase, k: Key, past: seq<Step>) {
    var r := Settled(p);
    r.Some? && r.value.Some? ==> WasLoaded(past, k, r.value.value)
  }

  lemma FlightGoesOn(s: State, step: Step, past: seq<Step>, k: Key)
    requires Enabled(s, step) && Sourced(s, past) && k in Next(s, step).flights
    ensures FlightIsSourced(Next(s, step).flights[k], k, past + [step])
  {
    if k in s.flights {
      assert FlightIsSourced(s.flights[k], k, past);
      if !IsTurn(step, k) {
        OthersLeaveAlone(s, step, k);
      } else if Settles(s, step) {
        StepSettles(s, step);
      } else if Settled(s.flights[k]).Some? {
        TurnKeepsSettled(s, step, k);
      }
    }
  }

  lemma CacheGoesOn(s: State, step: Step, past: seq<Step>, k: Key)
    requires Enabled(s, step) && Sourced(s, past) && k in Next(s, step).cache && Next(s, step).cache[k].Some?
    ensures WasLoaded(past + [step], k, Next(s, step).cache[k].value)
  {
    if step.Store? && step.key == k {
      assert FlightIsSourced(s.flights[k], k, past);
    }
  }

  lemma CallerGoesOn(s: State, step: Step, past: seq<Step>, c: Caller)
    requires Enabled(s, step) && Sourced(s, past) && c in Next(s, step).callers
    requires Next(s, step).callers[c].Given? && Next(s, step).callers[c].result.Some?
    ensures WasLoaded(past + [step], Next(s, step).callers[c].key, Next(s, step).callers[c].result.value)
  {
    if c in s.callers {
      CallerWaitsOn(s, step, c);
      if step.Deliver? { assert FlightIsSourced(s.flights[step.key], step.key, past); }
    }
  }

  lemma StepKeepsSourced(s: State, step: Step, past: seq<Step>)
    requires Enabled(s, step) && Sourced(s, past)
    ensures Sourced(Next(s, step), past + [step])
  {
    var next := Next(s, step);
    forall k | k in next.cache && next.cache[k].Some?
      ensures WasLoaded(past + [step], k, next.cache[k].value)
    {
      CacheGoesOn(s, step, past, k);
    }
    forall k | k in next.flights
      ensures FlightIsSourced(next.flights[k], k, past + [step])
    {
      FlightGoesOn(s, step, past, k);
    }
    forall c | c in next.callers && next.callers[c].Given? && next.callers[c].result.Some?
      ensures WasLoaded(past + [step], next.callers[c].key, next.callers[c].result.value)
    {
      CallerGoesOn(s, step, past, c);
    }
  }

  lemma {:induction false} RunKeepsSourced(s: State, steps: seq<Step>, past: seq<Step>)
    requires Legal(s, steps) && Sourced(s, past)
    ensures Sourced(Run(s, steps), past + steps)
    decreases |steps|
  {
    if steps == [] {
      assert past + steps == past;
    } else {
      StepKeepsSourced(s, steps[0], past);
      RunKeepsSourced(Next(s, steps[0]), steps[1..], past + [steps[0]]);
      assert past + steps == past + [steps[0]] + steps[1..];
    }
  }

  lemma {:induction false} CallerKeepsKey(s: State, steps: seq<Step>, c: Caller)
    requires Legal(s, steps) && c in s.callers
    ensures c in Run(s, steps).callers && Run(s, steps).callers[c].key == s.callers[c].key
    decreases |steps|
  {
    if steps != [] {
      CallerWaitsOn(s, steps[0], c);
      CallerKeepsKey(Next(s, steps[0]), steps[1..], c);
    }
  }

  /** In every run from the start: a caller that asks for a key and is given a value is given one
      that a load of that very key has loaded. */
  lemma GivenValueIsOfTheKey(before: seq<Step>, c: Caller, k: Key, after: seq<Step>)
    requires Legal(Initial(), before) && Enabled(Run(Initial(), before), Join(c, k))
    requires Legal(Next(Run(Initial(), before), Join(c, k)), after)
    ensures
      var end := Run(Next(Run(Initial(), before), Join(c, k)), after);
      && c in end.callers && end.callers[c].key == k
      && (end.callers[c].Given? && end.callers[c].result.Some? ==>
            WasLoaded(before + [Join(c, k)] + after, k, end.callers[c].result.value))
  {
    var s := Run(Initial(), before);
    RunKeepsSourced(Initial(), before, []);
    assert [] + before == before;
    StepKeepsSourced(s, Join(c, k), before);
    RunKeepsSourced(Next(s, Join(c, k)), after, before + [Join(c, k)]);
    CallerKeepsKey(Next(s, Join(c, k)), after, c);
  }

  /** What a caller was given stays, and a value that a load gives was stored by then. */
  lemma StoredBeforeGiven(s: State, k: Key, v: Value)
    requires Enabled(s, Clear(k)) && s.flights[k].value == v
    ensures
      var stored := Next(Next(s, Clear(k)), Store(k));
      && k in stored.cache && stored.cache[k] == Some(v)
      && stored.flights[k] == Releasing(Some(v)) && stored.callers == s.callers
  {
  }
}
