/**
 Refreshing the page index, from pkg/registry/docs/docs_client.go: GetDocsIndex serves
 a cached index, loads a new one when there is none, and falls back on the last index
 it loaded when the origin fails.

 Concurrent calls share one load. A step of the machine is one access to the cache, to the
 last good index, to the load under way or to the origin, or the return of one call, so its
 runs are the interleavings of calls, of loads, of expiry and of eviction.
 */
module IndexRefresh {
  import opened Sequences

  datatype Source = LlmsIndexJson | LlmsTxt

  /** An index that was loaded. Every load that succeeds makes a new one; id tells them apart. */
  datatype Index = Index(source: Source, id: nat)

  /** Where the load under way is. */
  datatype Phase =
    | Checking                              // about to look in the cache again
    | FetchingJson
    | JsonFailed                            // about to look at the last good index
    | FetchingTxt
    | LoadFailed                            // about to look at the last good index
    | Retaining(index: Index)               // about to cache the last good index again
    | Loaded(index: Index)                  // about to cache the new index
    | Cached(index: Index)                  // about to make it the last good one
    | Done(result: Option<Index>)           // None for an error

  /** Where a call is. began is how many calls had returned when it was made. */
  datatype Call =
    | Missed(began: nat)                    // about to join a load, or to start one
    | Waiting(began: nat)                   // for the load under way
    | Holding(began: nat, result: Option<Index>)  // about to return; None for an error

  datatype Return = Return(call: nat, began: nat, result: Option<Index>)

  /** stale is the last index that was loaded, made counts the loads that succeeded and
      asked the calls that were made, and returned has what calls returned, in order. */
  datatype State = State(
    cached: Option<Index>,
    stale: Option<Index>,
    flight: Option<Phase>,
    made: nat,
    asked: nat,
    calls: map<nat, Call>,
    returned: seq<Return>)

  function Initial(): State {
    State(None, None, None, 0, 0, map[], [])
  }

  datatype Step =
    | Ask                                   // a new call looks in the cache
    | Enter(call: nat)                      // it joins the load under way, or starts one
    | Forget                                // the cached index expires or is evicted
    | Look
    | FetchJson(ok: bool)                   // not ok if fetching or parsing fails
    | CheckStale
    | FetchTxt(ok: bool)
    | Retain
    | CacheRetained
    | CacheNew
    | Publish
    | Finish                                // the load ends, and its calls have its result
    | Answer(call: nat)                     // a call returns

  predicate Enabled(s: State, step: Step) {
    match step
    case Ask => true
    case Enter(c) => c in s.calls && s.calls[c].Missed?
    case Forget => s.cached.Some?
    case Look => s.flight == Some(Checking)
    case FetchJson(_) => s.flight == Some(FetchingJson)
    case CheckStale => s.flight == Some(JsonFailed)
    case FetchTxt(_) => s.flight == Some(FetchingTxt)
    case Retain => s.flight == Some(LoadFailed)
    case CacheRetained => s.flight.Some? && s.flight.value.Retaining?
    case CacheNew => s.flight.Some? && s.flight.value.Loaded?
    case Publish => s.flight.Some? && s.flight.value.Cached?
    case Finish => s.flight.Some? && s.flight.value.Done?
    case Answer(c) => c in s.calls && s.calls[c].Holding?
  }

  /** A load from a source has succeeded. */
  function Make(s: State, source: Source): State {
    s.(flight := Some(Loaded(Index(source, s.made))), made := s.made + 1)
  }

  /** What the calls that wait for the load become when it ends. */
  function Served(calls: map<nat, Call>, result: Option<Index>): map<nat, Call> {
    map c | c in calls :: if calls[c].Waiting? then Holding(calls[c].began, result) else calls[c]
  }

  function Next(s: State, step: Step): State
    requires Enabled(s, step)
  {
    match step
    case Ask =>
      var n := |s.returned|;
      s.(calls := s.calls[s.asked := if s.cached.Some? then Holding(n, s.cached) else Missed(n)], asked := s.asked + 1)
    case Enter(c) =>
      s.(calls := s.calls[c := Waiting(s.calls[c].began)], flight := if s.flight.Some? then s.flight else Some(Checking))
    case Forget => s.(cached := None)
    case Look => s.(flight := Some(if s.cached.Some? then Done(s.cached) else FetchingJson))
    case FetchJson(ok) => if ok then Make(s, LlmsIndexJson) else s.(flight := Some(JsonFailed))
    case CheckStale => s.(flight := Some(if IsJson(s.stale) then LoadFailed else FetchingTxt))
    case FetchTxt(ok) => if ok then Make(s, LlmsTxt) else s.(flight := Some(LoadFailed))
    case Retain => s.(flight := Some(if s.stale.Some? then Retaining(s.stale.value) else Done(None)))
    case CacheRetained => s.(cached := Some(s.flight.value.index), flight := Some(Done(Some(s.flight.value.index))))
    case CacheNew => s.(cached := Some(s.flight.value.index), flight := Some(Cached(s.flight.value.index)))
    case Publish => s.(stale := Some(s.flight.value.index), flight := Some(Done(Some(s.flight.value.index))))
    case Finish => s.(flight := None, calls := Served(s.calls, s.flight.value.result))
    case Answer(c) =>
      s.(calls := s.calls - {c}, returned := s.returned + [Return(c, s.calls[c].began, s.calls[c].result)])
  }

  ghost predicate Legal(s: State, steps: seq<Step>)
    decreases |steps|
  {
    steps == [] || (Enabled(s, steps[0]) && Legal(Next(s, steps[0]), steps[1..]))
  }

  function Run(s: State, steps: seq<Step>): State
    requires Legal(s, steps)
    decreases |steps|
  {
    if steps == [] then s else Run(Next(s, steps[0]), steps[1..])
  }

  ghost predicate Reaches(steps: seq<Step>, s: State) {
    Legal(Initial(), steps) && Run(Initial(), steps) == s
  }

  ghost predicate Reachable(s: State) {
    exists steps :: Reaches(steps, s)
  }

  predicate IsJson(index: Option<Index>) {
    index.Some? && index.value.source == LlmsIndexJson
  }

  // ------------------------------------------------------------------
  // What every interleaving keeps
  // ------------------------------------------------------------------

  /** An index from llms.txt is on its way only while none from llms-index.json is held,
      and a load that is over has the last good index as its result. */
  ghost predicate FlightFits(s: State) {
    s.flight.Some? ==>
      match s.flight.value
      case FetchingTxt => !IsJson(s.stale)
      case Retaining(index) => s.stale == Some(index)
      case Loaded(index) => IsJson(s.stale) ==> index.source == LlmsIndexJson
      case Cached(index) => (IsJson(s.stale) ==> index.source == LlmsIndexJson) && s.cached in {None, Some(index)}
      case Done(result) => result == s.stale
      case _ => true
  }

  /** A new index is newer than any that is held. */
  ghost predicate Fresh(s: State) {
    && (s.stale.Some? ==> s.stale.value.id < s.made)
    && (s.flight.Some? && (s.flight.value.Loaded? || s.flight.value.Cached?) ==>
          s.flight.value.index.id < s.made && (s.stale.Some? ==> s.stale.value.id < s.flight.value.index.id))
  }

  /** Whether an index was loaded: it is the last good one, or the load is about to
      make it that. */
  ghost predicate HasLoaded(s: State) {
    s.stale.Some? || (s.flight.Some? && (s.flight.value.Loaded? || s.flight.value.Cached?))
  }

  /** Whether an index from llms-index.json is held, or cached and about to be. */
  ghost predicate HasJson(s: State) {
    IsJson(s.stale) || (s.flight.Some? && s.flight.value.Cached? && s.flight.value.index.source == LlmsIndexJson)
  }

  /** A result is no better than what is held. */
  ghost predicate Held(s: State, result: Option<Index>) {
    (result.Some? ==> HasLoaded(s)) && (IsJson(result) ==> HasJson(s))
  }

  /** A result is as good as any that was returned before the call was made. */
  ghost predicate Keeps(returned: seq<Return>, began: nat, result: Option<Index>) {
    forall i :: 0 <= i < began && i < |returned| ==>
      && (returned[i].result.Some? ==> result.Some?)
      && (IsJson(returned[i].result) ==> IsJson(result))
  }

  ghost predicate CallFits(s: State, call: Call) {
    && call.began <= |s.returned|
    && (call.Holding? ==> Held(s, call.result) && Keeps(s.returned, call.began, call.result))
  }

  ghost predicate ReturnFits(s: State, r: Return) {
    && r.began <= |s.returned|
    && Held(s, r.result) && Keeps(s.returned, r.began, r.result)
  }

  ghost predicate Inv(s: State) {
    && (s.cached.Some? ==> s.cached == s.stale || s.flight == Some(Cached(s.cached.value)))
    && FlightFits(s) && Fresh(s)
    && (forall c :: c in s.calls ==> CallFits(s, s.calls[c]))
    && (forall i :: 0 <= i < |s.returned| ==> ReturnFits(s, s.returned[i]))
  }

  lemma StepKeepsHoldings(s: State, step: Step)
    requires Inv(s) && Enabled(s, step)
    ensures var next := Next(s, step);
      && (next.cached.Some? ==> next.cached == next.stale || next.flight == Some(Cached(next.cached.value)))
      && FlightFits(next) && Fresh(next)
    ensures HasLoaded(s) ==> HasLoaded(Next(s, step))
    ensures HasJson(s) ==> HasJson(Next(s, step))
  {
  }

  /** What is held now is as good as all that was returned. */
  lemma HeldKeeps(s: State, n: nat, result: Option<Index>)
    requires forall i :: 0 <= i < |s.returned| ==> Held(s, s.returned[i].result)
    requires (HasLoaded(s) ==> result.Some?) && (HasJson(s) ==> IsJson(result))
    ensures Keeps(s.returned, n, result)
  {
    forall i | 0 <= i < n && i < |s.returned|
      ensures (s.returned[i].result.Some? ==> result.Some?) && (IsJson(s.returned[i].result) ==> IsJson(result))
    {
      assert Held(s, s.returned[i].result);
    }
  }

  /** What the cache has, and what a load that is over has, is as good as what is held. */
  lemma ResultsAreHeld(s: State)
    requires Inv(s)
    ensures s.cached.Some? ==> Held(s, s.cached) && (HasJson(s) ==> IsJson(s.cached))
    ensures s.flight.Some? && s.flight.value.Done? ==>
      var r := s.flight.value.result;
      Held(s, r) && (HasLoaded(s) ==> r.Some?) && (HasJson(s) ==> IsJson(r))
    ensures forall i :: 0 <= i < |s.returned| ==> Held(s, s.returned[i].result)
  {
    forall i | 0 <= i < |s.returned|
      ensures Held(s, s.returned[i].result)
    {
      assert ReturnFits(s, s.returned[i]);
    }
  }

  /** What fits goes on fitting when a call returns. */
  lemma KeepsOn(returned: seq<Return>, more: Return, began: nat, result: Option<Index>)
    requires began <= |returned| && Keeps(returned, began, result)
    ensures Keeps(returned + [more], began, result)
  {
    forall i | 0 <= i < began
      ensures ((returned + [more])[i].result.Some? ==> result.Some?) && (IsJson((returned + [more])[i].result) ==> IsJson(result))
    {
      assert (returned + [more])[i] == returned[i];
    }
  }

  lemma CallGoesOn(s: State, step: Step, call: Call)
    requires Inv(s) && Enabled(s, step) && CallFits(s, call)
    ensures CallFits(Next(s, step), call)
  {
    StepKeepsHoldings(s, step);
    if step.Answer? && call.Holding? {
      KeepsOn(s.returned, Next(s, step).returned[|s.returned|], call.began, call.result);
    }
  }

  lemma StepKeepsCalls(s: State, step: Step, c: nat)
    requires Inv(s) && Enabled(s, step) && c in Next(s, step).calls
    ensures CallFits(Next(s, step), Next(s, step).calls[c])
  {
    var next := Next(s, step);
    ResultsAreHeld(s);
    StepKeepsHoldings(s, step);
    if c in s.calls && next.calls[c] == s.calls[c] {
      CallGoesOn(s, step, s.calls[c]);
    } else if step.Ask? {
      if s.cached.Some? { HeldKeeps(s, |s.returned|, s.cached); }
    } else if step.Finish? {
      assert CallFits(s, s.calls[c]);
      HeldKeeps(s, s.calls[c].began, s.flight.value.result);
    } else {
      assert CallFits(s, s.calls[c]);
    }
  }

  lemma StepKeepsReturns(s: State, step: Step, i: nat)
    requires Inv(s) && Enabled(s, step) && i < |Next(s, step).returned|
    ensures ReturnFits(Next(s, step), Next(s, step).returned[i])
  {
    var next := Next(s, step);
    StepKeepsHoldings(s, step);
    if i < |s.returned| {
      assert next.returned[i] == s.returned[i];
      var r := s.returned[i];
      assert ReturnFits(s, r);
      if step.Answer? { KeepsOn(s.returned, next.returned[|s.returned|], r.began, r.result); }
    } else {
      var call := s.calls[step.call];
      assert CallFits(s, call);
      KeepsOn(s.returned, next.returned[i], call.began, call.result);
    }
  }

  lemma StepKeepsInv(s: State, step: Step)
    requires Inv(s) && Enabled(s, step)
    ensures Inv(Next(s, step))
  {
    var next := Next(s, step);
    StepKeepsHoldings(s, step);
    forall c | c in next.calls ensures CallFits(next, next.calls[c]) { StepKeepsCalls(s, step, c); }
    forall i | 0 <= i < |next.returned| ensures ReturnFits(next, next.returned[i]) { StepKeepsReturns(s, step, i); }
  }

  lemma {:induction false} RunKeepsInv(s: State, steps: seq<Step>)
    requires Inv(s) && Legal(s, steps)
    ensures Inv(Run(s, steps))
    decreases |steps|
  {
    if steps != [] {
      StepKeepsInv(s, steps[0]);
      RunKeepsInv(Next(s, steps[0]), steps[1..]);
    }
  }

  lemma ReachableKeepsInv(s: State)
    requires Reachable(s)
    ensures Inv(s)
  {
    var steps :| Reaches(steps, s);
    RunKeepsInv(Initial(), steps);
  }

  /** Whatever the origin does and however calls interleave: a call that is made after some
      call has returned an index does not return an error, and if that index was from
      llms-index.json, so is its own. */
  lemma AnswersNeverRegress(s: State, i: nat, j: nat)
    requires Reachable(s) && j < |s.returned| && i < s.returned[j].began
    ensures i < |s.returned|
    ensures s.returned[i].result.Some? ==> s.returned[j].result.Some?
    ensures IsJson(s.returned[i].result) ==> IsJson(s.returned[j].result)
  {
    ReachableKeepsInv(s);
    assert ReturnFits(s, s.returned[j]);
  }

  predicate GoodEnough(result: Option<Index>, loaded: bool, json: bool) {
    (loaded ==> result.Some?) && (json ==> IsJson(result))
  }

  /** The calls made from n on have results as good as what was held by then. */
  ghost predicate LateCallsKeep(s: State, n: nat, loaded: bool, json: bool) {
    && n <= s.asked && (loaded ==> HasLoaded(s)) && (json ==> HasJson(s))
    && (forall c :: c in s.calls && c >= n && s.calls[c].Holding? ==> GoodEnough(s.calls[c].result, loaded, json))
    && (forall i :: 0 <= i < |s.returned| && s.returned[i].call >= n ==> GoodEnough(s.returned[i].result, loaded, json))
  }

  lemma LateCallGoesOn(s: State, step: Step, n: nat, loaded: bool, json: bool, c: nat)
    requires Inv(s) && Enabled(s, step) && LateCallsKeep(s, n, loaded, json)
    requires c in Next(s, step).calls && c >= n && Next(s, step).calls[c].Holding?
    ensures GoodEnough(Next(s, step).calls[c].result, loaded, json)
  {
    ResultsAreHeld(s);
    if !step.Ask? && !step.Finish? { assert c in s.calls && s.calls[c] == Next(s, step).calls[c]; }
  }

  lemma StepKeepsLateCalls(s: State, step: Step, n: nat, loaded: bool, json: bool)
    requires Inv(s) && Enabled(s, step) && LateCallsKeep(s, n, loaded, json)
    ensures LateCallsKeep(Next(s, step), n, loaded, json)
  {
    var next := Next(s, step);
    StepKeepsHoldings(s, step);
    forall c | c in next.calls && c >= n && next.calls[c].Holding?
      ensures GoodEnough(next.calls[c].result, loaded, json)
    {
      LateCallGoesOn(s, step, n, loaded, json, c);
    }
  }

  lemma {:induction false} RunKeepsLateCalls(s: State, steps: seq<Step>, n: nat, loaded: bool, json: bool)
    requires Inv(s) && Legal(s, steps) && LateCallsKeep(s, n, loaded, json)
    ensures LateCallsKeep(Run(s, steps), n, loaded, json)
    decreases |steps|
  {
    if steps != [] {
      StepKeepsInv(s, steps[0]);
      StepKeepsLateCalls(s, steps[0], n, loaded, json);
      RunKeepsLateCalls(Next(s, steps[0]), steps[1..], n, loaded, json);
    }
  }

  /** Calls are numbered as they are made. */
  ghost predicate Numbered(s: State) {
    && (forall c :: c in s.calls ==> c < s.asked)
    && (forall i :: 0 <= i < |s.returned| ==> s.returned[i].call < s.asked)
  }

  lemma StepKeepsNumbers(s: State, step: Step)
    requires Numbered(s) && Enabled(s, step)
    ensures Numbered(Next(s, step))
  {
  }

  lemma {:induction false} RunKeepsNumbers(s: State, steps: seq<Step>)
    requires Numbered(s) && Legal(s, steps)
    ensures Numbered(Run(s, steps))
    decreases |steps|
  {
    if steps != [] {
      StepKeepsNumbers(s, steps[0]);
      RunKeepsNumbers(Next(s, steps[0]), steps[1..]);
    }
  }

  /** Once a load has succeeded, no call that is made from then on returns an error,
      whatever the origin does. */
  lemma NoErrorsAfterALoad(s: State, steps: seq<Step>)
    requires Reachable(s) && HasLoaded(s) && Legal(s, steps)
    ensures forall i :: 0 <= i < |Run(s, steps).returned| && Run(s, steps).returned[i].call >= s.asked ==>
              Run(s, steps).returned[i].result.Some?
  {
    ReachableKeepsInv(s);
    var before :| Reaches(before, s);
    RunKeepsNumbers(Initial(), before);
    RunKeepsLateCalls(s, steps, s.asked, true, false);
  }

  /** And once there is an index from llms-index.json, it returns one from there. */
  lemma NeverBackToTxt(s: State, steps: seq<Step>)
    requires Reachable(s) && HasJson(s) && Legal(s, steps)
    ensures forall i :: 0 <= i < |Run(s, steps).returned| && Run(s, steps).returned[i].call >= s.asked ==>
              IsJson(Run(s, steps).returned[i].result)
  {
    ReachableKeepsInv(s);
    var before :| Reaches(before, s);
    RunKeepsNumbers(Initial(), before);
    RunKeepsLateCalls(s, steps, s.asked, false, true);
  }

  /** A cached index is the last good one, except exactly while a load has cached its new
      index and has yet to make it the last good one. */
  lemma CachedIsLastGoodIff(s: State)
    requires Reachable(s) && s.cached.Some?
    ensures s.cached == s.stale <==> !(s.flight.Some? && s.flight.value.Cached?)
  {
    ReachableKeepsInv(s);
  }

  /** That moment does occur. */
  lemma CachedBeforeLastGood()
    ensures exists s :: Reachable(s) && s.cached.Some? && s.stale.None?
  {
    var s1 := Next(Initial(), Ask);
    var s2 := Next(s1, Enter(0));
    var s3 := Next(s2, Look);
    RunThree(Initial(), Ask, Enter(0), Look);
    RunTwo(s3, FetchJson(true), CacheNew);
    RunConcat(Initial(), [Ask, Enter(0), Look], [FetchJson(true), CacheNew]);
    assert Reaches([Ask, Enter(0), Look] + [FetchJson(true), CacheNew], Next(Next(s3, FetchJson(true)), CacheNew));
  }

  lemma RunPrepend(s: State, step: Step, steps: seq<Step>)
    requires Enabled(s, step) && Legal(Next(s, step), steps)
    ensures Legal(s, [step] + steps) && Run(s, [step] + steps) == Run(Next(s, step), steps)
  {
    assert ([step] + steps)[1..] == steps;
  }

  lemma RunOne(s: State, step: Step)
    requires Enabled(s, step)
    ensures Legal(s, [step]) && Run(s, [step]) == Next(s, step)
  {
    RunPrepend(s, step, []);
    assert [step] + [] == [step];
  }

  lemma RunTwo(s: State, a: Step, b: Step)
    requires Enabled(s, a) && Enabled(Next(s, a), b)
    ensures Legal(s, [a, b]) && Run(s, [a, b]) == Next(Next(s, a), b)
  {
    RunOne(Next(s, a), b);
    RunPrepend(s, a, [b]);
    assert [a] + [b] == [a, b];
  }

  lemma RunThree(s: State, a: Step, b: Step, c: Step)
    requires Enabled(s, a) && Enabled(Next(s, a), b) && Enabled(Next(Next(s, a), b), c)
    ensures Legal(s, [a, b, c]) && Run(s, [a, b, c]) == Next(Next(Next(s, a), b), c)
  {
    RunBefore(s, a, Next(s, a), b, c);
  }

  lemma RunBefore(s: State, a: Step, next: State, b: Step, c: Step)
    requires Enabled(s, a) && next == Next(s, a) && Enabled(next, b) && Enabled(Next(next, b), c)
    ensures Legal(s, [a, b, c]) && Run(s, [a, b, c]) == Next(Next(next, b), c)
  {
    RunTwo(next, b, c);
    RunPrepend(s, a, [b, c]);
    assert [a] + [b, c] == [a, b, c];
  }

  lemma {:induction false} RunConcat(s: State, a: seq<Step>, b: seq<Step>)
    requires Legal(s, a) && Legal(Run(s, a), b)
    ensures Legal(s, a + b) && Run(s, a + b) == Run(Run(s, a), b)
    decreases |a|
  {
    if a == [] {
      assert a + b == b;
    } else {
      RunConcat(Next(s, a[0]), a[1..], b);
      RunPrepend(s, a[0], a[1..] + b);
      assert a + b == [a[0]] + (a[1..] + b);
    }
  }

  // ------------------------------------------------------------------
  // One call by itself
  // ------------------------------------------------------------------

  /** Whether a load succeeds, given which of its sources the origin has to offer. */
  predicate LoadSucceeds(stale: Option<Index>, json: bool, txt: bool) {
    json || (!IsJson(stale) && txt)
  }

  function LoadSteps(stale: Option<Index>, json: bool, txt: bool): seq<Step> {
    if json then [FetchJson(true)]
    else if IsJson(stale) then [FetchJson(false), CheckStale]
    else [FetchJson(false), CheckStale, FetchTxt(txt)]
  }

  function EndSteps(stale: Option<Index>, json: bool, txt: bool): seq<Step> {
    if LoadSucceeds(stale, json, txt) then [CacheNew, Publish, Finish]
    else if stale.Some? then [Retain, CacheRetained, Finish]
    else [Retain, Finish]
  }

  /** The steps of a call that no other comes between, up to its return. */
  function WorkSteps(s: State, json: bool, txt: bool): seq<Step> {
    if s.cached.Some? then [Ask]
    else [Ask, Enter(s.asked), Look] + LoadSteps(s.stale, json, txt) + EndSteps(s.stale, json, txt)
  }

  function CallSteps(s: State, json: bool, txt: bool): seq<Step> {
    WorkSteps(s, json, txt) + [Answer(s.asked)]
  }

  /** No load is under way, nor a call waiting for one. */
  ghost predicate Idle(s: State) {
    s.flight.None? && s.asked !in s.calls && forall c :: c in s.calls ==> !s.calls[c].Waiting?
  }

  function NewIndex(s: State, json: bool): Option<Index> {
    Some(Index(if json then LlmsIndexJson else LlmsTxt, s.made))
  }

  /** What the load of such a call leaves cached, and as the last good index. */
  function Loads(s: State, json: bool, txt: bool): Option<Index> {
    if LoadSucceeds(s.stale, json, txt) then NewIndex(s, json) else s.stale
  }

  /** The state after such a call: it answers from the cache, or keeps a new index, or
      falls back on the last good one, or fails as there is none. */
  function AfterCall(s: State, json: bool, txt: bool): State {
    var result := if s.cached.Some? then s.cached else Loads(s, json, txt);
    var after := s.(asked := s.asked + 1, returned := s.returned + [Return(s.asked, |s.returned|, result)]);
    if s.cached.Some? then after
    else after.(cached := result, stale := result, made := s.made + (if LoadSucceeds(s.stale, json, txt) then 1 else 0))
  }

  /** And before it returns. */
  function AfterWork(s: State, json: bool, txt: bool): State {
    var after := AfterCall(s, json, txt);
    after.(calls := s.calls[s.asked := Holding(|s.returned|, after.returned[|s.returned|].result)], returned := s.returned)
  }

  lemma LoadRuns(s: State, json: bool, txt: bool)
    requires s.flight == Some(FetchingJson)
    ensures
      var steps := LoadSteps(s.stale, json, txt);
      && Legal(s, steps)
      && Run(s, steps) == if LoadSucceeds(s.stale, json, txt) then Make(s, if json then LlmsIndexJson else LlmsTxt)
                          else s.(flight := Some(LoadFailed))
  {
    if json {
      RunOne(s, FetchJson(true));
    } else if IsJson(s.stale) {
      RunTwo(s, FetchJson(false), CheckStale);
    } else {
      RunThree(s, FetchJson(false), CheckStale, FetchTxt(txt));
    }
  }

  lemma EndRuns(s: State, loaded: State, json: bool, txt: bool)
    requires s.cached.None?
    requires loaded == if LoadSucceeds(s.stale, json, txt) then Make(s, if json then LlmsIndexJson else LlmsTxt)
                       else s.(flight := Some(LoadFailed))
    ensures
      var steps, result := EndSteps(s.stale, json, txt), Loads(s, json, txt);
      && Legal(loaded, steps)
      && Run(loaded, steps) == loaded.(cached := result, stale := result, flight := None, calls := Served(s.calls, result))
  {
    if LoadSucceeds(s.stale, json, txt) {
      RunThree(loaded, CacheNew, Publish, Finish);
    } else if s.stale.Some? {
      RunThree(loaded, Retain, CacheRetained, Finish);
    } else {
      RunTwo(loaded, Retain, Finish);
    }
  }

  /** What such a call that misses the cache comes to until it fetches. */
  function Looked(s: State): State {
    s.(asked := s.asked + 1, calls := s.calls[s.asked := Waiting(|s.returned|)], flight := Some(FetchingJson))
  }

  lemma LookRuns(s: State)
    requires Idle(s) && s.cached.None?
    ensures Legal(s, [Ask, Enter(s.asked), Look]) && Run(s, [Ask, Enter(s.asked), Look]) == Looked(s)
  {
    var c, n := s.asked, |s.returned|;
    RunThree(s, Ask, Enter(c), Look);
    assert s.calls[c := Missed(n)][c := Waiting(n)] == s.calls[c := Waiting(n)];
  }

  lemma OnlyCallIsServed(s: State, result: Option<Index>)
    requires Idle(s)
    ensures Served(Looked(s).calls, result) == s.calls[s.asked := Holding(|s.returned|, result)]
  {
  }

  lemma MissRuns(s: State, json: bool, txt: bool)
    requires Idle(s) && s.cached.None?
    ensures Legal(s, WorkSteps(s, json, txt)) && Run(s, WorkSteps(s, json, txt)) == AfterWork(s, json, txt)
  {
    var first, load, end := [Ask, Enter(s.asked), Look], LoadSteps(s.stale, json, txt), EndSteps(s.stale, json, txt);
    LookRuns(s);
    LoadRuns(Looked(s), json, txt);
    var loaded := Run(Looked(s), load);
    EndRuns(Looked(s), loaded, json, txt);
    OnlyCallIsServed(s, Loads(s, json, txt));
    RunConcat(s, first, load);
    RunConcat(s, first + load, end);
  }

  lemma WorkRuns(s: State, json: bool, txt: bool)
    requires Idle(s)
    ensures Legal(s, WorkSteps(s, json, txt)) && Run(s, WorkSteps(s, json, txt)) == AfterWork(s, json, txt)
  {
    if s.cached.Some? { RunOne(s, Ask); } else { MissRuns(s, json, txt); }
  }

  /** A call that no other comes between is a run of the machine. */
  lemma CallRuns(s: State, json: bool, txt: bool)
    requires Idle(s)
    ensures Legal(s, CallSteps(s, json, txt)) && Run(s, CallSteps(s, json, txt)) == AfterCall(s, json, txt)
  {
    var worked := AfterWork(s, json, txt);
    WorkRuns(s, json, txt);
    RunOne(worked, Answer(s.asked));
    assert worked.calls - {s.asked} == s.calls;
    RunConcat(s, WorkSteps(s, json, txt), [Answer(s.asked)]);
  }

  /** What such a call returns: what is cached, or what the origin has to offer, from llms-index.json
      if it can be had there, and from llms.txt only while nothing from llms-index.json is
      held; or else the last good index, if there is one. */
  lemma CallReturns(s: State, json: bool, txt: bool)
    requires Idle(s)
    ensures Legal(s, CallSteps(s, json, txt))
    ensures
      var end := Run(s, CallSteps(s, json, txt));
      var n := |s.returned|;
      && |end.returned| == n + 1 && end.returned[n].call == s.asked && end.returned[n].began == n
      && var r := end.returned[n].result;
         if s.cached.Some? then r == s.cached && end.made == s.made
         else if json then r == Some(Index(LlmsIndexJson, s.made)) && end.cached == r && end.stale == r
         else if IsJson(s.stale) then r == s.stale && end.cached == r && end.stale == r
         else if txt then r == Some(Index(LlmsTxt, s.made)) && end.cached == r && end.stale == r
         else r == s.stale && end.cached == r && end.stale == r
  {
    CallRuns(s, json, txt);
  }

  /** A call that was made before may still return an error after another has returned an
      index: it had joined a load that failed. */
  lemma EarlierCallMayFail() returns (steps: seq<Step>)
    ensures Legal(Initial(), steps)
    ensures var r := Run(Initial(), steps).returned;
      |r| == 2 && r[0].result.Some? && r[1].result.None? && r[1].call < r[0].call
  {
    var failed := AfterWork(Initial(), false, false);
    var loaded := AfterCall(failed, true, true);
    var first, second := WorkSteps(Initial(), false, false), CallSteps(failed, true, true);
    WorkRuns(Initial(), false, false);
    CallRuns(failed, true, true);
    RunOne(loaded, Answer(0));
    RunConcat(Initial(), first, second);
    RunConcat(Initial(), first + second, [Answer(0)]);
    steps := first + second + [Answer(0)];
  }

  class DocsClient {
    var cached: Option<Index>
    var staleIndex: Option<Index>
    ghost var made: nat
    ghost var returned: seq<Return>

    /** The state of the machine between calls. */
    ghost function View(): State
      reads this
    {
      State(cached, staleIndex, None, made, |returned|, map[], returned)
    }

    constructor ()
      ensures View() == Initial()
    {
      cached, staleIndex, made, returned := None, None, 0, [];
    }

    /** What is loaded is new, and comes from llms-index.json if that is to be had. */
    method LoadIndex(json: bool, txt: bool, id: nat) returns (r: Option<Index>)
      ensures r.Some? <==> LoadSucceeds(staleIndex, json, txt)
      ensures r.Some? ==> r.value == Index(if json then LlmsIndexJson else LlmsTxt, id)
    {
      if json {
        return Some(Index(LlmsIndexJson, id));
      }
      if staleIndex.Some? && staleIndex.value.source == LlmsIndexJson {
        return None;
      }
      if !txt {
        return None;
      }
      return Some(Index(LlmsTxt, id));
    }

    /** A call that no other comes between is one of the machine's runs; id is the
        identity of the index that it may allocate. */
    method GetDocsIndex(json: bool, txt: bool, id: nat) returns (r: Option<Index>)
      requires id == made
      modifies this
      ensures Legal(old(View()), CallSteps(old(View()), json, txt))
      ensures View() == Run(old(View()), CallSteps(old(View()), json, txt))
      ensures |returned| == old(|returned|) + 1 && returned[old(|returned|)].result == r
    {
      CallRuns(View(), json, txt);
      if cached.Some? {
        r := cached;
      } else {
        var index := LoadIndex(json, txt, id);
        if index.None? {
          if staleIndex.Some? {
            cached := staleIndex;
          }
          r := staleIndex;
        } else {
          made := made + 1;
          cached := index;
          staleIndex := index;
          r := index;
        }
      }
      returned := returned + [Return(|returned|, |returned|, r)];
    }
  }
}
