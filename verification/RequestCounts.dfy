/**
 The request counts of the registry, under every interleaving of request handlers with the actors
 that delete entries and set states.
 */
module RequestCounts {
  import opened Budget
  import opened Registry
  import opened Options

  /**
   The stages of the request handlers. Every stage between Recorded and Done is in flight; Unwound is
   a handler that a panic has ended before its deferred FinishRequest was registered.
   */
  datatype Stage =
    | NotStarted
    | Recorded
    | EnsuringPod
    | WaitingReady
    | WaitingDeleted
    | Forwarding
    | Done
    | Unwound

  datatype Handler = OpenAI | Multipart

  /**
   A request for `model`, with the number of its calls to RecordRequest and FinishRequest so far.
   `parses` tells whether the memory string of the model, as the handler read it, is a quantity.
   */
  datatype Request = Request(model: Model, handler: Handler, parses: bool, stage: Stage, recorded: nat, finished: nat)

  datatype System = System(entries: Entries, requests: map<nat, Request>)

  datatype Step =
    | Record(r: nat, now: int)
    | Dispatch(r: nat)
    | EnsureReturned(r: nat, ok: bool)
    | ReadyReturned(r: nat, ok: bool)
    | DeletedReturned(r: nat)
    | Forwarded(r: nat)
    | Unwind(r: nat)
    | SetEntryState(m: Model, state: DeploymentState, now: int)
    | DeleteEntry(m: Model)

  function StageOf(s: System, r: nat): Stage {
    if r in s.requests then s.requests[r].stage else NotStarted
  }

  predicate IsReady(s: System, m: Model) {
    m in s.entries && s.entries[m].state == Ready
  }

  /**
   Where a memory string that does not parse panics: in the budget check unless the pod is ready
   already, in the allocation sync once the pod has become ready, and in the sync that one of the
   handlers makes for a pod that is ready at once. The two syncs parse only for a model without an
   allocation, which may or may not be the case.
   */
  predicate Panics(s: System, r: nat)
    requires r in s.requests
  {
    var q := s.requests[r];
    !q.parses &&
    match q.stage
    case EnsuringPod => !IsReady(s, q.model)
    case WaitingReady => IsReady(s, q.model)
    case Recorded => q.handler == OpenAI && IsReady(s, q.model)
    case _ => false
  }

  predicate Enabled(s: System, step: Step) {
    match step
    case Record(r, _) => r in s.requests && s.requests[r].stage == NotStarted
    case Dispatch(r) => StageOf(s, r) == Recorded
    case EnsureReturned(r, _) => StageOf(s, r) == EnsuringPod && !Panics(s, r)
    case ReadyReturned(r, _) => StageOf(s, r) == WaitingReady
    case DeletedReturned(r) => StageOf(s, r) == WaitingDeleted
    case Forwarded(r) => StageOf(s, r) == Forwarding
    case Unwind(r) => r in s.requests && Panics(s, r)
    case SetEntryState(_, _, _) => true
    case DeleteEntry(_) => true
  }

  function At(s: System, r: nat, stage: Stage): System
    requires r in s.requests
  {
    s.(requests := s.requests[r := s.requests[r].(stage := stage)])
  }

  /** The handler calls FinishRequest and returns. */
  function Finish(s: System, r: nat): System
    requires r in s.requests
  {
    var q := s.requests[r];
    System(FinishIn(s.entries, q.model), s.requests[r := q.(stage := Done, finished := q.finished + 1)])
  }

  /** One step of a handler, or of the actors that change entries behind its back. */
  function Next(s: System, step: Step): System
    requires Enabled(s, step)
  {
    match step
    case Record(r, now) =>
      var q := s.requests[r];
      System(RecordIn(s.entries, q.model, now), s.requests[r := q.(stage := Recorded, recorded := q.recorded + 1)])
    case Dispatch(r) =>
      var m := s.requests[r].model;
      var state := if m in s.entries then s.entries[m].state else Nonexistent;
      At(s, r, match state
               case Nonexistent => EnsuringPod
               case Creating => WaitingReady
               case Ready => Forwarding
               case Deleting => WaitingDeleted)
    case EnsureReturned(r, ok) => if ok then At(s, r, Forwarding) else Finish(s, r)
    case ReadyReturned(r, ok) => if ok then At(s, r, Forwarding) else Finish(s, r)
    case DeletedReturned(r) => At(s, r, EnsuringPod)
    case Forwarded(r) => Finish(s, r)
    case Unwind(r) => At(s, r, Unwound)
    case SetEntryState(m, state, now) => s.(entries := SetStateIn(s.entries, m, state, now))
    case DeleteEntry(m) => s.(entries := s.entries - {m})
  }

  predicate InFlight(q: Request, m: Model) {
    q.model == m && q.stage != NotStarted && q.stage != Done && q.stage != Unwound
  }

  /** Recorded and not finished: in flight or lost. */
  predicate Holding(q: Request, m: Model) {
    q.model == m && q.stage != NotStarted && q.stage != Done
  }

  ghost function Flying(s: System, m: Model): set<nat> {
    set r | r in s.requests && InFlight(s.requests[r], m)
  }

  ghost function Held(s: System, m: Model): set<nat> {
    set r | r in s.requests && Holding(s.requests[r], m)
  }

  ghost function Lost(s: System, m: Model): set<nat> {
    set r | r in s.requests && s.requests[r].model == m && s.requests[r].stage == Unwound
  }

  function Active(s: System, m: Model): nat {
    if m in s.entries then s.entries[m].active else 0
  }

  ghost predicate Balanced(s: System) {
    forall r :: r in s.requests ==>
      && s.requests[r].recorded == (if s.requests[r].stage == NotStarted then 0 else 1)
      && s.requests[r].finished == (if s.requests[r].stage == Done then 1 else 0)
  }

  ghost predicate Inv(s: System) {
    Balanced(s) && forall m :: Active(s, m) <= |Held(s, m)|
  }

  /** Counts match the requests recorded and not finished, model by model. */
  ghost predicate Exact(s: System) {
    forall m :: Active(s, m) == |Held(s, m)|
  }

  /** No count exceeds its requests in flight. */
  ghost predicate Within(s: System) {
    forall m :: Active(s, m) <= |Flying(s, m)|
  }

  ghost predicate Start(s: System) {
    s.entries == map[] && forall r :: r in s.requests ==>
      s.requests[r].stage == NotStarted && s.requests[r].recorded == s.requests[r].finished == 0
  }

  lemma HeldSplits(s: System, m: Model)
    ensures |Held(s, m)| == |Flying(s, m)| + |Lost(s, m)|
  {
    assert Held(s, m) == Flying(s, m) + Lost(s, m);
    assert Flying(s, m) !! Lost(s, m);
  }

  lemma HeldAfter(s: System, r: nat, q: Request, es: Entries, m: Model)
    requires r in s.requests && q.model == s.requests[r].model
    ensures var s' := System(es, s.requests[r := q]);
      |Held(s', m)| == |Held(s, m)|
        + (if Holding(q, m) then 1 else 0) - (if Holding(s.requests[r], m) then 1 else 0)
  {
    var s' := System(es, s.requests[r := q]);
    var others := Held(s, m) - {r};
    assert Held(s', m) - {r} == others;
    if r in Held(s, m) {
      assert Held(s, m) == others + {r};
    } else {
      assert Held(s, m) == others;
    }
    if r in Held(s', m) {
      assert Held(s', m) == others + {r};
    } else {
      assert Held(s', m) == others;
    }
  }

  /** How a step changes the request it belongs to. */
  function Mover(step: Step): (r: Option<nat>) {
    match step
    case SetEntryState(_, _, _) => None
    case DeleteEntry(_) => None
    case _ => Some(step.r)
  }

  /** Either the step is an entry change, or it moves one request and changes only that model's count, in step with it. */
  lemma StepCounts(s: System, step: Step, m: Model)
    requires Enabled(s, step) && Active(s, m) <= |Held(s, m)|
    ensures Active(Next(s, step), m) <= |Held(Next(s, step), m)|
    ensures Active(s, m) == |Held(s, m)| ==>
      (Active(Next(s, step), m) == |Held(Next(s, step), m)|
       <==> !(step.DeleteEntry? && step.m == m && Held(s, m) != {}))
  {
    var s' := Next(s, step);
    if Mover(step).Some? {
      var r := step.r;
      HeldAfter(s, r, s'.requests[r], s'.entries, m);
      assert Holding(s.requests[r], m) ==> r in Held(s, m);
    } else {
      assert Held(s', m) == Held(s, m);
    }
  }

  /**
   Every step keeps the count of each model within its requests recorded and not finished, and keeps
   it equal to them exactly unless the step deletes the entry of a model that has some.
   */
  lemma StepKeepsInv(s: System, step: Step)
    requires Inv(s) && Enabled(s, step)
    ensures Inv(Next(s, step))
    ensures Exact(s) ==> (Exact(Next(s, step)) <==> !(step.DeleteEntry? && Held(s, step.m) != {}))
  {
    forall m
      ensures Active(Next(s, step), m) <= |Held(Next(s, step), m)|
      ensures Exact(s) ==>
        (Active(Next(s, step), m) == |Held(Next(s, step), m)|
         <==> !(step.DeleteEntry? && step.m == m && Held(s, m) != {}))
    {
      StepCounts(s, step, m);
    }
  }

  lemma FlyingAfter(s: System, step: Step, m: Model)
    requires Enabled(s, step) && Active(s, m) <= |Flying(s, m)|
    ensures Active(Next(s, step), m) <= |Flying(Next(s, step), m)|
       <==> !(step.Unwind? && s.requests[step.r].model == m && Active(s, m) == |Flying(s, m)|)
  {
    if step.Unwind? && s.requests[step.r].model == m {
      UnwindStep(s, step.r);
    } else {
      FlyingStep(s, step, m);
    }
    hide Next;
    hide Flying;
    hide Active;
  }

  /** An unwound request is no longer in flight, and its model's count stays. */
  lemma UnwindStep(s: System, r: nat)
    requires Enabled(s, Unwind(r))
    ensures var s', m := Next(s, Unwind(r)), s.requests[r].model;
      Active(s', m) == Active(s, m) && |Flying(s', m)| == |Flying(s, m)| - 1
  {
    var s', m := Next(s, Unwind(r)), s.requests[r].model;
    assert Flying(s, m) == Flying(s', m) + {r} && r !in Flying(s', m);
  }

  /** A step that unwinds no request of the model moves its count and its requests in flight together. */
  lemma FlyingStep(s: System, step: Step, m: Model)
    requires Enabled(s, step) && !(step.Unwind? && s.requests[step.r].model == m)
    ensures |Flying(Next(s, step), m)| - |Flying(s, m)| == |Held(Next(s, step), m)| - |Held(s, m)|
    ensures Active(Next(s, step), m) - Active(s, m) <= |Flying(Next(s, step), m)| - |Flying(s, m)|
         || Active(Next(s, step), m) == 0
  {
    var s' := Next(s, step);
    HeldSplits(s, m);
    HeldSplits(s', m);
    assert Lost(s', m) == Lost(s, m);
    if Mover(step).Some? {
      HeldAfter(s, step.r, s'.requests[step.r], s'.entries, m);
    } else {
      assert Held(s', m) == Held(s, m);
    }
  }

  /**
   A step keeps all counts within the requests in flight exactly when it does not unwind a handler of a
   model whose count has no slack.
   */
  lemma StepKeepsWithinIff(s: System, step: Step)
    requires Within(s) && Enabled(s, step)
    ensures Within(Next(s, step))
       <==> !(step.Unwind? && var m := s.requests[step.r].model; Active(s, m) == |Flying(s, m)|)
  {
    forall m
      ensures Active(Next(s, step), m) <= |Flying(Next(s, step), m)|
         <==> !(step.Unwind? && s.requests[step.r].model == m && Active(s, m) == |Flying(s, m)|)
    {
      FlyingAfter(s, step, m);
    }
    if step.Unwind? {
      assert Active(Next(s, step), s.requests[step.r].model) == Active(s, s.requests[step.r].model);
    }
  }

  ghost predicate Possible(s: System, steps: seq<Step>)
    decreases |steps|
  {
    steps == [] || (Enabled(s, steps[0]) && Possible(Next(s, steps[0]), steps[1..]))
  }

  function Run(s: System, steps: seq<Step>): System
    requires Possible(s, steps)
    decreases |steps|
  {
    if steps == [] then s else Run(Next(s, steps[0]), steps[1..])
  }

  /** No entry is deleted while its model has a request recorded and not finished. */
  ghost predicate DeletesOnlyQuiet(s: System, steps: seq<Step>)
    requires Possible(s, steps)
    decreases |steps|
  {
    steps == [] ||
    (&& (steps[0].DeleteEntry? ==> Held(s, steps[0].m) == {})
     && DeletesOnlyQuiet(Next(s, steps[0]), steps[1..]))
  }

  lemma {:induction false} RunKeepsInv(s: System, steps: seq<Step>)
    requires Inv(s) && Possible(s, steps)
    ensures Inv(Run(s, steps))
    ensures Exact(s) && DeletesOnlyQuiet(s, steps) ==> Exact(Run(s, steps))
    decreases |steps|
  {
    if steps != [] {
      StepKeepsInv(s, steps[0]);
      hide Next;
      hide Inv;
      hide Exact;
      RunKeepsInv(Next(s, steps[0]), steps[1..]);
    }
  }

  /** All handlers read a memory string that parses. */
  predicate AllParse(s: System) {
    forall r | r in s.requests :: s.requests[r].parses
  }

  ghost predicate NoneLost(s: System) {
    forall r | r in s.requests :: s.requests[r].stage != Unwound
  }

  lemma {:induction false} RunKeepsHandlers(s: System, steps: seq<Step>)
    requires Possible(s, steps) && AllParse(s) && NoneLost(s)
    ensures AllParse(Run(s, steps)) && NoneLost(Run(s, steps))
    decreases |steps|
  {
    if steps != [] {
      RunKeepsHandlers(Next(s, steps[0]), steps[1..]);
    }
  }

  /**
   Over every interleaving: a request that is over has called FinishRequest once, or was unwound and has
   not; a count never exceeds the requests recorded and not finished, and is exactly that if entries
   are deleted only while there are none; and then the counts match the requests in flight if and only
   if no request was unwound.
   */
  lemma CountsAreSafe(s: System, steps: seq<Step>)
    requires Start(s) && Possible(s, steps)
    ensures var s' := Run(s, steps);
      && (forall r | r in s'.requests && s'.requests[r].stage == Done ::
            s'.requests[r].recorded == s'.requests[r].finished == 1)
      && (forall r | r in s'.requests && s'.requests[r].stage == Unwound ::
            s'.requests[r].recorded == 1 && s'.requests[r].finished == 0)
      && (forall m :: Active(s', m) <= |Flying(s', m)| + |Lost(s', m)|)
      && (DeletesOnlyQuiet(s, steps) ==>
            Exact(s') && ((forall m :: Active(s', m) == |Flying(s', m)|) <==> (forall m :: Lost(s', m) == {})))
  {
    StartIsExact(s);
    RunKeepsInv(s, steps);
    var s' := Run(s, steps);
    forall m
      ensures |Held(s', m)| == |Flying(s', m)| + |Lost(s', m)|
    {
      HeldSplits(s', m);
    }
  }

  lemma StartIsExact(s: System)
    requires Start(s)
    ensures Inv(s) && Exact(s)
  {
    forall m
      ensures Active(s, m) == |Held(s, m)|
    {
      assert Held(s, m) == {};
    }
  }

  /**
   If every memory string parses, no request is unwound: then a count never exceeds the requests in
   flight, is zero when there are none, and is exact if entries are deleted only while there are none.
   */
  lemma ParsedCountsAreSafe(s: System, steps: seq<Step>)
    requires Start(s) && Possible(s, steps) && AllParse(s)
    ensures var s' := Run(s, steps);
      && Within(s')
      && (forall m | Flying(s', m) == {} :: Active(s', m) == 0)
      && (DeletesOnlyQuiet(s, steps) ==> forall m :: Active(s', m) == |Flying(s', m)|)
  {
    CountsAreSafe(s, steps);
    RunKeepsHandlers(s, steps);
    var s' := Run(s, steps);
    forall m
      ensures Lost(s', m) == {}
    {
    }
  }

  /** As long as its entry is not deleted, a model with lost requests is never idle again, whatever happens. */
  lemma {:induction false} LossIsPermanent(s: System, steps: seq<Step>, m: Model, cutoff: int)
    requires Possible(s, steps) && DeleteEntry(m) !in steps
    requires Active(s, m) == |Held(s, m)| && Lost(s, m) != {}
    ensures var s' := Run(s, steps);
      && Lost(s, m) <= Lost(s', m) && Active(s', m) == |Held(s', m)| > 0
      && m in s'.entries && !Idle(s'.entries[m], cutoff)
    decreases |steps|
  {
    if steps == [] {
      HeldSplits(s, m);
      assert |Lost(s, m)| > 0;
    } else {
      StepCounts(s, steps[0], m);
      var s1 := Next(s, steps[0]);
      assert Lost(s, m) <= Lost(s1, m);
      LossIsPermanent(s1, steps[1..], m, cutoff);
    }
  }

  /** A memory string such as "abc": from any start, for any model, one request leaves its count at 1 for good. */
  lemma MalformedMemoryLeaks(s: System, r: nat, m: Model, now: int)
    requires Start(s) && r in s.requests && s.requests[r].model == m && !s.requests[r].parses
    ensures var steps := [SetEntryState(m, Nonexistent, now), Record(r, now), Dispatch(r), Unwind(r)];
      Possible(s, steps) && var s' := Run(s, steps);
        Flying(s', m) == {} && Active(s', m) == 1 && Lost(s', m) == {r}
  {
    var steps := [SetEntryState(m, Nonexistent, now), Record(r, now), Dispatch(r), Unwind(r)];
    var s1 := Next(s, steps[0]);
    var s2 := Next(s1, steps[1]);
    var s3 := Next(s2, steps[2]);
    var s4 := Next(s3, steps[3]);
    assert s3.requests[r].stage == EnsuringPod;
    assert s4.requests == s.requests[r := s.requests[r].(stage := Unwound, recorded := s.requests[r].recorded + 1)];
    Chain(s3, steps[3], []);
    Chain(s2, steps[2], [steps[3]]);
    Chain(s1, steps[1], [steps[2], steps[3]]);
    Chain(s, steps[0], [steps[1], steps[2], steps[3]]);
    assert [steps[0]] + [steps[1], steps[2], steps[3]] == steps;
    assert Flying(s4, m) == {} && Lost(s4, m) == {r};
  }

  lemma Chain(s: System, step: Step, rest: seq<Step>)
    requires Enabled(s, step) && Possible(Next(s, step), rest)
    ensures Possible(s, [step] + rest) && Run(s, [step] + rest) == Run(Next(s, step), rest)
  {
    assert ([step] + rest)[1..] == rest;
  }

  // What a request does first.

  /**
   A request that is dispatched as it was recorded creates a pod if and only if the registry has the model
   as nonexistent; for a model without an entry it only waits, as recording has made one in state Creating.
   */
  lemma FirstStageIff(s: System, r: nat, now: int)
    requires Enabled(s, Record(r, now))
    ensures var s1, m := Next(s, Record(r, now)), s.requests[r].model;
      Enabled(s1, Dispatch(r)) &&
      var stage := Next(s1, Dispatch(r)).requests[r].stage;
      && (stage == EnsuringPod <==> m in s.entries && s.entries[m].state == Nonexistent)
      && (stage == WaitingReady <==> m !in s.entries || s.entries[m].state == Creating)
      && (stage == Forwarding <==> m in s.entries && s.entries[m].state == Ready)
      && (stage == WaitingDeleted <==> m in s.entries && s.entries[m].state == Deleting)
  {
  }

  /** Where a string that does not parse ends a handler, told by whether its model is ready. */
  lemma PanicsIff(s: System, r: nat)
    requires r in s.requests && !s.requests[r].parses
    ensures var q := s.requests[r];
      Panics(s, r) <==>
        if !IsReady(s, q.model) then q.stage == EnsuringPod
        else q.stage == WaitingReady || (q.stage == Recorded && q.handler == OpenAI)
  {
  }

  /** What lets a request be forwarded: its model is ready, or it was waited for until it was. */
  predicate LetsForward(s: System, step: Step, r: nat) {
    match step
    case Dispatch(q) => q == r && r in s.requests && IsReady(s, s.requests[r].model)
    case EnsureReturned(q, ok) => q == r && ok
    case ReadyReturned(q, ok) => q == r && ok
    case _ => false
  }

  /** What makes a request create a pod: there is none, or the one that was being deleted is gone. */
  predicate LetsEnsure(s: System, step: Step, r: nat) {
    match step
    case Dispatch(q) =>
      q == r && r in s.requests &&
      var m := s.requests[r].model; m in s.entries ==> s.entries[m].state == Nonexistent
    case DeletedReturned(q) => q == r
    case _ => false
  }

  lemma StageCause(s: System, step: Step, r: nat)
    requires Enabled(s, step) && StageOf(Next(s, step), r) != StageOf(s, r)
    ensures StageOf(Next(s, step), r) == Forwarding ==> LetsForward(s, step, r)
    ensures StageOf(Next(s, step), r) == EnsuringPod ==> LetsEnsure(s, step, r)
  {
  }

  /** In every run, each request being forwarded, or creating a pod, has come there for one of these reasons. */
  lemma {:induction false} StagesHaveCauses(s: System, steps: seq<Step>, r: nat) returns (i: nat)
    requires Possible(s, steps) && StageOf(s, r) !in {Forwarding, EnsuringPod}
    requires StageOf(Run(s, steps), r) in {Forwarding, EnsuringPod}
    ensures i < |steps|
    ensures StageOf(Run(s, steps), r) == Forwarding ==> LetsForward(Upto(s, steps, i), steps[i], r)
    ensures StageOf(Run(s, steps), r) == EnsuringPod ==> LetsEnsure(Upto(s, steps, i), steps[i], r)
    decreases |steps|
  {
    i := LastChange(s, steps, r);
    StageCause(Upto(s, steps, i), steps[i], r);
    hide Next;
  }

  /** The last step that changes the stage of a request. */
  lemma {:induction false} LastChange(s: System, steps: seq<Step>, r: nat) returns (i: nat)
    requires Possible(s, steps) && StageOf(Run(s, steps), r) != StageOf(s, r)
    ensures i < |steps| && Enabled(Upto(s, steps, i), steps[i])
    ensures StageOf(Next(Upto(s, steps, i), steps[i]), r) == StageOf(Run(s, steps), r) != StageOf(Upto(s, steps, i), r)
    decreases |steps|
  {
    var t := Next(s, steps[0]);
    hide Next;
    if StageOf(Run(t, steps[1..]), r) != StageOf(t, r) {
      var k := LastChange(t, steps[1..], r);
      i := k + 1;
    } else {
      i := 0;
    }
  }

  // The time of the last use.

  function Upto(s: System, steps: seq<Step>, i: nat): System
    requires Possible(s, steps) && i <= |steps|
    decreases i
  {
    if i == 0 then s else Upto(Next(s, steps[0]), steps[1..], i - 1)
  }

  lemma {:induction false} UptoEnd(s: System, steps: seq<Step>)
    requires Possible(s, steps)
    ensures Upto(s, steps, |steps|) == Run(s, steps)
    decreases |steps|
  {
    hide Next;
    if steps != [] {
      UptoEnd(Next(s, steps[0]), steps[1..]);
    }
  }

  /** A request for the model is recorded, or its entry is made by setting a state. */
  predicate Uses(s: System, step: Step, m: Model) {
    match step
    case Record(r, _) => r in s.requests && s.requests[r].model == m
    case SetEntryState(other, _, _) => other == m && m !in s.entries
    case _ => false
  }

  predicate Timed(step: Step) {
    step.Record? || step.SetEntryState?
  }

  ghost predicate UsedAt(s: System, steps: seq<Step>, m: Model, i: nat)
    requires Possible(s, steps)
  {
    i < |steps| && Uses(Upto(s, steps, i), steps[i], m)
  }

  /** The last step that uses the model, with its entry kept from then on. */
  ghost predicate LastUsedAt(s: System, steps: seq<Step>, m: Model, i: nat)
    requires Possible(s, steps)
  {
    && UsedAt(s, steps, m, i) && Timed(steps[i])
    && forall j: nat | i < j < |steps| :: !UsedAt(s, steps, m, j) && steps[j] != DeleteEntry(m)
  }

  lemma UseOfStep(s: System, step: Step, m: Model)
    requires Enabled(s, step) && m in Next(s, step).entries
    ensures Uses(s, step, m) ==> Timed(step) && Next(s, step).entries[m].lastRequest == step.now
    ensures !Uses(s, step, m) ==>
      step != DeleteEntry(m) && m in s.entries && Next(s, step).entries[m].lastRequest == s.entries[m].lastRequest
  {
  }

  lemma UsedLater(s: System, steps: seq<Step>, m: Model, j: nat)
    requires Possible(s, steps) && 0 < j <= |steps|
    ensures UsedAt(s, steps, m, j) <==> UsedAt(Next(s, steps[0]), steps[1..], m, j - 1)
  {
    hide Next;
    hide Uses;
  }

  /**
   An entry has the time of the last step that used its model; or nothing has used it, and it has the time
   it started with.
   */
  lemma {:induction false} LastUse(s: System, steps: seq<Step>, m: Model) returns (i: Option<nat>)
    requires Possible(s, steps) && m in Run(s, steps).entries
    ensures i.Some? ==>
      LastUsedAt(s, steps, m, i.value) && Run(s, steps).entries[m].lastRequest == steps[i.value].now
    ensures i == None ==>
      && m in s.entries && Run(s, steps).entries[m].lastRequest == s.entries[m].lastRequest
      && forall j: nat | j < |steps| :: !UsedAt(s, steps, m, j) && steps[j] != DeleteEntry(m)
    decreases |steps|
  {
    if steps == [] {
      return None;
    }
    var t := Next(s, steps[0]);
    var k := LastUse(t, steps[1..], m);
    hide Next;
    hide Uses;
    hide UsedAt;
    forall j: nat | 0 < j < |steps|
      ensures UsedAt(s, steps, m, j) <==> UsedAt(t, steps[1..], m, j - 1)
      ensures steps[j] == steps[1..][j - 1]
    {
      UsedLater(s, steps, m, j);
    }
    if k.Some? {
      i := Some(k.value + 1);
    } else {
      UseOfStep(s, steps[0], m);
      FirstUse(s, steps, m);
      i := if Uses(s, steps[0], m) then Some(0) else None;
    }
  }

  lemma FirstUse(s: System, steps: seq<Step>, m: Model)
    requires Possible(s, steps) && steps != []
    ensures UsedAt(s, steps, m, 0) <==> Uses(s, steps[0], m)
  {
  }

  /** Time does not go back. */
  predicate Rising(steps: seq<Step>) {
    forall i, j | 0 <= i < j < |steps| && Timed(steps[i]) && Timed(steps[j]) :: steps[i].now <= steps[j].now
  }

  /** In every run, a model idle at a cutoff has had no request recorded at or after it. */
  lemma IdleIsUnused(s: System, steps: seq<Step>, m: Model, cutoff: int, j: nat)
    requires Start(s) && Possible(s, steps) && Rising(steps)
    requires m in Run(s, steps).entries && Idle(Run(s, steps).entries[m], cutoff)
    requires UsedAt(s, steps, m, j) && steps[j].Record?
    ensures steps[j].now < cutoff
  {
    var i := LastUse(s, steps, m);
    hide Next;
    hide UsedAt;
  }

  /**
   What is listed for eviction, in every run whose memory strings parse and in which entries are deleted
   only while their model has no request: exactly the models with no request in flight whose last use is
   before the cutoff, in the order of those uses.
   */
  lemma ListingIsLeastRecentlyUsed(s: System, steps: seq<Step>, ms: seq<Model>, cutoff: int)
    requires Start(s) && Possible(s, steps) && AllParse(s) && DeletesOnlyQuiet(s, steps)
    requires IdleListing(ms, Run(s, steps).entries, cutoff)
    ensures forall m, i: nat | m in Run(s, steps).entries && LastUsedAt(s, steps, m, i) ::
      m in ms <==> Flying(Run(s, steps), m) == {} && steps[i].now < cutoff
    ensures forall a, b, i: nat, j: nat
      | 0 <= a < b < |ms| && LastUsedAt(s, steps, ms[a], i) && LastUsedAt(s, steps, ms[b], j) ::
      steps[i].now <= steps[j].now
  {
    ParsedCountsAreSafe(s, steps);
    var s' := Run(s, steps);
    forall m, i: nat | m in s'.entries && LastUsedAt(s, steps, m, i)
      ensures s'.entries[m].lastRequest == steps[i].now
      ensures m in ms <==> Flying(s', m) == {} && steps[i].now < cutoff
    {
      LastUseIs(s, steps, m, i);
      assert Active(s', m) == |Flying(s', m)|;
      hide Next;
      hide Flying;
    }
    hide LastUsedAt;
    hide Flying;
    hide Run;
  }

  lemma LastUseIs(s: System, steps: seq<Step>, m: Model, i: nat)
    requires Possible(s, steps) && m in Run(s, steps).entries && LastUsedAt(s, steps, m, i)
    ensures Run(s, steps).entries[m].lastRequest == steps[i].now
  {
    var k := LastUse(s, steps, m);
    hide UsedAt;
    hide Next;
  }
}
