/** All downloads of the manager together: the semaphore, the tracked statuses, and the goroutines. */
module ManagerRuns {
  import opened DownloadStatus

  datatype Stage = Waiting | Running | Exited

  /** One goroutine; `history` is every phase its status has been in. */
  datatype Task = Task(model: string, stage: Stage, phase: Phase, history: seq<Phase>)

  /** `tokens` is the fill of the semaphore channel, `tracked` the status map of the manager. */
  datatype State = State(max: nat, tokens: nat, tasks: seq<Task>, tracked: map<string, nat>)

  datatype Step =
    | Start(model: string) | Acquire(id: nat) | Move(id: nat, phase: Phase) | Exit(id: nat)
    | RemoveStatus(model: string)

  predicate Enabled(s: State, step: Step) {
    match step
    case Start(_) => true
    case Acquire(id) => id < |s.tasks| && s.tasks[id].stage == Waiting && s.tokens < s.max
    case Move(id, phase) => id < |s.tasks| && s.tasks[id].stage == Running && Edge(s.tasks[id].phase, phase)
    case Exit(id) => id < |s.tasks| && s.tasks[id].stage == Running && Terminal(s.tasks[id].phase)
    case RemoveStatus(_) => true
  }

  function Apply(s: State, step: Step): State
    requires Enabled(s, step)
  {
    match step
    case Start(model) =>
      if model in s.tracked then s
      else s.(tasks := s.tasks + [Task(model, Waiting, Pending, [Pending])], tracked := s.tracked[model := |s.tasks|])
    case Acquire(id) =>
      s.(tasks := s.tasks[id := s.tasks[id].(stage := Running)], tokens := s.tokens + 1)
    case Move(id, phase) =>
      s.(tasks := s.tasks[id := s.tasks[id].(phase := phase, history := s.tasks[id].history + [phase])])
    case Exit(id) =>
      s.(tasks := s.tasks[id := s.tasks[id].(stage := Exited)], tokens := if s.tokens > 0 then s.tokens - 1 else 0)
    case RemoveStatus(model) => s.(tracked := s.tracked - {model})
  }

  predicate Run(s: State, steps: seq<Step>)
    decreases |steps|
  {
    steps == [] || (Enabled(s, steps[0]) && Run(Apply(s, steps[0]), steps[1..]))
  }

  function After(s: State, steps: seq<Step>): State
    requires Run(s, steps)
    decreases |steps|
  {
    if steps == [] then s else After(Apply(s, steps[0]), steps[1..])
  }

  // Sums over the goroutines.

  function Sum(tasks: seq<Task>, weight: Task -> nat): nat {
    if tasks == [] then 0 else Sum(tasks[..|tasks| - 1], weight) + weight(tasks[|tasks| - 1])
  }

  lemma {:induction false} SumOfUpdate(tasks: seq<Task>, weight: Task -> nat, id: nat, t: Task)
    requires id < |tasks|
    ensures Sum(tasks[id := t], weight) + weight(tasks[id]) == Sum(tasks, weight) + weight(t)
  {
    var n := |tasks| - 1;
    if id < n {
      assert tasks[id := t][..n] == tasks[..n][id := t];
      SumOfUpdate(tasks[..n], weight, id, t);
    } else {
      assert tasks[id := t][..n] == tasks[..n];
    }
  }

  lemma SumOfAppend(tasks: seq<Task>, weight: Task -> nat, t: Task)
    ensures Sum(tasks + [t], weight) == Sum(tasks, weight) + weight(t)
  {
    assert (tasks + [t])[..|tasks|] == tasks;
  }

  function PastSemaphore(t: Task): nat {
    if t.stage == Running then 1 else 0
  }

  /** Steps a goroutine has left at most. */
  function Work(t: Task): nat {
    match t.stage
    case Waiting => 4
    case Running => if t.phase == Pending then 3 else if t.phase == Downloading then 2 else 1
    case Exited => 0
  }

  // The invariants.

  predicate TaskInv(t: Task) {
    && Path(t.history) && t.history[|t.history| - 1] == t.phase
    && (t.stage == Waiting ==> t.phase == Pending)
    && (t.stage == Exited ==> Terminal(t.phase))
  }

  predicate TokensInv(s: State) {
    s.tokens == Sum(s.tasks, PastSemaphore) <= s.max
  }

  predicate TasksInv(s: State) {
    forall id | 0 <= id < |s.tasks| :: TaskInv(s.tasks[id])
  }

  predicate TrackedInv(s: State) {
    forall m | m in s.tracked :: s.tracked[m] < |s.tasks| && s.tasks[s.tracked[m]].model == m
  }

  predicate Inv(s: State) {
    TokensInv(s) && TasksInv(s) && TrackedInv(s)
  }

  predicate Live(t: Task) {
    !Terminal(t.phase)
  }

  /** Every download that still works on its files is the tracked one of its model. */
  predicate LiveIsTracked(s: State) {
    forall id: nat | id < |s.tasks| && Live(s.tasks[id]) ::
      s.tasks[id].model in s.tracked && s.tracked[s.tasks[id].model] == id
  }

  lemma StepKeepsTokens(s: State, step: Step)
    requires TokensInv(s) && Enabled(s, step)
    ensures TokensInv(Apply(s, step))
  {
    var t := Apply(s, step);
    hide Sum;
    if step.Start? {
      if step.model !in s.tracked {
        SumOfAppend(s.tasks, PastSemaphore, t.tasks[|s.tasks|]);
      }
    } else if !step.RemoveStatus? {
      SumOfUpdate(s.tasks, PastSemaphore, step.id, t.tasks[step.id]);
    }
  }

  lemma StepKeepsTasks(s: State, step: Step)
    requires TasksInv(s) && Enabled(s, step)
    ensures TasksInv(Apply(s, step))
  {
    hide Path;
    if step.Start? {
      NewPath();
    } else if step.Move? {
      LongerPath(s.tasks[step.id].history, step.phase);
    }
  }

  /** The semaphore counts exactly the goroutines past it, and every phase history is a path. */
  lemma StepKeepsInv(s: State, step: Step)
    requires Inv(s) && Enabled(s, step)
    ensures Inv(Apply(s, step))
  {
    StepKeepsTokens(s, step);
    StepKeepsTasks(s, step);
    hide TokensInv;
    hide TasksInv;
  }

  lemma NewPath()
    ensures Path([Pending])
  {
  }

  lemma LongerPath(history: seq<Phase>, phase: Phase)
    requires Path(history) && Edge(history[|history| - 1], phase)
    ensures Path(history + [phase])
  {
  }

  /**
   A step keeps live downloads tracked exactly when it does not remove the status of a live one: the
   manager itself does not check what its comment asks of callers.
   */
  lemma StepKeepsLiveTrackedIff(s: State, step: Step)
    requires Inv(s) && LiveIsTracked(s) && Enabled(s, step)
    ensures LiveIsTracked(Apply(s, step))
       <==> (step.RemoveStatus? && step.model in s.tracked ==> !Live(s.tasks[s.tracked[step.model]]))
  {
    var t := Apply(s, step);
    if step.RemoveStatus? && step.model in s.tracked {
      var id := s.tracked[step.model];
      assert t.tasks[id].model == step.model;
    }
  }

  predicate Careful(s: State, step: Step) {
    step.RemoveStatus? && step.model in s.tracked && s.tracked[step.model] < |s.tasks| ==>
      !Live(s.tasks[s.tracked[step.model]])
  }

  predicate CarefulRun(s: State, steps: seq<Step>)
    requires Run(s, steps)
    decreases |steps|
  {
    steps == [] || (Careful(s, steps[0]) && CarefulRun(Apply(s, steps[0]), steps[1..]))
  }

  /** In every run the semaphore holds; and if statuses are removed only when terminal, live downloads stay tracked. */
  lemma {:induction false} RunKeepsInv(s: State, steps: seq<Step>)
    requires Inv(s) && Run(s, steps)
    ensures Inv(After(s, steps)) && After(s, steps).max == s.max
    ensures LiveIsTracked(s) && CarefulRun(s, steps) ==> LiveIsTracked(After(s, steps))
    decreases |steps|
  {
    if steps != [] {
      var t := Apply(s, steps[0]);
      StepKeepsInv(s, steps[0]);
      if LiveIsTracked(s) {
        StepKeepsLiveTrackedIff(s, steps[0]);
      }
      hide Apply;
      hide Inv;
      hide LiveIsTracked;
      RunKeepsInv(t, steps[1..]);
    }
  }

  /** What the two invariants mean: the limit, one live download per model, and only legal phase histories. */
  lemma ManagerIsSafe(max: nat, steps: seq<Step>)
    requires Run(State(max, 0, [], map[]), steps)
    ensures var s := After(State(max, 0, [], map[]), steps);
      && Sum(s.tasks, PastSemaphore) <= max
      && (forall id | 0 <= id < |s.tasks| :: Path(s.tasks[id].history))
      && (CarefulRun(State(max, 0, [], map[]), steps) ==>
            forall i: nat, j: nat | i < |s.tasks| && j < |s.tasks| && s.tasks[i].model == s.tasks[j].model ::
              Live(s.tasks[i]) && Live(s.tasks[j]) ==> i == j)
  {
    RunKeepsInv(State(max, 0, [], map[]), steps);
    var s := After(State(max, 0, [], map[]), steps);
    forall id | 0 <= id < |s.tasks| ensures Path(s.tasks[id].history) {
      assert TaskInv(s.tasks[id]);
    }
  }

  // What a goroutine does to its status.

  function Moves(id: nat, phases: seq<Phase>): seq<Step> {
    seq(|phases|, i requires 0 <= i < |phases| => Move(id, phases[i]))
  }

  /** A goroutine after its status has been moved through the phases. */
  function Moved(t: Task, phases: seq<Phase>): Task {
    if phases == [] then t
    else Task(t.model, t.stage, phases[|phases| - 1], t.history + phases)
  }

  /**
   A running goroutine can be moved through phases if and only if they continue its history to a path. A
   download whose status has taken a path is such a run, and at a terminal phase the goroutine can exit.
   */
  lemma {:induction false} MovesIff(s: State, id: nat, phases: seq<Phase>)
    requires id < |s.tasks| && s.tasks[id].stage == Running && TaskInv(s.tasks[id])
    ensures Run(s, Moves(id, phases)) <==> Path(s.tasks[id].history + phases)
    ensures Run(s, Moves(id, phases)) ==>
      var e := After(s, Moves(id, phases));
      && e == s.(tasks := s.tasks[id := Moved(s.tasks[id], phases)])
      && (Enabled(e, Exit(id)) <==> Terminal(e.tasks[id].phase))
    decreases |phases|
  {
    var t := s.tasks[id];
    if phases == [] {
      assert t.history + phases == t.history && s.tasks[id := t] == s.tasks;
    } else {
      var q, rest := phases[0], phases[1..];
      PathStepIff(t.history, q, rest);
      assert t.history + phases == t.history + [q] + rest;
      assert Moves(id, phases)[0] == Move(id, q) && Moves(id, phases)[1..] == Moves(id, rest);
      if Edge(t.phase, q) {
        var s1 := Apply(s, Move(id, q));
        LongerPath(t.history, q);
        assert Moved(s1.tasks[id], rest) == Moved(t, phases);
        hide Path;
        MovesIff(s1, id, rest);
        assert s1.tasks[id := Moved(t, phases)] == s.tasks[id := Moved(t, phases)];
      }
    }
  }

  lemma {:induction false} RunSnoc(s: State, steps: seq<Step>, step: Step)
    requires Run(s, steps) && Enabled(After(s, steps), step)
    ensures Run(s, steps + [step]) && After(s, steps + [step]) == Apply(After(s, steps), step)
    decreases |steps|
  {
    var all := steps + [step];
    hide Enabled;
    hide Apply;
    if steps == [] {
      assert all == [step] && all[1..] == [];
      assert Run(Apply(s, step), []) && After(Apply(s, step), []) == Apply(s, step);
    } else {
      assert all[0] == steps[0] && all[1..] == steps[1..] + [step];
      RunSnoc(Apply(s, steps[0]), steps[1..], step);
    }
  }

  /** The phases of a whole download, as one goroutine goes through them between semaphore and exit. */
  lemma DownloadIsARun(s: State, id: nat, phases: seq<Phase>)
    requires id < |s.tasks| && s.tasks[id] == Task(s.tasks[id].model, Running, Pending, [Pending])
    requires Path(phases) && Terminal(phases[|phases| - 1])
    ensures var steps := Moves(id, phases[1..]) + [Exit(id)];
      Run(s, steps) && var e := After(s, steps);
        id < |e.tasks| && e.tasks[id] == Task(s.tasks[id].model, Exited, phases[|phases| - 1], phases)
  {
    NewPath();
    assert [Pending] + phases[1..] == phases;
    MovesIff(s, id, phases[1..]);
    RunSnoc(s, Moves(id, phases[1..]), Exit(id));
    hide Run;
    hide After;
    hide Path;
  }

  lemma PathStepIff(history: seq<Phase>, q: Phase, rest: seq<Phase>)
    requires Path(history)
    ensures Path(history + [q] + rest) ==> Edge(history[|history| - 1], q)
  {
    var all, n := history + [q] + rest, |history|;
    assert all[n - 1] == history[n - 1] && all[n - 1 + 1] == q;
  }

  // Every goroutine comes to its end.

  lemma {:induction false} SomeRunning(tasks: seq<Task>) returns (id: nat)
    requires Sum(tasks, PastSemaphore) > 0
    ensures id < |tasks| && tasks[id].stage == Running
  {
    id := |tasks| - 1;
    if tasks[id].stage != Running {
      id := SomeRunning(tasks[..id]);
    }
  }

  /** As long as one has not exited, one can go on. */
  lemma Progress(s: State, id: nat) returns (step: Step)
    requires Inv(s) && s.max > 0 && id < |s.tasks| && s.tasks[id].stage != Exited
    ensures Enabled(s, step) && (step.Acquire? || step.Move? || step.Exit?)
  {
    var k := id;
    if s.tasks[id].stage == Waiting {
      if s.tokens < s.max {
        return Acquire(id);
      }
      k := SomeRunning(s.tasks);
    }
    step := if Terminal(s.tasks[k].phase) then Exit(k) else Move(k, Failed);
  }

  /** And it can only do so a bounded number of times: four steps a download. */
  lemma StepsAreWork(s: State, step: Step)
    requires Inv(s) && Enabled(s, step)
    ensures Sum(Apply(s, step).tasks, Work) <= Sum(s.tasks, Work) + if step.Start? then 4 else 0
    ensures step.Acquire? || step.Move? || step.Exit? ==> Sum(Apply(s, step).tasks, Work) < Sum(s.tasks, Work)
  {
    var t := Apply(s, step);
    hide Path;
    if step.Start? {
      if step.model !in s.tracked {
        SumOfAppend(s.tasks, Work, t.tasks[|s.tasks|]);
      }
    } else if !step.RemoveStatus? {
      assert TaskInv(s.tasks[step.id]);
      SumOfUpdate(s.tasks, Work, step.id, t.tasks[step.id]);
    }
  }

  /** Removing the status of a live download lets a second one start on the same files. */
  lemma CarelessRemoval(model: string)
    ensures var steps := [Start(model), RemoveStatus(model), Start(model)];
      var s := State(1, 0, [], map[]);
      Run(s, steps) && var e := After(s, steps);
        |e.tasks| == 2 && e.tasks[0].model == e.tasks[1].model && Live(e.tasks[0]) && Live(e.tasks[1])
  {
    var steps := [Start(model), RemoveStatus(model), Start(model)];
    var s := State(1, 0, [], map[]);
    assert steps[1..] == [RemoveStatus(model), Start(model)] && steps[1..][1..] == [Start(model)];
    var t := Apply(Apply(s, steps[0]), steps[1]);
    assert Run(t, [Start(model)]) && After(t, [Start(model)]) == Apply(t, Start(model));
    assert Run(Apply(s, steps[0]), steps[1..]);
  }
}
