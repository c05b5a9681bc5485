/**
 Safety of the running pods over whole runs of the proxy and the controller, and what each of its
 assumptions is for.
 */
module ClusterRuns {
  import opened MapSums
  import opened Budget
  import opened Registry
  import opened Proxy
  import R = RequestCounts

  /** In the eviction of the step, every lookup that failed was of a pod that does not exist. */
  ghost predicate AccurateLookups(w: World, s: Step) {
    s.Create? ==> forall i | 0 <= i < |s.fates| && i < |s.idle| && s.fates[i] == Evicted(true) :: s.idle[i] !in w.pods
  }

  lemma EvictionKeepsSafe(c: Config, w: World, w': World, m: Model, cutoff: int,
                          idle: seq<Model>, fates: seq<Fate>, ops: seq<Op>)
    requires Safe(c, w) && EvictionWalk(w, w', m, cutoff, idle, fates, ops)
    requires forall i | 0 <= i < |fates| && fates[i] == Evicted(true) :: idle[i] !in w.pods
    ensures Safe(c, w')
  {
    hide LegalRun;
    hide Exec;
    hide IdleListing;
    forall i | 0 <= i < |fates| && fates[i].Evicted?
      ensures idle[i] !in w'.pods
    {
      assert fates[i] == Evicted(false) ==> idle[i] in Removed(idle, fates);
    }
    assert w'.pods !! Victims(idle, fates);
    RunningMonotone(w'.pods, w.pods, c.memoryOf);
  }

  lemma CreationKeepsSafe(c: Config, w: World, w': World, m: Model, now: int, outcome: Outcome, op: Op)
    requires Safe(c, w) && Creation(c, w, w', m, now, outcome, op) && Fits(c, w.tracker, m)
    requires outcome != AllocateFailed
    ensures Safe(c, w')
    ensures outcome == Allocated && c.maxMemory > 0 ==> TotalAllocated(w'.tracker) <= c.maxMemory
  {
    if outcome == Allocated {
      GrantTotal(w.tracker, op);
      RunningWithinAllocated(w', c.memoryOf);
    }
  }

  lemma GrantTotal(t: State, op: Op)
    requires op.Allocate? && HasRoom(t, op.model, op.memory, op.checkPool)
    ensures TotalAllocated(Apply(t, op)) <= TotalAllocated(t) + op.memory
  {
    var held, m := Memories(t.allocations), op.model;
    SumInsert(held, m, op.memory);
    assert Memories(Apply(t, op).allocations) == held[m := op.memory];
    SumMonotone(held - {m}, held);
  }

  lemma CreateKeepsSafe(c: Config, w: World, w': World, s: Step)
    requires s.Create? && Safe(c, w) && CreateStep(c, w, w', s) && AccurateLookups(w, s)
    requires |c.selectorOf(s.m)| <= 1
    ensures Safe(c, w')
  {
    AllocationSucceeds(c, w, w', s);
    hide HasRoom;
    hide Safe;
    hide Fits;
    if s.mid != w && w' != w {
      EvictionKeepsSafe(c, w, s.mid, s.m, s.now - c.minIdle, s.idle, s.fates, s.ops);
    }
    hide EvictionWalk;
    if w' != w && Fits(c, s.mid.tracker, s.m) {
      CreationKeepsSafe(c, s.mid, w', s.m, s.now, s.outcome, s.op);
    }
  }

  lemma StepKeepsSafe(c: Config, w: World, w': World, s: Step)
    requires Safe(c, w) && StepOf(c, w, w', s) && AccurateLookups(w, s)
    requires forall m :: |c.selectorOf(m)| <= 1
    ensures Safe(c, w')
  {
    if s.Create? {
      CreateKeepsSafe(c, w, w', s);
    } else {
      RunningMonotone(w'.pods, w.pods, c.memoryOf);
    }
  }

  /** A run: a world before and after each step. */
  ghost predicate Behaviour(c: Config, ws: seq<World>, steps: seq<Step>) {
    |ws| == |steps| + 1 && forall i | 0 <= i < |steps| :: StepOf(c, ws[i], ws[i + 1], steps[i])
  }

  /**
   In every run of creations with their evictions, waits, syncs, idle deletions, missing-pod
   reconciliations, external pod losses, request handling and budget changes, every pod that exists
   has an allocation and the pods together stay within the memory limit, even while syncs push the
   allocation total above it. The steps are atomic, lookups that fail are of missing pods, and
   selectors have at most one entry.
   */
  lemma {:induction false} RunsAreSafe(c: Config, ws: seq<World>, steps: seq<Step>)
    requires Behaviour(c, ws, steps) && Safe(c, ws[0])
    requires forall m :: |c.selectorOf(m)| <= 1
    requires forall i | 0 <= i < |steps| :: AccurateLookups(ws[i], steps[i])
    ensures forall i | 0 <= i < |ws| :: Safe(c, ws[i])
    decreases |steps|
  {
    hide StepOf;
    hide AccurateLookups;
    hide Safe;
    if steps != [] {
      var n := |steps| - 1;
      RunsAreSafe(c, ws[..n + 1], steps[..n]);
      assert forall i | 0 <= i < n + 1 :: ws[..n + 1][i] == ws[i];
      StepKeepsSafe(c, ws[n], ws[n + 1], steps[n]);
    }
  }

  /**
   What a step does to the memory of its model: gone with a missing or idle pod, all of it and no other;
   held once the pod is created or found ready.
   */
  lemma StepAccounts(c: Config, w: World, w': World, s: Step)
    requires StepOf(c, w, w', s)
    ensures s.PodMissing? || s.IdleDelete? ==>
      && s.m !in w'.tracker.allocations
      && TotalAllocated(w'.tracker) + (if s.m in w.tracker.allocations then w.tracker.allocations[s.m].memory else 0)
         == TotalAllocated(w.tracker)
    ensures (s.Create? && s.outcome == Allocated) || s.SyncReady? || (s.WaitReady? && s.wait == Reached) ==>
      && s.m in w'.tracker.allocations
      && (s.Create? || s.m !in w.tracker.allocations ==> w'.tracker.allocations[s.m].memory == c.memoryOf(s.m))
  {
    if (s.PodMissing? || s.IdleDelete?) && s.m in w.tracker.allocations {
      ReleaseTotal(w.tracker, s.m, s.op.oldPool);
    }
    hide TotalAllocated;
    hide EvictionWalk;
    hide Fits;
    hide HasRoom;
    hide Legal;
    hide Charge;
  }

  /** A creation that has failed, a wait that has timed out, or a pod that is missing. */
  predicate Fails(s: Step) {
    match s
    case Create(_, _, outcome, _, _, _, _, _) => outcome in {BuildFailed, CreateFailed, AllocateFailed}
    case WaitReady(_, _, wait, _) => wait == TimedOut
    case PodMissing(_, _, _) => true
    case _ => false
  }

  /** After such a step the next request for the model creates its pod again. */
  lemma FailureIsRetried(c: Config, w: World, w': World, s: Step, sys: R.System, r: nat, now: int)
    requires StepOf(c, w, w', s) && Fails(s) && sys.entries == w'.entries
    requires R.Enabled(sys, R.Record(r, now)) && sys.requests[r].model == s.m
    ensures var sys' := R.Next(sys, R.Record(r, now));
      R.Enabled(sys', R.Dispatch(r)) && R.Next(sys', R.Dispatch(r)).requests[r].stage == R.EnsuringPod
  {
    R.FirstStageIff(sys, r, now);
    hide R.Next;
    hide EvictionWalk;
    hide HasRoom;
    hide Fits;
    hide Legal;
    hide Apply;
    assert w'.entries[s.m].state == Nonexistent;
  }

  /** A model that the registry has as ready has a pod. */
  ghost predicate ReadyHasPod(w: World) {
    forall m :: IsReady(w.entries, m) ==> m in w.pods
  }

  /** A ready model loses its pod from outside, or a model whose pod is gone is taken to be ready. */
  predicate Misses(w: World, s: Step) {
    (s.PodLost? && IsReady(w.entries, s.m)) || (s.PodSeen? && s.m !in w.pods)
  }

  lemma EvictionKeepsReady(w: World, w': World, m: Model, cutoff: int, idle: seq<Model>, fates: seq<Fate>, ops: seq<Op>)
    requires ReadyHasPod(w) && EvictionWalk(w, w', m, cutoff, idle, fates, ops)
    ensures ReadyHasPod(w')
  {
    hide LegalRun;
    hide Exec;
    hide IdleListing;
  }

  /**
   Whatever fails, a step keeps every ready model's pod there, unless it is the loss of that pod from
   outside or reports a pod as ready that is gone by then: so a request that finds its model ready need
   not create a pod.
   */
  lemma StepKeepsReadyIff(c: Config, w: World, w': World, s: Step)
    requires ReadyHasPod(w) && StepOf(c, w, w', s)
    ensures ReadyHasPod(w') <==> !Misses(w, s)
  {
    if s.Create? {
      CreateKeepsReady(c, w, w', s);
    }
    hide CreateStep;
    hide Apply;
    hide Legal;
  }

  lemma CreateKeepsReady(c: Config, w: World, w': World, s: Step)
    requires s.Create? && ReadyHasPod(w) && CreateStep(c, w, w', s)
    ensures ReadyHasPod(w')
  {
    if s.mid != w && w' != w {
      EvictionKeepsReady(w, s.mid, s.m, s.now - c.minIdle, s.idle, s.fates, s.ops);
    }
    hide EvictionWalk;
    hide HasRoom;
    hide Fits;
    hide IsAllocate;
    hide Apply;
  }

  /** In every run, all ready models have their pods at every moment if and only if no step is one of these. */
  lemma {:induction false} ReadyThroughoutIff(c: Config, ws: seq<World>, steps: seq<Step>)
    requires Behaviour(c, ws, steps) && ReadyHasPod(ws[0])
    ensures (forall i | 0 <= i < |ws| :: ReadyHasPod(ws[i])) <==> (forall i | 0 <= i < |steps| :: !Misses(ws[i], steps[i]))
    decreases |steps|
  {
    hide StepOf;
    hide ReadyHasPod;
    hide Misses;
    if steps != [] {
      var n := |steps| - 1;
      ReadyThroughoutIff(c, ws[..n + 1], steps[..n]);
      assert forall i | 0 <= i < n + 1 :: ws[..n + 1][i] == ws[i];
      assert forall i | 0 <= i < n :: steps[..n][i] == steps[i];
      if ReadyHasPod(ws[n]) {
        StepKeepsReadyIff(c, ws[n], ws[n + 1], steps[n]);
      }
    }
  }

  /** The state in which the controller starts. */
  lemma StartIsSafe(c: Config)
    ensures Safe(c, World({}, Empty, map[]))
  {
    assert (map m | m in {} :: c.memoryOf(m)) == map[];
  }

  // What the assumptions are for.

  /** One eviction keeps the running pods covered exactly when it does not follow a failed lookup of an existing pod. */
  lemma EvictionCoverageIff(w: World, w': World, requested: Model, v: Model, lookupFailed: bool, op: Op)
    requires Covered(w) && v != requested && v in w.tracker.allocations
    requires EvictionTurn(w, w', requested, v, Evicted(lookupFailed), op)
    ensures Covered(w') <==> !(lookupFailed && v in w.pods)
  {
  }

  /** Releasing a model without deleting its pod, as the deletion of its resource does, uncovers exactly an existing pod. */
  lemma ReleaseCoverageIff(w: World, m: Model, op: Op)
    requires Covered(w) && IsRelease(w.tracker, op, m)
    ensures Covered(w.(tracker := Apply(w.tracker, op))) <==> m !in w.pods
  {
  }

  /** After a restart nothing is allocated: the pods are covered again exactly when there are none. */
  lemma RestartCoverageIff(w: World)
    ensures Covered(World(w.pods, Empty, map[])) <==> w.pods == {}
  {
  }

  /**
   Whatever happened between a model's check and its allocation: the allocations stay within the limit if
   and only if the check would have passed once more, and the running pods if and only if the new one
   fits beside those that run by then.
   */
  lemma CommitIff(c: Config, w: World, w': World, m: Model, now: int, op: Op)
    requires Creation(c, w, w', m, now, Allocated, op) && c.maxMemory > 0
    requires m !in w.tracker.allocations && m !in w.pods
    ensures TotalAllocated(w'.tracker) <= c.maxMemory <==> Fits(c, w.tracker, m)
    ensures RunningMemory(w'.pods, c.memoryOf) <= c.maxMemory
       <==> RunningMemory(w.pods, c.memoryOf) + c.memoryOf(m) <= c.maxMemory
  {
    Committed(c, w, w', m, now, op);
  }

  /**
   So two models that each fit alone exceed the limit together, when both checks come before both
   allocations, exactly if they do not fit together.
   */
  lemma RacingChecksIff(c: Config, w0: World, w1: World, w2: World, a: Model, b: Model, now: int, opA: Op, opB: Op)
    requires Safe(c, w0) && c.maxMemory > 0 && a != b
    requires a !in w0.tracker.allocations && b !in w0.tracker.allocations
    requires Fits(c, w0.tracker, a) && Fits(c, w0.tracker, b)
    requires Creation(c, w0, w1, a, now, Allocated, opA) && Creation(c, w1, w2, b, now, Allocated, opB)
    ensures TotalAllocated(w2.tracker) <= c.maxMemory
       <==> TotalAllocated(w0.tracker) + c.memoryOf(a) + c.memoryOf(b) <= c.maxMemory
    ensures RunningMemory(w2.pods, c.memoryOf) <= c.maxMemory
       <==> RunningMemory(w0.pods, c.memoryOf) + c.memoryOf(a) + c.memoryOf(b) <= c.maxMemory
  {
    CommitIff(c, w1, w2, b, now, opB);
    Committed(c, w0, w1, a, now, opA);
  }

  lemma Committed(c: Config, w: World, w': World, m: Model, now: int, op: Op)
    requires Creation(c, w, w', m, now, Allocated, op)
    requires m !in w.tracker.allocations && m !in w.pods
    ensures TotalAllocated(w'.tracker) == TotalAllocated(w.tracker) + c.memoryOf(m)
    ensures RunningMemory(w'.pods, c.memoryOf) == RunningMemory(w.pods, c.memoryOf) + c.memoryOf(m)
  {
    var held := Memories(w.tracker.allocations);
    SumInsert(held, m, op.memory);
    assert held - {m} == held;
    assert Memories(w'.tracker.allocations) == held[m := op.memory];
    var running := map p | p in w.pods :: c.memoryOf(p);
    SumInsert(running, m, c.memoryOf(m));
    assert running - {m} == running;
    assert (map p | p in w'.pods :: c.memoryOf(p)) == running[m := c.memoryOf(m)];
  }

  /** Such a race: two pods of 6 under a limit of 10. */
  lemma RacingChecksExceedLimit()
    returns (c: Config, w0: World, w1: World, w2: World, a: Model, b: Model, opA: Op, opB: Op)
    ensures Safe(c, w0) && Fits(c, w0.tracker, a) && Fits(c, w0.tracker, b)
    ensures Creation(c, w0, w1, a, 0, Allocated, opA) && Creation(c, w1, w2, b, 0, Allocated, opB)
    ensures RunningMemory(w2.pods, c.memoryOf) > c.maxMemory > 0
  {
    a, b := Model("ns", "a"), Model("ns", "b");
    c := Config(10, 0, (m: Model) => 6, (m: Model) => map[]);
    opA := Op.Allocate(a, 6, map[], "default", "default", "default");
    opB := Op.Allocate(b, 6, map[], "default", "default", "default");
    w0 := World({}, Empty, map[]);
    w1 := World({} + {a}, Apply(Empty, opA), SetStateIn(map[], a, Creating, 0));
    w2 := World(w1.pods + {b}, Apply(w1.tracker, opB), SetStateIn(w1.entries, b, Creating, 0));
    StartIsSafe(c);
    assert Memories(Empty.allocations) == map[];
    RacingChecksIff(c, w0, w1, w2, a, b, 0, opA, opB);
  }
}
