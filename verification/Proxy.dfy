/**
 On-demand creation of pods under the global memory limit: the least-recently-used evictor, the
 creation path that calls it, and the controller's steps that give memory back.
 */
module Proxy {
  import opened MapSums
  import opened Budget
  import opened Registry

  datatype Reply = Succeeded | NotFound | AlreadyExists | Failed

  /**
   The pods of the cluster, behind an API whose calls may fail; a call that fails has no effect.
   `faults` counts the failed calls.
   */
  class Cluster {
    var pods: set<Model>
    ghost var faults: nat

    /** A call about another object: a backend to read, a condition to set. */
    method Call() returns (ok: bool)
      modifies this`faults
      ensures faults == old(faults) + if ok then 0 else 1
    {
      ok := *;
      faults := faults + if ok then 0 else 1;
    }

    method GetPod(m: Model) returns (r: Reply)
      modifies this`faults
      ensures r == Succeeded ==> m in pods
      ensures r == NotFound ==> m !in pods
      ensures r != AlreadyExists
      ensures faults == old(faults) + if r == Failed then 1 else 0
    {
      if * {
        faults := faults + 1;
        return Failed;
      }
      r := if m in pods then Succeeded else NotFound;
    }

    method DeletePod(m: Model) returns (r: Reply)
      modifies this
      ensures r == Succeeded || r == NotFound ==> pods == old(pods) - {m}
      ensures r == Failed ==> pods == old(pods)
      ensures r != AlreadyExists
      ensures faults == old(faults) + if r == Failed then 1 else 0
    {
      if * {
        faults := faults + 1;
        return Failed;
      }
      r := if m in pods then Succeeded else NotFound;
      pods := pods - {m};
    }

    method CreatePod(m: Model) returns (r: Reply)
      modifies this
      ensures r == Succeeded || r == AlreadyExists ==> pods == old(pods) + {m}
      ensures r == Failed ==> pods == old(pods)
      ensures r != NotFound
      ensures faults == old(faults) + if r == Failed then 1 else 0
    {
      if * {
        faults := faults + 1;
        return Failed;
      }
      r := if m in pods then AlreadyExists else Succeeded;
      pods := pods + {m};
    }
  }

  /** A limit of 0 or less means none. Each model's declared memory and selector are fixed. */
  datatype Config = Config(maxMemory: int, minIdle: int, memoryOf: Model -> nat, selectorOf: Model -> Selector)

  datatype World = World(pods: set<Model>, tracker: State, entries: Entries)

  // Eviction.

  /** What the eviction loop did with one idle model. */
  datatype Fate =
    | Skipped                         // the requested model itself, or one that holds no memory
    | Kept                            // its pod could not be deleted
    | Evicted(lookupFailed: bool)     // released; the pod was deleted or missing, unless its lookup failed

  ghost function Victims(idle: seq<Model>, fates: seq<Fate>): set<Model>
    requires |fates| <= |idle|
  {
    set i | 0 <= i < |fates| && fates[i].Evicted? :: idle[i]
  }

  ghost function Removed(idle: seq<Model>, fates: seq<Fate>): set<Model>
    requires |fates| <= |idle|
  {
    set i | 0 <= i < |fates| && fates[i] == Evicted(false) :: idle[i]
  }

  /** The releases the loop performed on the tracker, as steps of its state machine. */
  ghost predicate Releases(t: State, t': State, victims: set<Model>, ops: seq<Op>) {
    && LegalRun(t, ops) && t' == Exec(t, ops)
    && forall i | 0 <= i < |ops| :: ops[i].Release? && ops[i].model in victims
  }

  /**
   The loop walks the idle models from the least recently used on and stops somewhere; every model
   it walked past was skipped for one of the two reasons, kept, or evicted, and nothing else changed.
   */
  ghost predicate EvictionWalk(w: World, w': World, requested: Model, cutoff: int,
                               idle: seq<Model>, fates: seq<Fate>, ops: seq<Op>)
  {
    && IdleListing(idle, w.entries, cutoff)
    && |ops| <= |fates| <= |idle|
    && (forall i | 0 <= i < |fates| ::
          fates[i] == Skipped <==> idle[i] == requested || idle[i] !in w.tracker.allocations)
    && w'.entries == w.entries - Victims(idle, fates)
    && w'.tracker.allocations == w.tracker.allocations - Victims(idle, fates)
    && w'.pods == w.pods - Removed(idle, fates)
    && Releases(w.tracker, w'.tracker, Victims(idle, fates), ops)
  }

  lemma {:induction false} RunAppend(t: State, ops: seq<Op>, op: Op)
    requires LegalRun(t, ops) && Legal(Exec(t, ops), op)
    ensures LegalRun(t, ops + [op]) && Exec(t, ops + [op]) == Apply(Exec(t, ops), op)
    decreases |ops|
  {
    hide Legal;
    hide Apply;
    if ops == [] {
      assert ops + [op] == [op] && [op][1..] == [];
      assert LegalRun(Apply(t, op), []) && Exec(Apply(t, op), []) == Apply(t, op);
    } else {
      assert (ops + [op])[0] == ops[0] && (ops + [op])[1..] == ops[1..] + [op];
      RunAppend(Apply(t, ops[0]), ops[1..], op);
    }
  }

  /** Releasing other models leaves room where there was room. */
  lemma {:induction false} ReleasesKeepRoom(t: State, ops: seq<Op>, m: Model, memory: nat, pool: string)
    requires forall i | 0 <= i < |ops| :: ops[i].Release? && ops[i].model != m
    requires HasRoom(t, m, memory, pool)
    ensures HasRoom(Exec(t, ops), m, memory, pool)
    decreases |ops|
  {
    if ops != [] {
      ReleaseKeepsRoom(t, ops[0].model, ops[0].oldPool, m, memory, pool);
      ReleasesKeepRoom(Apply(t, ops[0]), ops[1..], m, memory, pool);
    }
  }

  lemma VictimsSnoc(idle: seq<Model>, fates: seq<Fate>, fate: Fate)
    requires |fates| < |idle|
    ensures Victims(idle, fates + [fate]) == Victims(idle, fates) + (if fate.Evicted? then {idle[|fates|]} else {})
    ensures Removed(idle, fates + [fate]) == Removed(idle, fates) + (if fate == Evicted(false) then {idle[|fates|]} else {})
  {
    var all := fates + [fate];
    assert forall i | 0 <= i < |fates| :: all[i] == fates[i];
    assert all[|fates|] == fate;
  }

  /** One turn of the loop on the idle model `entry`. */
  ghost predicate EvictionTurn(w: World, w': World, requested: Model, entry: Model, fate: Fate, op: Op) {
    && (fate == Skipped <==> entry == requested || entry !in w.tracker.allocations)
    && (if fate.Evicted? then
          && op.Release? && op.model == entry && Legal(w.tracker, op)
          && w' == World(if fate.lookupFailed then w.pods else w.pods - {entry},
                         Apply(w.tracker, op), w.entries - {entry})
        else w' == w)
  }

  lemma WalkExtends(w0: World, w: World, w': World, requested: Model, cutoff: int,
                    idle: seq<Model>, fates: seq<Fate>, ops: seq<Op>, fate: Fate, op: Op)
    requires EvictionWalk(w0, w, requested, cutoff, idle, fates, ops) && |fates| < |idle|
    requires EvictionTurn(w, w', requested, idle[|fates|], fate, op)
    ensures EvictionWalk(w0, w', requested, cutoff, idle, fates + [fate], if fate.Evicted? then ops + [op] else ops)
  {
    hide LegalRun;
    hide Exec;
    hide Legal;
    VictimsSnoc(idle, fates, fate);
    var entry := idle[|fates|];
    assert entry !in Victims(idle, fates);
    assert entry in w0.tracker.allocations <==> entry in w.tracker.allocations;
    assert forall i | 0 <= i < |fates| :: (fates + [fate])[i] == fates[i];
    if fate.Evicted? {
      RunAppend(w0.tracker, ops, op);
    }
  }

  lemma WalkStarts(w: World, requested: Model, cutoff: int, idle: seq<Model>)
    requires IdleListing(idle, w.entries, cutoff)
    ensures EvictionWalk(w, w, requested, cutoff, idle, [], [])
  {
    assert Victims(idle, []) == {} && Removed(idle, []) == {};
  }

  lemma WalkKeepsRest(w0: World, w: World, requested: Model, cutoff: int,
                      idle: seq<Model>, fates: seq<Fate>, ops: seq<Op>)
    requires EvictionWalk(w0, w, requested, cutoff, idle, fates, ops) && |fates| < |idle|
    ensures var entry := idle[|fates|];
      && (entry in w0.tracker.allocations <==> entry in w.tracker.allocations)
      && (entry in w.tracker.allocations ==> w0.tracker.allocations[entry] == w.tracker.allocations[entry])
  {
    assert idle[|fates|] !in Victims(idle, fates);
  }

  // Safety of the running pods.

  /** The declared memory of the pods that exist. */
  ghost function RunningMemory(pods: set<Model>, memoryOf: Model -> nat): nat {
    Sum(map m | m in pods :: memoryOf(m))
  }

  ghost predicate Covered(w: World) {
    w.pods <= w.tracker.allocations.Keys
  }

  /** Every running pod is accounted for, at its declared memory, and together they respect the limit. */
  ghost predicate Safe(c: Config, w: World) {
    && Covered(w)
    && (forall m :: m in w.tracker.allocations ==> w.tracker.allocations[m].memory == c.memoryOf(m))
    && (c.maxMemory > 0 ==> RunningMemory(w.pods, c.memoryOf) <= c.maxMemory)
  }

  lemma RunningWithinAllocated(w: World, memoryOf: Model -> nat)
    requires Covered(w)
    requires forall m :: m in w.tracker.allocations ==> w.tracker.allocations[m].memory == memoryOf(m)
    ensures RunningMemory(w.pods, memoryOf) <= TotalAllocated(w.tracker)
  {
    SumMonotone(map m | m in w.pods :: memoryOf(m), Memories(w.tracker.allocations));
  }

  lemma RunningMonotone(small: set<Model>, big: set<Model>, memoryOf: Model -> nat)
    requires small <= big
    ensures RunningMemory(small, memoryOf) <= RunningMemory(big, memoryOf)
  {
    SumMonotone(map m | m in small :: memoryOf(m), map m | m in big :: memoryOf(m));
  }

  datatype Outcome =
    | AlreadyReady
    | NodeBudgetShort
    | GlobalMemoryShort
    | BackendMissing
    | BuildFailed
    | CreateFailed
    | AllocateFailed
    | Allocated

  datatype Wait = Reached | TimedOut | Cancelled

  /** The atomic steps of the system, each with the choices that were made inside it. */
  datatype Step =
    | Create(m: Model, now: int, outcome: Outcome, mid: World,
             idle: seq<Model>, fates: seq<Fate>, ops: seq<Op>, op: Op)
    | WaitReady(m: Model, now: int, wait: Wait, op: Op)
    | SyncReady(m: Model, op: Op)
    | PodMissing(m: Model, now: int, op: Op)
    | PodSeen(m: Model, now: int)
    | PodGone(m: Model)
    | IdleDelete(m: Model, op: Op)
    | PodLost(m: Model)
    | Requests
    | NodeBudget(op: Op)
    | Nothing

  function EntryFailed(es: Entries, m: Model, now: int): Entries {
    SetStateIn(SetStateIn(es, m, Creating, now), m, Nonexistent, now)
  }

  ghost predicate IsAllocate(c: Config, t: State, op: Op, m: Model) {
    op.Allocate? && op.model == m && op.memory == c.memoryOf(m) && op.selector == c.selectorOf(m) && Legal(t, op)
  }

  ghost predicate IsSync(c: Config, t: State, op: Op, m: Model) {
    op.Sync? && op.model == m && op.memory == c.memoryOf(m) && op.selector == c.selectorOf(m) && Legal(t, op)
  }

  ghost predicate IsRelease(t: State, op: Op, m: Model) {
    op.Release? && op.model == m && Legal(t, op)
  }

  /** The global limit check: eviction runs only when the request does not fit, and the recheck decides. */
  ghost predicate GlobalCheck(c: Config, w: World, mid: World, m: Model, now: int,
                              idle: seq<Model>, fates: seq<Fate>, ops: seq<Op>)
  {
    && (mid == w || EvictionWalk(w, mid, m, now - c.minIdle, idle, fates, ops))
    && (Fits(c, w.tracker, m) ==> mid == w)
  }

  ghost predicate Fits(c: Config, t: State, m: Model) {
    c.maxMemory <= 0 || TotalAllocated(t) + c.memoryOf(m) <= c.maxMemory
  }

  /** What the rest of the creation path does to the world it finds after the check. */
  ghost predicate Creation(c: Config, w: World, w': World, m: Model, now: int, outcome: Outcome, op: Op) {
    match outcome
    case BackendMissing => w' == w
    case BuildFailed => w' == w.(entries := EntryFailed(w.entries, m, now))
    case CreateFailed => w' == w.(entries := EntryFailed(w.entries, m, now))
    case AllocateFailed =>
      && IsAllocate(c, w.tracker, op, m) && !HasRoom(w.tracker, m, op.memory, op.checkPool)
      && w'.tracker == w.tracker && w'.entries == EntryFailed(w.entries, m, now)
      && (w'.pods == w.pods - {m} || w'.pods == w.pods + {m})
    case Allocated =>
      && IsAllocate(c, w.tracker, op, m) && HasRoom(w.tracker, m, op.memory, op.checkPool)
      && w' == World(w.pods + {m}, Apply(w.tracker, op), SetStateIn(w.entries, m, Creating, now))
    case _ => false
  }

  /** The creation path up to the allocation, with `mid` the world after any eviction. */
  ghost predicate CreateStep(c: Config, w: World, w': World, s: Step)
    requires s.Create?
  {
    var m, selector := s.m, c.selectorOf(s.m);
    if m in w.entries && w.entries[m].state == Ready then
      s.outcome == AlreadyReady && w' == w
    else if s.outcome == NodeBudgetShort then
      w' == w && (|selector| <= 1 ==> !HasRoom(w.tracker, m, c.memoryOf(m), PoolOf(selector)))
    else
      && (|selector| <= 1 ==> HasRoom(w.tracker, m, c.memoryOf(m), PoolOf(selector)))
      && GlobalCheck(c, w, s.mid, m, s.now, s.idle, s.fates, s.ops)
      && (if Fits(c, s.mid.tracker, m)
          then Creation(c, s.mid, w', m, s.now, s.outcome, s.op)
          else s.outcome == GlobalMemoryShort && w' == s.mid)
  }

  predicate IsReady(es: Entries, m: Model) {
    m in es && es[m].state == Ready
  }

  /** Recording and finishing requests makes no entry ready. */
  ghost predicate NoneBecomesReady(before: Entries, after: Entries) {
    forall m :: IsReady(after, m) ==> IsReady(before, m)
  }

  lemma RequestsMakeNoneReady(es: Entries, m: Model, now: int)
    ensures NoneBecomesReady(es, RecordIn(es, m, now)) && NoneBecomesReady(es, FinishIn(es, m))
  {
  }

  ghost predicate StepOf(c: Config, w: World, w': World, s: Step) {
    match s
    case Create(_, _, _, _, _, _, _, _) => CreateStep(c, w, w', s)
    case WaitReady(m, now, wait, op) =>
      (match wait
       case Reached =>
         m in w.pods && IsSync(c, w.tracker, op, m)
         && w' == World(w.pods, Apply(w.tracker, op), SetStateIn(w.entries, m, Ready, now))
       case TimedOut => w' == w.(entries := SetStateIn(w.entries, m, Nonexistent, now))
       case Cancelled => w' == w)
    case SyncReady(m, op) => IsSync(c, w.tracker, op, m) && w' == w.(tracker := Apply(w.tracker, op))
    case PodMissing(m, now, op) =>
      && m !in w.pods && IsRelease(w.tracker, op, m)
      && w' == World(w.pods, Apply(w.tracker, op), SetStateIn(w.entries, m, Nonexistent, now))
    // Read as running a moment ago; it may be gone by now.
    case PodSeen(m, now) => w' == w.(entries := SetStateIn(w.entries, m, Ready, now))
    case PodGone(m) => m !in w.pods && w' == w.(entries := w.entries - {m})
    case IdleDelete(m, op) =>
      && IsRelease(w.tracker, op, m)
      && w' == World(w.pods - {m}, Apply(w.tracker, op), w.entries - {m})
    case PodLost(m) => w' == w.(pods := w.pods - {m})
    case Requests => w'.pods == w.pods && w'.tracker == w.tracker && NoneBecomesReady(w.entries, w'.entries)
    case NodeBudget(op) => op.SetBudget? && w' == w.(tracker := Apply(w.tracker, op))
    case Nothing => w' == w
  }

  /** In a serial run the allocation after the pod is created does not fail. */
  lemma AllocationSucceeds(c: Config, w: World, w': World, s: Step)
    requires s.Create? && CreateStep(c, w, w', s) && |c.selectorOf(s.m)| <= 1
    ensures s.outcome != AllocateFailed
  {
    if s.outcome == AllocateFailed {
      var m, memory, selector := s.m, c.memoryOf(s.m), c.selectorOf(s.m);
      RendersOnce(selector, s.op.checkPool);
      hide HasRoom;
      if s.mid != w {
        VictimsExclude(w, s.mid, m, s.now - c.minIdle, s.idle, s.fates, s.ops);
        ReleasesKeepRoom(w.tracker, s.ops, m, memory, PoolOf(selector));
      }
    }
  }

  lemma VictimsExclude(w: World, w': World, requested: Model, cutoff: int,
                       idle: seq<Model>, fates: seq<Fate>, ops: seq<Op>)
    requires EvictionWalk(w, w', requested, cutoff, idle, fates, ops)
    ensures requested !in Victims(idle, fates)
  {
  }

  class Server {
    const tracker: Tracker
    const registry: DeploymentRegistry
    const cluster: Cluster
    const config: Config

    constructor (tracker: Tracker, registry: DeploymentRegistry, cluster: Cluster, config: Config)
      ensures this.tracker == tracker && this.registry == registry && this.cluster == cluster
      ensures this.config == config
    {
      this.tracker, this.registry, this.cluster, this.config := tracker, registry, cluster, config;
    }

    ghost function View(): World
      reads tracker, registry, cluster
    {
      World(cluster.pods, tracker.View(), registry.entries)
    }

    /** The body of the eviction loop; `memory` is what it adds to the freed total. */
    method EvictIdle(entry: Model, requested: Model) returns (ghost fate: Fate, evicted: bool, memory: nat, ghost op: Op)
      modifies tracker, registry, cluster
      ensures EvictionTurn(old(View()), View(), requested, entry, fate, op)
      ensures evicted == fate.Evicted?
      ensures cluster.faults >= old(cluster.faults)
      ensures fate == Kept || fate == Evicted(true) ==> cluster.faults > old(cluster.faults)
      ensures evicted ==> entry in old(tracker.allocations) && memory == old(tracker.allocations)[entry].memory
      ensures TotalAllocated(tracker.View()) == TotalAllocated(old(tracker.View())) - memory
    {
      op := SetBudget("", 0);
      if entry == requested || entry !in tracker.allocations {
        return Skipped, false, 0, op;
      }
      var lookup := cluster.GetPod(entry);
      if lookup == Succeeded {
        var deleted := cluster.DeletePod(entry);
        if deleted == Failed {
          return Kept, false, 0, op;
        }
      }
      memory := tracker.allocations[entry].memory;
      ghost var t := tracker.View();
      op := tracker.ReleaseModel(entry);
      ReleaseTotal(t, entry, op.oldPool);
      registry.Delete(entry);
      return Evicted(lookup == Failed), true, memory, op;
    }

    method TryEvictIdleModelsForGlobalLimit(requested: Model, requestedMemory: nat, now: int)
      returns (freed: bool, ghost idle: seq<Model>, ghost fates: seq<Fate>, ghost ops: seq<Op>)
      modifies tracker, registry, cluster
      ensures EvictionWalk(old(View()), View(), requested, now - config.minIdle, idle, fates, ops)
      // Exact: success is the recheck the caller makes.
      ensures idle != [] ==> (freed <==> TotalAllocated(tracker.View()) + requestedMemory <= config.maxMemory)
      ensures idle == [] ==> !freed
      // No model is kept, and none evicted unseen, without a failed call.
      ensures cluster.faults >= old(cluster.faults)
      ensures cluster.faults == old(cluster.faults) ==>
        forall i | 0 <= i < |fates| :: fates[i] == Skipped || fates[i] == Evicted(false)
      // Failure: every idle model was walked past.
      ensures !freed ==> |fates| == |idle|
      // Minimal: the walk stops at the eviction that frees enough.
      ensures freed && TotalAllocated(old(tracker.View())) + requestedMemory > config.maxMemory ==>
        && fates != [] && fates[|fates| - 1].Evicted?
        && var last := idle[|fates| - 1];
           && last in old(tracker.allocations)
           && TotalAllocated(tracker.View()) + old(tracker.allocations)[last].memory + requestedMemory > config.maxMemory
    {
      hide EvictionWalk;
      hide EvictionTurn;
      hide IdleListing;
      hide TotalAllocated;
      ghost var w0 := View();
      var idleModels := registry.GetIdleEntriesSorted(now, config.minIdle);
      WalkStarts(w0, requested, now - config.minIdle, idleModels);
      idle, fates, ops := idleModels, [], [];
      if |idleModels| == 0 {
        return false, idle, fates, ops;
      }
      var freedMemory := 0;
      var total := tracker.GetTotalAllocatedMemory();
      var neededMemory := requestedMemory - (config.maxMemory - total);
      var i := 0;
      while i < |idleModels|
        invariant i == |fates| <= |idleModels| && idle == idleModels
        invariant EvictionWalk(w0, View(), requested, now - config.minIdle, idle, fates, ops)
        invariant freedMemory == total - TotalAllocated(tracker.View())
        invariant freedMemory < neededMemory || freedMemory == 0
        invariant cluster.faults >= old(cluster.faults)
        invariant cluster.faults == old(cluster.faults) ==>
          forall j | 0 <= j < |fates| :: fates[j] == Skipped || fates[j] == Evicted(false)
      {
        ghost var w := View();
        WalkKeepsRest(w0, w, requested, now - config.minIdle, idle, fates, ops);
        ghost var fate, op;
        var evicted, memory;
        fate, evicted, memory, op := EvictIdle(idleModels[i], requested);
        WalkExtends(w0, w, View(), requested, now - config.minIdle, idle, fates, ops, fate, op);
        fates := fates + [fate];
        ops := if fate.Evicted? then ops + [op] else ops;
        i := i + 1;
        if !evicted {
          continue;
        }
        freedMemory := freedMemory + memory;
        if freedMemory >= neededMemory {
          return true, idle, fates, ops;
        }
      }
      freed := freedMemory >= neededMemory;
    }

    method CheckGlobalLimit(m: Model, now: int)
      returns (ok: bool, ghost idle: seq<Model>, ghost fates: seq<Fate>, ghost ops: seq<Op>)
      modifies tracker, registry, cluster
      ensures GlobalCheck(config, old(View()), View(), m, now, idle, fates, ops)
      ensures ok <==> Fits(config, tracker.View(), m)
      ensures cluster.faults >= old(cluster.faults)
    {
      hide EvictionWalk;
      hide TotalAllocated;
      ghost var w := View();
      idle, fates, ops := [], [], [];
      if config.maxMemory > 0 {
        var memory := config.memoryOf(m);
        var total := tracker.GetTotalAllocatedMemory();
        if total + memory > config.maxMemory {
          var freed;
          freed, idle, fates, ops := TryEvictIdleModelsForGlobalLimit(m, memory, now);
          if !freed {
            if idle == [] {
              WalkOfNothing(w, View(), m, now - config.minIdle, fates, ops);
            }
            return false, idle, fates, ops;
          }
          total := tracker.GetTotalAllocatedMemory();
          if total + memory > config.maxMemory {
            return false, idle, fates, ops;
          }
        }
      }
      ok := true;
    }

    /** `buildable` tells whether the pod can be built from the model's specification. */
    method CreatePodAndAllocate(m: Model, now: int, buildable: bool) returns (outcome: Outcome, ghost op: Op)
      modifies tracker, registry, cluster
      ensures cluster.faults >= old(cluster.faults)
      ensures outcome in {BackendMissing, CreateFailed} ==> cluster.faults > old(cluster.faults)
      ensures outcome == BuildFailed ==> !buildable
      ensures outcome == AllocateFailed && cluster.faults == old(cluster.faults) ==> m !in cluster.pods
      ensures Creation(config, old(View()), View(), m, now, outcome, op)
    {
      hide HasRoom;
      hide Grant;
      hide ReleaseFrom;
      hide Legal;
      hide SetStateIn;
      op := SetBudget("", 0);
      var backend := cluster.Call();
      if !backend {
        return BackendMissing, op;
      }
      registry.SetState(m, Creating, now);
      if !buildable {
        registry.SetState(m, Nonexistent, now);
        return BuildFailed, op;
      }
      var created := cluster.CreatePod(m);
      if created == Failed {
        registry.SetState(m, Nonexistent, now);
        return CreateFailed, op;
      }
      var ok;
      ok, op := tracker.Allocate(m, config.memoryOf(m), config.selectorOf(m));
      if !ok {
        var deleted := cluster.DeletePod(m);
        registry.SetState(m, Nonexistent, now);
        return AllocateFailed, op;
      }
      outcome := Allocated;
    }

    /** `ensureDeployment` up to and including the allocation. */
    method CreateAndAllocate(m: Model, now: int, buildable: bool) returns (outcome: Outcome, ghost step: Step)
      modifies tracker, registry, cluster
      ensures outcome in {BackendMissing, CreateFailed} ==> cluster.faults > old(cluster.faults)
      ensures outcome == BuildFailed ==> !buildable
      ensures step.Create? && step.m == m && step.outcome == outcome
      ensures CreateStep(config, old(View()), View(), step)
    {
      hide HasRoom;
      hide Fits;
      hide GlobalCheck;
      ghost var w, op := View(), SetBudget("", 0);
      var entry, found := registry.Get(m);
      if found && entry.state == Ready {
        return AlreadyReady, Create(m, now, AlreadyReady, w, [], [], [], op);
      }
      var room, _, _ := tracker.CanAllocate(m, config.memoryOf(m), config.selectorOf(m));
      if !room {
        return NodeBudgetShort, Create(m, now, NodeBudgetShort, w, [], [], [], op);
      }
      ghost var idle, fates, ops;
      var ok;
      ok, idle, fates, ops := CheckGlobalLimit(m, now);
      ghost var mid := View();
      if !ok {
        return GlobalMemoryShort, Create(m, now, GlobalMemoryShort, mid, idle, fates, ops, op);
      }
      outcome, op := CreatePodAndAllocate(m, now, buildable);
      step := Create(m, now, outcome, mid, idle, fates, ops, op);
    }

    /** `waitForPodReady`: poll until the pod is ready, the time is up, or the request is cancelled. */
    method WaitForPodReady(m: Model, now: int) returns (wait: Wait, ghost step: Step)
      modifies tracker, registry, cluster`faults
      ensures step.WaitReady? && step.m == m && step.wait == wait
      ensures StepOf(config, old(View()), View(), step)
    {
      var ticks: nat := *;
      while ticks > 0
        invariant View() == old(View())
        decreases ticks
      {
        ticks := ticks - 1;
        if * {
          return Cancelled, WaitReady(m, now, Cancelled, SetBudget("", 0));
        }
        var lookup := cluster.GetPod(m);
        if lookup == Succeeded {
          if * {
            registry.SetState(m, Ready, now);
            var created;
            ghost var op;
            created, op := tracker.SyncAllocation(m, config.memoryOf(m), config.selectorOf(m));
            return Reached, WaitReady(m, now, Reached, op);
          }
        }
      }
      registry.SetState(m, Nonexistent, now);
      return TimedOut, WaitReady(m, now, TimedOut, SetBudget("", 0));
    }

    /** The controller's branch for a model whose pod lookup did not find one. */
    method ReconcilePodMissing(m: Model, now: int) returns (ghost step: Step)
      modifies tracker, registry, cluster`faults
      ensures StepOf(config, old(View()), View(), step)
      ensures step.PodMissing? || step == Nothing
      ensures step == Nothing ==> m in cluster.pods || cluster.faults > old(cluster.faults)
    {
      var lookup := cluster.GetPod(m);
      if lookup != NotFound {
        return Nothing;
      }
      ghost var op := tracker.ReleaseModel(m);
      registry.SetState(m, Nonexistent, now);
      step := PodMissing(m, now, op);
    }

    /** `updateStatus` for a pod that the reconcile has read; whatever it says, other fields are not modelled. */
    method UpdateStatus(m: Model, now: int, podReady: bool) returns (ghost step: Step)
      modifies registry
      ensures StepOf(config, old(View()), View(), step)
      ensures step == if podReady then PodSeen(m, now) else Nothing
    {
      if podReady {
        registry.SetState(m, Ready, now);
        return PodSeen(m, now);
      }
      step := Nothing;
    }

    /** `waitForPodDeleted`: the entry goes once a lookup has not found the pod. */
    method WaitForPodDeleted(m: Model) returns (gone: bool, ghost step: Step)
      modifies registry, cluster`faults
      ensures StepOf(config, old(View()), View(), step)
      ensures step == if gone then PodGone(m) else Nothing
    {
      var ticks: nat := *;
      while ticks > 0
        invariant View() == old(View())
        decreases ticks
      {
        ticks := ticks - 1;
        var lookup := cluster.GetPod(m);
        if lookup == NotFound {
          registry.Delete(m);
          return true, PodGone(m);
        }
      }
      return false, Nothing;
    }

    /** `deleteIdlePod`: nothing happens unless the model is quiet, the lock condition is set, and the pod is gone. */
    method DeleteIdlePod(m: Model, scaledDown: bool) returns (ghost step: Step)
      modifies tracker, registry, cluster
      ensures StepOf(config, old(View()), View(), step)
      ensures m in old(registry.entries) && old(registry.entries)[m].active > 0 ==> step == Nothing
      ensures step.IdleDelete? || step == Nothing
      ensures step == Nothing ==>
        || (m in old(registry.entries) && old(registry.entries)[m].active > 0)
        || scaledDown || cluster.faults > old(cluster.faults)
    {
      var entry, found := registry.Get(m);
      if found && entry.active > 0 {
        return Nothing;
      }
      if scaledDown {
        return Nothing;
      }
      var locked := cluster.Call();
      if !locked {
        return Nothing;
      }
      var deleted := cluster.DeletePod(m);
      if deleted == Failed {
        return Nothing;
      }
      registry.Delete(m);
      ghost var op := tracker.ReleaseModel(m);
      step := IdleDelete(m, op);
    }
  }

  lemma WalkOfNothing(w: World, w': World, requested: Model, cutoff: int, fates: seq<Fate>, ops: seq<Op>)
    requires EvictionWalk(w, w', requested, cutoff, [], fates, ops)
    ensures w' == w
  {
    assert Victims([], fates) == {} && Removed([], fates) == {};
  }
}
