/**
 The memory budget tracker: a class updated in place, the state machine each of its locked methods
 takes one step of, and what every run of that machine keeps.
 */
module Budget {
  import opened MapSums

  /** A model, as identified by namespace and name. */
  datatype Model = Model(namespace: string, name: string)

  type Selector = map<string, string>

  datatype Allocation = Allocation(memory: nat, selector: Selector)

  datatype PoolBudget = PoolBudget(total: nat, used: int)

  datatype State = State(pools: map<string, PoolBudget>, allocations: map<Model, Allocation>)

  const Empty := State(map[], map[])

  /**
   The pool key of a selector is taken from the first entry that iteration over a Go map yields, so
   a selector with several entries has several possible keys.
   */
  ghost predicate Renders(selector: Selector, pool: string) {
    if selector == map[] then pool == "default"
    else exists k :: k in selector && pool == k + "=" + selector[k]
  }

  method NodeSelectorKey(selector: Selector) returns (pool: string)
    ensures Renders(selector, pool)
  {
    if selector == map[] {
      return "default";
    }
    var k :| k in selector;
    pool := k + "=" + selector[k];
  }

  // The tracker as a state machine.

  /** A step, together with the pool keys that the map iterations inside it happened to yield. */
  datatype Op =
    | SetBudget(pool: string, total: nat)
    | Sync(model: Model, memory: nat, selector: Selector, newPool: string)
    | Allocate(model: Model, memory: nat, selector: Selector, checkPool: string, oldPool: string, newPool: string)
    | Release(model: Model, oldPool: string)

  ghost predicate Legal(s: State, op: Op) {
    match op
    case SetBudget(_, _) => true
    case Sync(_, _, selector, newPool) => Renders(selector, newPool)
    case Allocate(m, _, selector, checkPool, oldPool, newPool) =>
      && Renders(selector, checkPool) && Renders(selector, newPool)
      && (m in s.allocations ==> Renders(s.allocations[m].selector, oldPool))
    case Release(m, oldPool) =>
      m in s.allocations ==> Renders(s.allocations[m].selector, oldPool)
  }

  function Charge(pools: map<string, PoolBudget>, pool: string, delta: int): map<string, PoolBudget> {
    if pool in pools
    then pools[pool := PoolBudget(pools[pool].total, pools[pool].used + delta)]
    else pools
  }

  /** A model that already holds memory is charged for the difference, against the pool it asks for. */
  predicate HasRoom(s: State, m: Model, memory: nat, pool: string) {
    pool in s.pools ==>
      s.pools[pool].used + memory - (if m in s.allocations then s.allocations[m].memory else 0)
      <= s.pools[pool].total
  }

  /** The unlocked check with the pool keys of its two lookups. */
  predicate UnlockedRoom(s: State, m: Model, memory: nat, first: string, second: string) {
    if m in s.allocations && first in s.pools then HasRoom(s, m, memory, first)
    else second in s.pools ==> s.pools[second].used + memory <= s.pools[second].total
  }

  function ReleaseFrom(s: State, m: Model, oldPool: string): State {
    if m in s.allocations
    then State(Charge(s.pools, oldPool, 0 - s.allocations[m].memory), s.allocations - {m})
    else s
  }

  function Grant(s: State, m: Model, memory: nat, selector: Selector, newPool: string): State {
    State(Charge(s.pools, newPool, memory), s.allocations[m := Allocation(memory, selector)])
  }

  function Apply(s: State, op: Op): State {
    match op
    case SetBudget(pool, total) =>
      s.(pools := s.pools[pool := PoolBudget(total, if pool in s.pools then s.pools[pool].used else 0)])
    case Sync(m, memory, selector, newPool) =>
      if m in s.allocations then s else Grant(s, m, memory, selector, newPool)
    case Allocate(m, memory, selector, checkPool, oldPool, newPool) =>
      if HasRoom(s, m, memory, checkPool)
      then Grant(ReleaseFrom(s, m, oldPool), m, memory, selector, newPool)
      else s
    case Release(m, oldPool) => ReleaseFrom(s, m, oldPool)
  }

  ghost function Memories(allocations: map<Model, Allocation>): map<Model, nat> {
    map m | m in allocations :: allocations[m].memory
  }

  /** `GetTotalAllocatedMemory`. */
  ghost function TotalAllocated(s: State): nat {
    Sum(Memories(s.allocations))
  }

  class Tracker {
    var nodeBudgets: map<string, PoolBudget>
    var allocations: map<Model, Allocation>

    ghost function View(): State
      reads this
    {
      State(nodeBudgets, allocations)
    }

    constructor ()
      ensures View() == Empty
    {
      nodeBudgets, allocations := map[], map[];
    }

    /** `budget.Allocated.Add` (or `Sub`) on the pool, if it has a budget. */
    method AddAllocated(pool: string, delta: int)
      modifies this`nodeBudgets
      ensures nodeBudgets == Charge(old(nodeBudgets), pool, delta)
    {
      if pool in nodeBudgets {
        nodeBudgets := nodeBudgets[pool := PoolBudget(nodeBudgets[pool].total, nodeBudgets[pool].used + delta)];
      }
    }

    method SetNodeBudget(pool: string, total: nat)
      modifies this
      ensures View() == Apply(old(View()), SetBudget(pool, total))
    {
      if pool in nodeBudgets {
        nodeBudgets := nodeBudgets[pool := PoolBudget(total, nodeBudgets[pool].used)];
      } else {
        nodeBudgets := nodeBudgets[pool := PoolBudget(total, 0)];
      }
    }

    method SyncAllocation(m: Model, memory: nat, selector: Selector) returns (created: bool, ghost op: Op)
      modifies this
      ensures op.Sync? && op == Sync(m, memory, selector, op.newPool) && Legal(old(View()), op)
      ensures View() == Apply(old(View()), op)
      ensures created == (m !in old(allocations))
    {
      if m in allocations {
        return false, Sync(m, memory, selector, PoolOf(selector));
      }
      allocations := allocations[m := Allocation(memory, selector)];
      var pool := NodeSelectorKey(selector);
      AddAllocated(pool, memory);
      return true, Sync(m, memory, selector, pool);
    }

    /**
     The unlocked check. It may look the pool up twice, and only the first time does a model that already
     holds memory get it credited; with at most one selector entry that makes no difference.
     */
    method CanAllocate(m: Model, memory: nat, selector: Selector)
      returns (ok: bool, ghost first: string, ghost second: string)
      ensures Renders(selector, first) && Renders(selector, second)
      ensures ok == UnlockedRoom(View(), m, memory, first, second)
      ensures |selector| <= 1 ==> ok == HasRoom(View(), m, memory, PoolOf(selector))
    {
      ghost var s := View();
      var pool := NodeSelectorKey(selector);
      first, second := pool, pool;
      if m in allocations {
        if pool in nodeBudgets {
          var currentAllocated := nodeBudgets[pool].used - allocations[m].memory + memory;
          ok := currentAllocated <= nodeBudgets[pool].total;
          UnlockedRoomOfOne(s, m, memory, selector, first, second);
          return;
        }
      }
      var again := NodeSelectorKey(selector);
      second := again;
      UnlockedRoomOfOne(s, m, memory, selector, first, second);
      if again !in nodeBudgets {
        return true, first, second;
      }
      var available := nodeBudgets[again].total - nodeBudgets[again].used;
      return available >= memory, first, second;
    }

    /** The check made under the lock, against whichever pool key the selector yields. */
    method CanAllocateLocked(m: Model, memory: nat, selector: Selector) returns (ok: bool, ghost pool: string)
      ensures Renders(selector, pool)
      ensures ok == HasRoom(View(), m, memory, pool)
    {
      var p := NodeSelectorKey(selector);
      if m in allocations {
        if p in nodeBudgets {
          var currentAllocated := nodeBudgets[p].used - allocations[m].memory + memory;
          return currentAllocated <= nodeBudgets[p].total, p;
        }
        return true, p;
      }
      if p !in nodeBudgets {
        return true, p;
      }
      var available := nodeBudgets[p].total - nodeBudgets[p].used;
      return available >= memory, p;
    }

    method Allocate(m: Model, memory: nat, selector: Selector) returns (ok: bool, ghost op: Op)
      modifies this
      ensures op.Allocate? && op == Op.Allocate(m, memory, selector, op.checkPool, op.oldPool, op.newPool)
      ensures Legal(old(View()), op) && View() == Apply(old(View()), op)
      ensures ok == HasRoom(old(View()), m, memory, op.checkPool)
    {
      hide Renders;
      hide HasRoom;
      hide Charge;
      ghost var checkPool;
      ok, checkPool := CanAllocateLocked(m, memory, selector);
      var oldPool := "";
      if m in allocations {
        oldPool := NodeSelectorKey(allocations[m].selector);
        if ok {
          AddAllocated(oldPool, 0 - allocations[m].memory);
        }
      }
      var newPool := NodeSelectorKey(selector);
      op := Op.Allocate(m, memory, selector, checkPool, oldPool, newPool);
      if !ok {
        return;
      }
      allocations := allocations[m := Allocation(memory, selector)];
      AddAllocated(newPool, memory);
    }

    method ReleaseModel(m: Model) returns (ghost op: Op)
      modifies this
      ensures op.Release? && op == Release(m, op.oldPool) && Legal(old(View()), op)
      ensures View() == Apply(old(View()), op)
    {
      if m !in allocations {
        return Release(m, "");
      }
      var pool := NodeSelectorKey(allocations[m].selector);
      AddAllocated(pool, 0 - allocations[m].memory);
      allocations := allocations - {m};
      op := Release(m, pool);
    }

    method GetTotalAllocatedMemory() returns (total: nat)
      ensures total == TotalAllocated(View())
    {
      total := 0;
      var rest := allocations;
      while rest != map[]
        invariant forall m :: m in rest ==> m in allocations && rest[m] == allocations[m]
        invariant total + Sum(Memories(rest)) == TotalAllocated(View())
        decreases |rest|
      {
        var m :| m in rest;
        SumRemove(Memories(rest), m);
        assert Memories(rest) - {m} == Memories(rest - {m});
        total := total + rest[m].memory;
        rest := rest - {m};
      }
      assert Memories(rest) == map[];
    }
  }

  // Runs.

  ghost predicate LegalRun(s: State, ops: seq<Op>)
    decreases |ops|
  {
    ops == [] || (Legal(s, ops[0]) && LegalRun(Apply(s, ops[0]), ops[1..]))
  }

  function Exec(s: State, ops: seq<Op>): State
    decreases |ops|
  {
    if ops == [] then s else Exec(Apply(s, ops[0]), ops[1..])
  }

  // Selectors of at most one entry.

  /** One possible key of a selector: the only one when there is at most one entry. */
  ghost function PoolOf(selector: Selector): (pool: string)
    ensures Renders(selector, pool)
  {
    if selector == map[] then "default" else
    var k :| k in selector;
    k + "=" + selector[k]
  }

  ghost predicate SingleKeyed(op: Op) {
    match op
    case Sync(_, _, selector, _) => |selector| <= 1
    case Allocate(_, _, selector, _, _, _) => |selector| <= 1
    case _ => true
  }

  ghost predicate SingleKeyedState(s: State) {
    forall m :: m in s.allocations ==> |s.allocations[m].selector| <= 1
  }

  lemma SizeOneKeys(selector: Selector, k: string, j: string)
    requires |selector| <= 1 && k in selector && j in selector
    ensures k == j
  {
    SubsetSize({k, j}, selector.Keys);
  }

  lemma RendersOnce(selector: Selector, pool: string)
    requires |selector| <= 1
    ensures Renders(selector, pool) <==> pool == PoolOf(selector)
  {
    if selector != map[] && Renders(selector, pool) {
      var k :| k in selector && pool == k + "=" + selector[k];
      var j :| j in selector && PoolOf(selector) == j + "=" + selector[j];
      SizeOneKeys(selector, k, j);
    }
  }

  lemma UnlockedRoomOfOne(s: State, m: Model, memory: nat, selector: Selector, first: string, second: string)
    requires Renders(selector, first) && Renders(selector, second)
    ensures |selector| <= 1 ==> (UnlockedRoom(s, m, memory, first, second) <==> HasRoom(s, m, memory, PoolOf(selector)))
  {
    if |selector| <= 1 {
      RendersOnce(selector, first);
      RendersOnce(selector, second);
    }
  }

  lemma KeyIsBeforeFirstEquals(k: string, v: string, j: string, w: string)
    requires '=' !in k && '=' !in j && k + "=" + v == j + "=" + w
    ensures k == j
  {
    var p := k + "=" + v;
    assert p[|k|] == '=' && forall i | 0 <= i < |k| :: p[i] == k[i] != '=';
    assert p[|j|] == '=' && forall i | 0 <= i < |j| :: p[i] == j[i] != '=';
    assert |k| == |j|;
    assert k == p[..|k|] && j == p[..|j|];
  }

  /** Label keys contain no '='; then the pool is determined exactly when there is at most one entry. */
  lemma PoolDeterminedIff(selector: Selector)
    requires forall k :: k in selector ==> '=' !in k
    ensures (forall p, p' :: Renders(selector, p) && Renders(selector, p') ==> p == p') <==> |selector| <= 1
  {
    if |selector| <= 1 {
      forall p, p' | Renders(selector, p) && Renders(selector, p')
        ensures p == p'
      {
        RendersOnce(selector, p);
        RendersOnce(selector, p');
      }
    } else {
      var k :| k in selector;
      assert |selector.Keys - {k}| == |selector| - 1;
      var j :| j in selector.Keys - {k};
      var p, p' := k + "=" + selector[k], j + "=" + selector[j];
      assert Renders(selector, p) && Renders(selector, p');
      if p == p' {
        KeyIsBeforeFirstEquals(k, selector[k], j, selector[j]);
      }
    }
  }

  // Accounting.

  ghost function InPool(allocations: map<Model, Allocation>, pool: string): map<Model, nat> {
    map m | m in allocations && PoolOf(allocations[m].selector) == pool :: allocations[m].memory
  }

  /** What the pool's counter says beyond what its models really hold. */
  ghost function Drift(s: State, pool: string): int
    requires pool in s.pools
  {
    s.pools[pool].used - Sum(InPool(s.allocations, pool))
  }

  lemma ReleaseKeepsDrift(s: State, m: Model, oldPool: string, pool: string)
    requires m in s.allocations ==> oldPool == PoolOf(s.allocations[m].selector)
    requires pool in s.pools
    ensures var s' := ReleaseFrom(s, m, oldPool);
      pool in s'.pools && Drift(s', pool) == Drift(s, pool)
  {
    var s' := ReleaseFrom(s, m, oldPool);
    if m in s.allocations {
      var held := InPool(s.allocations, pool);
      assert InPool(s'.allocations, pool) == held - {m};
      if m in held {
        SumRemove(held, m);
      } else {
        assert held - {m} == held;
      }
    }
  }

  lemma GrantKeepsDrift(s: State, m: Model, memory: nat, selector: Selector, newPool: string, pool: string)
    requires m !in s.allocations && newPool == PoolOf(selector)
    requires pool in s.pools
    ensures var s' := Grant(s, m, memory, selector, newPool);
      pool in s'.pools && Drift(s', pool) == Drift(s, pool)
  {
    var s' := Grant(s, m, memory, selector, newPool);
    var held := InPool(s.allocations, pool);
    assert m !in held;
    assert held - {m} == held;
    if newPool == pool {
      assert InPool(s'.allocations, pool) == held[m := memory];
      SumInsert(held, m, memory);
    } else {
      assert InPool(s'.allocations, pool) == held;
    }
  }

  lemma StepKeepsDrift(s: State, op: Op, pool: string)
    requires Legal(s, op) && SingleKeyed(op) && SingleKeyedState(s)
    requires pool in s.pools
    ensures var s' := Apply(s, op);
      SingleKeyedState(s') && pool in s'.pools && Drift(s', pool) == Drift(s, pool)
  {
    match op
    case SetBudget(_, _) =>
    case Sync(m, memory, selector, newPool) =>
      RendersOnce(selector, newPool);
      if m !in s.allocations {
        GrantKeepsDrift(s, m, memory, selector, newPool, pool);
      }
    case Allocate(m, memory, selector, checkPool, oldPool, newPool) =>
      RendersOnce(selector, newPool);
      if m in s.allocations {
        RendersOnce(s.allocations[m].selector, oldPool);
      }
      var mid := ReleaseFrom(s, m, oldPool);
      ReleaseKeepsDrift(s, m, oldPool, pool);
      GrantKeepsDrift(mid, m, memory, selector, newPool, pool);
      assert Grant(mid, m, memory, selector, newPool)
          == State(Charge(mid.pools, newPool, memory), mid.allocations[m := Allocation(memory, selector)]);
    case Release(m, oldPool) =>
      if m in s.allocations {
        RendersOnce(s.allocations[m].selector, oldPool);
      }
      ReleaseKeepsDrift(s, m, oldPool, pool);
  }

  /** Once a pool has a budget, no run changes its drift. */
  lemma {:induction false} RunKeepsDrift(s: State, ops: seq<Op>, pool: string)
    requires LegalRun(s, ops) && SingleKeyedState(s)
    requires forall i | 0 <= i < |ops| :: SingleKeyed(ops[i])
    requires pool in s.pools
    ensures pool in Exec(s, ops).pools && Drift(Exec(s, ops), pool) == Drift(s, pool)
    decreases |ops|
  {
    if ops != [] {
      StepKeepsDrift(s, ops[0], pool);
      RunKeepsDrift(Apply(s, ops[0]), ops[1..], pool);
    }
  }

  /**
   In every run from the empty tracker, a pool's counter is the sum of its models' memory minus a
   constant: what those models already held when `SetNodeBudget` created the pool. It is therefore
   exact for a pool whose budget was set before any allocation in it.
   */
  lemma {:induction false} CounterIsSumMinusInitial(ops: seq<Op>, created: nat, pool: string)
    requires LegalRun(Empty, ops)
    requires forall i | 0 <= i < |ops| :: SingleKeyed(ops[i])
    requires created < |ops| && ops[created].SetBudget? && ops[created].pool == pool
    requires pool !in Exec(Empty, ops[..created]).pools
    ensures var final := Exec(Empty, ops);
      && pool in final.pools
      && final.pools[pool].used
      == Sum(InPool(final.allocations, pool)) - Sum(InPool(Exec(Empty, ops[..created]).allocations, pool))
  {
    var before := Exec(Empty, ops[..created]);
    RunSplit(Empty, ops, created);
    RunSingleKeyed(Empty, ops[..created]);
    var rest := ops[created..];
    var s := Apply(before, rest[0]);
    assert Drift(s, pool) == 0 - Sum(InPool(before.allocations, pool));
    RunKeepsDrift(s, rest[1..], pool);
  }

  lemma {:induction false} RunSplit(s: State, ops: seq<Op>, n: nat)
    requires n <= |ops| && LegalRun(s, ops)
    ensures LegalRun(s, ops[..n]) && LegalRun(Exec(s, ops[..n]), ops[n..])
    ensures Exec(s, ops) == Exec(Exec(s, ops[..n]), ops[n..])
    decreases n
  {
    if n == 0 {
      assert ops[..n] == [] && ops[n..] == ops;
    } else {
      RunSplit(Apply(s, ops[0]), ops[1..], n - 1);
      assert ops[..n] == [ops[0]] + ops[1..][..n - 1];
      assert ops[1..][n - 1..] == ops[n..];
    }
  }

  lemma {:induction false} RunSingleKeyed(s: State, ops: seq<Op>)
    requires SingleKeyedState(s)
    requires forall i | 0 <= i < |ops| :: SingleKeyed(ops[i])
    ensures SingleKeyedState(Exec(s, ops))
    decreases |ops|
  {
    if ops != [] {
      RunSingleKeyed(Apply(s, ops[0]), ops[1..]);
    }
  }

  /** Two different keys of one selector. */
  lemma TwoKeys(selector: Selector) returns (p: string, q: string)
    requires |selector| >= 2 && forall k :: k in selector ==> '=' !in k
    ensures Renders(selector, p) && Renders(selector, q) && p != q
  {
    PoolDeterminedIff(selector);
    p, q :| Renders(selector, p) && Renders(selector, q) && p != q;
  }

  /**
   With several entries a release may credit another pool than the grant charged: whatever the selector,
   a counter can stay off zero with nothing allocated.
   */
  lemma SeveralEntriesDrift(selector: Selector, total: nat, m: Model, memory: nat) returns (ops: seq<Op>, pool: string)
    requires |selector| >= 2 && (forall k :: k in selector ==> '=' !in k) && memory > 0
    ensures LegalRun(Empty, ops) && forall op | op in ops :: UsesOnly(op, selector)
    ensures ops != [] && ops[0] == SetBudget(pool, total)
    ensures var s := Exec(Empty, ops);
      s.allocations == map[] && pool in s.pools && s.pools[pool].used == memory == Drift(s, pool)
  {
    var other;
    pool, other := TwoKeys(selector);
    var op0, op1, op2 := SetBudget(pool, total), Sync(m, memory, selector, pool), Release(m, other);
    ops := [op0, op1, op2];
    assert ops[1..] == [op1, op2] && ops[1..][1..] == [op2] && ops[1..][1..][1..] == [];
    var s1 := Apply(Empty, op0);
    var s2 := Apply(s1, op1);
    var s3 := Apply(s2, op2);
    hide Renders;
    assert LegalRun(s3, []) && LegalRun(s2, [op2]) && LegalRun(s1, [op1, op2]) && LegalRun(Empty, ops);
    assert Exec(s3, []) == s3 && Exec(s2, [op2]) == s3 && Exec(s1, [op1, op2]) == s3 && Exec(Empty, ops) == s3;
    assert s3.allocations == map[] && InPool(s3.allocations, pool) == map[];
  }

  predicate UsesOnly(op: Op, selector: Selector) {
    (op.Sync? || op.Allocate?) ==> op.selector == selector
  }

  /** Operation `created` sets the first budget of a pool in which nothing is allocated. */
  ghost predicate SetsEarlyBudget(ops: seq<Op>, created: nat, pool: string)
    requires created < |ops|
  {
    && ops[created].SetBudget? && ops[created].pool == pool
    && pool !in Exec(Empty, ops[..created]).pools
    && Sum(InPool(Exec(Empty, ops[..created]).allocations, pool)) == 0
  }

  /** In every run that uses this selector alone, counters of budgets set in time are exact at the end. */
  ghost predicate KeepsExact(selector: Selector) {
    forall ops: seq<Op>, created: nat, pool: string
      | LegalRun(Empty, ops) && (forall op | op in ops :: UsesOnly(op, selector))
        && created < |ops| && SetsEarlyBudget(ops, created, pool) ::
      pool in Exec(Empty, ops).pools && Drift(Exec(Empty, ops), pool) == 0
  }

  /** Counters stay exact in every run of a selector if and only if it has at most one entry. */
  lemma ExactIffOneEntry(selector: Selector)
    requires forall k :: k in selector ==> '=' !in k
    ensures KeepsExact(selector) <==> |selector| <= 1
  {
    if |selector| <= 1 {
      forall ops: seq<Op>, created: nat, pool: string
        | LegalRun(Empty, ops) && (forall op | op in ops :: UsesOnly(op, selector))
          && created < |ops| && SetsEarlyBudget(ops, created, pool)
        ensures pool in Exec(Empty, ops).pools && Drift(Exec(Empty, ops), pool) == 0
      {
        assert forall i | 0 <= i < |ops| :: ops[i] in ops;
        CounterIsSumMinusInitial(ops, created, pool);
      }
    } else {
      var ops, pool := SeveralEntriesDrift(selector, 0, Model("", ""), 1);
      assert ops[..0] == [] && InPool(Empty.allocations, pool) == map[];
      assert SetsEarlyBudget(ops, 0, pool);
    }
  }

  /**
   Where a pool's counter is exact and the model does not come from elsewhere, the check is on what the
   pool's models would hold afterwards: it admits exactly what then still fits the total.
   */
  lemma RoomIff(s: State, m: Model, memory: nat, selector: Selector)
    requires var pool := PoolOf(selector); pool in s.pools && Drift(s, pool) == 0
    requires m in s.allocations ==> PoolOf(s.allocations[m].selector) == PoolOf(selector)
    ensures var pool := PoolOf(selector);
      HasRoom(s, m, memory, pool)
      <==> Sum(InPool(s.allocations[m := Allocation(memory, selector)], pool)) <= s.pools[pool].total
  {
    var pool := PoolOf(selector);
    var held := InPool(s.allocations, pool);
    assert InPool(s.allocations[m := Allocation(memory, selector)], pool) == held[m := memory];
    SumInsert(held, m, memory);
    if m in s.allocations {
      SumRemove(held, m);
    } else {
      assert held - {m} == held;
    }
  }

  // The pool bound.

  /** The memory a step syncs into a pool. */
  function Synced(s: State, op: Op, pool: string): nat {
    if op.Sync? && op.model !in s.allocations && op.newPool == pool then op.memory else 0
  }

  /** By how much one step may push a pool beyond its total. */
  function Excess(s: State, op: Op, pool: string): nat {
    match op
    case SetBudget(p, total) =>
      if p == pool && p in s.pools then
        var PoolBudget(oldTotal, used) := s.pools[p];
        var within := if used < oldTotal then used else oldTotal;
        if total < within then within - total else 0
      else
        0
    case Sync(_, _, _, _) => Synced(s, op, pool)
    case Allocate(m, memory, _, checkPool, oldPool, newPool) =>
      if newPool != pool || !HasRoom(s, m, memory, checkPool) then 0
      else if checkPool != pool then memory
      else if m in s.allocations && oldPool != pool then s.allocations[m].memory
      else 0
    case Release(_, _) => 0
  }

  function RunExcess(s: State, ops: seq<Op>, pool: string): nat
    decreases |ops|
  {
    if ops == [] then 0 else Excess(s, ops[0], pool) + RunExcess(Apply(s, ops[0]), ops[1..], pool)
  }

  lemma StepBound(s: State, op: Op, pool: string, over: nat)
    requires pool in s.pools ==> s.pools[pool].used <= s.pools[pool].total + over
    ensures var s' := Apply(s, op);
      pool in s'.pools ==> s'.pools[pool].used <= s'.pools[pool].total + over + Excess(s, op, pool)
  {
  }

  /**
   In every run whatsoever, a pool exceeds its total by at most the memory of the models synced into
   it, the old memory of the models moved into it, and the amounts by which its total was lowered
   below its counter (plus the memory of grants whose check happened to look at another pool, which
   one-entry selectors exclude). Without such steps it never exceeds its total.
   */
  lemma {:induction false} RunBound(s: State, ops: seq<Op>, pool: string, over: nat)
    requires pool in s.pools ==> s.pools[pool].used <= s.pools[pool].total + over
    ensures var final := Exec(s, ops);
      pool in final.pools ==> final.pools[pool].used <= final.pools[pool].total + over + RunExcess(s, ops, pool)
    decreases |ops|
  {
    if ops != [] {
      StepBound(s, ops[0], pool, over);
      RunBound(Apply(s, ops[0]), ops[1..], pool, over + Excess(s, ops[0], pool));
    }
  }

  /** The memory a run syncs into a pool. */
  function SyncedInto(s: State, ops: seq<Op>, pool: string): nat
    decreases |ops|
  {
    if ops == [] then 0 else Synced(s, ops[0], pool) + SyncedInto(Apply(s, ops[0]), ops[1..], pool)
  }

  /** A model that holds memory asks for the pool it holds it in, by selectors of at most one entry. */
  ghost predicate ModelStays(s: State, op: Op) {
    op.Allocate? ==>
      && |op.selector| <= 1
      && (op.model in s.allocations ==>
            |s.allocations[op.model].selector| <= 1 && PoolOf(s.allocations[op.model].selector) == PoolOf(op.selector))
  }

  /** A total is not lowered below what is allocated at that moment. */
  predicate TotalCovers(s: State, op: Op, pool: string) {
    op.SetBudget? && op.pool == pool && pool in s.pools && op.total < s.pools[pool].total ==>
      s.pools[pool].used <= op.total
  }

  ghost predicate Careful(s: State, ops: seq<Op>, pool: string)
    decreases |ops|
  {
    ops == [] ||
    (ModelStays(s, ops[0]) && TotalCovers(s, ops[0], pool) && Careful(Apply(s, ops[0]), ops[1..], pool))
  }

  lemma CarefulExcess(s: State, op: Op, pool: string)
    requires Legal(s, op) && ModelStays(s, op) && TotalCovers(s, op, pool)
    ensures Excess(s, op, pool) == Synced(s, op, pool)
  {
    if op.Allocate? {
      RendersOnce(op.selector, op.checkPool);
      RendersOnce(op.selector, op.newPool);
      if op.model in s.allocations {
        RendersOnce(s.allocations[op.model].selector, op.oldPool);
      }
    }
  }

  lemma {:induction false} CarefulRunExcess(s: State, ops: seq<Op>, pool: string)
    requires LegalRun(s, ops) && Careful(s, ops, pool)
    ensures RunExcess(s, ops, pool) == SyncedInto(s, ops, pool)
    decreases |ops|
  {
    if ops != [] {
      CarefulExcess(s, ops[0], pool);
      CarefulRunExcess(Apply(s, ops[0]), ops[1..], pool);
    }
  }

  /**
   While models keep their pool and no total is lowered below its counter, a pool exceeds its total by at
   most the memory ever synced into it; allocations, successful or not, add nothing.
   */
  lemma OnlySyncsExceed(s: State, ops: seq<Op>, pool: string)
    requires LegalRun(s, ops) && Careful(s, ops, pool)
    requires pool in s.pools ==> s.pools[pool].used <= s.pools[pool].total
    ensures var final := Exec(s, ops);
      pool in final.pools ==> final.pools[pool].used <= final.pools[pool].total + SyncedInto(s, ops, pool)
  {
    RunBound(s, ops, pool, 0);
    CarefulRunExcess(s, ops, pool);
  }

  /** The bound is attained: a sync into a full pool exceeds its total by all it brings. */
  lemma SyncExceedsTotal(m: Model, selector: Selector, total: nat, memory: nat) returns (s: State, op: Op)
    requires |selector| <= 1
    ensures Legal(s, op) && op.Sync? && op.model == m && Careful(s, [op], PoolOf(selector))
    ensures var pool := PoolOf(selector);
      && pool in s.pools && s.pools[pool].used == s.pools[pool].total == total
      && Apply(s, op).pools[pool].used == total + SyncedInto(s, [op], pool) == total + memory
  {
    var pool := PoolOf(selector);
    s := State(map[pool := PoolBudget(total, total)], map[]);
    op := Sync(m, memory, selector, pool);
    assert [op][1..] == [];
  }

  /**
   A successful allocation leaves a pool that was within its total within it if and only if the model does
   not come from another pool, or its whole memory would have fitted as well.
   */
  lemma AllocationFitsIff(s: State, op: Op)
    requires op.Allocate? && op.checkPool == op.newPool && HasRoom(s, op.model, op.memory, op.checkPool)
    requires op.newPool in s.pools && s.pools[op.newPool].used <= s.pools[op.newPool].total
    ensures var b := Apply(s, op).pools[op.newPool];
      b.used <= b.total <==>
      (op.model !in s.allocations || op.oldPool == op.newPool
       || s.pools[op.newPool].used + op.memory <= s.pools[op.newPool].total)
  {
  }

  /** Such a move: into a full pool, for any selector that names it and any model that holds enough elsewhere. */
  lemma MoveExceedsTotal(m: Model, current: Selector, wanted: Selector, total: nat, memory: nat) returns (s: State, op: Op)
    requires PoolOf(current) != PoolOf(wanted) && memory > 0
    ensures Legal(s, op) && op.Allocate? && op.model == m && HasRoom(s, m, op.memory, op.checkPool)
    ensures op.newPool in s.pools && m in s.allocations && s.pools[op.newPool].used <= s.pools[op.newPool].total
    ensures Apply(s, op).pools[op.newPool].used == s.pools[op.newPool].total + s.allocations[m].memory
  {
    var pool := PoolOf(wanted);
    s := State(map[pool := PoolBudget(total, total)], map[m := Allocation(memory, current)]);
    op := Op.Allocate(m, memory, wanted, pool, PoolOf(current), pool);
  }

  // Facts used by the proxy.

  /** Releasing other models never takes room away. */
  lemma ReleaseKeepsRoom(s: State, victim: Model, oldPool: string, m: Model, memory: nat, pool: string)
    requires victim != m && HasRoom(s, m, memory, pool)
    ensures HasRoom(ReleaseFrom(s, victim, oldPool), m, memory, pool)
  {
  }

  lemma ReleaseTotal(s: State, m: Model, oldPool: string)
    requires m in s.allocations
    ensures TotalAllocated(ReleaseFrom(s, m, oldPool)) == TotalAllocated(s) - s.allocations[m].memory
  {
    SumRemove(Memories(s.allocations), m);
    assert Memories(s.allocations - {m}) == Memories(s.allocations) - {m};
  }
}
