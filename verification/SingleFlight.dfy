/**
 The mutex that is to let one request at a time create a model's pod: looked up in a map, locked, unlocked,
 and then deleted from the map, as one step each.
 */
module SingleFlight {
  import opened MapSums
  import opened Options

  /** A request in `ensureDeployment`; `Unlocked` is between the unlock and the deletion. */
  datatype Caller = Outside | Waiting(mutex: nat) | Inside(mutex: nat) | Unlocked(mutex: nat) | Gone

  /** `table` is the map's entry for the model, `unused` the next new mutex. */
  datatype State = State(table: Option<nat>, unused: nat, callers: map<nat, Caller>)

  datatype Step = LoadOrStore(c: nat) | Lock(c: nat) | Unlock(c: nat) | Delete(c: nat)

  predicate Locked(s: State, mutex: nat) {
    exists c | c in s.callers :: s.callers[c] == Inside(mutex)
  }

  predicate Enabled(s: State, step: Step) {
    step.c in s.callers &&
    match step
    case LoadOrStore(c) => s.callers[c] == Outside
    case Lock(c) => s.callers[c].Waiting? && !Locked(s, s.callers[c].mutex)
    case Unlock(c) => s.callers[c].Inside?
    case Delete(c) => s.callers[c].Unlocked?
  }

  function Apply(s: State, step: Step): State
    requires Enabled(s, step)
  {
    match step
    case LoadOrStore(c) =>
      if s.table.Some? then s.(callers := s.callers[c := Waiting(s.table.value)])
      else State(Some(s.unused), s.unused + 1, s.callers[c := Waiting(s.unused)])
    case Lock(c) => s.(callers := s.callers[c := Inside(s.callers[c].mutex)])
    case Unlock(c) => s.(callers := s.callers[c := Unlocked(s.callers[c].mutex)])
    case Delete(c) => s.(table := None, callers := s.callers[c := Gone])
  }

  predicate Run(s: State, steps: seq<Step>)
    decreases |steps|
  {
    steps == [] || (Enabled(s, steps[0]) && Run(Apply(s, steps[0]), steps[1..]))
  }

  function After(s: State, steps: seq<Step>): State
    requires Run(s, steps)
    decreases |steps|
  {
    if steps == [] then s else After(Apply(s, steps[0]), steps[1..])
  }

  /** One at a time. */
  predicate Exclusive(s: State) {
    forall c, d | c in s.callers && d in s.callers && s.callers[c].Inside? && s.callers[d].Inside? :: c == d
  }

  /** Every schedule of these callers, each calling once, lets in one at a time. */
  ghost predicate AlwaysExclusive(callers: set<nat>) {
    forall steps: seq<Step> | Run(Start(callers), steps) :: Exclusive(After(Start(callers), steps))
  }

  function Start(callers: set<nat>): State {
    State(None, 0, map c | c in callers :: Outside)
  }

  predicate Holds(c: Caller) {
    c.Waiting? || c.Inside? || c.Unlocked?
  }

  /** As long as nobody has gone, all hold the mutex of the table. */
  predicate Inv(s: State) {
    && (forall c, d | c in s.callers && d in s.callers && s.callers[c].Inside? && s.callers[c] == s.callers[d] :: c == d)
    && ((forall c | c in s.callers :: s.callers[c] != Gone) ==>
          forall c | c in s.callers && Holds(s.callers[c]) :: s.table == Some(s.callers[c].mutex))
  }

  lemma StepKeepsInv(s: State, step: Step)
    requires Inv(s) && Enabled(s, step)
    ensures Inv(Apply(s, step)) && Apply(s, step).callers.Keys == s.callers.Keys
  {
    var t := Apply(s, step);
    if forall c | c in t.callers :: t.callers[c] != Gone {
      assert t.callers[step.c] != Gone;
      forall c | c in s.callers ensures s.callers[c] != Gone {
        assert t.callers[c] != Gone;
      }
      forall c | c in t.callers && Holds(t.callers[c]) ensures t.table == Some(t.callers[c].mutex) {
        if !(c == step.c && step.LoadOrStore?) {
          assert Holds(s.callers[c]) && s.table == Some(s.callers[c].mutex);
        }
      }
    }
  }

  lemma {:induction false} RunKeepsInv(s: State, steps: seq<Step>)
    requires Inv(s) && Run(s, steps)
    ensures Inv(After(s, steps)) && After(s, steps).callers.Keys == s.callers.Keys
    decreases |steps|
  {
    if steps != [] {
      StepKeepsInv(s, steps[0]);
      RunKeepsInv(Apply(s, steps[0]), steps[1..]);
    }
  }

  lemma AtMostTwo(callers: set<nat>, a: nat, b: nat, c: nat)
    requires |callers| <= 2 && a in callers && b in callers && c in callers
    ensures a == b || b == c || a == c
  {
    SubsetSize({a, b, c}, callers);
  }

  lemma TwoAreExclusive(s: State)
    requires Inv(s) && |s.callers.Keys| <= 2
    ensures Exclusive(s)
  {
    forall c, d | c in s.callers && d in s.callers && s.callers[c].Inside? && s.callers[d].Inside?
      ensures c == d
    {
      if e :| e in s.callers && s.callers[e] == Gone {
        AtMostTwo(s.callers.Keys, c, d, e);
      }
    }
  }

  lemma Chain(s: State, step: Step, rest: seq<Step>)
    requires Enabled(s, step) && Run(Apply(s, step), rest)
    ensures Run(s, [step] + rest) && After(s, [step] + rest) == After(Apply(s, step), rest)
  {
    assert ([step] + rest)[1..] == rest;
  }

  /** Whoever comes after the deletion gets a fresh mutex, and goes in whoever else is inside. */
  lemma LateComerComesIn(s: State, b: nat, c: nat)
    requires s.table == None && c in s.callers && s.callers[c] == Outside && b in s.callers && s.callers[b].Inside?
    requires forall d | d in s.callers && s.callers[d].Inside? :: s.callers[d].mutex != s.unused
    ensures var steps := [LoadOrStore(c), Lock(c)]; Run(s, steps) && !Exclusive(After(s, steps))
  {
    var s1 := Apply(s, LoadOrStore(c));
    assert !Locked(s1, s.unused);
    var s2 := Apply(s1, Lock(c));
    assert s2.callers[b].Inside? && s2.callers[c].Inside? && b != c;
    hide Apply;
    hide Enabled;
    Chain(s1, Lock(c), []);
    Chain(s, LoadOrStore(c), [Lock(c)]);
  }

  /**
   The third caller: one waits for the mutex of a first, which unlocks it; the one that waited goes in; the
   first deletes the mutex from the map; the third stores a fresh one and goes in as well.
   */
  lemma ThirdComesIn(callers: set<nat>, a: nat, b: nat, c: nat) returns (steps: seq<Step>)
    requires a in callers && b in callers && c in callers && a != b && b != c && a != c
    ensures Run(Start(callers), steps) && !Exclusive(After(Start(callers), steps))
  {
    var s0 := Start(callers);
    var out := s0.callers;
    var s1 := State(Some(0), 1, out[a := Waiting(0)]);
    var s2 := State(Some(0), 1, out[a := Waiting(0)][b := Waiting(0)]);
    var s3 := State(Some(0), 1, out[a := Inside(0)][b := Waiting(0)]);
    var s4 := State(Some(0), 1, out[a := Unlocked(0)][b := Waiting(0)]);
    var s5 := State(Some(0), 1, out[a := Unlocked(0)][b := Inside(0)]);
    var s6 := State(None, 1, out[a := Gone][b := Inside(0)]);
    assert Enabled(s0, LoadOrStore(a)) && Apply(s0, LoadOrStore(a)) == s1;
    assert Enabled(s1, LoadOrStore(b)) && Apply(s1, LoadOrStore(b)) == s2;
    assert Enabled(s2, Lock(a)) && Apply(s2, Lock(a)) == s3;
    assert Enabled(s3, Unlock(a)) && Apply(s3, Unlock(a)) == s4;
    assert Enabled(s4, Lock(b)) && Apply(s4, Lock(b)) == s5;
    assert Enabled(s5, Delete(a)) && Apply(s5, Delete(a)) == s6;
    LateComerComesIn(s6, b, c);
    hide *;
    steps := [LoadOrStore(c), Lock(c)];
    Chain(s5, Delete(a), steps);
    steps := [Delete(a)] + steps;
    Chain(s4, Lock(b), steps);
    steps := [Lock(b)] + steps;
    Chain(s3, Unlock(a), steps);
    steps := [Unlock(a)] + steps;
    Chain(s2, Lock(a), steps);
    steps := [Lock(a)] + steps;
    Chain(s1, LoadOrStore(b), steps);
    steps := [LoadOrStore(b)] + steps;
    Chain(s0, LoadOrStore(a), steps);
    steps := [LoadOrStore(a)] + steps;
  }

  lemma ThreeOf(callers: set<nat>) returns (a: nat, b: nat, c: nat)
    requires |callers| >= 3
    ensures a in callers && b in callers && c in callers && a != b && b != c && a != c
  {
    a :| a in callers;
    assert |callers - {a}| >= 2;
    b :| b in callers - {a};
    assert |callers - {a} - {b}| >= 1;
    c :| c in callers - {a} - {b};
  }

  /** The mutex lets in one request at a time, under every schedule, if and only if there are at most two. */
  lemma ExclusiveIffTwo(callers: set<nat>)
    ensures AlwaysExclusive(callers) <==> |callers| <= 2
  {
    if |callers| <= 2 {
      forall steps: seq<Step> | Run(Start(callers), steps)
        ensures Exclusive(After(Start(callers), steps))
      {
        RunKeepsInv(Start(callers), steps);
        assert Start(callers).callers.Keys == callers;
        TwoAreExclusive(After(Start(callers), steps));
      }
    } else {
      var a, b, c := ThreeOf(callers);
      var steps := ThirdComesIn(callers, a, b, c);
    }
  }
}
