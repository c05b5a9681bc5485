/** The deployment registry: a class over a map of entries, and its idle listing, least recently used first. */
module Registry {
  import opened Budget

  datatype DeploymentState = Nonexistent | Creating | Ready | Deleting

  datatype Entry = Entry(state: DeploymentState, lastRequest: int, active: nat, createdAt: int)

  type Entries = map<Model, Entry>

  function SetStateIn(es: Entries, m: Model, state: DeploymentState, now: int): Entries {
    es[m := if m in es then es[m].(state := state) else Entry(state, now, 0, now)]
  }

  function RecordIn(es: Entries, m: Model, now: int): Entries {
    es[m := if m in es then es[m].(active := es[m].active + 1, lastRequest := now)
            else Entry(Creating, now, 1, now)]
  }

  function FinishIn(es: Entries, m: Model): Entries {
    if m in es && es[m].active > 0 then es[m := es[m].(active := es[m].active - 1)] else es
  }

  /** No active requests, and the last one strictly before the cutoff. */
  predicate Idle(e: Entry, cutoff: int) {
    e.active == 0 && e.lastRequest < cutoff
  }

  /** `ms` lists every idle model once, oldest request first. */
  ghost predicate IdleListing(ms: seq<Model>, es: Entries, cutoff: int) {
    && (forall i, j | 0 <= i < j < |ms| :: ms[i] != ms[j])
    && (forall m :: m in ms <==> m in es && Idle(es[m], cutoff))
    && (forall i, j | 0 <= i < j < |ms| :: ms[i] in es && ms[j] in es && es[ms[i]].lastRequest <= es[ms[j]].lastRequest)
  }

  /**
   A model used just now is not idle, however briefly: after a request recorded at `now` and finished, it is
   idle at a cutoff if and only if no other request is active and the cutoff is later.
   */
  lemma IdleAfterUseIff(es: Entries, m: Model, now: int, cutoff: int)
    ensures var after := FinishIn(RecordIn(es, m, now), m);
      m in after && (Idle(after[m], cutoff) <==> (m in es ==> es[m].active == 0) && now < cutoff)
  {
  }

  class DeploymentRegistry {
    var entries: Entries

    constructor ()
      ensures entries == map[]
    {
      entries := map[];
    }

    method Get(m: Model) returns (e: Entry, found: bool)
      ensures found == (m in entries) && (found ==> e == entries[m])
    {
      found := m in entries;
      e := if found then entries[m] else Entry(Nonexistent, 0, 0, 0);
    }

    method SetState(m: Model, state: DeploymentState, now: int)
      modifies this
      ensures entries == SetStateIn(old(entries), m, state, now)
    {
      if m in entries {
        entries := entries[m := entries[m].(state := state)];
      } else {
        entries := entries[m := Entry(state, now, 0, now)];
      }
    }

    method RecordRequest(m: Model, now: int)
      modifies this
      ensures entries == RecordIn(old(entries), m, now)
    {
      if m in entries {
        var e := entries[m];
        entries := entries[m := e.(active := e.active + 1, lastRequest := now)];
      } else {
        entries := entries[m := Entry(Creating, now, 1, now)];
      }
    }

    method FinishRequest(m: Model)
      modifies this
      ensures entries == FinishIn(old(entries), m)
    {
      if m in entries {
        var e := entries[m];
        if e.active > 0 {
          entries := entries[m := e.(active := e.active - 1)];
        }
      }
    }

    method Delete(m: Model)
      modifies this
      ensures entries == old(entries) - {m}
    {
      entries := entries - {m};
    }

    method GetIdleEntriesSorted(now: int, minIdle: int) returns (ms: seq<Model>)
      ensures IdleListing(ms, entries, now - minIdle)
    {
      var cutoff := now - minIdle;
      ms := [];
      var rest := entries.Keys;
      while rest != {}
        invariant rest <= entries.Keys
        invariant forall i, j | 0 <= i < j < |ms| :: ms[i] != ms[j]
        invariant forall m :: m in ms <==> m in entries && m !in rest && Idle(entries[m], cutoff)
        decreases rest
      {
        var m :| m in rest;
        rest := rest - {m};
        if Idle(entries[m], cutoff) {
          ms := ms + [m];
        }
      }
      ms := SortByLastRequest(ms, entries);
    }
  }

  ghost predicate OldestFirst(ms: seq<Model>, es: Entries) {
    forall i, j | 0 <= i < j < |ms| :: ms[i] in es && ms[j] in es && es[ms[i]].lastRequest <= es[ms[j]].lastRequest
  }

  /** `sort.Slice` on the request times, as an insertion sort. */
  method SortByLastRequest(ms: seq<Model>, es: Entries) returns (sorted: seq<Model>)
    requires forall m :: m in ms ==> m in es
    requires forall i, j | 0 <= i < j < |ms| :: ms[i] != ms[j]
    ensures forall m :: m in sorted <==> m in ms
    ensures forall i, j | 0 <= i < j < |sorted| :: sorted[i] != sorted[j]
    ensures OldestFirst(sorted, es)
  {
    sorted := [];
    var i := 0;
    while i < |ms|
      invariant i <= |ms|
      invariant forall m :: m in sorted <==> m in ms[..i]
      invariant forall a, b | 0 <= a < b < |sorted| :: sorted[a] != sorted[b]
      invariant OldestFirst(sorted, es)
    {
      assert ms[..i + 1] == ms[..i] + [ms[i]];
      sorted := Insert(ms[i], sorted, es);
      i := i + 1;
    }
    assert ms[..i] == ms;
  }

  method Insert(m: Model, sorted: seq<Model>, es: Entries) returns (r: seq<Model>)
    requires m in es && m !in sorted && forall x :: x in sorted ==> x in es
    requires forall i, j | 0 <= i < j < |sorted| :: sorted[i] != sorted[j]
    requires OldestFirst(sorted, es)
    ensures forall x :: x in r <==> x == m || x in sorted
    ensures forall i, j | 0 <= i < j < |r| :: r[i] != r[j]
    ensures OldestFirst(r, es)
  {
    var k: nat := |sorted|;
    while k > 0 && es[m].lastRequest < es[sorted[k - 1]].lastRequest
      invariant k <= |sorted|
      invariant forall i | k <= i < |sorted| :: es[m].lastRequest < es[sorted[i]].lastRequest
    {
      k := k - 1;
    }
    r := sorted[..k] + [m] + sorted[k..];
    InsertedAt(m, sorted, k, r);
    forall i, j | 0 <= i < j < |r|
      ensures r[i] != r[j] && r[i] in es && r[j] in es && es[r[i]].lastRequest <= es[r[j]].lastRequest
    {
      assert i != k ==> r[i] == sorted[if i < k then i else i - 1];
      assert j != k ==> r[j] == sorted[if j < k then j else j - 1];
    }
  }

  lemma InsertedAt(m: Model, sorted: seq<Model>, k: nat, r: seq<Model>)
    requires k <= |sorted| && r == sorted[..k] + [m] + sorted[k..]
    ensures forall x :: x in r <==> x == m || x in sorted
  {
    assert sorted == sorted[..k] + sorted[k..];
  }
}
