/** The reader that reports the progress of one chunk, at most once per interval. */
module Progress {

  /** One Read: `n` bytes at time `now`, with or without an error (the end of the body is one). */
  datatype Reading = Reading(n: nat, failed: bool, now: int)

  /** What is not yet reported, when the last report was made, and all reports so far. */
  datatype State = State(pending: nat, lastFlush: int, reports: seq<nat>)

  function After(s: State, r: Reading, interval: nat): State {
    if r.n == 0 then s
    else if r.now - s.lastFlush >= interval || r.failed
    then State(0, r.now, s.reports + [s.pending + r.n])
    else s.(pending := s.pending + r.n)
  }

  function Run(s: State, rs: seq<Reading>, interval: nat): State {
    if rs == [] then s else After(Run(s, rs[..|rs| - 1], interval), rs[|rs| - 1], interval)
  }

  function Total(ns: seq<nat>): nat {
    if ns == [] then 0 else Total(ns[..|ns| - 1]) + ns[|ns| - 1]
  }

  function Read(rs: seq<Reading>): nat {
    if rs == [] then 0 else Read(rs[..|rs| - 1]) + rs[|rs| - 1].n
  }

  class ProgressReader {
    const interval: nat
    var pending: nat
    var lastFlush: int
    ghost var reports: seq<nat>

    ghost function View(): State
      reads this
    {
      State(pending, lastFlush, reports)
    }

    constructor (interval: nat, epoch: int)
      ensures this.interval == interval && View() == State(0, epoch, [])
    {
      this.interval := interval;
      pending, lastFlush, reports := 0, epoch, [];
    }

    /** `report` is the argument of the callback, 0 when it is not called. */
    method Read(r: Reading) returns (report: nat)
      modifies this
      ensures View() == After(old(View()), r, interval)
      ensures reports == old(reports) + if report > 0 then [report] else []
    {
      report := 0;
      if r.n > 0 {
        pending := pending + r.n;
        if r.now - lastFlush >= interval || r.failed {
          report := pending;
          reports := reports + [pending];
          pending := 0;
          lastFlush := r.now;
        }
      }
    }
  }

  /** Nothing is reported twice or before it is read: the reports and the rest are what was read. */
  lemma {:induction false} ReportsAreBytesRead(s: State, rs: seq<Reading>, interval: nat)
    ensures var t := Run(s, rs, interval);
      Total(t.reports) + t.pending == Total(s.reports) + s.pending + Read(rs)
    decreases |rs|
  {
    if rs != [] {
      var n := |rs| - 1;
      ReportsAreBytesRead(s, rs[..n], interval);
      var t := Run(s, rs[..n], interval);
      assert (t.reports + [t.pending + rs[n].n])[..|t.reports|] == t.reports;
    }
  }

  /** The last bytes of a body are reported exactly when the read that brought the last of them reported. */
  lemma {:induction false} AllReportedIff(s: State, rs: seq<Reading>, interval: nat, last: nat)
    requires last < |rs| && rs[last].n > 0 && forall i | last < i < |rs| :: rs[i].n == 0
    ensures Run(s, rs, interval).pending == 0
       <==> rs[last].failed || rs[last].now - Run(s, rs[..last], interval).lastFlush >= interval
    decreases |rs|
  {
    var n := |rs| - 1;
    if last < n {
      AllReportedIff(s, rs[..n], interval, last);
      assert rs[..n][..last] == rs[..last];
    }
  }

  /** A read that reports. */
  predicate ReportedAt(s: State, rs: seq<Reading>, interval: nat, i: nat) {
    i < |rs| && Run(s, rs[..i + 1], interval).reports != Run(s, rs[..i], interval).reports
  }

  lemma RunStep(s: State, rs: seq<Reading>, interval: nat, i: nat)
    requires i < |rs|
    ensures Run(s, rs[..i + 1], interval) == After(Run(s, rs[..i], interval), rs[i], interval)
  {
    assert rs[..i + 1][..i] == rs[..i];
  }

  /** From a report on, the last flush is no earlier. */
  lemma {:induction false} FlushedSince(s: State, rs: seq<Reading>, interval: nat, i: nat, j: nat)
    requires i < j <= |rs| && ReportedAt(s, rs, interval, i)
    requires forall a, b | 0 <= a <= b < |rs| :: rs[a].now <= rs[b].now
    ensures Run(s, rs[..j], interval).lastFlush >= rs[i].now
    decreases j
  {
    RunStep(s, rs, interval, j - 1);
    if i < j - 1 {
      FlushedSince(s, rs, interval, i, j - 1);
    }
  }

  /** At most one report an interval: a later one is that much later, or comes with an error. */
  lemma ReportsAreSpaced(s: State, rs: seq<Reading>, interval: nat, i: nat, j: nat)
    requires i < j && ReportedAt(s, rs, interval, i) && ReportedAt(s, rs, interval, j)
    requires forall a, b | 0 <= a <= b < |rs| :: rs[a].now <= rs[b].now
    ensures rs[j].now - rs[i].now >= interval || rs[j].failed
  {
    FlushedSince(s, rs, interval, i, j);
    RunStep(s, rs, interval, j);
  }
}
