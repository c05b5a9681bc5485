/** The status of one download: its phase, its percentage and its per-file entries. */
module DownloadStatus {
  import opened Options

  datatype Phase = Pending | Downloading | Complete | Failed

  datatype FileStatus = FileStatus(path: string, bytesDone: int, bytesTotal: int, phase: Phase)

  predicate Terminal(p: Phase) {
    p == Complete || p == Failed
  }

  /** The moves a download may make. */
  predicate Edge(p: Phase, q: Phase) {
    match p
    case Pending => q == Downloading || q == Failed
    case Downloading => q == Complete || q == Failed
    case Complete => false
    case Failed => false
  }

  /** The terminal phases are those without a further move. */
  lemma TerminalIff(p: Phase)
    ensures Terminal(p) <==> forall q :: !Edge(p, q)
  {
    if !Terminal(p) {
      assert Edge(p, Failed);
    }
  }

  /** A history of phases from Pending along the edges. */
  predicate Path(ps: seq<Phase>) {
    ps != [] && ps[0] == Pending && forall i | 0 <= i < |ps| - 1 :: Edge(ps[i], ps[i + 1])
  }

  /** Between 0 and 100, and never falling. */
  predicate Rising(xs: seq<real>) {
    && (forall i | 0 <= i < |xs| :: 0.0 <= xs[i] <= 100.0)
    && (forall i | 0 <= i < |xs| - 1 :: xs[i] <= xs[i + 1])
  }

  function Percent(done: int, total: int): real
    requires total > 0
  {
    done as real / total as real * 100.0
  }

  lemma Quotients(a: real, b: real, c: real, d: real)
    requires b > 0.0 && d > 0.0 && a * d <= c * b
    ensures a / b <= c / d
  {
    assert a / b == a * d / (b * d);
    assert c / d == c * b / (b * d);
  }

  /** More bytes done and less estimated to remain is no smaller a percentage. */
  lemma PercentRises(done: nat, rest: nat, done': nat, rest': nat)
    requires done <= done' && rest' <= rest && done + rest > 0 && done' + rest' > 0
    ensures 0.0 <= Percent(done, done + rest) <= Percent(done', done' + rest') <= 100.0
  {
    Products(done, rest', done', rest);
    var a, b, c, d := done as real, (done + rest) as real, done' as real, (done' + rest') as real;
    assert done * (done' + rest') <= done' * (done + rest);
    assert a * d == (done * (done' + rest')) as real;
    assert c * b == (done' * (done + rest)) as real;
    Quotients(a, b, c, d);
    Quotients(0.0, b, a, b);
    Quotients(c, d, 1.0, 1.0);
  }

  lemma Products(a: nat, b: nat, c: nat, d: nat)
    requires a <= c && b <= d
    ensures a * (c + b) <= c * (a + d)
  {
    assert a * b <= c * d by {
      assert a * b <= c * b <= c * d;
    }
  }

  function Updated(fs: seq<FileStatus>, f: FileStatus): seq<FileStatus> {
    if fs == [] then [f]
    else if fs[0].path == f.path then [f] + fs[1..]
    else [fs[0]] + Updated(fs[1..], f)
  }

  function Lookup(fs: seq<FileStatus>, path: string): Option<FileStatus> {
    if fs == [] then None
    else if fs[0].path == path then Some(fs[0])
    else Lookup(fs[1..], path)
  }

  /** An update changes the entry of its own path and no other. */
  lemma {:induction false} LookupOfUpdated(fs: seq<FileStatus>, f: FileStatus, path: string)
    ensures Lookup(Updated(fs, f), path) == if path == f.path then Some(f) else Lookup(fs, path)
  {
    if fs != [] && fs[0].path != f.path {
      LookupOfUpdated(fs[1..], f, path);
    }
  }

  lemma {:induction false} UpdatedAt(fs: seq<FileStatus>, f: FileStatus, i: nat)
    requires i <= |fs| && forall j | 0 <= j < i :: fs[j].path != f.path
    requires i < |fs| ==> fs[i].path == f.path
    ensures Updated(fs, f) == if i < |fs| then fs[i := f] else fs + [f]
  {
    if i > 0 {
      assert forall j | 0 <= j < |fs| - 1 :: fs[1..][j] == fs[j + 1];
      UpdatedAt(fs[1..], f, i - 1);
    }
  }

  class Status {
    var phase: Phase
    var progress: real
    var bytesTotal: int
    var bytesDone: int
    var files: seq<FileStatus>
    var error: string
    var completed: bool
    ghost var phases: seq<Phase>     // every phase so far
    ghost var percents: seq<real>    // every percentage so far

    ghost predicate Valid()
      reads this
    {
      phases != [] && phases[|phases| - 1] == phase && percents != [] && percents[|percents| - 1] == progress
    }

    constructor ()
      ensures Valid() && phases == [Pending] && percents == [0.0] && files == [] && error == "" && !completed
    {
      phase, progress, bytesTotal, bytesDone, files, error, completed := Pending, 0.0, 0, 0, [], "", false;
      phases, percents := [Pending], [0.0];
    }

    method SetPhase(p: Phase)
      requires Valid()
      modifies this`phase, this`phases
      ensures Valid() && phase == p && phases == old(phases) + [p]
    {
      phase := p;
      phases := phases + [p];
    }

    method SetProgress(done: int, total: int)
      requires Valid()
      modifies this`progress, this`bytesDone, this`bytesTotal, this`percents
      ensures Valid() && bytesDone == done && bytesTotal == total && percents == old(percents) + [progress]
      ensures progress == if total > 0 then Percent(done, total) else old(progress)
    {
      bytesDone := done;
      bytesTotal := total;
      if total > 0 {
        progress := done as real / total as real * 100.0;
      }
      percents := percents + [progress];
    }

    method SetError(message: string)
      requires Valid()
      modifies this`phase, this`phases, this`error, this`completed
      ensures Valid() && phase == Failed && phases == old(phases) + [Failed] && error == message && completed
    {
      error := message;
      phase := Failed;
      completed := true;
      phases := phases + [Failed];
    }

    method SetComplete()
      requires Valid()
      modifies this`phase, this`phases, this`progress, this`percents, this`completed
      ensures Valid() && phase == Complete && phases == old(phases) + [Complete] && completed
      ensures progress == 100.0 && percents == old(percents) + [100.0]
    {
      phase := Complete;
      progress := 100.0;
      completed := true;
      phases := phases + [Complete];
      percents := percents + [100.0];
    }

    method UpdateFileProgress(path: string, done: int, total: int, p: Phase)
      modifies this`files
      ensures files == Updated(old(files), FileStatus(path, done, total, p))
    {
      ghost var f := FileStatus(path, done, total, p);
      var i := 0;
      while i < |files|
        invariant 0 <= i <= |files| && files == old(files)
        invariant forall j | 0 <= j < i :: files[j].path != path
      {
        if files[i].path == path {
          UpdatedAt(files, f, i);
          files := files[i := files[i].(bytesDone := done, bytesTotal := total, phase := p)];
          return;
        }
        i := i + 1;
      }
      UpdatedAt(files, f, i);
      files := files + [FileStatus(path, done, total, p)];
    }

    /** True exactly when the download can make no further move. */
    method IsComplete() returns (b: bool)
      ensures b <==> forall q :: !Edge(phase, q)
    {
      TerminalIff(phase);
      b := phase == Complete || phase == Failed;
    }
  }
}
