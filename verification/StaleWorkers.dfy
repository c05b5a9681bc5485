/**
 Two chunked downloads of the same file, one after the other: a pool that has failed does not stop its
 workers, and a later download of the model starts on the same parts.
 */
module StaleWorkers {
  import opened Bytes
  import opened Chunks
  import opened Disks
  import opened Download
  import opened Options
  import C = ChunkRuns
  import P = WorkerPool

  /** The pool that was left and the one at work, on the files that `now` has. */
  datatype Joint = Joint(stale: C.State, now: C.State)

  datatype Move = Stale(step: C.Step) | Now(step: C.Step)

  predicate Fits(j: Joint, job: Job)
    requires JobValid(job)
  {
    C.Fits(j.stale, job) && C.Fits(j.now, job)
  }

  /** What the workers left behind see. */
  function Seen(j: Joint): C.State {
    j.stale.(files := j.now.files)
  }

  /** The download that was left works on its file no more; its workers do what they always did. */
  predicate Enabled(j: Joint, job: Job, move: Move)
    requires JobValid(job) && Fits(j, job)
  {
    match move
    case Stale(step) => !step.Foreground? && C.Enabled(Seen(j), job, step)
    case Now(step) => C.Enabled(j.now, job, step)
  }

  function Apply(j: Joint, job: Job, move: Move): Joint
    requires JobValid(job) && Fits(j, job) && Enabled(j, job, move)
  {
    match move
    case Stale(step) => var t := C.Apply(Seen(j), job, step); Joint(t, j.now.(files := t.files))
    case Now(step) => j.(now := C.Apply(j.now, job, step))
  }

  ghost predicate Run(j: Joint, job: Job, moves: seq<Move>)
    requires JobValid(job)
    decreases |moves|
  {
    moves == []
    || (Fits(j, job) && Enabled(j, job, moves[0]) && Run(Apply(j, job, moves[0]), job, moves[1..]))
  }

  ghost function After(j: Joint, job: Job, moves: seq<Move>): Joint
    requires JobValid(job) && Run(j, job, moves)
    decreases |moves|
  {
    if moves == [] then j else After(Apply(j, job, moves[0]), job, moves[1..])
  }

  /** No worker has a chunk or can still take one. */
  predicate Quiet(s: C.State) {
    forall w | 0 <= w < |s.pool.workers| ::
      !s.pool.workers[w].Busy? && (s.pool.workers[w] == P.Idle ==> s.pool.next >= s.pool.n)
  }

  /** When the download goes on to the assembly, every part is there and accepted. */
  ghost predicate Complete(s: C.State, job: Job)
    requires JobValid(job)
  {
    s.pool.main == P.Assembling ==> forall c: nat | c < |PlanOf(job)| :: PartDone(s.files, job, c)
  }

  ghost predicate AlwaysComplete(j: Joint, job: Job)
    requires JobValid(job)
  {
    forall moves | Run(j, job, moves) :: Complete(After(j, job, moves).now, job)
  }

  // Quiet workers do no harm.

  lemma FitsStay(s: C.State, job: Job, step: C.Step)
    requires JobValid(job) && C.Fits(s, job) && C.Enabled(s, job, step)
    ensures C.Fits(C.Apply(s, job, step), job)
  {
    hide C.Written;
  }

  lemma QuietStays(s: C.State, job: Job, step: C.Step)
    requires JobValid(job) && C.Fits(s, job) && C.Enabled(s, job, step) && Quiet(s) && !step.Foreground?
    ensures Quiet(C.Apply(s, job, step)) && C.Apply(s, job, step).files == s.files
  {
  }

  lemma {:induction false} QuietIsHarmless(j: Joint, job: Job, moves: seq<Move>)
    requires JobValid(job) && Fits(j, job) && Quiet(j.stale) && C.Inv(j.now, job) && j.now.pool.workers != []
    requires Run(j, job, moves)
    ensures Complete(After(j, job, moves).now, job)
    decreases |moves|
  {
    if moves == [] {
      if j.now.pool.main == P.Assembling {
        P.AssemblyMeansAllSucceeded(j.now.pool);
      }
    } else {
      var t := Apply(j, job, moves[0]);
      match moves[0] {
        case Stale(step) =>
          QuietStays(Seen(j), job, step);
          FitsStay(Seen(j), job, step);
          assert t.now == j.now;
        case Now(step) =>
          C.StepKeepsInv(j.now, job, step);
          WorkersStay(j.now, job, step);
      }
      hide *;
      QuietIsHarmless(t, job, moves[1..]);
    }
  }

  lemma WorkersStay(s: C.State, job: Job, step: C.Step)
    requires JobValid(job) && C.Fits(s, job) && C.Enabled(s, job, step) && s.pool.workers != []
    ensures C.Apply(s, job, step).pool.workers != []
  {
    hide C.Written;
  }

  // A pool by itself can always come to the assembly.

  /** The first `i` workers have left, the others are idle, and `k` chunks have been taken. */
  predicate Lined(s: C.State, i: nat, k: nat) {
    && i <= |s.pool.workers| && s.pool.workers != [] && |s.copies| == |s.pool.workers|
    && (forall w | 0 <= w < |s.pool.workers| :: s.pool.workers[w] == if w < i then P.Drained else P.Idle)
    && (forall w | 0 <= w < |s.copies| :: s.copies[w] == C.NotOpen)
    && s.pool.next == k <= s.pool.n && s.pool.errors == [] && !s.pool.closed && s.pool.main == P.Collecting
  }

  lemma OneStep(s: C.State, job: Job, step: C.Step, rest: seq<C.Step>)
    requires JobValid(job) && C.Fits(s, job) && C.Enabled(s, job, step) && C.Run(C.Apply(s, job, step), job, rest)
    ensures C.Run(s, job, [step] + rest)
    ensures C.After(s, job, [step] + rest) == C.After(C.Apply(s, job, step), job, rest)
  {
    assert ([step] + rest)[1..] == rest;
  }

  /** The first worker takes a chunk, and its request is answered. */
  lemma OpenOne(s: C.State, job: Job, k: nat) returns (t: C.State, a: Answer)
    requires JobValid(job) && C.Fits(s, job) && Lined(s, 0, k) && k < s.pool.n
    ensures var taken := C.Pool(P.Take(0));
      && C.Enabled(s, job, taken) && C.Fits(C.Apply(s, job, taken), job)
      && C.Enabled(C.Apply(s, job, taken), job, C.Open(0, a))
      && t == C.Apply(C.Apply(s, job, taken), job, C.Open(0, a))
    ensures a.complete && C.Fits(t, job)
    ensures t.copies == s.copies[0 := C.Writing(a, 0)]
    ensures t.pool == P.Apply(s.pool, P.Take(0)) && t.pool.workers == s.pool.workers[0 := P.Busy(k)]
  {
    ChunkIsSelected(job, k);
    hide Plan;
    hide Slice;
    hide Selected;
    var taken := C.Apply(s, job, C.Pool(P.Take(0)));
    a := Answer(Partial206, Slice(job.remote, PlanOf(job)[k]), true);
    t := C.Apply(taken, job, C.Open(0, a));
  }

  /** It writes the body and completes the chunk. */
  lemma CompleteOne(s: C.State, job: Job, a: Answer) returns (t: C.State)
    requires JobValid(job) && C.Fits(s, job) && C.IsBusy(s, 0) && s.copies[0] == C.Writing(a, 0) && a.complete
    ensures var written := C.Write(0, |a.body|);
      && C.Enabled(s, job, written) && C.Fits(C.Apply(s, job, written), job)
      && C.Enabled(C.Apply(s, job, written), job, C.Complete(0))
      && t == C.Apply(C.Apply(s, job, written), job, C.Complete(0))
    ensures C.Fits(t, job) && t.copies == s.copies[0 := C.NotOpen]
    ensures t.pool == P.Apply(s.pool, P.Finish(0, true))
  {
    hide C.Written;
    hide PlanOf;
    t := C.Apply(C.Apply(s, job, C.Write(0, |a.body|)), job, C.Complete(0));
  }

  lemma {:induction false} CompleteAll(s: C.State, job: Job, k: nat) returns (steps: seq<C.Step>)
    requires JobValid(job) && C.Fits(s, job) && Lined(s, 0, k)
    ensures C.Run(s, job, steps) && C.After(s, job, steps).pool.main == P.Assembling
    decreases s.pool.n - k
  {
    if k == s.pool.n {
      steps := DrainAll(s, job, 0);
    } else {
      var reading, a := OpenOne(s, job, k);
      var t := CompleteOne(reading, job, a);
      assert Lined(t, 0, k + 1);
      var rest := CompleteAll(t, job, k + 1);
      var taken, written := C.Pool(P.Take(0)), C.Write(0, |a.body|);
      hide *;
      OneStep(C.Apply(reading, job, written), job, C.Complete(0), rest);
      OneStep(reading, job, written, [C.Complete(0)] + rest);
      OneStep(C.Apply(s, job, taken), job, C.Open(0, a), [written] + ([C.Complete(0)] + rest));
      steps := [C.Open(0, a)] + ([written] + ([C.Complete(0)] + rest));
      OneStep(s, job, taken, steps);
      steps := [taken] + steps;
    }
  }

  lemma {:induction false} DrainAll(s: C.State, job: Job, i: nat) returns (steps: seq<C.Step>)
    requires JobValid(job) && C.Fits(s, job) && Lined(s, i, s.pool.n)
    ensures C.Run(s, job, steps) && C.After(s, job, steps).pool.main == P.Assembling
    decreases |s.pool.workers| - i
  {
    hide PlanOf;
    if i == |s.pool.workers| {
      var t := C.Apply(s, job, C.Pool(P.CloseErrors));
      var last := C.Pool(P.EndOfErrors);
      OneStep(t, job, last, []);
      OneStep(s, job, C.Pool(P.CloseErrors), [last] + []);
      steps := [C.Pool(P.CloseErrors)] + ([last] + []);
    } else {
      var drained := C.Pool(P.Drain(i));
      var t := C.Apply(s, job, drained);
      assert Lined(t, i + 1, t.pool.n);
      steps := DrainAll(t, job, i + 1);
      OneStep(s, job, drained, steps);
      steps := [drained] + steps;
    }
  }

  // A worker that has a chunk, or can take one, undoes it after it was completed.

  /** The run comes to the assembly with a part missing. */
  ghost predicate Breaks(j: Joint, job: Job, moves: seq<Move>)
    requires JobValid(job)
  {
    Run(j, job, moves) && !Complete(After(j, job, moves).now, job)
  }

  lemma BreaksLater(j: Joint, job: Job, move: Move, rest: seq<Move>)
    requires JobValid(job) && Fits(j, job) && Enabled(j, job, move) && Breaks(Apply(j, job, move), job, rest)
    ensures Breaks(j, job, [move] + rest)
  {
    assert ([move] + rest)[1..] == rest;
  }

  lemma {:induction false} BreaksAfterSteps(j: Joint, job: Job, steps: seq<C.Step>, rest: seq<Move>)
      returns (moves: seq<Move>)
    requires JobValid(job) && C.Fits(j.stale, job) && C.Run(j.now, job, steps)
    requires Breaks(Joint(j.stale, C.After(j.now, job, steps)), job, rest)
    ensures Breaks(j, job, moves)
    decreases |steps|
  {
    if steps == [] {
      moves := rest;
    } else {
      var t := j.(now := C.Apply(j.now, job, steps[0]));
      assert Enabled(j, job, Now(steps[0])) && Apply(j, job, Now(steps[0])) == t;
      moves := BreaksAfterSteps(t, job, steps[1..], rest);
      hide *;
      BreaksLater(j, job, Now(steps[0]), moves);
      moves := [Now(steps[0])] + moves;
    }
  }

  /** A request that breaks off at once has emptied the part. */
  const BrokenOff := Answer(Partial206, [], false)

  lemma TruncationBreaks(j: Joint, job: Job, w: nat, c: nat)
    requires JobValid(job) && Fits(j, job) && C.BusyWith(j.stale, w, c) && c < |PlanOf(job)|
    requires j.stale.copies[w] == C.NotOpen && j.now.pool.main == P.Assembling
    ensures Breaks(j, job, [Stale(C.Open(w, BrokenOff))] + [])
  {
    ChunkIsSelected(job, c);
    hide Plan;
    hide Slice;
    hide Selected;
    var t := Apply(j, job, Stale(C.Open(w, BrokenOff)));
    assert t.now.files[PartPath(job.local, c)] == [];
    assert !PartDone(t.now.files, job, c);
    BreaksLater(j, job, Stale(C.Open(w, BrokenOff)), []);
  }

  /** From a worker about to open its part: the new download comes to its assembly first. */
  lemma HolderBreaks(j: Joint, job: Job, w: nat, c: nat) returns (moves: seq<Move>)
    requires JobValid(job) && Fits(j, job) && C.BusyWith(j.stale, w, c) && c < |PlanOf(job)|
    requires j.stale.copies[w] == C.NotOpen && Lined(j.now, 0, 0)
    ensures Breaks(j, job, moves)
  {
    var steps := CompleteAll(j.now, job, 0);
    AfterFits(j.now, job, steps);
    var t := Joint(j.stale, C.After(j.now, job, steps));
    TruncationBreaks(t, job, w, c);
    moves := BreaksAfterSteps(j, job, steps, [Stale(C.Open(w, BrokenOff))] + []);
  }

  lemma {:induction false} AfterFits(s: C.State, job: Job, steps: seq<C.Step>)
    requires JobValid(job) && C.Fits(s, job) && C.Run(s, job, steps)
    ensures C.Fits(C.After(s, job, steps), job)
    decreases |steps|
  {
    if steps != [] {
      FitsStay(s, job, steps[0]);
      hide C.Apply;
      AfterFits(C.Apply(s, job, steps[0]), job, steps[1..]);
    }
  }

  /** An attempt under way is dropped first, to be retried. */
  lemma BusyBreaks(j: Joint, job: Job, w: nat, c: nat) returns (moves: seq<Move>)
    requires JobValid(job) && Fits(j, job) && C.BusyWith(j.stale, w, c) && c < |PlanOf(job)| && Lined(j.now, 0, 0)
    ensures Breaks(j, job, moves)
  {
    var t := Apply(j, job, Stale(C.Drop(w)));
    moves := HolderBreaks(t, job, w, c);
    BreaksLater(j, job, Stale(C.Drop(w)), moves);
    moves := [Stale(C.Drop(w))] + moves;
  }

  lemma NoisyBreaks(j: Joint, job: Job) returns (moves: seq<Move>)
    requires JobValid(job) && Fits(j, job) && P.Inv(j.stale.pool) && !Quiet(j.stale) && Lined(j.now, 0, 0)
    ensures Breaks(j, job, moves)
  {
    var pool := j.stale.pool;
    var w: nat :| w < |pool.workers| && (pool.workers[w].Busy? || (pool.workers[w] == P.Idle && pool.next < pool.n));
    if pool.workers[w].Busy? {
      C.HolderIsNotDone(j.stale, w);
      moves := BusyBreaks(j, job, w, pool.workers[w].chunk);
    } else {
      var taken := Stale(C.Pool(P.Take(w)));
      moves := BusyBreaks(Apply(j, job, taken), job, w, pool.next);
      BreaksLater(j, job, taken, moves);
      moves := [taken] + moves;
    }
  }

  /**
   A later download of the model assembles only accepted parts, under every schedule, if and only if the
   workers that an earlier one has left behind have no chunk any more and none to take.
   */
  lemma LaterDownloadIff(job: Job, stale: C.State, files: Files, maxWorkers: nat)
    requires JobValid(job) && job.remote != [] && maxWorkers > 0 && Safe(files, job)
    requires C.Fits(stale, job) && P.Inv(stale.pool)
    ensures AlwaysComplete(Joint(stale, C.Start(job, files, maxWorkers)), job) <==> Quiet(stale)
  {
    var j := Joint(stale, C.Start(job, files, maxWorkers));
    C.StartIsSafe(job, files, maxWorkers);
    if Quiet(stale) {
      forall moves | Run(j, job, moves) ensures Complete(After(j, job, moves).now, job) {
        QuietIsHarmless(j, job, moves);
      }
    } else {
      assert Lined(j.now, 0, 0);
      var moves := NoisyBreaks(j, job);
    }
  }

  /** Nobody has a chunk once a download has gone on to its assembly, or all its workers have exited. */
  lemma QuietAtAssembly(job: Job, files: Files, maxWorkers: nat, steps: seq<C.Step>)
    requires JobValid(job) && job.remote != [] && maxWorkers > 0 && Safe(files, job)
    requires C.Run(C.Start(job, files, maxWorkers), job, steps)
    ensures var s := C.After(C.Start(job, files, maxWorkers), job, steps);
      s.pool.main == P.Assembling || s.pool.closed ==> Quiet(s)
  {
    C.StartIsSafe(job, files, maxWorkers);
    C.RunKeepsInv(C.Start(job, files, maxWorkers), job, steps);
  }

  /**
   A failed pool need not be quiet: with two workers and two chunks, the error of one is returned while
   the other is at work, and a download that starts then may assemble without its part.
   */
  lemma LeftBehind(job: Job, files: Files, maxWorkers: nat) returns (steps: seq<C.Step>)
    requires JobValid(job) && job.remote != [] && maxWorkers >= 2 && Safe(files, job) && |PlanOf(job)| >= 2
    ensures C.Run(C.Start(job, files, maxWorkers), job, steps)
    ensures var s := C.After(C.Start(job, files, maxWorkers), job, steps);
      s.pool.main.Returned? && !AlwaysComplete(Joint(s, C.Start(job, s.files, maxWorkers)), job)
  {
    var start := C.Start(job, files, maxWorkers);
    C.StartIsSafe(job, files, maxWorkers);
    steps := FirstFails(start, job);
    C.RunKeepsInv(start, job, steps);
    var s := C.After(start, job, steps);
    hide C.Start;
    hide PlanOf;
    assert !Quiet(s) by {
      assert s.pool.workers[1] == P.Busy(1);
    }
    LaterDownloadIff(job, s, files, maxWorkers);
  }

  lemma FirstFails(s: C.State, job: Job) returns (steps: seq<C.Step>)
    requires JobValid(job) && C.Fits(s, job) && Lined(s, 0, 0) && |s.pool.workers| >= 2 && s.pool.n >= 2
    ensures C.Run(s, job, steps)
    ensures var t := C.After(s, job, steps);
      t.pool.main == P.Returned(0) && |t.pool.workers| >= 2 && t.pool.workers[1] == P.Busy(1) && t.files == s.files
  {
    hide PlanOf;
    var a, b, c, d := C.Pool(P.Take(0)), C.Pool(P.Take(1)), C.GiveUp(0), C.Pool(P.Send(0));
    var s1 := C.Apply(s, job, a);
    var s2 := C.Apply(s1, job, b);
    var s3 := C.Apply(s2, job, c);
    var s4 := C.Apply(s3, job, d);
    var last := C.Pool(P.Receive);
    OneStep(s4, job, last, []);
    OneStep(s3, job, d, [last] + []);
    OneStep(s2, job, c, [d] + ([last] + []));
    OneStep(s1, job, b, [c] + ([d] + ([last] + [])));
    steps := [b] + ([c] + ([d] + ([last] + [])));
    OneStep(s, job, a, steps);
    steps := [a] + steps;
  }
}
