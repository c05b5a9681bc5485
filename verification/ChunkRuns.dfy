/**
 The worker pool of a chunked download together with the files its workers write, piece by piece and under
 every schedule, including workers that go on after the download has been given up for another way.
 */
module ChunkRuns {
  import opened Bytes
  import opened Chunks
  import opened Disks
  import opened Download
  import opened Options
  import P = WorkerPool

  /** What a busy worker has open: the body of the answer it accepted, and how much of it is in the part. */
  datatype Copy = NotOpen | Writing(answer: Answer, pos: nat)

  datatype State = State(pool: P.State, files: Files, copies: seq<Copy>)

  /**
   `Pool` is a step of the pool that is not the end of a chunk. A busy worker skips a part of the right
   size, opens the part for an answer (whatever it holds: the lookup may have failed, or be long ago),
   writes a piece, completes it, drops the attempt, or gives up.
   `Foreground` is the download itself, which works on the file and the assembly file only once it has
   stopped collecting.
   */
  datatype Step =
    | Pool(step: P.Step)
    | Skip(w: nat) | Open(w: nat, answer: Answer) | Write(w: nat, n: nat) | Complete(w: nat)
    | Drop(w: nat) | GiveUp(w: nat)
    | Foreground(target: Target, content: Option<seq<Byte>>)

  predicate Fits(s: State, job: Job)
    requires JobValid(job)
  {
    s.pool.n == |PlanOf(job)| && |s.copies| == |s.pool.workers| && job.remote != []
  }

  predicate BusyWith(s: State, w: nat, c: nat) {
    w < |s.pool.workers| && s.pool.workers[w] == P.Busy(c)
  }

  predicate IsBusy(s: State, w: nat) {
    w < |s.pool.workers| && s.pool.workers[w].Busy?
  }

  function PartOf(s: State, job: Job, w: nat): string
    requires IsBusy(s, w)
  {
    PartPath(job.local, s.pool.workers[w].chunk)
  }

  /** A write at an offset: what lies before and behind stays, a gap is filled with zeros. */
  function PutAt(content: seq<Byte>, pos: nat, bytes: seq<Byte>): seq<Byte> {
    var before := if pos <= |content| then content[..pos] else content + seq(pos - |content|, _ => 0);
    before + bytes + if pos + |bytes| <= |content| then content[pos + |bytes|..] else []
  }

  /** An open file is written where its own position is; it is not seen when the file has been removed. */
  function Written(files: Files, path: string, pos: nat, bytes: seq<Byte>): Files {
    if path in files then files[path := PutAt(files[path], pos, bytes)] else files
  }

  lemma PieceIsAppended(body: seq<Byte>, pos: nat, n: nat)
    requires pos + n <= |body|
    ensures PutAt(body[..pos], pos, body[pos..pos + n]) == body[..pos + n]
  {
  }

  predicate Enabled(s: State, job: Job, step: Step)
    requires JobValid(job) && Fits(s, job)
  {
    match step
    case Pool(step) => P.Enabled(s.pool, step) && !step.Finish?
    case Skip(w) =>
      && IsBusy(s, w) && s.copies[w] == NotOpen && s.pool.workers[w].chunk < |PlanOf(job)|
      && var path, r := PartOf(s, job, w), PlanOf(job)[s.pool.workers[w].chunk];
         path in s.files && |s.files[path]| == r.end - r.start + 1
    case Open(w, a) =>
      && IsBusy(s, w) && s.copies[w] == NotOpen && s.pool.workers[w].chunk < |PlanOf(job)|
      && var r := PlanOf(job)[s.pool.workers[w].chunk];
         a.status in {OK200, Partial206} && Answers(job.remote, job.honours, Range.Closed(r.start, r.end), a)
    case Write(w, n) =>
      IsBusy(s, w) && s.copies[w].Writing? && s.copies[w].pos + n <= |s.copies[w].answer.body|
    case Complete(w) =>
      IsBusy(s, w) && s.copies[w].Writing? && s.copies[w].pos == |s.copies[w].answer.body| && s.copies[w].answer.complete
    case Drop(w) => IsBusy(s, w)
    case GiveUp(w) => IsBusy(s, w)
    case Foreground(t, _) => s.pool.main != P.Collecting && !t.Part?
  }

  function Finished(s: State, w: nat, ok: bool): State
    requires IsBusy(s, w) && w < |s.copies|
  {
    s.(pool := P.Apply(s.pool, P.Finish(w, ok)), copies := s.copies[w := NotOpen])
  }

  function Apply(s: State, job: Job, step: Step): State
    requires JobValid(job) && Fits(s, job) && Enabled(s, job, step)
  {
    match step
    case Pool(step) => s.(pool := P.Apply(s.pool, step))
    case Skip(w) => Finished(s, w, true)
    case Open(w, a) => s.(files := s.files[PartOf(s, job, w) := []], copies := s.copies[w := Writing(a, 0)])
    case Write(w, n) =>
      var Writing(a, pos) := s.copies[w];
      s.(files := Written(s.files, PartOf(s, job, w), pos, a.body[pos..pos + n]),
         copies := s.copies[w := Writing(a, pos + n)])
    case Complete(w) => Finished(s, w, true)
    case Drop(w) => s.(copies := s.copies[w := NotOpen])
    case GiveUp(w) => Finished(s, w, false)
    case Foreground(t, content) =>
      s.(files := if content.Some? then s.files[PathOf(job, t) := content.value] else s.files - {PathOf(job, t)})
  }

  // The invariant.

  /** A part is a prefix of its range, or of the file if the server ignores ranges. */
  ghost predicate PartsInv(s: State, job: Job)
    requires JobValid(job)
  {
    forall i: nat | i < |PlanOf(job)| && PartPath(job.local, i) in s.files ::
      Within(job, Part(i), s.files[PartPath(job.local, i)])
  }

  /** A chunk whose download returned nil has its part, accepted. */
  ghost predicate DoneInv(s: State, job: Job)
    requires JobValid(job) && Fits(s, job)
  {
    forall c: nat | c < s.pool.n && c in s.pool.outcome && s.pool.outcome[c] :: PartDone(s.files, job, c)
  }

  /** The part of a chunk that is being written holds as much of an answer as the worker thinks. */
  ghost predicate CopyInv(s: State, job: Job, w: nat)
    requires JobValid(job) && Fits(s, job) && w < |s.copies|
  {
    s.copies[w].Writing? ==>
      && IsBusy(s, w) && s.pool.workers[w].chunk < |PlanOf(job)|
      && var Writing(a, pos) := s.copies[w];
         var r := PlanOf(job)[s.pool.workers[w].chunk];
      && pos <= |a.body| && PartOf(s, job, w) in s.files && s.files[PartOf(s, job, w)] == a.body[..pos]
      && a.status in {OK200, Partial206} && Answers(job.remote, job.honours, Range.Closed(r.start, r.end), a)
  }

  ghost predicate Inv(s: State, job: Job)
    requires JobValid(job)
  {
    && Fits(s, job) && P.Inv(s.pool) && PartsInv(s, job) && DoneInv(s, job)
    && forall w: nat | w < |s.copies| :: CopyInv(s, job, w)
  }

  // What a step writes.

  /** The chunk whose part a step may write. */
  function Writes(s: State, step: Step): Option<nat> {
    match step
    case Open(w, _) => if IsBusy(s, w) then Some(s.pool.workers[w].chunk) else None
    case Write(w, _) => if IsBusy(s, w) then Some(s.pool.workers[w].chunk) else None
    case _ => None
  }

  /** A step leaves all parts alone but the one of the chunk its worker holds. */
  lemma OtherPartsStay(s: State, job: Job, step: Step, i: nat)
    requires JobValid(job) && Fits(s, job) && Enabled(s, job, step) && Writes(s, step) != Some(i)
    ensures var p, t := PartPath(job.local, i), Apply(s, job, step);
      (p in t.files <==> p in s.files) && (p in s.files ==> t.files[p] == s.files[p])
  {
    if Writes(s, step).Some? {
      PathsDiffer(job, Part(i), Part(Writes(s, step).value));
    } else if step.Foreground? {
      PathsDiffer(job, Part(i), step.target);
    }
  }

  /** Workers never touch the file or the assembly file, whether or not the download still waits for them. */
  lemma WorkersLeaveTheFile(s: State, job: Job, step: Step, t: Target)
    requires JobValid(job) && Fits(s, job) && Enabled(s, job, step) && !step.Foreground? && !t.Part?
    ensures var p, s' := PathOf(job, t), Apply(s, job, step);
      (p in s'.files <==> p in s.files) && (p in s.files ==> s'.files[p] == s.files[p])
  {
    if Writes(s, step).Some? {
      PathsDiffer(job, t, Part(Writes(s, step).value));
    }
  }

  /** What the worker of a chunk has written of an answer is within the part's bounds. */
  lemma AnswerIsWithin(job: Job, c: nat, a: Answer, pos: nat)
    requires JobValid(job) && c < |PlanOf(job)| && job.remote != [] && pos <= |a.body|
    requires var r := PlanOf(job)[c];
      a.status in {OK200, Partial206} && Answers(job.remote, job.honours, Range.Closed(r.start, r.end), a)
    ensures Within(job, Part(c), a.body[..pos])
    ensures pos == |a.body| && a.complete ==> Accepted(job, c, a.body[..pos])
  {
    ChunkIsSelected(job, c);
    hide Plan;
    hide Slice;
    hide Selected;
    assert a.body[..|a.body|] == a.body;
  }

  lemma ResumedIsAccepted(job: Job, c: nat, content: seq<Byte>)
    requires JobValid(job) && c < |PlanOf(job)| && job.remote != [] && Within(job, Part(c), content)
    requires var r := PlanOf(job)[c]; |content| == r.end - r.start + 1
    ensures Accepted(job, c, content)
  {
    ChunkIsSelected(job, c);
    hide Plan;
    hide Slice;
    hide Selected;
  }

  // Steps keep the invariant.

  lemma StepKeepsFits(s: State, job: Job, step: Step)
    requires JobValid(job) && Inv(s, job) && Enabled(s, job, step)
    ensures Fits(Apply(s, job, step), job) && P.Inv(Apply(s, job, step).pool)
  {
    hide P.Inv;
    match step
    case Pool(step) => P.StepKeepsInv(s.pool, step);
    case Skip(w) => P.StepKeepsInv(s.pool, P.Finish(w, true));
    case Complete(w) => P.StepKeepsInv(s.pool, P.Finish(w, true));
    case GiveUp(w) => P.StepKeepsInv(s.pool, P.Finish(w, false));
    case _ =>
  }

  lemma StepKeepsParts(s: State, job: Job, step: Step)
    requires JobValid(job) && Inv(s, job) && Enabled(s, job, step)
    ensures PartsInv(Apply(s, job, step), job)
  {
    var t := Apply(s, job, step);
    forall i: nat | i < |PlanOf(job)| && PartPath(job.local, i) in t.files
      ensures Within(job, Part(i), t.files[PartPath(job.local, i)])
    {
      if Writes(s, step) == Some(i) {
        WrittenIsWithin(s, job, step);
      } else {
        OtherPartsStay(s, job, step, i);
      }
    }
  }

  lemma WrittenIsWithin(s: State, job: Job, step: Step)
    requires JobValid(job) && Inv(s, job) && Enabled(s, job, step) && Writes(s, step).Some?
    requires Writes(s, step).value < |PlanOf(job)|
    ensures var c, t := Writes(s, step).value, Apply(s, job, step);
      PartPath(job.local, c) in t.files && Within(job, Part(c), t.files[PartPath(job.local, c)])
  {
    hide Answers;
    hide Plan;
    hide Within;
    hide Accepted;
    hide P.Inv;
    var c := Writes(s, step).value;
    if step.Open? {
      AnswerIsWithin(job, c, step.answer, 0);
      assert step.answer.body[..0] == [];
    } else {
      assert CopyInv(s, job, step.w);
      var Writing(a, pos) := s.copies[step.w];
      AnswerIsWithin(job, c, a, pos + step.n);
      PieceIsAppended(a.body, pos, step.n);
    }
  }

  /** The chunk that a step completes has its part. */
  lemma CompletedIsDone(s: State, job: Job, step: Step)
    requires JobValid(job) && Inv(s, job) && Enabled(s, job, step) && (step.Skip? || step.Complete?)
    ensures s.pool.workers[step.w].chunk < |PlanOf(job)|
    ensures PartDone(s.files, job, s.pool.workers[step.w].chunk)
  {
    if step.Skip? {
      var c := s.pool.workers[step.w].chunk;
      assert Within(job, Part(c), s.files[PartPath(job.local, c)]);
      ResumedIsAccepted(job, c, s.files[PartPath(job.local, c)]);
    } else {
      assert CopyInv(s, job, step.w);
      var Writing(a, pos) := s.copies[step.w];
      AnswerIsWithin(job, s.pool.workers[step.w].chunk, a, pos);
    }
  }

  /** A part that is being written is not one that is done. */
  lemma HolderIsNotDone(s: State, w: nat)
    requires P.Inv(s.pool) && IsBusy(s, w)
    ensures s.pool.workers[w].chunk !in s.pool.outcome && s.pool.workers[w].chunk < s.pool.n
  {
    assert P.WorkerInv(s.pool, w);
  }

  lemma StepKeepsDone(s: State, job: Job, step: Step)
    requires JobValid(job) && Inv(s, job) && Enabled(s, job, step) && Fits(Apply(s, job, step), job)
    ensures DoneInv(Apply(s, job, step), job)
  {
    var t := Apply(s, job, step);
    forall c: nat | c < t.pool.n && c in t.pool.outcome && t.pool.outcome[c]
      ensures PartDone(t.files, job, c)
    {
      if c in s.pool.outcome && s.pool.outcome[c] {
        if Writes(s, step).Some? {
          HolderIsNotDone(s, step.w);
        }
        OtherPartsStay(s, job, step, c);
        assert PartDone(s.files, job, c);
      } else {
        CompletedIsDone(s, job, step);
      }
    }
  }

  lemma StepKeepsCopy(s: State, job: Job, step: Step, w: nat)
    requires JobValid(job) && Inv(s, job) && Enabled(s, job, step) && Fits(Apply(s, job, step), job)
    requires w < |Apply(s, job, step).copies|
    ensures CopyInv(Apply(s, job, step), job, w)
  {
    hide Answers;
    hide Plan;
    hide P.WorkerInv;
    hide P.ChunkInv;
    hide Within;
    hide Accepted;
    var t := Apply(s, job, step);
    assert CopyInv(s, job, w);
    if t.copies[w].Writing? {
      if step.Open? && step.w == w {
        HolderIsNotDone(s, w);
        assert step.answer.body[..0] == [];
      } else if step.Write? && step.w == w {
        var Writing(a, pos) := s.copies[w];
        PieceIsAppended(a.body, pos, step.n);
      } else {
        if Writes(s, step).Some? {
          P.OneHolder(s.pool, w, step.w);
        }
        OtherPartsStay(s, job, step, s.pool.workers[w].chunk);
      }
    }
  }

  /** Every step of workers, pool and download keeps the invariant. */
  lemma StepKeepsInv(s: State, job: Job, step: Step)
    requires JobValid(job) && Inv(s, job) && Enabled(s, job, step)
    ensures Inv(Apply(s, job, step), job)
  {
    StepKeepsFits(s, job, step);
    StepKeepsParts(s, job, step);
    StepKeepsDone(s, job, step);
    forall w: nat | w < |Apply(s, job, step).copies|
      ensures CopyInv(Apply(s, job, step), job, w)
    {
      StepKeepsCopy(s, job, step, w);
    }
    hide Apply;
    hide CopyInv;
  }

  ghost predicate Run(s: State, job: Job, steps: seq<Step>)
    requires JobValid(job)
    decreases |steps|
  {
    steps == []
    || (Fits(s, job) && Enabled(s, job, steps[0]) && Run(Apply(s, job, steps[0]), job, steps[1..]))
  }

  ghost function After(s: State, job: Job, steps: seq<Step>): State
    requires JobValid(job) && Run(s, job, steps)
    decreases |steps|
  {
    if steps == [] then s else After(Apply(s, job, steps[0]), job, steps[1..])
  }

  lemma {:induction false} RunKeepsInv(s: State, job: Job, steps: seq<Step>)
    requires JobValid(job) && Inv(s, job) && Run(s, job, steps)
    ensures Inv(After(s, job, steps), job)
    decreases |steps|
  {
    if steps != [] {
      StepKeepsInv(s, job, steps[0]);
      hide Apply;
      hide Inv;
      hide Enabled;
      RunKeepsInv(Apply(s, job, steps[0]), job, steps[1..]);
    }
  }

  function Start(job: Job, files: Files, maxWorkers: nat): State
    requires JobValid(job)
  {
    var pool := P.Start(|PlanOf(job)|, maxWorkers);
    State(pool, files, seq(|pool.workers|, _ => NotOpen))
  }

  /**
   The whole of it, under every schedule, from any files whose parts are within their bounds: parts stay
   within their bounds; when the download goes on to the assembly, every part is there and accepted, and
   the workers are gone; and as long as it has not stopped collecting, the file is as it was.
   */
  lemma PoolDownloadsAll(job: Job, files: Files, maxWorkers: nat, steps: seq<Step>)
    requires JobValid(job) && job.remote != [] && maxWorkers > 0 && Safe(files, job)
    requires Run(Start(job, files, maxWorkers), job, steps)
    ensures var s := After(Start(job, files, maxWorkers), job, steps);
      && PartsInv(s, job)
      && (s.pool.main == P.Assembling ==>
            && (forall c: nat | c < |PlanOf(job)| :: PartDone(s.files, job, c))
            && forall w | 0 <= w < |s.pool.workers| :: P.Exited(s.pool.workers[w]))
      && (s.pool.main == P.Collecting ==>
            && (job.local in s.files <==> job.local in files)
            && (job.local in files ==> s.files[job.local] == files[job.local]))
  {
    var start := Start(job, files, maxWorkers);
    StartIsSafe(job, files, maxWorkers);
    RunKeepsInv(start, job, steps);
    FileStays(start, job, steps);
    var s := After(start, job, steps);
    if s.pool.main == P.Assembling {
      P.AssemblyMeansAllSucceeded(s.pool);
    }
  }

  lemma StartIsSafe(job: Job, files: Files, maxWorkers: nat)
    requires JobValid(job) && job.remote != [] && maxWorkers > 0 && Safe(files, job)
    ensures Inv(Start(job, files, maxWorkers), job) && Start(job, files, maxWorkers).pool.workers != []
  {
    P.StartKeepsInv(|PlanOf(job)|, maxWorkers);
    PlanTilesIff(|job.remote|, job.chunkSize);
    hide Plan;
    forall i: nat | i < |PlanOf(job)| && PartPath(job.local, i) in files
      ensures Within(job, Part(i), files[PartPath(job.local, i)])
    {
      assert PathOf(job, Part(i)) == PartPath(job.local, i);
    }
  }

  /** Until the download has stopped collecting, nothing changes its file; and workers keep their number. */
  lemma {:induction false} FileStays(s: State, job: Job, steps: seq<Step>)
    requires JobValid(job) && Inv(s, job) && Run(s, job, steps)
    ensures var t := After(s, job, steps);
      && |t.pool.workers| == |s.pool.workers|
      && (t.pool.main == P.Collecting ==>
            && s.pool.main == P.Collecting
            && (job.local in t.files <==> job.local in s.files)
            && (job.local in s.files ==> t.files[job.local] == s.files[job.local]))
    decreases |steps|
  {
    if steps != [] {
      var step := steps[0];
      StepKeepsInv(s, job, step);
      if !step.Foreground? {
        WorkersLeaveTheFile(s, job, step, Local);
      }
      FileStays(Apply(s, job, step), job, steps[1..]);
    }
  }
}
