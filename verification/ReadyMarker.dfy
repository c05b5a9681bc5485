/**
 The ready-marker protocol of one model: the reconciler, the download goroutine, the files on disk, and a
 crash that may come between any two of their steps. The reconciler runs one reconcile at a time.
 */
module ReadyMarker {
  import opened DownloadStatus
  import opened Options

  type Sizes = map<string, nat>

  /** Where the reconciler stands. */
  datatype Pc =
    | Idle
    | RetryCancelled | RetryUnmarked | RetryUnannotated
    | Verifying | DroppingMarker | DroppingFiles
    | LookingUp | Reporting | WritingMarker | MarkerWritten | DroppingStatus

  /**
   On disk: `marker`, `manifest`, and the sizes of the files. With the API server: `crd` and `retry`. In
   memory: the tracked `status`, what the goroutine has `written` completely, whether it has written its
   manifest, and `pc`. History: `done` is what the last completed download wrote; `clean` tells whether
   nothing else has touched the files since a download last started.
   */
  datatype State = State(
    marker: bool, manifest: Option<Sizes>, files: Sizes,
    crd: Option<Phase>, retry: bool,
    status: Option<Phase>, written: Sizes, manifested: bool, pc: Pc,
    done: Option<Sizes>, clean: bool
  )

  datatype Step =
    // the goroutine
    | TaskStart | TaskTouch(file: string, size: nat) | TaskRemove(file: string) | TaskFinish(file: string)
    | TaskManifest | TaskComplete | TaskFail
    // the retry branch
    | BeginRetry | RetryRemoveMarker(ok: bool) | RetryUpdate(ok: bool) | RetryReset(ok: bool)
    // the download branch
    | BeginDownload(first: bool, seen: bool) | VerifyOk(ok: bool) | VerifyFail | DropMarker(ok: bool)
    | DropMarkerFile | DropFile(file: string) | DropManifest | DropEnd
    | LookUp | Report(ok: bool) | WriteMarker(ok: bool) | DropStatus
    // the surroundings
    | Crash | Annotate | Corrupt(file: string, left: Option<nat>)

  predicate Live(s: State) {
    s.status.Some? && !Terminal(s.status.value)
  }

  /** Every listed file is there with the listed size. */
  predicate Agree(files: Sizes, listed: Sizes) {
    forall f | f in listed :: f in files && files[f] == listed[f]
  }

  predicate RetryDue(s: State) {
    s.retry && (s.crd == Some(Failed) || s.crd == Some(Complete))
  }

  /** A lookup of the marker finds nothing if there is none, and may fail, which reads the same. */
  predicate Lookup(s: State, found: bool) {
    found ==> s.marker
  }

  /** Decided by a lookup of its own, if the resource says that the download is complete. */
  predicate NeedsDownload(s: State, found: bool) {
    s.crd == Some(Complete) ==> !found
  }

  predicate TaskEnabled(s: State, step: Step) {
    Live(s) &&
    match step
    case TaskStart => s.status == Some(Pending)
    case TaskTouch(f, _) => s.status == Some(Downloading) && !s.manifested && f !in s.written
    case TaskRemove(f) => s.status == Some(Downloading) && !s.manifested && f !in s.written
    case TaskFinish(f) => s.status == Some(Downloading) && !s.manifested && f in s.files
    case TaskManifest => s.status == Some(Downloading) && !s.manifested
    case TaskComplete => s.status == Some(Downloading) && s.manifested
    case TaskFail => !s.manifested
    case _ => false
  }

  predicate RetryEnabled(s: State, step: Step) {
    match step
    case BeginRetry => s.pc == Idle && RetryDue(s)
    case RetryRemoveMarker(_) => s.pc == RetryCancelled
    case RetryUpdate(_) => s.pc == RetryUnmarked
    case RetryReset(_) => s.pc == RetryUnannotated
    case _ => false
  }

  /** Verification may fail for more than sizes; it never succeeds without them. */
  predicate DownloadEnabled(s: State, step: Step) {
    match step
    case BeginDownload(first, seen) =>
      s.pc == Idle && !RetryDue(s) && Lookup(s, first) && NeedsDownload(s, first) && Lookup(s, seen)
    case VerifyOk(_) => s.pc == Verifying && s.manifest.Some? && Agree(s.files, s.manifest.value)
    case VerifyFail => s.pc == Verifying
    case DropMarker(_) => s.pc == DroppingMarker
    case DropMarkerFile => s.pc == DroppingFiles
    case DropFile(_) => s.pc == DroppingFiles
    case DropManifest => s.pc == DroppingFiles
    case DropEnd => s.pc == DroppingFiles
    case LookUp => s.pc == LookingUp
    case Report(_) => s.pc == Reporting
    case WriteMarker(_) => s.pc == WritingMarker
    case DropStatus => s.pc == MarkerWritten || s.pc == DroppingStatus
    case _ => false
  }

  predicate Enabled(s: State, step: Step) {
    || TaskEnabled(s, step) || RetryEnabled(s, step) || DownloadEnabled(s, step)
    || step == Crash || step == Annotate || step.Corrupt?
  }

  function ApplyTask(s: State, step: Step): State {
    match step
    case TaskStart => s.(status := Some(Downloading))
    case TaskTouch(f, size) => s.(files := s.files[f := size])
    case TaskRemove(f) => s.(files := s.files - {f})
    case TaskFinish(f) => if f in s.files then s.(written := s.written[f := s.files[f]]) else s
    case TaskManifest => s.(manifest := Some(s.written), manifested := true)
    case TaskComplete => s.(status := Some(Complete), done := Some(s.written))
    case TaskFail => s.(status := Some(Failed))
    case _ => s
  }

  function ApplyRetry(s: State, step: Step): State {
    match step
    case BeginRetry => s.(pc := RetryCancelled)
    case RetryRemoveMarker(ok) => s.(marker := s.marker && !ok, pc := RetryUnmarked)
    case RetryUpdate(ok) => if ok then s.(retry := false, pc := RetryUnannotated) else s.(pc := Idle)
    case RetryReset(ok) => s.(crd := if ok then Some(Pending) else s.crd, pc := Idle)
    case _ => s
  }

  function ApplyDownload(s: State, step: Step): State {
    match step
    case BeginDownload(_, seen) => s.(pc := if seen then Verifying else LookingUp)
    case VerifyOk(ok) => s.(crd := if ok then Some(Complete) else s.crd, pc := Idle)
    case VerifyFail => s.(pc := DroppingMarker)
    case DropMarker(ok) => s.(marker := s.marker && !ok, pc := DroppingFiles)
    case DropMarkerFile => s.(marker := false)
    case DropFile(f) => s.(files := s.files - {f})
    case DropManifest => s.(manifest := None)
    case DropEnd => s.(pc := LookingUp)
    case LookUp =>
      if s.status.Some? then s.(pc := Reporting)
      else s.(status := Some(Pending), written := map[], manifested := false, clean := true, pc := Reporting)
    case Report(ok) =>
      if !ok || s.status == None then s.(pc := Idle)
      else s.(crd := s.status, pc := if s.status == Some(Complete) then WritingMarker
                                     else if s.status == Some(Failed) then DroppingStatus else Idle)
    case WriteMarker(ok) => if ok then s.(marker := true, pc := MarkerWritten) else s.(pc := Idle)
    case DropStatus => s.(status := None, pc := Idle)
    case _ => s
  }

  /** A crash loses the memory and nothing else. */
  function ApplyOther(s: State, step: Step): State {
    match step
    case Crash => s.(status := None, written := map[], manifested := false, pc := Idle)
    case Annotate => s.(retry := true)
    case Corrupt(f, left) =>
      s.(files := if left.Some? then s.files[f := left.value] else s.files - {f}, clean := false)
    case _ => s
  }

  function Apply(s: State, step: Step): State {
    if TaskEnabled(s, step) then ApplyTask(s, step)
    else if RetryEnabled(s, step) then ApplyRetry(s, step)
    else if DownloadEnabled(s, step) then ApplyDownload(s, step)
    else ApplyOther(s, step)
  }

  predicate Run(s: State, steps: seq<Step>)
    decreases |steps|
  {
    steps == [] || (Enabled(s, steps[0]) && Run(Apply(s, steps[0]), steps[1..]))
  }

  function After(s: State, steps: seq<Step>): State
    decreases |steps|
  {
    if steps == [] then s else After(Apply(s, steps[0]), steps[1..])
  }

  // What the marker stands for.

  /**
   With a marker no download is at work, and the manifest lists exactly what the last completed download
   wrote; as long as nothing else touched the files, they are there with those sizes.
   */
  predicate Safe(s: State) {
    s.marker ==>
      && !Live(s) && s.done.Some? && s.manifest == s.done
      && (s.clean ==> Agree(s.files, s.done.value))
  }

  predicate SafeThroughout(s: State, steps: seq<Step>)
    decreases |steps|
  {
    Safe(s) && (steps != [] ==> SafeThroughout(Apply(s, steps[0]), steps[1..]))
  }

  /** The same promise, made as soon as the goroutine reports completion. */
  predicate CompletedInv(s: State) {
    s.marker || s.status == Some(Complete) ==>
      && s.done.Some? && s.manifest == s.done
      && (s.clean ==> Agree(s.files, s.done.value))
  }

  predicate TaskInv(s: State) {
    && (s.status == Some(Pending) ==> s.written == map[] && !s.manifested)
    && (Live(s) ==>
      && (s.manifested ==> s.status == Some(Downloading) && s.manifest == Some(s.written))
      && (s.clean ==> Agree(s.files, s.written)))
  }

  /** Where the reconciler stands tells what it has done. */
  predicate PcInv(s: State) {
    && (s.marker ==> s.status == None || (s.pc == MarkerWritten && s.status == Some(Complete)))
    && match s.pc
       case Verifying => s.marker && s.status == None
       case DroppingMarker => s.marker && s.status == None
       case DroppingFiles => s.status == None
       case Reporting => s.status.Some?
       case WritingMarker => s.status == Some(Complete)
       case MarkerWritten => s.marker && s.status == Some(Complete)
       case DroppingStatus => s.status == Some(Failed)
       case _ => true
  }

  /** Holds in every run that is safe, even where the reconciler goes on beside a marker. */
  predicate Inv(s: State) {
    CompletedInv(s) && TaskInv(s) && PcInv(s)
  }

  /** Nor does the reconciler delete or start anything beside a marker. */
  predicate Trusted(s: State) {
    Inv(s) && (s.marker ==> s.pc != DroppingFiles && s.pc != LookingUp)
  }

  /** A marker is overlooked or left: its lookup failed before a download, or its removal before the deletion. */
  predicate Missed(s: State, step: Step) {
    step == DropMarker(false) || (step.BeginDownload? && !step.seen && s.marker)
  }

  /** Beside a marker, a download is started, the manifest deleted, or a file it vouches for. */
  predicate Breaks(s: State, step: Step) {
    s.marker &&
    match step
    case LookUp => s.status == None
    case DropManifest => true
    case DropFile(f) => s.clean && s.done.Some? && f in s.done.value
    case _ => false
  }

  /** No step of a run is of a given kind. */
  predicate Never(s: State, steps: seq<Step>, bad: (State, Step) -> bool)
    decreases |steps|
  {
    steps == [] || (!bad(s, steps[0]) && Never(Apply(s, steps[0]), steps[1..], bad))
  }

  lemma InvIsSafe(s: State)
    requires Inv(s)
    ensures Safe(s)
  {
  }

  lemma TaskKeepsInv(s: State, step: Step)
    requires Inv(s) && TaskEnabled(s, step)
    ensures Inv(ApplyTask(s, step)) && !ApplyTask(s, step).marker
  {
  }

  lemma RetryKeepsInv(s: State, step: Step)
    requires Inv(s) && RetryEnabled(s, step)
    ensures Inv(ApplyRetry(s, step))
  {
    hide Agree;
  }

  lemma DownloadKeepsPcIff(s: State, step: Step)
    requires PcInv(s) && DownloadEnabled(s, step)
    ensures PcInv(ApplyDownload(s, step)) <==> !(s.marker && step.LookUp?)
  {
    hide Agree;
  }

  lemma DownloadKeepsCompleted(s: State, step: Step)
    requires Inv(s) && DownloadEnabled(s, step) && !Breaks(s, step)
    ensures CompletedInv(ApplyDownload(s, step))
  {
  }

  lemma StartKeepsTask(s: State)
    requires Inv(s) && s.pc == LookingUp
    ensures TaskInv(ApplyDownload(s, LookUp))
  {
  }

  lemma DownloadKeepsTask(s: State, step: Step)
    requires Inv(s) && DownloadEnabled(s, step)
    ensures TaskInv(ApplyDownload(s, step))
  {
    if step.LookUp? {
      StartKeepsTask(s);
    }
    hide Agree;
    hide CompletedInv;
  }

  lemma BreakingIsUnsafe(s: State, step: Step)
    requires Inv(s) && DownloadEnabled(s, step) && Breaks(s, step)
    ensures !Safe(ApplyDownload(s, step))
  {
  }

  lemma DownloadKeepsInvIff(s: State, step: Step)
    requires Inv(s) && DownloadEnabled(s, step)
    ensures Inv(ApplyDownload(s, step)) <==> !Breaks(s, step)
    ensures Safe(ApplyDownload(s, step)) <==> !Breaks(s, step)
  {
    if Breaks(s, step) {
      BreakingIsUnsafe(s, step);
      hide *;
      if Inv(ApplyDownload(s, step)) {
        InvIsSafe(ApplyDownload(s, step));
      }
    } else {
      DownloadKeepsPcIff(s, step);
      DownloadKeepsCompleted(s, step);
      DownloadKeepsTask(s, step);
      InvIsSafe(ApplyDownload(s, step));
    }
  }

  lemma OtherKeepsInv(s: State, step: Step)
    requires Inv(s)
    ensures Inv(ApplyOther(s, step))
  {
  }

  lemma OnlyDownloadsBreak(s: State, step: Step)
    requires Enabled(s, step) && (Breaks(s, step) || Missed(s, step))
    ensures DownloadEnabled(s, step) && !TaskEnabled(s, step) && !RetryEnabled(s, step)
  {
  }

  /**
   A step leaves a marker not to be trusted, crashes included, if and only if beside that marker it
   deletes the manifest or a file the marker vouches for, or starts a download.
   */
  lemma StepIsSafeIff(s: State, step: Step)
    requires Inv(s) && Enabled(s, step)
    ensures Inv(Apply(s, step)) <==> !Breaks(s, step)
    ensures Safe(Apply(s, step)) <==> !Breaks(s, step)
  {
    if Breaks(s, step) {
      OnlyDownloadsBreak(s, step);
    }
    if TaskEnabled(s, step) {
      TaskKeepsInv(s, step);
    } else if RetryEnabled(s, step) {
      RetryKeepsInv(s, step);
    } else if DownloadEnabled(s, step) {
      DownloadKeepsInvIff(s, step);
    } else {
      OtherKeepsInv(s, step);
    }
    hide TaskEnabled;
    hide RetryEnabled;
    hide DownloadEnabled;
    hide ApplyTask;
    hide ApplyRetry;
    hide ApplyDownload;
    hide ApplyOther;
    hide Inv;
    hide Safe;
    hide Breaks;
    if Inv(Apply(s, step)) {
      InvIsSafe(Apply(s, step));
    }
  }

  /** Every state of a run has a marker to be trusted if and only if no step of it does one of these. */
  lemma {:induction false} RunIsSafeIff(s: State, steps: seq<Step>)
    requires Inv(s) && Run(s, steps)
    ensures SafeThroughout(s, steps) <==> Never(s, steps, Breaks)
    ensures Never(s, steps, Breaks) ==> Inv(After(s, steps))
    decreases |steps|
  {
    InvIsSafe(s);
    if steps != [] {
      StepIsSafeIff(s, steps[0]);
      hide Apply;
      hide Inv;
      hide Safe;
      hide Enabled;
      hide Breaks;
      if !Breaks(s, steps[0]) {
        RunIsSafeIff(Apply(s, steps[0]), steps[1..]);
      }
    }
  }

  lemma DownloadKeepsTrustedIff(s: State, step: Step)
    requires Trusted(s) && DownloadEnabled(s, step)
    ensures !Breaks(s, step)
    ensures var t := ApplyDownload(s, step);
      (t.marker ==> t.pc != DroppingFiles && t.pc != LookingUp) <==> !Missed(s, step)
  {
    hide Agree;
    hide CompletedInv;
    hide TaskInv;
  }

  lemma OthersKeepTrusted(s: State, step: Step)
    requires Trusted(s)
    ensures var t := ApplyOther(s, step); t.marker ==> t.pc != DroppingFiles && t.pc != LookingUp
    ensures var t := ApplyRetry(s, step);
      RetryEnabled(s, step) && t.marker ==> t.pc != DroppingFiles && t.pc != LookingUp
  {
    hide Inv;
    hide Agree;
  }

  /**
   Every step keeps deletion and download away from a marker except two, both an error that the code
   passes over: a failed removal of the marker before the files are deleted, and a failed lookup that
   takes the marker for absent.
   */
  lemma StepKeepsTrustedIff(s: State, step: Step)
    requires Trusted(s) && Enabled(s, step)
    ensures Trusted(Apply(s, step)) <==> !Missed(s, step)
    ensures !Breaks(s, step)
  {
    if Breaks(s, step) || Missed(s, step) {
      OnlyDownloadsBreak(s, step);
    }
    StepIsSafeIff(s, step);
    if TaskEnabled(s, step) {
      TaskKeepsInv(s, step);
    } else if DownloadEnabled(s, step) && !RetryEnabled(s, step) {
      DownloadKeepsTrustedIff(s, step);
    } else {
      OthersKeepTrusted(s, step);
    }
    hide TaskEnabled;
    hide RetryEnabled;
    hide DownloadEnabled;
    hide ApplyTask;
    hide ApplyRetry;
    hide ApplyDownload;
    hide ApplyOther;
    hide Inv;
    hide Breaks;
    hide Missed;
  }

  /** In every run whose lookups and removals of the marker succeed, whatever crashes, it is to be trusted. */
  lemma {:induction false} RunsAreSafe(s: State, steps: seq<Step>)
    requires Trusted(s) && Run(s, steps) && Never(s, steps, Missed)
    ensures SafeThroughout(s, steps) && Trusted(After(s, steps))
    decreases |steps|
  {
    InvIsSafe(s);
    if steps != [] {
      StepKeepsTrustedIff(s, steps[0]);
      hide Apply;
      hide Safe;
      hide Trusted;
      hide Missed;
      hide Enabled;
      RunsAreSafe(Apply(s, steps[0]), steps[1..]);
    }
  }

  // What a manifest lists, told by the steps alone.

  /** After step `a` and before step `k`, the last step that finishes a file is step `i`. */
  predicate FinishedAt(steps: seq<Step>, a: nat, k: nat, f: string, i: nat) {
    a < i < k <= |steps| && steps[i] == TaskFinish(f) && forall j | i < j < k :: steps[j] != TaskFinish(f)
  }

  ghost predicate FinishedIn(steps: seq<Step>, a: nat, k: nat, f: string) {
    exists i: nat :: FinishedAt(steps, a, k, f, i)
  }

  /** The files finished between two steps, each with the size it had when it was finished. */
  ghost predicate Lists(s: State, steps: seq<Step>, a: nat, k: nat, listed: Sizes) {
    && (forall f :: f in listed <==> FinishedIn(steps, a, k, f))
    && forall f, i: nat | FinishedAt(steps, a, k, f, i) ::
         var t := After(s, steps[..i]);
         f in t.files && f in listed && listed[f] == t.files[f]
  }

  lemma {:induction false} StepOf(s: State, steps: seq<Step>, k: nat)
    requires Run(s, steps) && k < |steps|
    ensures Enabled(After(s, steps[..k]), steps[k])
    ensures After(s, steps[..k + 1]) == Apply(After(s, steps[..k]), steps[k])
    decreases k
  {
    hide Apply;
    hide Enabled;
    if k > 0 {
      StepOf(Apply(s, steps[0]), steps[1..], k - 1);
      assert steps[..k][1..] == steps[1..][..k - 1] && steps[..k + 1][1..] == steps[1..][..k];
    } else {
      assert steps[..1][1..] == [];
    }
  }

  lemma {:induction false} InvAt(s: State, steps: seq<Step>, k: nat)
    requires Inv(s) && Run(s, steps) && Never(s, steps, Breaks) && k <= |steps|
    ensures Inv(After(s, steps[..k]))
    decreases k
  {
    if k > 0 {
      StepIsSafeIff(s, steps[0]);
      hide Apply;
      hide Enabled;
      hide Inv;
      hide Breaks;
      InvAt(Apply(s, steps[0]), steps[1..], k - 1);
      assert steps[..k][1..] == steps[1..][..k - 1];
    }
  }

  predicate AtWork(s: State) {
    s.status == Some(Downloading) || s.status == Some(Complete)
  }

  /** How a step leads from one state to another, seen from a download at work. */
  predicate Writes(s: State, step: Step, t: State) {
    AtWork(t) ==>
      && AtWork(s)
      && if step.TaskFinish? then step.file in s.files && t.written == s.written[step.file := s.files[step.file]]
         else t.written == s.written
  }

  lemma TaskWrites(s: State, step: Step)
    requires TaskEnabled(s, step) && step != TaskStart
    ensures Writes(s, step, ApplyTask(s, step))
  {
  }

  lemma ReconcilerWrites(s: State, step: Step)
    requires !step.TaskFinish?
    ensures Writes(s, step, ApplyDownload(s, step))
  {
  }

  lemma OthersWrite(s: State, step: Step)
    requires !step.TaskFinish?
    ensures Writes(s, step, ApplyRetry(s, step)) && Writes(s, step, ApplyOther(s, step))
  {
  }

  lemma StepWrites(s: State, step: Step)
    requires Enabled(s, step) && step != TaskStart
    ensures Writes(s, step, Apply(s, step))
  {
    if TaskEnabled(s, step) {
      TaskWrites(s, step);
    } else {
      assert !step.TaskFinish?;
      OthersWrite(s, step);
      ReconcilerWrites(s, step);
    }
    hide Writes;
    hide ApplyTask;
    hide ApplyRetry;
    hide ApplyDownload;
    hide ApplyOther;
    hide DownloadEnabled;
  }

  lemma StartStep(s: State)
    requires Inv(s) && Enabled(s, TaskStart)
    ensures Apply(s, TaskStart).written == map[]
  {
    hide Agree;
  }

  lemma ListsNothing(s: State, steps: seq<Step>, a: nat)
    ensures Lists(s, steps, a, a + 1, map[])
  {
    var none: Sizes := map[];
    forall f
      ensures f in none <==> FinishedIn(steps, a, a + 1, f)
    {
    }
  }

  /** A further step adds the file it finishes, or nothing. */
  lemma ListsOneMore(s: State, steps: seq<Step>, a: nat, k: nat, listed: Sizes)
    requires a < k < |steps| && Lists(s, steps, a, k, listed)
    requires steps[k].TaskFinish? ==> steps[k].file in After(s, steps[..k]).files
    ensures var step := steps[k];
      Lists(s, steps, a, k + 1,
        if step.TaskFinish? then listed[step.file := After(s, steps[..k]).files[step.file]] else listed)
  {
    hide After;
    hide Apply;
    hide FinishedIn;
    var step := steps[k];
    var more := if step.TaskFinish? then listed[step.file := After(s, steps[..k]).files[step.file]] else listed;
    forall f, i: nat | FinishedAt(steps, a, k + 1, f, i)
      ensures var t := After(s, steps[..i]); f in t.files && f in more && more[f] == t.files[f]
    {
      assert i < k ==> FinishedAt(steps, a, k, f, i);
    }
    forall f
      ensures f in more <==> FinishedIn(steps, a, k + 1, f)
    {
      if step == TaskFinish(f) {
        JustFinished(steps, a, k, f);
      } else {
        FinishedFurther(steps, a, k, f);
      }
    }
  }

  lemma JustFinished(steps: seq<Step>, a: nat, k: nat, f: string)
    requires a < k < |steps| && steps[k] == TaskFinish(f)
    ensures FinishedIn(steps, a, k + 1, f)
  {
    assert FinishedAt(steps, a, k + 1, f, k);
  }

  lemma FinishedFurther(steps: seq<Step>, a: nat, k: nat, f: string)
    requires a < k < |steps| && steps[k] != TaskFinish(f)
    ensures FinishedIn(steps, a, k, f) <==> FinishedIn(steps, a, k + 1, f)
  {
    if FinishedIn(steps, a, k, f) {
      var i: nat :| FinishedAt(steps, a, k, f, i);
      assert FinishedAt(steps, a, k + 1, f, i);
    }
    if FinishedIn(steps, a, k + 1, f) {
      var i: nat :| FinishedAt(steps, a, k + 1, f, i);
      assert FinishedAt(steps, a, k, f, i);
    }
  }

  lemma {:induction false} WrittenLists(s: State, steps: seq<Step>, a: nat, k: nat)
    requires Inv(s) && Run(s, steps) && Never(s, steps, Breaks) && a < k <= |steps|
    requires steps[a] == TaskStart && forall j | a < j < |steps| :: steps[j] != TaskStart
    ensures var t := After(s, steps[..k]);
      AtWork(t) ==> Lists(s, steps, a, k, t.written)
    decreases k
  {
    hide *;
    InvAt(s, steps, k - 1);
    StepOf(s, steps, k - 1);
    var t := After(s, steps[..k - 1]);
    if k == a + 1 {
      StartStep(t);
      ListsNothing(s, steps, a);
    } else {
      StepWrites(t, steps[k - 1]);
      WrittenLists(s, steps, a, k - 1);
      StillLists(s, steps, a, k - 1);
    }
  }

  lemma StillLists(s: State, steps: seq<Step>, a: nat, k: nat)
    requires a < k < |steps|
    requires var t := After(s, steps[..k]); AtWork(t) ==> Lists(s, steps, a, k, t.written)
    requires Writes(After(s, steps[..k]), steps[k], After(s, steps[..k + 1]))
    ensures var u := After(s, steps[..k + 1]); AtWork(u) ==> Lists(s, steps, a, k + 1, u.written)
  {
    hide After;
    hide Lists;
    var t := After(s, steps[..k]);
    if AtWork(After(s, steps[..k + 1])) {
      ListsOneMore(s, steps, a, k, t.written);
    }
  }

  /**
   A download that completes leaves a manifest of exactly the files that were finished since it started,
   each with the size it had on disk at that step, in every run in which the marker stays to be trusted.
   */
  lemma ManifestListsFinished(s: State, steps: seq<Step>, a: nat)
    requires Inv(s) && Run(s, steps) && Never(s, steps, Breaks)
    requires a + 1 < |steps| && steps[a] == TaskStart && forall j | a < j < |steps| :: steps[j] != TaskStart
    requires steps[|steps| - 1] == TaskComplete
    ensures var t := After(s, steps);
      && t.manifest.Some? && t.done == t.manifest && t.status == Some(Complete)
      && Lists(s, steps, a, |steps| - 1, t.manifest.value)
  {
    hide *;
    var n := |steps| - 1;
    InvAt(s, steps, n);
    StepOf(s, steps, n);
    WrittenLists(s, steps, a, n);
    CompleteStep(After(s, steps[..n]));
    assert steps[..n + 1] == steps;
  }

  lemma CompleteStep(s: State)
    requires Inv(s) && Enabled(s, TaskComplete)
    ensures AtWork(s)
    ensures var t := Apply(s, TaskComplete);
      t.status == Some(Complete) && t.manifest == t.done == Some(s.written)
  {
    hide Agree;
  }

  /** An empty directory is a safe start. */
  lemma EmptyIsSafe(crd: Option<Phase>, retry: bool)
    ensures Trusted(State(false, None, map[], crd, retry, None, map[], false, Idle, None, false))
  {
  }

  /** While no marker is missed, files and manifest are deleted only when it is already gone. */
  lemma DeletionIsUnmarked(s: State, step: Step)
    requires Trusted(s) && Enabled(s, step) && (step.DropFile? || step.DropManifest?)
    ensures !s.marker && !Live(s)
  {
  }

  /**
   A download is started, and a status discarded, only when no download of the model is at work; and a
   download only where there is no marker, while none is missed.
   */
  lemma StartsAlone(s: State, step: Step)
    requires Inv(s) && Enabled(s, step)
    ensures step == LookUp && Apply(s, step).status != s.status ==> !Live(s) && (Trusted(s) ==> !s.marker)
    ensures step == DropStatus ==> !Live(s)
  {
  }

  /** A download is reported complete by verification only with every listed file at its listed size. */
  lemma VerifiedIsComplete(s: State, step: Step)
    requires Inv(s) && Enabled(s, step) && step.VerifyOk?
    ensures s.marker && s.manifest == s.done && Agree(s.files, s.done.value)
  {
  }

  /** The first exception is real: after a failed removal a marker can stand beside a download at work. */
  lemma IgnoredFailure(s: State)
    requires Inv(s) && s.pc == Idle && s.marker && !RetryDue(s)
    ensures var steps := [BeginDownload(false, true), VerifyFail, DropMarker(false), DropEnd, LookUp];
      Run(s, steps) && After(s, steps).marker && Live(After(s, steps)) && !Safe(After(s, steps))
  {
    var begin := BeginDownload(false, true);
    var s1, s2 := s.(pc := Verifying), s.(pc := DroppingMarker);
    ByReconciler(s, begin);
    ByReconciler(s1, VerifyFail);
    assert ApplyDownload(s, begin) == s1 && ApplyDownload(s1, VerifyFail) == s2;
    AfterFailedRemoval(s2);
    var rest := [DropMarker(false), DropEnd, LookUp];
    hide *;
    OneStep(s1, VerifyFail, rest);
    OneStep(s, begin, [VerifyFail] + rest);
    assert [begin] + ([VerifyFail] + rest) == [begin, VerifyFail, DropMarker(false), DropEnd, LookUp];
  }

  lemma AfterFailedRemoval(s: State)
    requires s.pc == DroppingMarker && s.marker && s.status == None
    ensures var steps := [DropMarker(false), DropEnd, LookUp];
      Run(s, steps) && After(s, steps).marker && Live(After(s, steps)) && !Safe(After(s, steps))
  {
    var s1 := s.(pc := DroppingFiles);
    ByReconciler(s, DropMarker(false));
    ByReconciler(s1, DropEnd);
    BesideMarker(s.(pc := LookingUp));
    hide Apply;
    hide Enabled;
    OneStep(s1, DropEnd, [LookUp]);
    OneStep(s, DropMarker(false), [DropEnd, LookUp]);
  }

  /** So is the second: after a failed lookup, with nothing removed at all. */
  lemma OverlookedMarker(s: State)
    requires Inv(s) && s.pc == Idle && s.marker && !RetryDue(s)
    ensures var steps := [BeginDownload(false, false), LookUp];
      Run(s, steps) && After(s, steps).marker && Live(After(s, steps)) && !Safe(After(s, steps))
  {
    ByReconciler(s, BeginDownload(false, false));
    BesideMarker(s.(pc := LookingUp));
    hide Apply;
    hide Enabled;
    OneStep(s, BeginDownload(false, false), [LookUp]);
  }

  lemma BesideMarker(s: State)
    requires s.pc == LookingUp && s.marker && s.status == None
    ensures Run(s, [LookUp]) && After(s, [LookUp]).marker && Live(After(s, [LookUp])) && !Safe(After(s, [LookUp]))
  {
    ByReconciler(s, LookUp);
    hide Apply;
    hide Enabled;
    OneStep(s, LookUp, []);
  }

  lemma ByReconciler(s: State, step: Step)
    requires DownloadEnabled(s, step)
    ensures Enabled(s, step) && Apply(s, step) == ApplyDownload(s, step)
  {
  }

  lemma OneStep(s: State, step: Step, rest: seq<Step>)
    requires Enabled(s, step) && Run(Apply(s, step), rest)
    ensures Run(s, [step] + rest) && After(s, [step] + rest) == After(Apply(s, step), rest)
  {
    assert ([step] + rest)[1..] == rest;
  }

  // What a reconcile comes to.

  /**
   A reconcile in which nothing fails and nothing else happens: a retry clears marker and annotation; an
   intact model is reported complete; anything else under a marker is deleted with it; and then a download
   is started, reported, or taken to its end.
   */
  function Reconciled(s: State): State {
    if s.retry && s.crd in {Some(Failed), Some(Complete)} then
      s.(marker := false, retry := false, crd := Some(Pending))
    else if s.crd == Some(Complete) && s.marker then
      s
    else if s.marker && s.manifest.Some? && Agree(s.files, s.manifest.value) then
      s.(crd := Some(Complete))
    else
      Handled(if s.marker then s.(marker := false, manifest := None, files := map[]) else s)
  }

  /** A download is started if there is none, and reported; one that is over is recorded and forgotten. */
  function Handled(s: State): State {
    match s.status
    case None =>
      s.(status := Some(Pending), written := map[], manifested := false, clean := true, crd := Some(Pending), pc := Idle)
    case Some(Complete) => s.(crd := Some(Complete), marker := true, status := None, pc := Idle)
    case Some(Failed) => s.(crd := Some(Failed), status := None, pc := Idle)
    case Some(phase) => s.(crd := Some(phase), pc := Idle)
  }

  /** A call to the API server or a marker write that fails ends the reconcile and leaves everything as it was. */
  lemma FailedCallEnds(s: State, step: Step)
    requires Enabled(s, step)
    requires step in {RetryUpdate(false), RetryReset(false), VerifyOk(false), Report(false), WriteMarker(false)}
    ensures Apply(s, step) == s.(pc := Idle)
  {
  }

  predicate Leads(s: State, steps: seq<Step>, t: State) {
    Run(s, steps) && After(s, steps) == t
  }

  lemma LeadsOn(s: State, step: Step, rest: seq<Step>, t: State)
    requires DownloadEnabled(s, step) && Leads(ApplyDownload(s, step), rest, t)
    ensures Leads(s, [step] + rest, t)
  {
    ByReconciler(s, step);
    hide Apply;
    hide Enabled;
    hide ApplyDownload;
    OneStep(s, step, rest);
  }

  lemma LeadsNowhere(s: State)
    ensures Leads(s, [], s)
  {
  }

  lemma Retried(s: State) returns (steps: seq<Step>)
    requires s.pc == Idle && RetryDue(s)
    ensures Leads(s, steps, Reconciled(s))
  {
    var a, b, c, d := BeginRetry, RetryRemoveMarker(true), RetryUpdate(true), RetryReset(true);
    var s1 := Apply(s, a);
    var s2 := Apply(s1, b);
    var s3 := Apply(s2, c);
    OneStep(s3, d, []);
    OneStep(s2, c, [d] + []);
    OneStep(s1, b, [c] + ([d] + []));
    steps := [b] + ([c] + ([d] + []));
    OneStep(s, a, steps);
    steps := [a] + steps;
  }

  /** An annotation makes a model that is complete or failed be downloaded anew: without a marker, and pending. */
  lemma AnnotatedIsRetried(s: State) returns (steps: seq<Step>)
    requires s.pc == Idle && s.crd in {Some(Failed), Some(Complete)}
    ensures Leads(s, [Annotate] + steps, s.(marker := false, retry := false, crd := Some(Pending)))
  {
    var t := s.(retry := true);
    assert Enabled(s, Annotate) && Apply(s, Annotate) == t;
    steps := Retried(t);
    OneStep(s, Annotate, steps);
    hide Run;
    hide After;
  }

  /** From the lookup of the status to the end of the reconcile. */
  lemma StatusHandled(s: State) returns (steps: seq<Step>)
    requires s.pc == LookingUp && !s.marker
    ensures Leads(s, steps, Handled(s))
  {
    LookedUp(s);
    ReportedIsHandled(ApplyDownload(s, LookUp));
    hide Agree;
    hide Leads;
    hide Apply;
    var s1 := ApplyDownload(s, LookUp);
    var s2 := ApplyDownload(s1, Report(true));
    var t;
    steps, t := ReportHandled(s2);
    hide Handled;
    LeadsOn(s1, Report(true), steps, t);
    steps := [Report(true)] + steps;
    LeadsOn(s, LookUp, steps, t);
    steps := [LookUp] + steps;
  }

  /** Looking the status up changes nothing about what it comes to. */
  lemma LookedUp(s: State)
    requires s.pc == LookingUp && !s.marker
    ensures var t := ApplyDownload(s, LookUp);
      t.pc == Reporting && t.status.Some? && !t.marker && Handled(t) == Handled(s)
  {
  }

  lemma ReportedIsHandled(s: State)
    requires s.pc == Reporting && s.status.Some? && !s.marker
    ensures var t := ApplyDownload(s, Report(true));
      && (t.pc == Idle || t.pc == DroppingStatus || (t.pc == WritingMarker && !t.marker))
      && Handled(s)
      == if t.pc == Idle then t else t.(marker := t.marker || t.pc == WritingMarker, status := None, pc := Idle)
  {
  }

  /** After the report: the marker is written for a complete download, and the status of an ended one dropped. */
  lemma ReportHandled(s: State) returns (steps: seq<Step>, t: State)
    requires s.pc == Idle || s.pc == DroppingStatus || (s.pc == WritingMarker && !s.marker)
    ensures Leads(s, steps, t)
    ensures t == if s.pc == Idle then s else s.(marker := s.marker || s.pc == WritingMarker, status := None, pc := Idle)
  {
    hide Leads;
    if s.pc == Idle {
      LeadsNowhere(s);
      steps, t := [], s;
    } else {
      var s1 := if s.pc == WritingMarker then s.(marker := true, pc := MarkerWritten) else s;
      t := s1.(status := None, pc := Idle);
      LeadsNowhere(t);
      LeadsOn(s1, DropStatus, [], t);
      steps := [DropStatus] + [];
      if s.pc == WritingMarker {
        LeadsOn(s, WriteMarker(true), steps, t);
        steps := [WriteMarker(true)] + steps;
      }
    }
  }

  /** The deletion of everything, file by file, and what follows it. */
  lemma {:induction false} AllDropped(s: State, rest: seq<Step>, t: State) returns (steps: seq<Step>)
    requires s.pc == DroppingFiles && Leads(s.(files := map[]), rest, t)
    ensures Leads(s, steps, t)
    decreases |s.files|
  {
    if s.files == map[] {
      steps := rest;
    } else {
      var f :| f in s.files;
      assert s.files.Keys == (s.files - {f}).Keys + {f};
      steps := AllDropped(s.(files := s.files - {f}), rest, t);
      hide Leads;
      LeadsOn(s, DropFile(f), steps, t);
      steps := [DropFile(f)] + steps;
    }
  }

  /** The removal of the marker and of all there is under it. */
  lemma Dropped(s: State, rest: seq<Step>, t: State) returns (steps: seq<Step>)
    requires s.pc == Verifying && Leads(s.(marker := false, manifest := None, files := map[], pc := LookingUp), rest, t)
    ensures Leads(s, steps, t)
  {
    var bare := s.(marker := false, manifest := None, pc := DroppingFiles);
    hide Leads;
    LeadsOn(bare.(files := map[]), DropEnd, rest, t);
    steps := AllDropped(bare, [DropEnd] + rest, t);
    LeadsOn(bare.(manifest := s.manifest), DropManifest, steps, t);
    steps := [DropManifest] + steps;
    LeadsOn(s.(pc := DroppingMarker), DropMarker(true), steps, t);
    steps := [DropMarker(true)] + steps;
    LeadsOn(s, VerifyFail, steps, t);
    steps := [VerifyFail] + steps;
  }

  /**
   A crash at any point loses no file and no marker, and the next reconcile takes the download up again
   unless a marker vouches for the model or a retry is due.
   */
  lemma CrashIsRecovered(s: State) returns (steps: seq<Step>)
    requires Inv(s)
    ensures var t := Apply(s, Crash);
      && t.pc == Idle && t.marker == s.marker && t.manifest == s.manifest && t.files == s.files && t.done == s.done
      && Leads(t, steps, Reconciled(t))
      && (!s.marker && !RetryDue(s) ==> Reconciled(t).status == Some(Pending) && Reconciled(t).written == map[])
  {
    var t := Apply(s, Crash);
    OtherKeepsInv(s, Crash);
    hide CompletedInv;
    hide TaskInv;
    steps := ReconcileSucceeds(t);
    hide Leads;
  }

  /** Every idle state has such a reconcile. */
  lemma ReconcileSucceeds(s: State) returns (steps: seq<Step>)
    requires Inv(s) && s.pc == Idle
    ensures Leads(s, steps, Reconciled(s))
  {
    steps := [];
    if RetryDue(s) {
      steps := Retried(s);
    } else if NeedsDownload(s, s.marker) {
      var begin, s1 := BeginDownload(s.marker, s.marker), s.(pc := if s.marker then Verifying else LookingUp);
      if !s.marker {
        steps := StatusHandled(s1);
      } else if s.manifest.Some? && Agree(s.files, s.manifest.value) {
        LeadsNowhere(ApplyDownload(s1, VerifyOk(true)));
        LeadsOn(s1, VerifyOk(true), [], Reconciled(s));
        steps := [VerifyOk(true)] + [];
      } else {
        steps := StatusHandled(s1.(marker := false, manifest := None, files := map[], pc := LookingUp));
        steps := Dropped(s1, steps, Reconciled(s));
      }
      hide Leads;
      LeadsOn(s, begin, steps, Reconciled(s));
      steps := [begin] + steps;
    }
  }

  // What a download can come to.

  /**
   The goroutine moves its status along the edges of the phases, each at its time: it completes with its
   manifest written, and fails only before that.
   */
  lemma TaskMovesIff(s: State, phase: Phase)
    requires Live(s) && phase != s.status.value
    ensures (exists step :: TaskEnabled(s, step) && ApplyTask(s, step).status == Some(phase))
       <==> Edge(s.status.value, phase) && (phase == Complete ==> s.manifested) && (phase == Failed ==> !s.manifested)
  {
    if Edge(s.status.value, phase) && (phase == Complete ==> s.manifested) && (phase == Failed ==> !s.manifested) {
      var step := match phase case Downloading => TaskStart case Complete => TaskComplete case _ => TaskFail;
      assert TaskEnabled(s, step) && ApplyTask(s, step).status == Some(phase);
    }
  }

  lemma TaskLeadsOn(s: State, step: Step, rest: seq<Step>, t: State)
    requires TaskEnabled(s, step) && Leads(ApplyTask(s, step), rest, t)
    ensures Leads(s, [step] + rest, t)
  {
    assert Enabled(s, step) && Apply(s, step) == ApplyTask(s, step);
    hide Apply;
    hide Enabled;
    hide ApplyTask;
    OneStep(s, step, rest);
  }

  /** What is on disk is removed, file by file. */
  lemma {:induction false} AllRemoved(s: State, rest: seq<Step>, t: State) returns (steps: seq<Step>)
    requires s.status == Some(Downloading) && !s.manifested && s.written == map[]
    requires Leads(s.(files := map[]), rest, t)
    ensures Leads(s, steps, t)
    decreases |s.files|
  {
    if s.files == map[] {
      steps := rest;
    } else {
      var f :| f in s.files;
      assert s.files.Keys == (s.files - {f}).Keys + {f};
      steps := AllRemoved(s.(files := s.files - {f}), rest, t);
      hide Leads;
      TaskLeadsOn(s, TaskRemove(f), steps, t);
      steps := [TaskRemove(f)] + steps;
    }
  }

  function Filled(s: State, todo: Sizes): State {
    s.(files := s.files + todo, written := s.written + todo)
  }

  /** Files are written and finished, one by one. */
  lemma {:induction false} AllFinished(s: State, todo: Sizes, rest: seq<Step>, t: State) returns (steps: seq<Step>)
    requires s.status == Some(Downloading) && !s.manifested && todo.Keys !! s.written.Keys
    requires Leads(Filled(s, todo), rest, t)
    ensures Leads(s, steps, t)
    decreases |todo|
  {
    hide Leads;
    if todo == map[] {
      assert s.files + todo == s.files && s.written + todo == s.written;
      steps := rest;
    } else {
      var f :| f in todo;
      OneLess(todo, f);
      OneFilled(s, todo, f);
      hide Filled;
      var s1 := s.(files := s.files[f := todo[f]], written := s.written[f := todo[f]]);
      steps := AllFinished(s1, todo - {f}, rest, t);
      OneFinished(s, f, todo[f], steps, t);
      steps := [TaskTouch(f, todo[f])] + ([TaskFinish(f)] + steps);
    }
  }

  lemma OneLess(todo: Sizes, f: string)
    requires f in todo
    ensures |todo - {f}| < |todo|
  {
    assert todo.Keys == (todo - {f}).Keys + {f};
  }

  lemma OneFilled(s: State, todo: Sizes, f: string)
    requires f in todo
    ensures Filled(s.(files := s.files[f := todo[f]], written := s.written[f := todo[f]]), todo - {f}) == Filled(s, todo)
  {
    OneOfSum(s.files, todo, f);
    OneOfSum(s.written, todo, f);
  }

  lemma OneOfSum(m: Sizes, todo: Sizes, f: string)
    requires f in todo
    ensures m[f := todo[f]] + (todo - {f}) == m + todo
  {
  }

  lemma OneFinished(s: State, f: string, size: nat, rest: seq<Step>, t: State)
    requires s.status == Some(Downloading) && !s.manifested && f !in s.written
    requires Leads(s.(files := s.files[f := size], written := s.written[f := size]), rest, t)
    ensures Leads(s, [TaskTouch(f, size)] + ([TaskFinish(f)] + rest), t)
  {
    hide Leads;
    TaskLeadsOn(s.(files := s.files[f := size]), TaskFinish(f), rest, t);
    TaskLeadsOn(s, TaskTouch(f, size), [TaskFinish(f)] + rest, t);
  }

  /** A download that was started can leave any files, whatever is there before, with a manifest of just these. */
  lemma DownloadSucceeds(s: State, wanted: Sizes) returns (steps: seq<Step>)
    requires Inv(s) && s.status == Some(Pending)
    ensures Leads(s, steps,
      s.(status := Some(Complete), files := wanted, written := wanted, manifest := Some(wanted), manifested := true,
         done := Some(wanted)))
  {
    var s1 := s.(status := Some(Downloading));
    var s2 := s1.(files := wanted, written := wanted);
    var s3 := s2.(manifest := Some(wanted), manifested := true);
    var t := s3.(status := Some(Complete), done := Some(wanted));
    LeadsNowhere(t);
    hide Leads;
    TaskLeadsOn(s3, TaskComplete, [], t);
    TaskLeadsOn(s2, TaskManifest, [TaskComplete] + [], t);
    var empty := s1.(files := map[]);
    assert empty.written == map[] && map[] + wanted == wanted;
    steps := AllFinished(empty, wanted, [TaskManifest] + ([TaskComplete] + []), t);
    steps := AllRemoved(s1, steps, t);
    hide Inv;
    TaskLeadsOn(s, TaskStart, steps, t);
    steps := [TaskStart] + steps;
  }
}
