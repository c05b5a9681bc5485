/** One model download from the first status to the manifest. */
module Manager {
  import opened Bytes
  import opened Chunks
  import opened Disks
  import opened Download
  import opened DownloadStatus
  import GgufBounds
  import opened Markers
  import opened Options

  /** What the file list estimates for a file not yet downloaded. */
  const FILE_ESTIMATE := 1024 * 1024

  /**
   What the surroundings decide: from which check on the download is cancelled, which steps succeed, the
   resolved list of files, and the published checksums.
   */
  datatype World = World(
    cancelAt: Option<nat>,
    dirOk: bool,
    repoOk: bool,
    listing: Option<seq<string>>,
    fileDirs: set<string>,
    checksums: Option<map<string, string>>
  )

  datatype Spec = Spec(branch: string, destDir: string, chunkSize: int)

  predicate Cancelled(world: World, check: nat) {
    world.cancelAt.Some? && world.cancelAt.value <= check
  }

  function JobOf(server: Server, spec: Spec, file: string, since: nat): Job
    requires file in server.repo
  {
    Job(server.repo[file], server.Content(BranchOf(spec.branch), file), server.honours,
        PathIn(spec.destDir, file), ChunkSize(spec.chunkSize), since)
  }

  /** The file exists on the main branch, and sizes are held in an int64. */
  predicate FileOk(server: Server, spec: Spec, file: string) {
    spec.chunkSize < TWO_63 && file in server.repo && |server.repo[file]| < TWO_63
  }

  predicate Available(server: Server, spec: Spec, files: seq<string>) {
    spec.chunkSize < TWO_63 && forall f | f in files :: FileOk(server, spec, f)
  }

  /** Ranges are honoured, and the branch has the main branch's file or none. */
  predicate SoundFile(server: Server, spec: Spec, file: string)
    requires file in server.repo
  {
    Sound(JobOf(server, spec, file, 0))
  }

  predicate AllSound(server: Server, spec: Spec, files: seq<string>)
    requires Available(server, spec, files)
  {
    forall f | f in files :: SoundFile(server, spec, f)
  }

  /**
   No file of the list is stored where another one, its parts or its temporary file are stored, and none
   where the manifest is.
   */
  ghost predicate Apart(destDir: string, files: seq<string>) {
    && (forall f, g, p | f in files && g in files && f != g && OwnedBy(destDir, f, p) :: !OwnedBy(destDir, g, p))
    && (forall f | f in files :: !OwnedBy(destDir, f, PathIn(destDir, MANIFEST_FILE)))
  }

  ghost predicate OwnedBy(destDir: string, file: string, path: string) {
    Owned(Job([], None, false, PathIn(destDir, file), 1, 0), path)
  }

  /** Every listed file, and every part of one, is absent or a prefix of what it is to become. */
  ghost predicate AllSafe(disk: Files, server: Server, spec: Spec, files: seq<string>)
    requires Available(server, spec, files)
  {
    forall f | f in files :: Safe(disk, JobOf(server, spec, f, 0))
  }

  /**
   A downloaded file is there, and has the remote bytes if nothing could be mixed up and its plan did not
   overflow.
   */
  predicate Downloaded(disk: Files, server: Server, spec: Spec, file: string)
    requires FileOk(server, spec, file)
  {
    var remote, path := server.repo[file], PathIn(spec.destDir, file);
    path in disk && (SoundFile(server, spec, file) && Fits(|remote|, ChunkSize(spec.chunkSize)) ==> disk[path] == remote)
  }

  function TotalSize(repo: map<string, seq<Byte>>, files: seq<string>): nat
    requires forall f | f in files :: f in repo
  {
    if files == [] then 0 else TotalSize(repo, files[..|files| - 1]) + |repo[files[|files| - 1]]|
  }

  lemma TotalSizeStep(repo: map<string, seq<Byte>>, files: seq<string>, i: nat)
    requires i < |files| && forall f | f in files :: f in repo
    ensures TotalSize(repo, files[..i + 1]) == TotalSize(repo, files[..i]) + |repo[files[i]]|
  {
    assert files[..i + 1][..i] == files[..i];
  }

  lemma OwnedIsOwnedBy(server: Server, spec: Spec, file: string, since: nat, path: string)
    requires file in server.repo
    ensures Owned(JobOf(server, spec, file, since), path) <==> OwnedBy(spec.destDir, file, path)
  {
    var a, b := JobOf(server, spec, file, since), Job([], None, false, PathIn(spec.destDir, file), 1, 0);
    forall t: Target ensures PathOf(a, t) == PathOf(b, t) {
    }
  }

  /** A file's paths are the same in both states. */
  ghost predicate Untouched(before: Files, after: Files, destDir: string, file: string) {
    forall p: string | OwnedBy(destDir, file, p) :: (p in before <==> p in after) && (p in before ==> before[p] == after[p])
  }

  /** Then what is true of the file stays true. */
  lemma UntouchedKeeps(before: Files, after: Files, server: Server, spec: Spec, file: string)
    requires FileOk(server, spec, file) && Untouched(before, after, spec.destDir, file)
    ensures var job := JobOf(server, spec, file, 0); Safe(before, job) ==> Safe(after, job)
    ensures Downloaded(before, server, spec, file) ==> Downloaded(after, server, spec, file)
    ensures var p := PathIn(spec.destDir, file); (p in before <==> p in after) && (p in before ==> before[p] == after[p])
  {
    var job := JobOf(server, spec, file, 0);
    forall t: Target
      ensures var p := PathOf(job, t); (p in before <==> p in after) && (p in before ==> before[p] == after[p])
    {
      assert Owned(job, PathOf(job, t));
      OwnedIsOwnedBy(server, spec, file, 0, PathOf(job, t));
    }
    assert PathOf(job, Local) == PathIn(spec.destDir, file);
    hide OwnedBy;
  }

  /** Downloading one file leaves the others alone. */
  lemma OthersKept(before: Files, after: Files, server: Server, spec: Spec, f: string, g: string, since: nat)
    requires f in server.repo && forall p | OwnedBy(spec.destDir, g, p) :: !OwnedBy(spec.destDir, f, p)
    requires OnlyJob(before, after, JobOf(server, spec, f, since))
    ensures Untouched(before, after, spec.destDir, g)
  {
    forall p: string | OwnedBy(spec.destDir, g, p)
      ensures (p in before <==> p in after) && (p in before ==> before[p] == after[p])
    {
      OwnedIsOwnedBy(server, spec, f, since, p);
    }
  }

  lemma SafeIgnoresStart(files: Files, job: Job, since: nat)
    requires JobValid(job) && Safe(files, job)
    ensures Safe(files, job.(since := since))
  {
    var other := job.(since := since);
    forall t: Target | PathOf(other, t) in files
      ensures Within(other, t, files[PathOf(other, t)])
    {
      assert PathOf(job, t) == PathOf(other, t);
    }
  }

  /** One file of the list, with the frame for all the others. */
  method FetchFile(disk: Disk, server: Server, spec: Spec, files: seq<string>, file: string)
    returns (size: Option<nat>)
    requires disk.Valid() && Available(server, spec, files) && file in files
    requires Apart(spec.destDir, files) && AllSafe(disk.files, server, spec, files)
    modifies disk, server
    ensures disk.Valid() && AllSafe(disk.files, server, spec, files)
    ensures Faults(disk, server) >= old(Faults(disk, server)) + if size == None then 1 else 0
    ensures size.Some? ==>
      Downloaded(disk.files, server, spec, file) && (SoundFile(server, spec, file) ==> size.value == |server.repo[file]|)
    ensures forall g | g in files && g != file ::
      old(Downloaded(disk.files, server, spec, g)) ==> Downloaded(disk.files, server, spec, g)
  {
    ghost var job := JobOf(server, spec, file, |disk.trace| - 1);
    ghost var base := JobOf(server, spec, file, 0);
    SafeIgnoresStart(disk.files, base, job.since);
    hide Safe;
    hide Owned;
    hide OnlyJob;
    hide Leaves;
    ghost var before := disk.files;
    ghost var how;
    size, how := DownloadFile(disk, server, spec.branch, file, PathIn(spec.destDir, file), spec.chunkSize, job);
    SafeIgnoresStart(disk.files, job, 0);
    assert job.(since := 0) == base;
    forall g | g in files && g != file
      ensures Safe(disk.files, JobOf(server, spec, g, 0))
      ensures Downloaded(before, server, spec, g) ==> Downloaded(disk.files, server, spec, g)
    {
      OthersKept(before, disk.files, server, spec, file, g, job.since);
      UntouchedKeeps(before, disk.files, server, spec, g);
    }
  }

  /** The percentage after `i` files, as the code estimates the rest. */
  ghost predicate Estimated(progress: real, done: nat, remaining: nat) {
    && 0.0 <= progress <= 100.0
    && (done + remaining * FILE_ESTIMATE > 0 ==> progress == Percent(done, done + remaining * FILE_ESTIMATE))
  }

  /** Why the file loop may stop early. */
  ghost predicate LoopCause(world: World, files: seq<string>, faulty: bool) {
    Cancelled(world, |files|) || (exists f :: f in files && f !in world.fileDirs) || faulty
  }

  method UpdateDuring(status: Status, file: string, size: Option<nat>)
    modifies status`files
    ensures forall g :: g != file ==> Lookup(status.files, g) == old(Lookup(status.files, g))
    ensures size.Some? ==> Lookup(status.files, file) == Some(FileStatus(file, size.value, size.value, Complete))
  {
    var files := status.files;
    if size.Some? {
      status.UpdateFileProgress(file, size.value, size.value, Complete);
      forall g: string
        ensures Lookup(status.files, g)
          == if g == file then Some(FileStatus(file, size.value, size.value, Complete)) else Lookup(files, g)
      {
        LookupOfUpdated(files, FileStatus(file, size.value, size.value, Complete), g);
      }
    } else {
      var done: nat :| true;
      status.UpdateFileProgress(file, done, 0, Downloading);
      forall g: string ensures g != file ==> Lookup(status.files, g) == Lookup(files, g) {
        LookupOfUpdated(files, FileStatus(file, done, 0, Downloading), g);
      }
    }
  }

  /** What holds for a file once it is through: it is on disk, and its size is recorded and reported. */
  ghost predicate Through(disk: Files, entries: seq<FileStatus>, sizes: map<string, nat>, server: Server, spec: Spec,
      file: string)
    requires FileOk(server, spec, file)
  {
    && Downloaded(disk, server, spec, file) && file in sizes
    && Lookup(entries, file) == Some(FileStatus(file, sizes[file], sizes[file], Complete))
    && (SoundFile(server, spec, file) ==> sizes[file] == |server.repo[file]|)
  }

  /** One turn of the file loop, up to the overall progress; `sizes` are those of the files before. */
  method NextFile(disk: Disk, server: Server, status: Status, world: World, spec: Spec, files: seq<string>, i: nat,
      ghost sizes: map<string, nat>)
    returns (size: Option<nat>)
    requires disk.Valid() && Available(server, spec, files) && i < |files|
    requires Apart(spec.destDir, files) && AllSafe(disk.files, server, spec, files)
    requires status.Valid()
    modifies disk, server, status
    ensures disk.Valid() && AllSafe(disk.files, server, spec, files)
    ensures status.Valid() && status.percents == old(status.percents)
    ensures Faults(disk, server) >= old(Faults(disk, server))
    ensures status.phases == old(status.phases) + if size.Some? then [] else [Failed]
    ensures size == None ==> LoopCause(world, files, Faults(disk, server) > old(Faults(disk, server)))
    ensures size.Some? ==> !Cancelled(world, i + 1) && files[i] in world.fileDirs
    ensures size.Some? ==>
      var after := sizes[files[i] := size.value];
      && Through(disk.files, status.files, after, server, spec, files[i])
      && forall g | g in files && old(Through(disk.files, status.files, sizes, server, spec, g)) ::
           Through(disk.files, status.files, after, server, spec, g)
  {
    hide AllSafe;
    hide Apart;
    hide Downloaded;
    hide SoundFile;
    hide Lookup;
    var file := files[i];
    if Cancelled(world, i + 1) {
      status.SetError("download cancelled");
      return None;
    }
    UpdateDuring(status, file, None);
    if file !in world.fileDirs {
      status.SetError("failed to create directory");
      return None;
    }
    size := FetchFile(disk, server, spec, files, file);
    UpdateDuring(status, file, None);
    if size == None {
      status.SetError("failed to download");
      return;
    }
    UpdateDuring(status, file, size);
  }

  /** The file loop: one file after the other, until the first problem. */
  method DownloadFiles(disk: Disk, server: Server, status: Status, world: World, spec: Spec, files: seq<string>)
    returns (sizes: Option<map<string, nat>>, totalBytes: nat)
    requires disk.Valid() && Available(server, spec, files)
    requires Apart(spec.destDir, files) && AllSafe(disk.files, server, spec, files)
    requires status.Valid() && status.progress == 0.0 && Rising(status.percents)
    modifies disk, server, status
    ensures disk.Valid() && AllSafe(disk.files, server, spec, files)
    ensures status.Valid() && Rising(status.percents)
    ensures Faults(disk, server) >= old(Faults(disk, server))
    ensures status.phases == old(status.phases) + if sizes.Some? then [] else [Failed]
    ensures sizes == None ==> LoopCause(world, files, Faults(disk, server) > old(Faults(disk, server)))
    ensures sizes.Some? && files != [] ==> !LoopCause(world, files, false)
    ensures sizes.Some? ==>
      && sizes.value.Keys == (set f | f in files)
      && (forall f | f in files :: Through(disk.files, status.files, sizes.value, server, spec, f))
      && (AllSound(server, spec, files) ==> totalBytes == TotalSize(server.repo, files))
  {
    hide AllSafe;
    hide Apart;
    hide Through;
    hide Estimated;
    hide LoopCause;
    hide Rising;
    hide TotalSize;
    hide Percent;
    hide AllSound;
    hide FileOk;
    var fileSizes: map<string, nat> := map f | f in files :: 0;
    totalBytes := 0;
    var i := 0;
    NoEstimate(|files|);
    NoBytes(server.repo, files) by { ListedExist(server, spec, files); }
    while i < |files|
      invariant 0 <= i <= |files|
      invariant disk.Valid() && AllSafe(disk.files, server, spec, files)
      invariant status.Valid() && Rising(status.percents) && status.phases == old(status.phases)
      invariant Faults(disk, server) >= old(Faults(disk, server))
      invariant fileSizes.Keys == set f | f in files
      invariant BytesSoFar(server, spec, files, i, totalBytes)
      invariant Estimated(status.progress, totalBytes, |files| - i)
      invariant (i > 0 ==> !Cancelled(world, i)) && forall j | 0 <= j < i :: files[j] in world.fileDirs
      invariant forall j | 0 <= j < i :: Through(disk.files, status.files, fileSizes, server, spec, files[j])
    {
      var size := NextFile(disk, server, status, world, spec, files, i, fileSizes);
      if size == None {
        MoreFaults(world, files, Faults(disk, server) > old(Faults(disk, server)));
        return None, totalBytes;
      }
      fileSizes := fileSizes[files[i] := size.value];
      NextEstimate(status.progress, totalBytes, |files| - i - 1, size.value);
      NextBytes(disk.files, status.files, fileSizes, server, spec, files, i, totalBytes);
      totalBytes := totalBytes + size.value;
      i := i + 1;
      ghost var percents := status.percents;
      status.SetProgress(totalBytes, totalBytes + (|files| - i) * FILE_ESTIMATE);
      RisingFurther(percents, status.progress);
    }
    assert files[..i] == files;
    NoCause(world, files);
    sizes := Some(fileSizes);
  }

  /** The byte counter after `n` files, where the sizes can be told. */
  ghost predicate BytesSoFar(server: Server, spec: Spec, files: seq<string>, n: nat, bytes: nat)
    requires Available(server, spec, files) && n <= |files|
  {
    ListedExist(server, spec, files);
    AllSound(server, spec, files) ==> bytes == TotalSize(server.repo, files[..n])
  }

  lemma ListedExist(server: Server, spec: Spec, files: seq<string>)
    requires Available(server, spec, files)
    ensures forall f | f in files :: f in server.repo
  {
  }

  lemma NextBytes(disk: Files, entries: seq<FileStatus>, sizes: map<string, nat>, server: Server, spec: Spec,
      files: seq<string>, n: nat, bytes: nat)
    requires Available(server, spec, files) && n < |files| && BytesSoFar(server, spec, files, n, bytes)
    requires Through(disk, entries, sizes, server, spec, files[n])
    ensures BytesSoFar(server, spec, files, n + 1, bytes + sizes[files[n]])
  {
    TotalSizeStep(server.repo, files, n);
  }

  lemma MoreFaults(world: World, files: seq<string>, faulty: bool)
    ensures LoopCause(world, files, false) ==> LoopCause(world, files, faulty)
  {
  }

  lemma NoCause(world: World, files: seq<string>)
    requires forall j | 0 <= j < |files| :: files[j] in world.fileDirs
    ensures !Cancelled(world, |files|) ==> !LoopCause(world, files, false)
  {
  }

  lemma NoBytes(repo: map<string, seq<Byte>>, files: seq<string>)
    requires forall f | f in files :: f in repo
    ensures TotalSize(repo, files[..0]) == 0
  {
  }

  lemma RisingFurther(xs: seq<real>, x: real)
    requires Rising(xs) && (xs != [] ==> xs[|xs| - 1] <= x) && 0.0 <= x <= 100.0
    ensures Rising(xs + [x])
  {
  }

  lemma NoEstimate(n: nat)
    ensures Estimated(0.0, 0, n)
  {
  }

  /** The next estimate is no lower, and it is an estimate again. */
  lemma NextEstimate(progress: real, done: nat, remaining: nat, size: nat)
    requires Estimated(progress, done, remaining + 1)
    ensures var total := done + size + remaining * FILE_ESTIMATE;
      var next := if total > 0 then Percent(done + size, total) else progress;
      0.0 <= progress <= next <= 100.0 && Estimated(next, done + size, remaining)
  {
    var rest := remaining * FILE_ESTIMATE;
    if done + size + rest > 0 {
      PercentRises(done, (remaining + 1) * FILE_ESTIMATE, done + size, rest);
    }
  }

  predicate Matches(disk: Files, destDir: string, file: string, hash: string, sha: seq<Byte> -> string) {
    PathIn(destDir, file) in disk && sha(disk[PathIn(destDir, file)]) == hash
  }

  /** Compares the published checksums of the listed files, in any order. */
  method VerifyChecksums(disk: Disk, destDir: string, checksums: map<string, string>, sha: seq<Byte> -> string)
    returns (ok: bool)
    requires disk.Valid() && forall f | f in checksums :: PathIn(destDir, f) in disk.files
    modifies disk
    ensures disk.Valid() && disk.files == old(disk.files) && disk.trace == old(disk.trace)
    ensures disk.faults >= old(disk.faults)
    ensures ok ==> forall f | f in checksums :: Matches(disk.files, destDir, f, checksums[f], sha)
    ensures !ok ==>
      disk.faults > old(disk.faults) || exists f :: f in checksums && !Matches(disk.files, destDir, f, checksums[f], sha)
  {
    var todo := checksums.Keys;
    while todo != {}
      invariant todo <= checksums.Keys
      invariant disk.Valid() && disk.files == old(disk.files) && disk.trace == old(disk.trace)
      invariant disk.faults >= old(disk.faults)
      invariant forall f | f in checksums && f !in todo :: Matches(disk.files, destDir, f, checksums[f], sha)
      decreases |todo|
    {
      var f :| f in todo;
      ok := disk.Touch(PathIn(destDir, f));
      if !ok || sha(disk.files[PathIn(destDir, f)]) != checksums[f] {
        assert ok ==> !Matches(disk.files, destDir, f, checksums[f], sha);
        return false;
      }
      todo := todo - {f};
    }
    ok := true;
  }

  ghost predicate Mismatch(disk: Files, destDir: string, files: seq<string>, checksums: map<string, string>,
      sha: seq<Byte> -> string) {
    exists f :: f in files && f in checksums && !Matches(disk, destDir, f, checksums[f], sha)
  }

  /** Everything that can make a download fail. */
  ghost predicate Cause(world: World, disk: Files, destDir: string, sha: seq<Byte> -> string, faulty: bool) {
    || Cancelled(world, 0) || !world.dirOk || !world.repoOk || world.listing == None || world.listing.value == []
    || LoopCause(world, world.listing.value, faulty)
    || (world.checksums.Some? && Mismatch(disk, destDir, world.listing.value, world.checksums.value, sha))
  }

  /** The functions of other libraries: SHA-256 in hex, and the JSON of a manifest. */
  datatype Libraries = Libraries(sha: seq<Byte> -> string, encode: Manifest -> seq<Byte>)

  /**
   A completed download: the manifest on disk lists exactly the resolved files, each of them is on disk and
   reported complete with its listed size, and the published checksums match; the sizes are the remote
   ones, and all bytes are accounted for, where nothing could be mixed up.
   */
  ghost predicate Completed(disk: Disk, server: Server, status: Status, world: World, spec: Spec, lib: Libraries,
      manifest: map<string, nat>)
    requires world.listing.Some? && Available(server, spec, world.listing.value)
    reads disk, status
  {
    var files, path := world.listing.value, PathIn(spec.destDir, MANIFEST_FILE);
    && manifest.Keys == (set f | f in files)
    && path in disk.files && disk.files[path] == lib.encode(manifest)
    && (forall f | f in files :: Through(disk.files, status.files, manifest, server, spec, f))
    && status.progress == 100.0 && status.bytesDone == status.bytesTotal
    && (AllSound(server, spec, files) ==> status.bytesTotal == TotalSize(server.repo, files))
    && (world.checksums.Some? ==>
          forall f | f in files && f in world.checksums.value ::
            Matches(disk.files, spec.destDir, f, world.checksums.value[f], lib.sha))
  }

  /**
   The whole download. Its phases are Pending, then possibly Downloading, then Complete or Failed; the
   percentage never falls; it fails only for a cause, and without a fault for every one of them.
   */
  method PerformDownload(disk: Disk, server: Server, status: Status, world: World, spec: Spec, lib: Libraries)
    returns (manifest: Option<map<string, nat>>)
    requires disk.Valid() && status.Valid() && status.phases == [Pending] && status.percents == [0.0]
    requires world.listing.Some? ==>
      && Available(server, spec, world.listing.value) && Apart(spec.destDir, world.listing.value)
      && AllSafe(disk.files, server, spec, world.listing.value)
    modifies disk, server, status
    ensures disk.Valid() && status.Valid()
    ensures Path(status.phases) && Terminal(status.phase) && Rising(status.percents)
    ensures manifest.Some? <==> status.phase == Complete
    ensures world.listing.Some? ==> AllSafe(disk.files, server, spec, world.listing.value)
    ensures status.phase == Failed ==>
      Cause(world, disk.files, spec.destDir, lib.sha, Faults(disk, server) > old(Faults(disk, server)))
    ensures status.phase == Complete ==>
      && world.listing.Some? && Completed(disk, server, status, world, spec, lib, manifest.value)
      && !Cause(world, disk.files, spec.destDir, lib.sha, false)
  {
    hide AllSafe;
    hide Apart;
    hide Completed;
    hide LoopCause;
    hide Mismatch;
    hide Available;
    manifest := None;
    if Cancelled(world, 0) {
      status.SetError("download cancelled");
      return;
    }
    status.SetPhase(Downloading);
    if !world.dirOk {
      status.SetError("failed to create destination directory");
      return;
    }
    if !world.repoOk {
      status.SetError("failed to create repository handle");
      return;
    }
    if world.listing == None {
      status.SetError("failed to resolve files");
      return;
    }
    var files := world.listing.value;
    if |files| == 0 {
      status.SetError("no files to download");
      return;
    }
    manifest := FetchAndVerify(disk, server, status, world, spec, lib);
    if manifest.Some? {
      NothingHinders(disk, server, status, world, spec, lib, manifest.value);
    }
  }

  /** After a download that completed nothing is a cause to fail but a fault. */
  lemma NothingHinders(disk: Disk, server: Server, status: Status, world: World, spec: Spec, lib: Libraries,
      manifest: map<string, nat>)
    requires world.dirOk && world.repoOk && world.listing.Some? && world.listing.value != [] && !Cancelled(world, 0)
    requires Available(server, spec, world.listing.value) && !LoopCause(world, world.listing.value, false)
    requires Completed(disk, server, status, world, spec, lib, manifest)
    ensures !Cause(world, disk.files, spec.destDir, lib.sha, false)
  {
    hide LoopCause;
    hide Matches;
    hide Through;
    hide Available;
  }

  /** The part of the download after the files are resolved. */
  method FetchAndVerify(disk: Disk, server: Server, status: Status, world: World, spec: Spec, lib: Libraries)
    returns (manifest: Option<map<string, nat>>)
    requires disk.Valid() && status.Valid() && status.phases == [Pending, Downloading] && status.percents == [0.0]
    requires world.listing.Some? && world.listing.value != []
    requires Available(server, spec, world.listing.value) && Apart(spec.destDir, world.listing.value)
    requires AllSafe(disk.files, server, spec, world.listing.value)
    modifies disk, server, status
    ensures disk.Valid() && AllSafe(disk.files, server, spec, world.listing.value)
    ensures status.Valid() && Rising(status.percents)
    ensures status.phases == [Pending, Downloading, if manifest.Some? then Complete else Failed]
    ensures manifest == None ==>
      Cause(world, disk.files, spec.destDir, lib.sha, Faults(disk, server) > old(Faults(disk, server)))
    ensures manifest.Some? ==>
      && Completed(disk, server, status, world, spec, lib, manifest.value)
      && !LoopCause(world, world.listing.value, false)
  {
    hide AllSafe;
    hide Apart;
    hide Available;
    hide Through;
    hide LoopCause;
    hide Matches;
    hide Percent;
    hide TotalSize;
    hide Cause;
    hide Rising;
    hide Mismatch;
    hide AllSound;
    hide FileOk;
    manifest := None;
    var files := world.listing.value;
    var i := 0;
    while i < |files|
      invariant 0 <= i <= |files| && status.Valid()
      invariant status.phases == [Pending, Downloading] && status.percents == [0.0]
      modifies status
    {
      status.UpdateFileProgress(files[i], 0, 0, Pending);
      i := i + 1;
    }
    status.SetProgress(0, |files|);
    NoProgress(|files|);
    RisingFromZero();
    assert status.percents == [0.0, 0.0];
    var sizes, totalBytes := DownloadFiles(disk, server, status, world, spec, files);
    CauseOf(world, disk.files, spec.destDir, lib.sha, Faults(disk, server) > old(Faults(disk, server)));
    if sizes == None {
      return;
    }
    AllPresent(disk.files, status.files, sizes.value, server, spec, files);
    if world.checksums.Some? {
      var ok := VerifyListed(disk, spec.destDir, files, world.checksums.value, lib.sha);
      if !ok {
        CauseOf(world, disk.files, spec.destDir, lib.sha, Faults(disk, server) > old(Faults(disk, server)));
        status.SetError("SHA256 verification failed");
        return;
      }
    }
    ghost var before := disk.files;
    var written := WriteManifest(disk, server, spec, files, sizes.value, lib);
    ManifestKeeps(before, disk.files, status.files, sizes.value, server, spec, files);
    if !written {
      CauseOf(world, disk.files, spec.destDir, lib.sha, Faults(disk, server) > old(Faults(disk, server)));
      status.SetError("failed to write manifest");
      return;
    }
    ghost var entries := status.files;
    MarkComplete(status, totalBytes);
    assert status.files == entries;
    ChecksumsKept(before, disk.files, world, spec, lib);
    manifest := sizes;
  }

  /** The manifest file, written atomically; listed files are not touched. */
  method WriteManifest(disk: Disk, server: Server, spec: Spec, files: seq<string>, sizes: map<string, nat>, lib: Libraries)
    returns (ok: bool)
    requires disk.Valid() && Available(server, spec, files) && Apart(spec.destDir, files)
    requires forall f | f in files :: PathIn(spec.destDir, f) in disk.files
    modifies disk
    ensures disk.Valid() && disk.faults >= old(disk.faults) + if ok then 0 else 1
    ensures forall f | f in files :: Untouched(old(disk.files), disk.files, spec.destDir, f)
    ensures var path := PathIn(spec.destDir, MANIFEST_FILE);
      ok ==> path in disk.files && disk.files[path] == lib.encode(sizes)
  {
    hide Untouched;
    ghost var before, tmp := disk.files, "";
    ok, tmp := AtomicWrite(disk, spec.destDir, MANIFEST_FILE, lib.encode(sizes));
    forall f | f in files ensures Untouched(before, disk.files, spec.destDir, f) {
      NotTouched(before, disk.files, spec.destDir, f, tmp, lib.encode(sizes), ok);
    }
  }

  lemma NotTouched(before: Files, after: Files, destDir: string, file: string, tmp: string, data: seq<Byte>, ok: bool)
    requires !OwnedBy(destDir, file, PathIn(destDir, MANIFEST_FILE)) && IsTemp(destDir, tmp)
    requires PathIn(destDir, file) in before
    requires if ok then after == before[PathIn(destDir, MANIFEST_FILE) := data]
             else after == before || (tmp !in before && after - {tmp} == before)
    ensures Untouched(before, after, destDir, file)
  {
    forall p: string | OwnedBy(destDir, file, p)
      ensures (p in before <==> p in after) && (p in before ==> before[p] == after[p])
    {
      TempIsNotOwned(destDir, file, tmp);
      if !ok && after != before {
        assert p != tmp || p in before;
        assert (after - {tmp}) == before;
      }
    }
  }

  /** The only path of a file that a temporary file can have is the file's own. */
  lemma TempIsNotOwned(destDir: string, file: string, tmp: string)
    requires IsTemp(destDir, tmp)
    ensures OwnedBy(destDir, file, tmp) ==> tmp == PathIn(destDir, file)
  {
    var job := Job([], None, false, PathIn(destDir, file), 1, 0);
    forall t: Target | PathOf(job, t) == tmp
      ensures t == Local
    {
      var s := SuffixOf(t);
      assert tmp == job.local + s;
      if t != Local {
        TempHasOtherSuffix(destDir, tmp, job.local, s);
      }
    }
  }

  lemma TempHasOtherSuffix(destDir: string, tmp: string, local: string, s: string)
    requires IsTemp(destDir, tmp) && destDir + "/" <= local
    requires |s| > 1 && s[0] == '.' && s[1] == 'p' && '.' !in s[1..]
    ensures tmp != local + s
  {
    var a, whole := destDir + "/", TMP_PREFIX + tmp[|PathIn(destDir, TMP_PREFIX)|..];
    assert tmp == a + whole;
    assert whole[0] == '.' && whole[1] == 't' && '.' !in whole[1..];
    assert (a + whole)[|a|..] == whole && (local + s)[|local|..] == s;
    if a + whole == local + s {
      SameEnds(a, whole, local, s);
    }
  }

  lemma ManifestKeeps(before: Files, after: Files, entries: seq<FileStatus>, sizes: map<string, nat>, server: Server,
      spec: Spec, files: seq<string>)
    requires Available(server, spec, files)
    requires forall f | f in files :: Untouched(before, after, spec.destDir, f)
    ensures AllSafe(before, server, spec, files) ==> AllSafe(after, server, spec, files)
    ensures forall f | f in files ::
      Through(before, entries, sizes, server, spec, f) ==> Through(after, entries, sizes, server, spec, f)
    ensures forall f | f in files :: var p := PathIn(spec.destDir, f);
      (p in before <==> p in after) && (p in before ==> before[p] == after[p])
  {
    hide Untouched;
    hide Safe;
    forall f | f in files
      ensures Safe(before, JobOf(server, spec, f, 0)) ==> Safe(after, JobOf(server, spec, f, 0))
      ensures Downloaded(before, server, spec, f) ==> Downloaded(after, server, spec, f)
      ensures var p := PathIn(spec.destDir, f); (p in before <==> p in after) && (p in before ==> before[p] == after[p])
    {
      UntouchedKeeps(before, after, server, spec, f);
    }
  }

  lemma ChecksumsKept(before: Files, after: Files, world: World, spec: Spec, lib: Libraries)
    requires world.listing.Some? && forall f | f in world.listing.value :: var p := PathIn(spec.destDir, f);
      (p in before <==> p in after) && (p in before ==> before[p] == after[p])
    ensures forall f, hash | f in world.listing.value ::
      Matches(before, spec.destDir, f, hash, lib.sha) ==> Matches(after, spec.destDir, f, hash, lib.sha)
  {
  }

  method MarkComplete(status: Status, totalBytes: nat)
    requires status.Valid() && Rising(status.percents)
    modifies status`phase, status`phases, status`progress, status`percents, status`completed
    modifies status`bytesDone, status`bytesTotal
    ensures status.Valid() && status.phases == old(status.phases) + [Complete] && Rising(status.percents)
    ensures status.progress == 100.0 && status.bytesDone == status.bytesTotal == totalBytes
  {
    hide Percent;
    ghost var percents := status.percents;
    status.SetProgress(totalBytes, totalBytes);
    FullProgress(totalBytes);
    RisingFurther(percents, status.progress);
    RisingFurther(status.percents, 100.0);
    status.SetComplete();
  }

  /** The checksums published for listed files. */
  method VerifyListed(disk: Disk, destDir: string, files: seq<string>, published: map<string, string>,
      sha: seq<Byte> -> string)
    returns (ok: bool)
    requires disk.Valid() && forall f | f in files :: PathIn(destDir, f) in disk.files
    modifies disk
    ensures disk.Valid() && disk.files == old(disk.files) && disk.faults >= old(disk.faults)
    ensures ok ==> forall f | f in files && f in published :: Matches(disk.files, destDir, f, published[f], sha)
    ensures !ok ==> disk.faults > old(disk.faults) || Mismatch(disk.files, destDir, files, published, sha)
  {
    hide Matches;
    var checksums := map f | f in files && f in published :: published[f];
    ok := VerifyChecksums(disk, destDir, checksums, sha);
    if ok {
      assert forall f | f in files && f in published :: f in checksums;
    }
  }

  lemma CauseOf(world: World, disk: Files, destDir: string, sha: seq<Byte> -> string, faulty: bool)
    requires world.listing.Some?
    ensures LoopCause(world, world.listing.value, faulty) || faulty ==>
      Cause(world, disk, destDir, sha, faulty)
    ensures world.checksums.Some? && Mismatch(disk, destDir, world.listing.value, world.checksums.value, sha) ==>
      Cause(world, disk, destDir, sha, faulty)
  {
  }

  lemma NoProgress(n: nat)
    requires n > 0
    ensures Percent(0, n) == 0.0
  {
  }

  lemma RisingFromZero()
    ensures Rising([0.0, 0.0])
  {
  }

  lemma FullProgress(n: nat)
    ensures n > 0 ==> Percent(n, n) == 100.0
  {
  }

  lemma AllPresent(disk: Files, entries: seq<FileStatus>, sizes: map<string, nat>, server: Server, spec: Spec,
      files: seq<string>)
    requires Available(server, spec, files)
    requires forall f | f in files :: Through(disk, entries, sizes, server, spec, f)
    ensures forall f | f in files :: PathIn(spec.destDir, f) in disk
  {
    forall f | f in files ensures PathIn(spec.destDir, f) in disk {
      assert Through(disk, entries, sizes, server, spec, f);
    }
  }

  /**
   What completion is for: where nothing could be mixed up, a completed directory verifies if and only if
   the header of every GGUF file that was published is valid.
   */
  lemma CompletedVerifiesIff(disk: Disk, server: Server, status: Status, world: World, spec: Spec, lib: Libraries,
      manifest: map<string, nat>, decode: seq<Byte> -> Option<Manifest>)
    requires world.listing.Some? && Available(server, spec, world.listing.value)
    requires Completed(disk, server, status, world, spec, lib, manifest) && AllSound(server, spec, world.listing.value)
    requires forall f | f in world.listing.value :: Fits(|server.repo[f]|, ChunkSize(spec.chunkSize))
    requires decode(lib.encode(manifest)) == Some(manifest)
    ensures Verified(disk.files, spec.destDir, decode)
       <==> forall f | f in world.listing.value && IsGguf(f) :: GgufBounds.HeaderValid(server.repo[f], |server.repo[f]|)
  {
    hide GgufBounds.HeaderValid;
    hide Fits;
    hide TotalSize;
    hide Lookup;
    forall f | f in world.listing.value
      ensures f in manifest && manifest[f] == |server.repo[f]|
      ensures PathIn(spec.destDir, f) in disk.files && disk.files[PathIn(spec.destDir, f)] == server.repo[f]
    {
      assert Through(disk.files, status.files, manifest, server, spec, f);
    }
    assert ManifestOf(disk.files, spec.destDir, decode) == Some(manifest);
    assert forall f | f in manifest :: f in world.listing.value;
    assert forall f | f in world.listing.value ::
      FileVerified(disk.files, spec.destDir, f, manifest[f])
      <==> (IsGguf(f) ==> GgufBounds.HeaderValid(server.repo[f], |server.repo[f]|));
  }

  // When files stay out of each other's way.

  lemma {:induction false} DigitsOnly(n: nat)
    ensures '.' !in Digits(n)
  {
    if n >= 10 {
      DigitsOnly(n / 10);
    }
  }

  /** What a path of a job has after the local path: nothing, or a dot and no further dot. */
  lemma SuffixOf(t: Target) returns (suffix: string)
    ensures forall job: Job :: PathOf(job, t) == job.local + suffix
    ensures t == Local <==> suffix == ""
    ensures t != Local ==> |suffix| > 1 && suffix[0] == '.' && suffix[1] == 'p' && '.' !in suffix[1..]
  {
    match t {
      case Local => suffix := "";
      case Temp => suffix := ".part";
      case Part(i) =>
        DigitsOnly(i);
        suffix := ".part-" + Padded(i);
        assert '.' !in Padded(i);
        forall job: Job ensures PathOf(job, t) == job.local + suffix {
          assert job.local + ".part-" + Padded(i) == job.local + (".part-" + Padded(i));
        }
    }
    forall job: Job ensures t == Local ==> PathOf(job, t) == job.local + suffix {
    }
  }

  lemma SameEnds(a: string, s: string, b: string, t: string)
    requires a + s == b + t && s != "" && t != ""
    requires s[0] == '.' && t[0] == '.' && '.' !in s[1..] && '.' !in t[1..]
    ensures a == b
  {
    LastDot(a, s);
    LastDot(b, t);
    var whole := a + s;
    assert |a| == |b|;
    assert whole[..|a|] == a && whole[..|b|] == b;
  }

  lemma LastDot(a: string, s: string)
    requires s != "" && s[0] == '.' && '.' !in s[1..]
    ensures (a + s)[|a|] == '.' && forall k | |a| < k < |a + s| :: (a + s)[k] != '.'
  {
    forall k | |a| < k < |a + s| ensures (a + s)[k] != '.' {
      assert (a + s)[k] == s[1..][k - |a| - 1];
    }
  }

  /** Two different files collide only if one of them is named as a part or the temporary file of the other. */
  lemma ApartIff(a: Job, b: Job)
    requires a.local != b.local
    ensures (forall t, u :: PathOf(a, t) != PathOf(b, u))
       <==> (forall t :: PathOf(a, t) != b.local) && (forall u :: PathOf(b, u) != a.local)
  {
    if (forall t :: PathOf(a, t) != b.local) && (forall u :: PathOf(b, u) != a.local) {
      forall t: Target, u: Target ensures PathOf(a, t) != PathOf(b, u) {
        var s := SuffixOf(t);
        var r := SuffixOf(u);
        if PathOf(a, t) == PathOf(b, u) {
          if t != Local && u != Local {
            SameEnds(a.local, s, b.local, r);
          }
        }
      }
    } else {
      assert PathOf(a, Local) == a.local && PathOf(b, Local) == b.local;
    }
  }
}
