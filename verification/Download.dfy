/**
 Downloading one file: Xet, then parallel chunks, then resuming what is there, then from scratch. With a
 server that honours ranges, every state of the disk on the way keeps the file and its parts prefixes of
 what they are to become; with any server, the contracts say exactly what a success has left.
 */
module Download {
  import opened Bytes
  import opened Chunks
  import opened Disks
  import opened Options

  const MULTIPART_THRESHOLD := 256 * 1024 * 1024
  const MAX_RETRIES := 4

  // The server.

  datatype Range = Whole | From(offset: nat) | Closed(first: int, last: int)

  datatype StatusCode = OK200 | Partial206 | Unsatisfiable416 | Other

  /** `body` is what arrives before the connection ends; `complete` tells whether that was everything. */
  datatype Answer = Answer(status: StatusCode, body: seq<Byte>, complete: bool)

  /** The bytes a range selects, None when it selects nothing (sections 14.1.2 and 15.5.17 of RFC 9110). */
  function Selected(remote: seq<Byte>, range: Range): Option<seq<Byte>> {
    match range
    case Whole => Some(remote)
    case From(offset) => if offset < |remote| then Some(remote[offset..]) else None
    case Closed(first, last) =>
      if 0 <= first < |remote| && first <= last
      then Some(remote[first..if last + 1 < |remote| then last + 1 else |remote|])
      else None
  }

  predicate Delivers(a: Answer, content: seq<Byte>) {
    a.body <= content && (a.complete ==> a.body == content)
  }

  /** What a server may answer; one that does not honour ranges sends the whole file instead. */
  predicate Answers(remote: seq<Byte>, honours: bool, range: Range, a: Answer) {
    match a.status
    case OK200 => (range == Whole || !honours) && Delivers(a, remote)
    case Partial206 => range != Whole && Selected(remote, range).Some? && Delivers(a, Selected(remote, range).value)
    case Unsatisfiable416 => range != Whole && Selected(remote, range) == None
    case Other => true
  }

  /** A request that failed or broke off. */
  predicate Bad(a: Option<Answer>) {
    a == None || a.value.status == Other || (a.value.status != Unsatisfiable416 && !a.value.complete)
  }

  const MAIN := "main"

  /** The branch a specification means. */
  function BranchOf(branch: string): string {
    if branch == "" then MAIN else branch
  }

  /** A request that was sent, and how it went. */
  datatype Request =
    | Rebuild(branch: string, filePath: string, ok: bool)
    | HeadOf(filePath: string, answer: Option<(nat, bool)>)
    | Asked(filePath: string, range: Range, bad: bool)

  /**
   The repository behind the connection: `repo` is its main branch. `log` lists the requests, `faults`
   counts those that went wrong.
   */
  class Server {
    const repo: map<string, seq<Byte>>
    const others: map<string, map<string, seq<Byte>>>
    const honours: bool
    ghost var faults: nat
    ghost var log: seq<Request>

    constructor (repo: map<string, seq<Byte>>, others: map<string, map<string, seq<Byte>>>, honours: bool)
      ensures this.repo == repo && this.others == others && this.honours == honours && faults == 0 && log == []
    {
      this.repo := repo;
      this.others := others;
      this.honours := honours;
      faults := 0;
      log := [];
    }

    /** The file on a branch. */
    function Content(branch: string, filePath: string): Option<seq<Byte>> {
      var files := if branch == MAIN then repo else if branch in others then others[branch] else map[];
      if filePath in files then Some(files[filePath]) else None
    }

    /** One request for the file on the main branch; None when no answer arrives. */
    method Get(filePath: string, range: Range) returns (a: Option<Answer>)
      requires filePath in repo
      modifies this
      ensures a.Some? ==> Answers(repo[filePath], honours, range, a.value)
      ensures log == old(log) + [Asked(filePath, range, Bad(a))]
      ensures faults == old(faults) + if Bad(a) then 1 else 0
    {
      a :| a == None || Answers(repo[filePath], honours, range, a.value);
      log := log + [Asked(filePath, range, Bad(a))];
      faults := faults + if Bad(a) then 1 else 0;
    }

    /** The size, and whether ranges are announced; None when the request fails. */
    method Head(filePath: string) returns (r: Option<(nat, bool)>)
      requires filePath in repo
      modifies this
      ensures r.Some? ==> r.value.0 == |repo[filePath]| || !r.value.1
      ensures log == old(log) + [HeadOf(filePath, r)]
      ensures faults == old(faults) + if r == None then 1 else 0
    {
      r :| r == None || r.value.0 == |repo[filePath]| || !r.value.1;
      log := log + [HeadOf(filePath, r)];
      faults := faults + if r == None then 1 else 0;
    }

    /** The file on a branch, as Xet reconstructs it. */
    method Reconstruct(branch: string, filePath: string) returns (r: Option<seq<Byte>>)
      modifies this
      ensures log == old(log) + [Rebuild(branch, filePath, r.Some?)]
      ensures r.Some? ==> r == Content(branch, filePath)
      ensures faults == old(faults) + if r == None then 1 else 0
    {
      r :| r == None || r == Content(branch, filePath);
      log := log + [Rebuild(branch, filePath, r.Some?)];
      faults := faults + if r == None then 1 else 0;
    }
  }

  ghost function Faults(disk: Disk, server: Server): nat
    reads disk, server
  {
    disk.faults + server.faults
  }

  /** What the code appends for an answer it accepts: nothing for a 416. */
  function Appended(a: Answer): seq<Byte> {
    if a.status == Unsatisfiable416 then [] else a.body
  }

  /**
   Appending the answer to a request for the rest completes a file exactly when that was a prefix of the
   remote one and the server did not ignore the range: the code accepts a 200 as well and then appends
   the whole file.
   */
  lemma ResumeCompletesIff(remote: seq<Byte>, local: seq<Byte>, honours: bool, a: Answer)
    requires local != []
    requires Answers(remote, honours, From(|local|), a) && a.complete && a.status != Other
    ensures local + Appended(a) == remote <==> a.status != OK200 && local <= remote
  {
    if a.status == OK200 {
      assert |local + Appended(a)| > |remote|;
    } else if a.status == Partial206 {
      assert local <= remote ==> local + remote[|local|..] == remote;
    } else {
      assert local + Appended(a) == local;
    }
  }

  /**
   The answer to a chunk request is the chunk exactly when the server did not ignore the range, or the
   range is the whole file: the code accepts a 200 here too and takes the whole file for the chunk.
   */
  lemma ChunkAnswerIff(remote: seq<Byte>, r: ChunkRange, honours: bool, a: Answer)
    requires 0 <= r.start <= r.end < |remote|
    requires Answers(remote, honours, Closed(r.start, r.end), a) && a.complete && a.status != Other
    ensures a.body == Slice(remote, r) <==> a.status == Partial206 || (r.start == 0 && r.end == |remote| - 1)
  {
    SelectedIsSlice(remote, r);
    hide Selected;
    if a.status == OK200 && r.start == 0 && r.end == |remote| - 1 {
      assert remote[0..|remote|] == remote;
    }
  }

  // What every state of the disk satisfies.

  /** One file's download; `since` is the moment it starts, as an index into the trace of the disk. */
  datatype Job = Job(
    remote: seq<Byte>,             // the file on the main branch
    wanted: Option<seq<Byte>>,     // the file on the branch that was asked for
    honours: bool,                 // whether the server honours ranges
    local: string,
    chunkSize: int,
    since: nat
  )

  /** Nothing can be mixed up: ranges are honoured, and all ways lead to the same bytes. */
  predicate Sound(job: Job) {
    job.honours && (job.wanted == None || job.wanted == Some(job.remote))
  }

  predicate JobValid(job: Job) {
    |job.remote| < TWO_63 && 0 < job.chunkSize < TWO_63
  }

  function PlanOf(job: Job): seq<ChunkRange>
    requires JobValid(job)
  {
    Plan(|job.remote|, job.chunkSize)
  }

  datatype Target = Local | Part(i: nat) | Temp

  function PathOf(job: Job, t: Target): string {
    match t
    case Local => job.local
    case Part(i) => PartPath(job.local, i)
    case Temp => TempPath(job.local)
  }

  predicate Within(job: Job, t: Target, content: seq<Byte>)
    requires JobValid(job)
  {
    match t
    case Local => Sound(job) ==> content <= job.remote
    case Part(i) => i < |PlanOf(job)| ==>
      content <= Slice(job.remote, PlanOf(job)[i]) || (!job.honours && content <= job.remote)
    case Temp => true
  }

  /**
   The file is absent or a prefix of the remote one, and so is every part of its range. Where that cannot
   be, parts are at least prefixes of the file.
   */
  ghost predicate Safe(files: Files, job: Job)
    requires JobValid(job)
  {
    forall t: Target | PathOf(job, t) in files :: Within(job, t, files[PathOf(job, t)])
  }

  ghost predicate Always(disk: Disk, job: Job)
    requires JobValid(job)
    reads disk
  {
    disk.Valid() && job.since < |disk.trace| && forall i | job.since <= i < |disk.trace| :: Safe(disk.trace[i], job)
  }

  /** The server has the job's file. */
  predicate Serves(server: Server, filePath: string, job: Job) {
    filePath in server.repo && server.repo[filePath] == job.remote && server.honours == job.honours
  }

  ghost predicate Owned(job: Job, path: string) {
    exists t: Target :: PathOf(job, t) == path
  }

  /** Files of other downloads stay as they are. */
  ghost predicate OnlyJob(before: Files, after: Files, job: Job) {
    forall p: string | !Owned(job, p) :: (p in before <==> p in after) && (p in before ==> before[p] == after[p])
  }

  lemma OnlyOne(before: Files, after: Files, job: Job, t: Target)
    requires before - {PathOf(job, t)} == after - {PathOf(job, t)}
    ensures OnlyJob(before, after, job)
  {
    forall p: string | !Owned(job, p)
      ensures (p in before <==> p in after) && (p in before ==> before[p] == after[p])
    {
      OthersStay(before, after, PathOf(job, t), p);
    }
  }

  /** Together with OnlyOne: a further operation on one path of the job. */
  lemma StillOnlyJob(first: Files, before: Files, after: Files, job: Job, t: Target)
    requires OnlyJob(first, before, job) && before - {PathOf(job, t)} == after - {PathOf(job, t)}
    ensures OnlyJob(first, after, job)
  {
    OnlyOne(before, after, job, t);
  }

  lemma OnlyJobTwice(first: Files, second: Files, third: Files, job: Job)
    requires OnlyJob(first, second, job) && OnlyJob(second, third, job)
    ensures OnlyJob(first, third, job)
  {
  }

  lemma OnlyJobNothing(files: Files, job: Job)
    ensures OnlyJob(files, files, job)
  {
  }

  lemma PathsDiffer(job: Job, t: Target, u: Target)
    ensures PathOf(job, t) == PathOf(job, u) ==> t == u
  {
    PathsAreDistinct(job.local, if t.Part? then t.i else 0, if u.Part? then u.i else 0);
  }

  lemma WriteKeepsSafe(files: Files, job: Job, t: Target, content: seq<Byte>)
    requires JobValid(job) && Safe(files, job) && Within(job, t, content)
    ensures Safe(files[PathOf(job, t) := content], job)
  {
    var after := files[PathOf(job, t) := content];
    forall u: Target | PathOf(job, u) in after
      ensures Within(job, u, after[PathOf(job, u)])
    {
      PathsDiffer(job, t, u);
    }
  }

  lemma RemoveKeepsSafe(files: Files, job: Job, path: string)
    requires JobValid(job) && Safe(files, job)
    ensures Safe(files - {path}, job)
  {
  }

  lemma PartialIsWithin(job: Job, t: Target, content: seq<Byte>, more: seq<Byte>, n: nat)
    requires JobValid(job) && Within(job, t, content + more) && n <= |more|
    ensures Within(job, t, content + more[..n])
  {
  }

  lemma PieceAppended(before: seq<Byte>, body: seq<Byte>, i: nat, n: nat, k: nat)
    requires k <= n && i + n <= |body|
    ensures before + body[..i] + body[i..i + n][..k] == before + body[..i + k]
    ensures k == n ==> before + body[..i + k] == before + body[..i + n]
  {
    assert body[..i] + body[i..i + n][..k] == body[..i + k];
  }

  lemma StartOf(before: seq<Byte>, body: seq<Byte>, k: nat)
    requires k <= |body|
    ensures before <= before + body[..k] <= before + body
  {
    assert body == body[..k] + body[k..];
  }

  /** Copying a body into a file, piece by piece; any piece may be the last one written. */
  method CopyBody(disk: Disk, path: string, a: Answer, ghost job: Job, ghost t: Target) returns (ok: bool)
    requires JobValid(job) && Always(disk, job)
    requires path == PathOf(job, t) && path in disk.files && Within(job, t, disk.files[path] + a.body)
    modifies disk
    ensures Always(disk, job)
    ensures path in disk.files && disk.files - {path} == old(disk.files) - {path}
    ensures disk.faults >= old(disk.faults) && (!ok && a.complete ==> disk.faults > old(disk.faults))
    ensures old(disk.files[path]) <= disk.files[path] <= old(disk.files[path]) + a.body
    ensures ok ==> a.complete && disk.files[path] == old(disk.files[path]) + a.body
  {
    hide Within;
    hide Safe;
    ghost var before := disk.files[path];
    assert before + a.body[..0] == before;
    var i := 0;
    while i < |a.body|
      invariant 0 <= i <= |a.body| && disk.faults >= old(disk.faults)
      invariant Always(disk, job)
      invariant path in disk.files && disk.files - {path} == old(disk.files) - {path}
      invariant disk.files[path] == before + a.body[..i]
    {
      var n: nat :| 0 < n <= |a.body| - i;
      ghost var files := disk.files;
      var written;
      ghost var k;
      written, k := disk.Append(path, a.body[i..i + n]);
      PieceAppended(before, a.body, i, n, k);
      PartialIsWithin(job, t, before, a.body, i + k);
      WriteKeepsSafe(files, job, t, disk.files[path]);
      assert disk.files - {path} == files - {path};
      StartOf(before, a.body, i + k);
      if !written {
        return false;
      }
      i := i + n;
    }
    assert a.body[..i] == a.body;
    ok := a.complete;
  }

  /** os.Create, then the copy. */
  method WriteBody(disk: Disk, path: string, a: Answer, ghost job: Job, ghost t: Target) returns (ok: bool)
    requires JobValid(job) && Always(disk, job)
    requires path == PathOf(job, t) && Within(job, t, a.body)
    modifies disk
    ensures Always(disk, job)
    ensures disk.files - {path} == old(disk.files) - {path}
    ensures disk.faults >= old(disk.faults) && (!ok && a.complete ==> disk.faults > old(disk.faults))
    ensures disk.files == old(disk.files) || (path in disk.files && disk.files[path] <= a.body)
    ensures ok ==> a.complete && path in disk.files && disk.files[path] == a.body
  {
    hide Safe;
    ghost var files := disk.files;
    var created := disk.Create(path);
    if !created {
      return false;
    }
    assert [] + a.body == a.body;
    WriteKeepsSafe(files, job, t, []);
    assert disk.files - {path} == files - {path};
    ok := CopyBody(disk, path, a, job, t);
  }

  // Chunks.

  /** A chunk lies in the file, and its bytes are what the server selects for it. */
  lemma ChunkIsSelected(job: Job, i: nat)
    requires JobValid(job) && i < |PlanOf(job)| && job.remote != []
    ensures var r := PlanOf(job)[i];
      && 0 <= r.start <= r.end < |job.remote| && |Slice(job.remote, r)| == r.end - r.start + 1
      && Selected(job.remote, Closed(r.start, r.end)) == Some(Slice(job.remote, r))
  {
    PlanTilesIff(|job.remote|, job.chunkSize);
    hide Plan;
    hide Slice;
    hide Selected;
    var plan := PlanOf(job);
    if Fits(|job.remote|, job.chunkSize) {
      TileBounds(plan, |job.remote|, i);
    }
    SelectedIsSlice(job.remote, plan[i]);
  }

  lemma SelectedIsSlice(remote: seq<Byte>, r: ChunkRange)
    requires 0 <= r.start <= r.end < |remote|
    ensures |Slice(remote, r)| == r.end - r.start + 1
    ensures Selected(remote, Closed(r.start, r.end)) == Some(Slice(remote, r))
  {
  }

  /**
   What a part may hold when its download has succeeded: its range; or, if the server ignores ranges, the
   whole file, or as much of its beginning as the range is long.
   */
  predicate Accepted(job: Job, i: nat, content: seq<Byte>)
    requires JobValid(job) && i < |PlanOf(job)|
  {
    var slice := Slice(job.remote, PlanOf(job)[i]);
    || content == slice
    || (!job.honours && (content == job.remote || (|content| == |slice| && content <= job.remote)))
  }

  /** One request, for a given range. */
  predicate AsksFor(asked: seq<Request>, filePath: string, range: Range) {
    |asked| == 1 && asked[0].Asked? && asked[0].filePath == filePath && asked[0].range == range
  }

  /** It was answered in full. */
  predicate Answered(asked: seq<Request>) {
    |asked| == 1 && asked[0].Asked? && !asked[0].bad
  }

  /** A request for one of the planned chunks. */
  ghost predicate ForChunk(q: Request, filePath: string, job: Job)
    requires JobValid(job)
  {
    q.Asked? && q.filePath == filePath && exists c: ChunkRange :: c in PlanOf(job) && q.range == Closed(c.start, c.end)
  }

  /** What was sent in between asks for chunks only. */
  ghost predicate OnlyChunks(before: seq<Request>, after: seq<Request>, filePath: string, job: Job)
    requires JobValid(job)
  {
    before <= after && forall i | |before| <= i < |after| :: ForChunk(after[i], filePath, job)
  }

  lemma OnlyChunksNothing(log: seq<Request>, filePath: string, job: Job)
    requires JobValid(job)
    ensures OnlyChunks(log, log, filePath, job)
  {
  }

  lemma OnlyChunksTwice(a: seq<Request>, b: seq<Request>, c: seq<Request>, filePath: string, job: Job)
    requires JobValid(job) && OnlyChunks(a, b, filePath, job) && OnlyChunks(b, c, filePath, job)
    ensures OnlyChunks(a, c, filePath, job)
  {
    hide ForChunk;
  }

  /** One attempt at one chunk; a part of the right size is taken to be complete. */
  method DownloadChunk(disk: Disk, server: Server, filePath: string, localPath: string, chunk: ChunkRange,
      ghost job: Job)
    returns (ok: bool)
    requires JobValid(job) && Always(disk, job) && job.local == localPath && job.remote != []
    requires Serves(server, filePath, job) && chunk.index < |PlanOf(job)| && PlanOf(job)[chunk.index] == chunk
    modifies disk, server
    ensures Always(disk, job)
    ensures Faults(disk, server) >= old(Faults(disk, server)) + if ok then 0 else 1
    ensures var pp := PartPath(localPath, chunk.index);
      && disk.files - {pp} == old(disk.files) - {pp}
      && (ok ==> pp in disk.files && Accepted(job, chunk.index, disk.files[pp]))
    ensures OnlyChunks(old(server.log), server.log, filePath, job)
    ensures ok && PartPath(localPath, chunk.index) in disk.dirty ==> disk.files == old(disk.files)
  {
    hide Plan;
    hide Slice;
    ghost var t := Part(chunk.index);
    var pp := PartPath(localPath, chunk.index);
    ChunkIsSelected(job, chunk.index);
    var found := pp in disk.files;
    if found {
      found := disk.Touch(pp); // stat
    }
    if found && |disk.files[pp]| == chunk.end - chunk.start + 1 {
      assert pp == PathOf(job, t) && Within(job, t, disk.files[pp]);
      return true;
    }
    var a := server.Get(filePath, Closed(chunk.start, chunk.end));
    if a == None || (a.value.status != Partial206 && a.value.status != OK200) {
      return false;
    }
    ok := WriteBody(disk, pp, a.value, job, t);
    if ok {
      ok := disk.Sync(pp);
    }
  }

  /** Up to `MAX_RETRIES` further attempts, unless the download is cancelled. */
  method DownloadChunkWithRetry(disk: Disk, server: Server, filePath: string, localPath: string,
      chunk: ChunkRange, ghost job: Job)
    returns (ok: bool, cancelled: bool)
    requires JobValid(job) && Always(disk, job) && job.local == localPath && job.remote != []
    requires Serves(server, filePath, job) && chunk.index < |PlanOf(job)| && PlanOf(job)[chunk.index] == chunk
    modifies disk, server
    ensures Always(disk, job)
    ensures Faults(disk, server) >= old(Faults(disk, server)) + if ok || cancelled then 0 else MAX_RETRIES + 1
    ensures var pp := PartPath(localPath, chunk.index);
      && disk.files - {pp} == old(disk.files) - {pp}
      && (ok ==> pp in disk.files && Accepted(job, chunk.index, disk.files[pp]))
    ensures OnlyChunks(old(server.log), server.log, filePath, job)
  {
    hide OnlyChunks;
    OnlyChunksNothing(server.log, filePath, job);
    cancelled := false;
    var attempt := 0;
    while attempt <= MAX_RETRIES
      invariant Always(disk, job) && 0 <= attempt <= MAX_RETRIES + 1
      invariant Faults(disk, server) >= old(Faults(disk, server)) + attempt
      invariant var pp := PartPath(localPath, chunk.index); disk.files - {pp} == old(disk.files) - {pp}
      invariant OnlyChunks(old(server.log), server.log, filePath, job)
    {
      if attempt > 0 {
        cancelled := *;
        if cancelled {
          return false, cancelled;
        }
      }
      ghost var log := server.log;
      ok := DownloadChunk(disk, server, filePath, localPath, chunk, job);
      OnlyChunksTwice(old(server.log), log, server.log, filePath, job);
      if ok {
        return;
      }
      cancelled := *;
      if cancelled {
        return;
      }
      attempt := attempt + 1;
    }
    ok := false;
  }

  ghost predicate PartDone(files: Files, job: Job, i: nat)
    requires JobValid(job) && i < |PlanOf(job)|
  {
    PartPath(job.local, i) in files && Accepted(job, i, files[PartPath(job.local, i)])
  }

  /** A file operation on one path leaves the other paths of the job as they were. */
  lemma OthersStay(before: Files, after: Files, path: string, other: string)
    requires before - {path} == after - {path} && other != path
    ensures (other in before <==> other in after) && (other in before ==> before[other] == after[other])
  {
    assert other in before <==> other in before - {path};
    assert other in after <==> other in after - {path};
    assert other in before ==> (before - {path})[other] == before[other];
    assert other in after ==> (after - {path})[other] == after[other];
  }

  /**
   The parallel part, chunk by chunk in any order; after a failure some further chunks may still be
   worked on, as the workers are not stopped.
   */
  method DownloadChunks(disk: Disk, server: Server, filePath: string, localPath: string,
      chunks: array<ChunkRange>, ghost job: Job)
    returns (ok: bool, cancelled: bool)
    requires JobValid(job) && Always(disk, job) && job.local == localPath && job.remote != []
    requires Serves(server, filePath, job) && chunks[..] == PlanOf(job)
    modifies disk, server
    ensures Always(disk, job) && OnlyJob(old(disk.files), disk.files, job)
    ensures Faults(disk, server) >= old(Faults(disk, server)) + if ok || cancelled then 0 else MAX_RETRIES + 1
    ensures localPath in disk.files <==> localPath in old(disk.files)
    ensures localPath in disk.files ==> disk.files[localPath] == old(disk.files[localPath])
    ensures ok ==> forall i: nat | i < |PlanOf(job)| :: PartDone(disk.files, job, i)
    ensures OnlyChunks(old(server.log), server.log, filePath, job)
  {
    hide Plan;
    hide Safe;
    hide Owned;
    hide OnlyChunks;
    OnlyChunksNothing(server.log, filePath, job);
    PlanIndices(job);
    var todo := set i: nat {:trigger chunks[i]} | i < chunks.Length;
    ok, cancelled := true, false;
    while todo != {}
      invariant forall i | i in todo :: 0 <= i < chunks.Length
      invariant Always(disk, job) && OnlyJob(old(disk.files), disk.files, job)
      invariant localPath in disk.files <==> localPath in old(disk.files)
      invariant localPath in disk.files ==> disk.files[localPath] == old(disk.files[localPath])
      invariant Faults(disk, server) >= old(Faults(disk, server)) + if ok || cancelled then 0 else MAX_RETRIES + 1
      invariant ok ==> forall i: nat | i < chunks.Length && i !in todo :: PartDone(disk.files, job, i)
      invariant OnlyChunks(old(server.log), server.log, filePath, job)
      decreases |todo|
    {
      var stopped: bool := *;
      if !ok && stopped {
        return;
      }
      var c: nat :| c in todo;
      ghost var files, log := disk.files, server.log;
      var done, stop := DownloadChunkWithRetry(disk, server, filePath, localPath, chunks[c], job);
      OnlyChunksTwice(old(server.log), log, server.log, filePath, job);
      StillOnlyJob(old(disk.files), files, disk.files, job, Part(c));
      PathsDiffer(job, Local, Part(c));
      OthersStay(files, disk.files, PartPath(localPath, c), localPath);
      forall i: nat | i < chunks.Length && i != c
        ensures PartDone(files, job, i) ==> PartDone(disk.files, job, i)
      {
        PathsDiffer(job, Part(i), Part(c));
        OthersStay(files, disk.files, PartPath(localPath, c), PartPath(localPath, i));
      }
      ok, cancelled := ok && done, cancelled || stop;
      todo := todo - {c};
    }
  }

  lemma PlanIndices(job: Job)
    requires JobValid(job)
    ensures forall i: nat | i < |PlanOf(job)| :: PlanOf(job)[i].index == i
  {
    PlanTilesIff(|job.remote|, job.chunkSize);
  }

  function Concat(parts: seq<seq<Byte>>): seq<Byte> {
    if parts == [] then [] else Concat(parts[..|parts| - 1]) + parts[|parts| - 1]
  }

  /** What the part files hold. */
  ghost function PartsOf(files: Files, job: Job): (parts: seq<seq<Byte>>)
    requires JobValid(job)
    ensures |parts| == |PlanOf(job)|
  {
    seq(|PlanOf(job)|, i requires 0 <= i =>
      if PartPath(job.local, i) in files then files[PartPath(job.local, i)] else [])
  }

  lemma NothingJoined(parts: seq<seq<Byte>>)
    ensures Concat(parts[..0]) == []
  {
  }

  lemma ConcatStep(parts: seq<seq<Byte>>, n: nat)
    requires n < |parts|
    ensures Concat(parts[..n + 1]) == Concat(parts[..n]) + parts[n]
  {
    assert parts[..n + 1][..n] == parts[..n];
  }

  /** Concatenates the parts into the temporary file. */
  method JoinParts(disk: Disk, localPath: string, chunks: array<ChunkRange>, ghost job: Job) returns (ok: bool)
    requires JobValid(job) && Always(disk, job) && job.local == localPath && chunks[..] == PlanOf(job)
    requires forall i: nat | i < |PlanOf(job)| :: PartPath(localPath, i) in disk.files
    modifies disk
    ensures Always(disk, job) && disk.faults >= old(disk.faults) + if ok then 0 else 1
    ensures disk.files - {TempPath(localPath)} == old(disk.files) - {TempPath(localPath)}
    ensures ok ==>
      && TempPath(localPath) in disk.files && disk.files[TempPath(localPath)] == Concat(PartsOf(old(disk.files), job))
      && TempPath(localPath) !in disk.dirty
  {
    PlanIndices(job);
    ghost var before, parts := disk.files, PartsOf(disk.files, job);
    assert forall i: nat | i < chunks.Length :: parts[i] == before[PartPath(localPath, i)];
    hide Plan;
    hide PartsOf;
    hide Safe;
    hide Concat;
    var tmpPath := TempPath(localPath);
    ok := disk.Create(tmpPath);
    if !ok {
      return;
    }
    WriteKeepsSafe(before, job, Temp, []);
    NothingJoined(parts);
    var i := 0;
    while i < chunks.Length
      invariant 0 <= i <= chunks.Length && Always(disk, job) && disk.faults >= old(disk.faults)
      invariant disk.files - {tmpPath} == before - {tmpPath}
      invariant tmpPath in disk.files && disk.files[tmpPath] == Concat(parts[..i])
    {
      var pp := PartPath(localPath, chunks[i].index);
      PathsDiffer(job, Part(i), Temp);
      OthersStay(before, disk.files, tmpPath, pp);
      ok := disk.Touch(pp); // open
      if !ok {
        return;
      }
      ok := CopyBody(disk, tmpPath, Answer(OK200, disk.files[pp], true), job, Temp);
      if !ok {
        return;
      }
      ConcatStep(parts, i);
      i := i + 1;
    }
    assert parts[..i] == parts;
    ok := disk.Sync(tmpPath);
    if ok {
      ok := disk.Touch(tmpPath); // close
    }
  }

  /** Joins the parts, then renames the result: the file appears complete or not at all. */
  method AssembleChunks(disk: Disk, localPath: string, chunks: array<ChunkRange>, ghost job: Job)
    returns (ok: bool)
    requires JobValid(job) && Always(disk, job) && job.local == localPath && chunks[..] == PlanOf(job)
    requires forall i: nat | i < |PlanOf(job)| :: PartPath(localPath, i) in disk.files
    requires Within(job, Local, Concat(PartsOf(disk.files, job)))
    modifies disk
    ensures Always(disk, job) && OnlyJob(old(disk.files), disk.files, job)
    ensures disk.faults >= old(disk.faults) + if ok then 0 else 1
    ensures ok ==>
      && localPath in disk.files && disk.files[localPath] == Concat(PartsOf(old(disk.files), job))
      && localPath !in disk.dirty
    ensures !ok ==> (localPath in disk.files <==> localPath in old(disk.files))
    ensures !ok && localPath in disk.files ==> disk.files[localPath] == old(disk.files[localPath])
  {
    hide Plan;
    hide Safe;
    hide PartsOf;
    hide Concat;
    hide Within;
    PathsDiffer(job, Local, Temp);
    var tmpPath := TempPath(localPath);
    ok := JoinParts(disk, localPath, chunks, job);
    ghost var files := disk.files;
    OnlyOne(old(disk.files), files, job, Temp);
    OthersStay(old(disk.files), files, tmpPath, localPath);
    if !ok {
      return;
    }
    ok := disk.Rename(tmpPath, localPath);
    if ok {
      StillOnlyJob(old(disk.files), files, files - {tmpPath}, job, Temp);
      assert files - {tmpPath} - {localPath} == disk.files - {localPath};
      StillOnlyJob(old(disk.files), files - {tmpPath}, disk.files, job, Local);
      RemoveKeepsSafe(files, job, tmpPath);
      WriteKeepsSafe(files - {tmpPath}, job, Local, files[tmpPath]);
    }
  }

  // What the assembled file is.

  predicate AllAccepted(job: Job, parts: seq<seq<Byte>>)
    requires JobValid(job)
  {
    |parts| == |PlanOf(job)| && forall i: nat | i < |parts| :: Accepted(job, i, parts[i])
  }

  /** Every part is its range; or the one part of an overflowing plan is the whole file after all. */
  predicate Assembles(job: Job, parts: seq<seq<Byte>>)
    requires JobValid(job) && |parts| == |PlanOf(job)|
  {
    if Fits(|job.remote|, job.chunkSize)
    then AllSlices(job, parts)
    else parts == [job.remote]
  }

  /** Slices joined in order. */
  lemma {:induction false} ConcatOfSlices(job: Job, parts: seq<seq<Byte>>, n: nat)
    requires JobValid(job) && |parts| == |PlanOf(job)| && n <= |parts|
    requires forall i | 0 <= i < n :: parts[i] == Slice(job.remote, PlanOf(job)[i])
    ensures Concat(parts[..n]) == Joined(job.remote, PlanOf(job)[..n])
    decreases n
  {
    hide Plan;
    hide Slice;
    if n > 0 {
      ConcatOfSlices(job, parts, n - 1);
      ConcatStep(parts, n - 1);
      JoinedStep(job.remote, PlanOf(job), n - 1);
    } else {
      assert parts[..0] == [] && PlanOf(job)[..0] == [];
    }
  }

  /** No accepted part is shorter than its range. */
  lemma {:induction false} ConcatIsLong(job: Job, parts: seq<seq<Byte>>, n: nat)
    requires JobValid(job) && AllAccepted(job, parts) && 0 < n <= |parts|
    requires Tiles(PlanOf(job), |job.remote|) && job.remote != []
    ensures |Concat(parts[..n])| >= PlanOf(job)[n - 1].end + 1
    decreases n
  {
    hide Plan;
    var plan := PlanOf(job);
    TileBounds(plan, |job.remote|, n - 1);
    ChunkIsSelected(job, n - 1);
    hide Slice;
    hide Tiles;
    assert Accepted(job, n - 1, parts[n - 1]);
    ConcatStep(parts, n - 1);
    if n > 1 {
      ConcatIsLong(job, parts, n - 1);
    }
  }

  /** If the joined parts are the file, each of them is its range: none can make up for a longer one. */
  lemma {:induction false} OnlySlices(job: Job, parts: seq<seq<Byte>>, n: nat)
    requires JobValid(job) && AllAccepted(job, parts) && 0 < n <= |parts|
    requires Tiles(PlanOf(job), |job.remote|) && job.remote != []
    requires -1 <= PlanOf(job)[n - 1].end < |job.remote|
    requires Concat(parts[..n]) == job.remote[..PlanOf(job)[n - 1].end + 1]
    ensures forall i | 0 <= i < n :: parts[i] == Slice(job.remote, PlanOf(job)[i])
    decreases n
  {
    LastIsSlice(job, parts, n);
    if n > 1 {
      EndsAreInside(job, n - 2);
      hide *;
      OnlySlices(job, parts, n - 1);
    }
  }

  lemma EndsAreInside(job: Job, i: nat)
    requires JobValid(job) && i < |PlanOf(job)| && Tiles(PlanOf(job), |job.remote|)
    ensures -1 <= PlanOf(job)[i].end < |job.remote|
    ensures i + 1 < |PlanOf(job)| ==> PlanOf(job)[i].end + 1 == PlanOf(job)[i + 1].start
  {
    hide Plan;
    TileBounds(PlanOf(job), |job.remote|, i);
  }

  /** The length of what is joined before a part, if the joined parts up to it end where its range does. */
  lemma JoinedBefore(job: Job, parts: seq<seq<Byte>>, n: nat)
    requires JobValid(job) && AllAccepted(job, parts) && 0 < n <= |parts|
    requires Tiles(PlanOf(job), |job.remote|) && job.remote != []
    requires |Concat(parts[..n])| == PlanOf(job)[n - 1].end + 1
    ensures |Concat(parts[..n - 1])| == PlanOf(job)[n - 1].start
    ensures Concat(parts[..n]) == Concat(parts[..n - 1]) + parts[n - 1]
  {
    hide Plan;
    TileBounds(PlanOf(job), |job.remote|, n - 1);
    ChunkIsSelected(job, n - 1);
    assert Accepted(job, n - 1, parts[n - 1]);
    ConcatStep(parts, n - 1);
    if n > 1 {
      ConcatIsLong(job, parts, n - 1);
      EndsAreInside(job, n - 2);
    } else {
      NothingJoined(parts);
    }
  }

  /** The last of the parts that are joined so far is its range, and the ones before it are the file up to there. */
  lemma LastIsSlice(job: Job, parts: seq<seq<Byte>>, n: nat)
    requires JobValid(job) && AllAccepted(job, parts) && 0 < n <= |parts|
    requires Tiles(PlanOf(job), |job.remote|) && job.remote != []
    requires -1 <= PlanOf(job)[n - 1].end < |job.remote|
    requires Concat(parts[..n]) == job.remote[..PlanOf(job)[n - 1].end + 1]
    ensures parts[n - 1] == Slice(job.remote, PlanOf(job)[n - 1])
    ensures n > 1 ==> Concat(parts[..n - 1]) == job.remote[..PlanOf(job)[n - 2].end + 1]
  {
    JoinedBefore(job, parts, n);
    ChunkIsSelected(job, n - 1);
    if n > 1 {
      EndsAreInside(job, n - 2);
    }
    var r := PlanOf(job)[n - 1];
    hide *;
    SplitAt(Concat(parts[..n - 1]), parts[n - 1], job.remote, r);
  }

  lemma SplitAt(rest: seq<Byte>, last: seq<Byte>, remote: seq<Byte>, r: ChunkRange)
    requires 0 <= r.start <= r.end < |remote| && rest + last == remote[..r.end + 1] && |rest| == r.start
    ensures rest == remote[..r.start] && last == Slice(remote, r)
  {
    var whole := rest + last;
    assert whole[..r.start] == rest && whole[r.start..] == last;
  }

  predicate AllSlices(job: Job, parts: seq<seq<Byte>>)
    requires JobValid(job) && |parts| == |PlanOf(job)|
  {
    forall i | 0 <= i < |parts| :: parts[i] == Slice(job.remote, PlanOf(job)[i])
  }

  lemma JoinedSlices(job: Job, parts: seq<seq<Byte>>)
    requires JobValid(job) && |parts| == |PlanOf(job)| && AllSlices(job, parts)
    ensures Concat(parts) == Joined(job.remote, PlanOf(job))
  {
    hide Plan;
    ConcatOfSlices(job, parts, |parts|);
    assert parts[..|parts|] == parts && PlanOf(job)[..|parts|] == PlanOf(job);
  }

  lemma AssemblyOfTiles(job: Job, parts: seq<seq<Byte>>)
    requires JobValid(job) && AllAccepted(job, parts) && job.remote != [] && Fits(|job.remote|, job.chunkSize)
    ensures Concat(parts) == job.remote <==> AllSlices(job, parts)
  {
    PlanTilesIff(|job.remote|, job.chunkSize);
    PlanAssemblesIff(job.remote, job.chunkSize);
    if AllSlices(job, parts) {
      JoinedSlices(job, parts);
    }
    hide Plan;
    hide Fits;
    if Concat(parts) == job.remote {
      var n := |parts|;
      assert parts[..n] == parts && job.remote[..PlanOf(job)[n - 1].end + 1] == job.remote;
      hide Accepted;
      OnlySlices(job, parts, n);
    }
  }

  /** What joined parts make: the file, exactly when they assemble; and that is what honoured ranges give. */
  lemma AssemblyIff(job: Job, parts: seq<seq<Byte>>)
    requires JobValid(job) && AllAccepted(job, parts) && job.remote != []
    ensures Concat(parts) == job.remote <==> Assembles(job, parts)
    ensures job.honours ==> Concat(parts) == Joined(job.remote, PlanOf(job)) <= job.remote
    ensures job.honours ==> (Assembles(job, parts) <==> Fits(|job.remote|, job.chunkSize))
  {
    PlanAssemblesIff(job.remote, job.chunkSize);
    HonouredSlices(job, parts);
    if job.honours {
      JoinedSlices(job, parts);
    }
    if Fits(|job.remote|, job.chunkSize) {
      AssemblyOfTiles(job, parts);
    } else {
      PlanTilesIff(|job.remote|, job.chunkSize);
      ConcatOfOne(parts);
    }
    hide Plan;
    hide Fits;
    hide Concat;
    hide Joined;
    hide Slice;
    hide AllAccepted;
  }

  lemma HonouredSlices(job: Job, parts: seq<seq<Byte>>)
    requires JobValid(job) && AllAccepted(job, parts)
    ensures job.honours ==> AllSlices(job, parts)
  {
    hide Plan;
    hide Slice;
    if job.honours {
      forall i: nat | i < |parts| ensures parts[i] == Slice(job.remote, PlanOf(job)[i]) {
        assert Accepted(job, i, parts[i]);
      }
    }
  }

  /** A server that ignores every range: a success that has left as many copies as there are chunks. */
  lemma {:induction false} IgnoredRangesRepeat(job: Job, k: nat)
    requires JobValid(job) && !job.honours && job.remote != [] && k == |PlanOf(job)| > 1
    ensures var parts := seq(k, _ => job.remote);
      AllAccepted(job, parts) && !Assembles(job, parts) && |Concat(parts)| == k * |job.remote|
  {
    hide Plan;
    var parts := seq(k, _ => job.remote);
    CopiesAreLong(job.remote, parts, k);
    assert k * |job.remote| > |job.remote|;
    AssemblyIff(job, parts);
  }

  lemma {:induction false} CopiesAreLong(remote: seq<Byte>, parts: seq<seq<Byte>>, n: nat)
    requires n <= |parts| && forall i | 0 <= i < |parts| :: parts[i] == remote
    ensures |Concat(parts[..n])| == n * |remote|
    ensures n == |parts| ==> |Concat(parts)| == n * |remote|
    decreases n
  {
    if n > 0 {
      CopiesAreLong(remote, parts, n - 1);
      ConcatStep(parts, n - 1);
      assert n * |remote| == (n - 1) * |remote| + |remote|;
    }
    if n == |parts| {
      assert parts[..n] == parts;
    }
  }

  lemma ConcatOfOne(parts: seq<seq<Byte>>)
    requires |parts| == 1
    ensures Concat(parts) == parts[0] && parts == [parts[0]]
  {
    assert parts[..0] == [];
  }

  /** How many of the first `n` parts are still there. */
  function PartsLeft(files: Files, job: Job, n: nat): nat {
    if n == 0 then 0 else PartsLeft(files, job, n - 1) + if PartPath(job.local, n - 1) in files then 1 else 0
  }

  /** How many of the parts and the temporary file are still there. */
  function LeftOver(files: Files, job: Job): nat
    requires JobValid(job)
  {
    PartsLeft(files, job, |PlanOf(job)|) + if TempPath(job.local) in files then 1 else 0
  }

  lemma {:induction false} FewerLeft(before: Files, after: Files, job: Job, n: nat)
    requires after.Keys <= before.Keys
    ensures PartsLeft(after, job, n) <= PartsLeft(before, job, n)
  {
    if n > 0 {
      FewerLeft(before, after, job, n - 1);
    }
  }

  lemma OneLess(before: Files, after: Files, job: Job, n: nat, removed: bool)
    requires after == before - if removed then {PartPath(job.local, n)} else {}
    ensures PartsLeft(after, job, n + 1) <= PartsLeft(before, job, n) + if removed then 0 else 1
  {
    FewerLeft(before, after, job, n);
  }

  /** Removes what removal succeeds on: every file that stays has cost a failed removal. */
  method CleanupParts(disk: Disk, localPath: string, chunks: array<ChunkRange>, ghost job: Job)
    requires JobValid(job) && Always(disk, job) && job.local == localPath && chunks[..] == PlanOf(job)
    modifies disk
    ensures Always(disk, job) && OnlyParts(old(disk.files), disk.files, job)
    ensures disk.faults >= old(disk.faults) + LeftOver(disk.files, job) && disk.dirty <= old(disk.dirty)
  {
    PlanIndices(job);
    hide Plan;
    hide Safe;
    hide Always;
    ghost var start := disk.files;
    OnlyPartsNothing(start, job);
    assert PartsLeft(start, job, 0) == 0;
    hide PartsLeft;
    hide LeftOver;
    hide OnlyParts;
    var i: nat := 0;
    while i < chunks.Length
      invariant Always(disk, job) && OnlyParts(start, disk.files, job) && disk.dirty <= old(disk.dirty)
      invariant i <= chunks.Length && disk.faults >= old(disk.faults) + PartsLeft(disk.files, job, i)
    {
      ghost var files := disk.files;
      assert chunks[i] == PlanOf(job)[i];
      var removed := RemoveOne(disk, PartPath(localPath, chunks[i].index), job, Part(i));
      OneLess(files, disk.files, job, i, removed);
      OnlyPartsTwice(start, files, disk.files, job);
      i := i + 1;
    }
    ghost var files := disk.files;
    var removed := RemoveOne(disk, TempPath(localPath), job, Temp);
    LeftAtEnd(files, disk.files, job, removed);
    OnlyPartsTwice(start, files, disk.files, job);
  }

  /** Neither files of other downloads nor the file itself are touched. */
  ghost predicate OnlyParts(before: Files, after: Files, job: Job) {
    && OnlyJob(before, after, job)
    && (job.local in after <==> job.local in before) && (job.local in after ==> after[job.local] == before[job.local])
  }

  lemma OnlyPartsNothing(files: Files, job: Job)
    ensures OnlyParts(files, files, job)
  {
  }

  lemma OnlyPartsTwice(first: Files, second: Files, third: Files, job: Job)
    requires OnlyParts(first, second, job) && OnlyParts(second, third, job)
    ensures OnlyParts(first, third, job)
  {
    OnlyJobTwice(first, second, third, job);
  }

  lemma LeftAtEnd(before: Files, after: Files, job: Job, removed: bool)
    requires JobValid(job) && after == before - if removed then {TempPath(job.local)} else {}
    ensures LeftOver(after, job) <= PartsLeft(before, job, |PlanOf(job)|) + if removed then 0 else 1
  {
    FewerLeft(before, after, job, |PlanOf(job)|);
  }

  method RemoveOne(disk: Disk, path: string, ghost job: Job, ghost t: Target) returns (removed: bool)
    requires JobValid(job) && Always(disk, job) && path == PathOf(job, t) && t != Local
    modifies disk
    ensures Always(disk, job) && OnlyParts(old(disk.files), disk.files, job)
    ensures disk.files == old(disk.files) - if removed then {path} else {}
    ensures disk.faults == old(disk.faults) + (if removed then 0 else 1) && disk.dirty <= old(disk.dirty)
  {
    hide Safe;
    hide OnlyJob;
    PathsDiffer(job, Local, t);
    RemoveKeepsSafe(disk.files, job, path);
    removed := disk.Remove(path);
    OnlyOne(old(disk.files), disk.files, job, t);
  }

  /** An answer after which nothing is downloaded in chunks: no ranges, or a small file. */
  predicate Refused(head: Option<(nat, bool)>) {
    head.Some? && (!head.value.1 || head.value.0 < MULTIPART_THRESHOLD)
  }

  datatype Outcome = Done(size: nat) | RangeNotSupported | GaveUp

  /** A file joined from accepted parts, and exactly when it is the remote one. */
  predicate Assembled(job: Job, parts: seq<seq<Byte>>, file: seq<Byte>)
    requires JobValid(job)
  {
    && AllAccepted(job, parts) && file == Concat(parts)
    && (file == job.remote <==> Assembles(job, parts))
    && (job.honours ==> (Assembles(job, parts) <==> Fits(|job.remote|, job.chunkSize)))
  }

  /** All parts, then the file, then the cleanup. */
  method DownloadParts(disk: Disk, server: Server, filePath: string, localPath: string,
      chunks: array<ChunkRange>, ghost job: Job)
    returns (ok: bool, cancelled: bool, ghost parts: seq<seq<Byte>>)
    requires JobValid(job) && Always(disk, job) && job.local == localPath && job.remote != []
    requires Serves(server, filePath, job) && chunks[..] == PlanOf(job)
    modifies disk, server
    ensures Always(disk, job) && OnlyJob(old(disk.files), disk.files, job)
    ensures Faults(disk, server) >= old(Faults(disk, server)) + if ok || cancelled then 0 else 1
    ensures OnlyChunks(old(server.log), server.log, filePath, job)
    ensures ok ==> localPath in disk.files && Assembled(job, parts, disk.files[localPath]) && localPath !in disk.dirty
    ensures ok ==> Faults(disk, server) >= old(Faults(disk, server)) + LeftOver(disk.files, job)
    ensures !ok ==> (localPath in disk.files <==> localPath in old(disk.files))
    ensures !ok && localPath in disk.files ==> disk.files[localPath] == old(disk.files[localPath])
  {
    hide Plan;
    hide Always;
    hide OnlyJob;
    hide Within;
    hide PartDone;
    hide Assembled;
    hide PartsOf;
    hide Concat;
    hide OnlyChunks;
    hide LeftOver;
    ghost var start := disk.files;
    parts := [];
    ok, cancelled := DownloadChunks(disk, server, filePath, localPath, chunks, job);
    if !ok {
      return;
    }
    ghost var done := disk.files;
    parts := PartsOf(done, job);
    DonePartsAreAccepted(done, job);
    AcceptedIsWithin(job, parts);
    ok := AssembleChunks(disk, localPath, chunks, job);
    cancelled := false;
    ghost var joined := disk.files;
    OnlyJobTwice(start, done, joined, job);
    if !ok {
      return;
    }
    CleanupParts(disk, localPath, chunks, job);
    OnlyJobTwice(start, joined, disk.files, job);
  }

  /**
   The chunked download: on success the file is the parts joined, and that is the remote file exactly when
   they assemble; otherwise the file is as it was.
   */
  method DownloadChunked(disk: Disk, server: Server, filePath: string, localPath: string, chunkSize: int,
      ghost job: Job)
    returns (r: Outcome, cancelled: bool, ghost parts: seq<seq<Byte>>, ghost head: Option<(nat, bool)>)
    requires JobValid(job) && Always(disk, job) && job.local == localPath
    requires Serves(server, filePath, job) && chunkSize < TWO_63 && job.chunkSize == ChunkSize(chunkSize)
    modifies disk, server
    ensures Always(disk, job) && OnlyJob(old(disk.files), disk.files, job)
    ensures Faults(disk, server) >= old(Faults(disk, server))
    ensures r.Done? ==>
      && r.size == |job.remote| && localPath in disk.files && Assembled(job, parts, disk.files[localPath])
      && localPath !in disk.dirty
      && Faults(disk, server) >= old(Faults(disk, server)) + LeftOver(disk.files, job)
    ensures r == RangeNotSupported <==> Refused(head)
    ensures OnlyChunks(old(server.log) + [HeadOf(filePath, head)], server.log, filePath, job)
    ensures head == None || Refused(head) ==> server.log == old(server.log) + [HeadOf(filePath, head)]
    ensures r == GaveUp && !cancelled ==> Faults(disk, server) > old(Faults(disk, server))
    ensures !r.Done? ==> (localPath in disk.files <==> localPath in old(disk.files))
    ensures !r.Done? && localPath in disk.files ==> disk.files[localPath] == old(disk.files[localPath])
  {
    cancelled, parts := false, [];
    OnlyJobNothing(disk.files, job);
    var answer := server.Head(filePath);
    head := answer;
    if answer == None {
      return GaveUp, cancelled, parts, head;
    }
    var (fileSize, supportsRange) := answer.value;
    if !supportsRange || fileSize < MULTIPART_THRESHOLD {
      return RangeNotSupported, cancelled, parts, head;
    }
    hide Plan;
    hide Always;
    hide OnlyJob;
    hide Assembled;
    hide LeftOver;
    hide OnlyChunks;
    var chunks := ComputeChunks(fileSize, chunkSize);
    var ok;
    ok, cancelled, parts := DownloadParts(disk, server, filePath, localPath, chunks, job);
    r := if ok then Done(fileSize) else GaveUp;
  }

  lemma AcceptedIsWithin(job: Job, parts: seq<seq<Byte>>)
    requires JobValid(job) && AllAccepted(job, parts) && job.remote != []
    ensures Within(job, Local, Concat(parts)) && Assembled(job, parts, Concat(parts))
  {
    AssemblyIff(job, parts);
  }

  lemma DonePartsAreAccepted(files: Files, job: Job)
    requires JobValid(job) && forall i: nat | i < |PlanOf(job)| :: PartDone(files, job, i)
    ensures AllAccepted(job, PartsOf(files, job))
    ensures forall i: nat | i < |PlanOf(job)| :: PartPath(job.local, i) in files
  {
    hide Plan;
    hide Accepted;
    forall i: nat | i < |PlanOf(job)|
      ensures PartPath(job.local, i) in files && Accepted(job, i, PartsOf(files, job)[i])
    {
      assert PartDone(files, job, i);
    }
  }

  // The chain of attempts.

  /** What an accepted answer has added to a file of `offset` bytes. */
  predicate Adds(job: Job, offset: nat, status: StatusCode, added: seq<Byte>) {
    match status
    case OK200 => added == job.remote && (offset > 0 ==> !job.honours)
    case Partial206 => 0 < offset < |job.remote| && added == job.remote[offset..]
    case Unsatisfiable416 => 0 < offset && |job.remote| <= offset && added == []
    case Other => false
  }

  /**
   Sends the request for everything from `offset` on and appends the answer, whatever the server makes of
   the range.
   */
  method ResumeDownloadFile(disk: Disk, server: Server, filePath: string, localPath: string, offset: nat,
      ghost job: Job)
    returns (written: Option<nat>, ghost status: StatusCode, ghost asked: seq<Request>)
    requires JobValid(job) && Always(disk, job) && job.local == localPath
    requires Serves(server, filePath, job) && localPath in disk.files && offset == |disk.files[localPath]|
    modifies disk, server
    ensures Always(disk, job) && OnlyJob(old(disk.files), disk.files, job) && localPath in disk.files
    ensures server.log == old(server.log) + asked
    ensures AsksFor(asked, filePath, if offset > 0 then From(offset) else Whole) && (written.Some? ==> Answered(asked))
    ensures offset == 0 ==> disk.files[localPath] <= job.remote
    ensures Faults(disk, server) >= old(Faults(disk, server)) + if written == None then 1 else 0
    ensures written.Some? ==>
      var before, after := old(disk.files[localPath]), disk.files[localPath];
      && before <= after && written.value == |after| - offset && Adds(job, offset, status, after[offset..])
      && (after == job.remote <==> offset == 0 || (status != OK200 && before <= job.remote))
  {
    assert PathOf(job, Local) in disk.files && Within(job, Local, disk.files[localPath]);
    hide Safe;
    ghost var before := disk.files[localPath];
    var a := server.Get(filePath, if offset > 0 then From(offset) else Whole);
    status := if a == None then Other else a.value.status;
    asked := [Asked(filePath, if offset > 0 then From(offset) else Whole, Bad(a))];
    if a == None {
      return None, status, asked;
    }
    if a.value.status == Unsatisfiable416 {
      ResumeCompletesIff(job.remote, before, job.honours, a.value.(complete := true));
      return Some(0), status, asked;
    }
    if a.value.status == Other {
      return None, status, asked;
    }
    RestIsWithin(job, before, a.value);
    var ok := CopyBody(disk, localPath, a.value, job, Local);
    OnlyOne(old(disk.files), disk.files, job, Local);
    written := if ok then Some(|a.value.body|) else None;
    if ok && offset > 0 {
      ResumeCompletesIff(job.remote, before, job.honours, a.value);
    }
  }

  lemma RestIsWithin(job: Job, before: seq<Byte>, a: Answer)
    requires JobValid(job) && Within(job, Local, before) && a.status in {OK200, Partial206}
    requires Answers(job.remote, job.honours, if before == [] then Whole else From(|before|), a)
    ensures Within(job, Local, before + a.body)
    ensures a.complete ==> Adds(job, |before|, a.status, a.body) && (before == [] ==> before + a.body == job.remote)
  {
    assert before <= job.remote ==> before + job.remote[|before|..] == job.remote;
  }

  method TryResumeDownload(disk: Disk, server: Server, filePath: string, localPath: string,
      ghost job: Job) returns (r: Option<nat>, ghost status: StatusCode, ghost asked: seq<Request>)
    requires JobValid(job) && Always(disk, job) && job.local == localPath
    requires Serves(server, filePath, job)
    modifies disk, server
    ensures server.log == old(server.log) + asked
    ensures asked != [] ==>
      && old(localPath in disk.files && disk.files[localPath] != [])
      && AsksFor(asked, filePath, From(|old(disk.files[localPath])|))
    ensures r.Some? ==> asked != [] && Answered(asked) && localPath !in disk.dirty
    ensures Always(disk, job) && OnlyJob(old(disk.files), disk.files, job)
    ensures Faults(disk, server) >= old(Faults(disk, server))
    ensures r == None && old(localPath in disk.files && disk.files[localPath] != []) ==>
      Faults(disk, server) > old(Faults(disk, server))
    ensures r.Some? ==>
      && old(localPath in disk.files && disk.files[localPath] != []) && localPath in disk.files
      && r.value == |disk.files[localPath]| && (status == OK200 ==> !job.honours)
      && (disk.files[localPath] == job.remote <==> status != OK200 && old(disk.files[localPath]) <= job.remote)
  {
    status, asked := Other, [];
    if localPath !in disk.files {
      return None, status, asked;
    }
    var found := disk.Touch(localPath); // stat
    if !found || |disk.files[localPath]| == 0 {
      return None, status, asked;
    }
    var readable := disk.Touch(localPath); // open
    if !readable {
      return None, status, asked;
    }
    hide Safe;
    hide OnlyJob;
    var localSize := |disk.files[localPath]|;
    var written;
    written, status, asked := ResumeDownloadFile(disk, server, filePath, localPath, localSize, job);
    if written == None {
      return None, status, asked;
    }
    var synced := disk.Sync(localPath);
    r := if synced then Some(localSize + written.value) else None;
  }

  datatype Via = Xet | Chunked | Resumed | Fresh

  /**
   How a download went: the last way it tried, the parts joined, what was resumed, and how that was
   answered; and the requests of each way, in order.
   */
  datatype How = How(via: Via, parts: seq<seq<Byte>>, base: seq<Byte>, status: StatusCode, rebuilt: bool,
    head: Option<(nat, bool)>, cancelled: bool, chunks: seq<Request>, resume: seq<Request>, whole: seq<Request>)

  /** All requests of a download, in order. */
  function Requests(how: How, branch: string, filePath: string): seq<Request> {
    [Rebuild(if branch == "" then "main" else branch, filePath, how.rebuilt)]
    + if how.via == Xet then [] else [HeadOf(filePath, how.head)] + how.chunks + how.resume + how.whole
  }

  /**
   A way is tried only when those before it have failed: chunks are asked for unless that was refused, the
   rest of a file that is there before the whole, and the whole at the end, unless the file could not be
   emptied for it.
   */
  ghost predicate InOrder(job: Job, how: How, filePath: string)
    requires JobValid(job)
  {
    && (how.via == Xet ==> how.rebuilt)
    && OnlyChunks([], how.chunks, filePath, job) && ChunksAsked(how)
    && (how.resume != [] ==> how.base != [] && AsksFor(how.resume, filePath, From(|how.base|)))
    && (how.whole != [] ==> AsksFor(how.whole, filePath, Whole))
    && match how.via
       case Xet => true
       case Chunked => how.resume == [] && how.whole == []
       case Resumed => Answered(how.resume) && how.whole == []
       case Fresh => true
  }

  /**
   Where a chain may end: a success leaves what its way leaves, and without one the file could not be read
   back from Xet, or the whole of it was asked for into the emptied file, or that could not be emptied.
   */
  predicate Ended(job: Job, how: How, r: Option<nat>, files: Files)
    requires JobValid(job)
  {
    if r.Some? then
      && job.local in files && Leaves(job, how, r.value, files[job.local])
      && (how.via == Fresh ==> Answered(how.whole))
    else
      && how.via in {Xet, Fresh}
      && (how.via == Fresh && how.whole != [] ==> job.local in files && files[job.local] <= job.remote)
  }

  /** The failures that a chain has seen at least, by the way it came to. */
  function Cost(how: How, failed: bool): nat {
    (if how.via == Xet then 0 else 1)
    + (if how.via in {Resumed, Fresh} && !Refused(how.head) && !how.cancelled then 1 else 0)
    + (if how.via == Fresh && how.base != [] then 1 else 0)
    + (if failed then 1 else 0)
  }

  /** What a success has left, for every server and branch, and exactly when that is the main branch's file. */
  predicate Leaves(job: Job, how: How, size: nat, file: seq<Byte>)
    requires JobValid(job)
  {
    match how.via
    case Xet => job.wanted == Some(file) && size == |file|
    case Chunked =>
      size == |job.remote| && Assembled(job, how.parts, file)
    case Resumed =>
      && size == |file| && how.base != [] && (how.status == OK200 ==> !job.honours)
      && (file == job.remote <==> how.status != OK200 && how.base <= job.remote)
    case Fresh => size == |job.remote| && file == job.remote
  }

  /**
   The whole chain, for every server and branch. While ranges are honoured and the branch has the same
   file as the main one, the file and its parts are prefixes of what they are to become at every moment.
   A success leaves what its way leaves, resuming from the old file or from what Xet had written of the
   branch's. Every way that was given up has cost a fault, and the chain ends only after the last one: with
   a request for the whole file into the emptied one, unless it could not be emptied. What is reported as
   downloaded by any way but Xet has been synced.
   */
  method DownloadFile(disk: Disk, server: Server, branch: string, filePath: string, localPath: string,
      chunkSize: int, ghost job: Job)
    returns (r: Option<nat>, ghost how: How)
    requires JobValid(job) && Always(disk, job) && job.local == localPath
    requires Serves(server, filePath, job) && chunkSize < TWO_63 && job.chunkSize == ChunkSize(chunkSize)
    requires job.wanted == server.Content(BranchOf(branch), filePath)
    modifies disk, server
    ensures Always(disk, job) && OnlyJob(old(disk.files), disk.files, job)
    ensures Faults(disk, server) >= old(Faults(disk, server)) + Cost(how, r == None)
    ensures server.log == old(server.log) + Requests(how, branch, filePath) && InOrder(job, how, filePath)
    ensures how.via == Chunked ==>
      Faults(disk, server) >= old(Faults(disk, server)) + Cost(how, false) + LeftOver(disk.files, job)
    ensures Ended(job, how, r, disk.files)
    ensures r.Some? && how.via != Xet ==> localPath !in disk.dirty
    ensures r.Some? && how.via == Resumed ==>
      || (localPath in old(disk.files) && how.base == old(disk.files[localPath]))
      || (job.wanted.Some? && how.base <= job.wanted.value)
    ensures r.Some? && Sound(job) ==>
      && r.value == |job.remote|
      && (disk.files[localPath] == job.remote <==> how.via != Chunked || Fits(|job.remote|, job.chunkSize))
  {
    hide InOrder;
    hide Cost;
    hide Ended;
    hide Refused;
    hide Safe;
    hide Leaves;
    hide Assembled;
    hide Adds;
    hide OnlyJob;
    hide Within;
    hide Always;
    hide LeftOver;
    hide OnlyChunks;
    hide Requests;
    hide AsksFor;
    hide Answered;
    ghost var start, log0 := disk.files, server.log;
    OnlyJobNothing(start, job);
    var done;
    ghost var rebuilt;
    done, r, rebuilt := DownloadXet(disk, server, branch, filePath, localPath, job);
    ghost var files, log1 := disk.files, server.log;
    if done {
      how := How(Xet, [], [], Other, rebuilt, None, false, [], [], []);
      XetEnd(job, how, r, disk.files, branch, filePath);
      return;
    }
    var chunked, cancelled;
    ghost var parts, head;
    chunked, cancelled, parts, head := DownloadChunked(disk, server, filePath, localPath, chunkSize, job);
    OnlyJobTwice(start, files, disk.files, job);
    ghost var log2 := server.log;
    ghost var chunks := ChunkRequests(log1 + [HeadOf(filePath, head)], log2, filePath, job);
    how := How(Chunked, parts, [], Other, rebuilt, head, cancelled, chunks, [], []);
    if chunked.Done? {
      LogOf(how, branch, filePath, log0, log1, log2, log2);
      ChunkedEnd(job, how, chunked.size, disk.files, filePath);
      return Some(chunked.size), how;
    }
    files := disk.files;
    r, how := ResumeOrFresh(disk, server, filePath, localPath, job, how);
    OnlyJobTwice(start, files, disk.files, job);
    LogOf(how, branch, filePath, log0, log1, log2, server.log);
    CostOf(how, r == None);
  }

  /** What is there is resumed, or else the whole file is downloaded; `tried` is how that came about. */
  method ResumeOrFresh(disk: Disk, server: Server, filePath: string, localPath: string, ghost job: Job, ghost tried: How)
    returns (r: Option<nat>, ghost how: How)
    requires JobValid(job) && Always(disk, job) && job.local == localPath && Serves(server, filePath, job)
    requires OnlyChunks([], tried.chunks, filePath, job) && ChunksAsked(tried)
    modifies disk, server
    ensures Always(disk, job) && OnlyJob(old(disk.files), disk.files, job)
    ensures how.via in {Resumed, Fresh} && (how.via == Resumed ==> localPath in old(disk.files) && how.base != [])
    ensures how == tried.(via := how.via, base := if localPath in old(disk.files)
      then old(disk.files[localPath]) else [], status := how.status, resume := how.resume, whole := how.whole)
    ensures Faults(disk, server) >= old(Faults(disk, server))
      + (if how.via == Fresh && how.base != [] then 1 else 0) + (if r == None then 1 else 0)
    ensures server.log == old(server.log) + how.resume + how.whole
    ensures InOrder(job, how, filePath) && Ended(job, how, r, disk.files)
    ensures r.Some? ==> localPath !in disk.dirty
    ensures r.Some? && Sound(job) ==> r.value == |job.remote| && disk.files[localPath] == job.remote
  {
    hide InOrder;
    hide Ended;
    hide Always;
    hide OnlyJob;
    hide OnlyChunks;
    hide AsksFor;
    hide Answered;
    BaseIsWithin(disk, job);
    ghost var start, log := disk.files, server.log;
    ghost var base := if localPath in start then start[localPath] else [];
    ghost var status, resume;
    r, status, resume := TryResumeDownload(disk, server, filePath, localPath, job);
    how := tried.(via := Resumed, base := base, status := status, resume := resume, whole := []);
    if r.Some? {
      ResumedEnd(job, how, r.value, disk.files, filePath);
      return;
    }
    ghost var files, whole := disk.files, [];
    r, whole := DownloadFresh(disk, server, filePath, localPath, job);
    OnlyJobTwice(start, files, disk.files, job);
    how := how.(via := Fresh, whole := whole);
    FreshEnd(job, how, r, disk.files, filePath);
  }

  lemma CostOf(how: How, failed: bool)
    requires how.via in {Resumed, Fresh}
    ensures Cost(how, failed)
         == 1 + (if !Refused(how.head) && !how.cancelled then 1 else 0)
              + (if how.via == Fresh && how.base != [] then 1 else 0) + (if failed then 1 else 0)
  {
  }

  // What the ends of the chain come to.

  predicate ChunksAsked(how: How) {
    how.chunks != [] ==> how.head.Some? && !Refused(how.head)
  }

  lemma XetEnd(job: Job, how: How, r: Option<nat>, files: Files, branch: string, filePath: string)
    requires JobValid(job) && how.via == Xet && how.rebuilt && how.chunks == how.resume == how.whole == []
    requires r.Some? ==> job.local in files && job.wanted == Some(files[job.local]) && r.value == |files[job.local]|
    ensures Requests(how, branch, filePath) == [Rebuild(BranchOf(branch), filePath, true)]
    ensures InOrder(job, how, filePath) && Ended(job, how, r, files) && Cost(how, r == None) == if r == None then 1 else 0
    ensures r.Some? && Sound(job) ==> r.value == |job.remote| && files[job.local] == job.remote
  {
    OnlyChunksNothing([], filePath, job);
  }

  lemma ChunkedEnd(job: Job, how: How, size: nat, files: Files, filePath: string)
    requires JobValid(job) && how.via == Chunked && how.resume == how.whole == []
    requires OnlyChunks([], how.chunks, filePath, job) && ChunksAsked(how)
    requires size == |job.remote| && job.local in files && Assembled(job, how.parts, files[job.local])
    ensures InOrder(job, how, filePath) && Ended(job, how, Some(size), files) && Cost(how, false) == 1
    ensures Sound(job) ==> (files[job.local] == job.remote <==> Fits(|job.remote|, job.chunkSize))
  {
    hide OnlyChunks;
    hide Assembles;
    hide Fits;
    hide AllAccepted;
    hide Concat;
  }

  lemma ResumedEnd(job: Job, how: How, size: nat, files: Files, filePath: string)
    requires JobValid(job) && how.via == Resumed && how.whole == []
    requires OnlyChunks([], how.chunks, filePath, job) && ChunksAsked(how)
    requires how.base != [] && AsksFor(how.resume, filePath, From(|how.base|)) && Answered(how.resume)
    requires job.local in files && size == |files[job.local]| && (how.status == OK200 ==> !job.honours)
    requires files[job.local] == job.remote <==> how.status != OK200 && how.base <= job.remote
    requires Sound(job) ==> how.base <= job.remote
    ensures InOrder(job, how, filePath) && Ended(job, how, Some(size), files)
    ensures Sound(job) ==> files[job.local] == job.remote && size == |job.remote|
  {
    hide OnlyChunks;
  }

  lemma FreshEnd(job: Job, how: How, r: Option<nat>, files: Files, filePath: string)
    requires JobValid(job) && how.via == Fresh && OnlyChunks([], how.chunks, filePath, job) && ChunksAsked(how)
    requires how.resume != [] ==> how.base != [] && AsksFor(how.resume, filePath, From(|how.base|))
    requires how.whole != [] ==>
      AsksFor(how.whole, filePath, Whole) && job.local in files && files[job.local] <= job.remote
    requires r.Some? ==>
      Answered(how.whole) && job.local in files && files[job.local] == job.remote && r.value == |job.remote|
    ensures InOrder(job, how, filePath) && Ended(job, how, r, files)
  {
    hide OnlyChunks;
  }

  /** The log, way by way. */
  lemma LogOf(how: How, branch: string, filePath: string, log0: seq<Request>, log1: seq<Request>, log2: seq<Request>,
      log3: seq<Request>)
    requires how.via != Xet && log1 == log0 + [Rebuild(BranchOf(branch), filePath, how.rebuilt)]
    requires log2 == log1 + [HeadOf(filePath, how.head)] + how.chunks && log3 == log2 + how.resume + how.whole
    ensures log3 == log0 + Requests(how, branch, filePath)
  {
  }

  /** The requests sent in between. */
  lemma ChunkRequests(before: seq<Request>, after: seq<Request>, filePath: string, job: Job)
    returns (asked: seq<Request>)
    requires JobValid(job) && OnlyChunks(before, after, filePath, job)
    ensures after == before + asked && OnlyChunks([], asked, filePath, job)
  {
    hide ForChunk;
    asked := after[|before|..];
  }

  /** The Xet reconstruction, written to the file; `done` tells that there is no falling back any more. */
  method DownloadXet(disk: Disk, server: Server, branch: string, filePath: string, localPath: string, ghost job: Job)
    returns (done: bool, r: Option<nat>, ghost rebuilt: bool)
    requires JobValid(job) && Always(disk, job) && job.local == localPath
    requires job.wanted == server.Content(BranchOf(branch), filePath)
    modifies disk, server
    ensures Always(disk, job) && OnlyJob(old(disk.files), disk.files, job)
    ensures Faults(disk, server) >= old(Faults(disk, server)) + if r == None then 1 else 0
    ensures server.log == old(server.log) + [Rebuild(BranchOf(branch), filePath, rebuilt)] && (done ==> rebuilt)
    ensures !done ==> r == None
    ensures r.Some? ==>
      done && localPath in disk.files && job.wanted == Some(disk.files[localPath]) && r.value == |disk.files[localPath]|
    ensures !done ==>
      || disk.files == old(disk.files)
      || (localPath in disk.files && job.wanted.Some? && disk.files[localPath] <= job.wanted.value)
  {
    hide Safe;
    OnlyJobNothing(disk.files, job);
    hide OnlyJob;
    hide Within;
    done, r := false, None;
    var data := server.Reconstruct(BranchOf(branch), filePath);
    rebuilt := data.Some?;
    if data.Some? {
      WantedIsWithin(job);
      done := WriteBody(disk, localPath, Answer(OK200, data.value, true), job, Local);
      OnlyOne(old(disk.files), disk.files, job, Local);
      if done {
        var found := disk.Touch(localPath); // stat
        r := if found then Some(|disk.files[localPath]|) else None;
      }
    }
  }

  lemma WantedIsWithin(job: Job)
    requires JobValid(job) && job.wanted.Some?
    ensures Within(job, Local, job.wanted.value)
  {
  }

  /** From offset 0 into an emptied file. */
  method DownloadFresh(disk: Disk, server: Server, filePath: string, localPath: string, ghost job: Job)
    returns (r: Option<nat>, ghost asked: seq<Request>)
    requires JobValid(job) && Always(disk, job) && job.local == localPath && Serves(server, filePath, job)
    modifies disk, server
    ensures Always(disk, job) && OnlyJob(old(disk.files), disk.files, job)
    ensures Faults(disk, server) >= old(Faults(disk, server)) + if r == None then 1 else 0
    ensures server.log == old(server.log) + asked
    ensures asked != [] ==>
      && AsksFor(asked, filePath, Whole)
      && localPath in disk.files && disk.files[localPath] <= job.remote
    ensures r.Some? ==>
      && Answered(asked) && localPath !in disk.dirty
      && localPath in disk.files && disk.files[localPath] == job.remote && r.value == |job.remote|
  {
    asked := [];
    hide Safe;
    hide OnlyJob;
    ghost var start := disk.files;
    OnlyJobNothing(start, job);
    var created := disk.Create(localPath);
    if !created {
      return None, asked;
    }
    assert start - {localPath} == disk.files - {localPath};
    OnlyOne(start, disk.files, job, Local);
    WriteKeepsSafe(start, job, Local, []);
    ghost var files := disk.files;
    ghost var status;
    r, status, asked := ResumeDownloadFile(disk, server, filePath, localPath, 0, job);
    OnlyJobTwice(start, files, disk.files, job);
    var synced := disk.Sync(localPath);
    if !synced {
      r := None;
    }
  }

  lemma BaseIsWithin(disk: Disk, job: Job)
    requires JobValid(job) && Always(disk, job)
    ensures Sound(job) && job.local in disk.files ==> disk.files[job.local] <= job.remote
  {
    assert PathOf(job, Local) in disk.files ==> Within(job, Local, disk.files[PathOf(job, Local)]);
  }
}
