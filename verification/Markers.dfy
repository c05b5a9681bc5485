/** The marker and manifest files of a model directory, step by step on the disk. */
module Markers {
  import opened Bytes
  import opened Disks
  import opened GgufBounds
  import opened Options

  type Manifest = map<string, int>

  const READY_MARKER := ".ready"
  const MANIFEST_FILE := ".manifest"

  function PathIn(dir: string, name: string): string {
    dir + "/" + name
  }

  predicate Under(dir: string, path: string) {
    dir + "/" <= path
  }

  /** A state on the way of an atomic write: the target is as before or complete, all else is as before. */
  predicate OldOrNew(before: Files, t: Files, path: string, tmp: string, data: seq<Byte>) {
    t == before || (tmp !in before && (t - {tmp} == before || t == before[path := data]))
  }

  /** States since a given length of the trace. */
  ghost predicate Since(disk: Disk, from: nat, ok: Files -> bool)
    reads disk
  {
    from <= |disk.trace| && forall i | from <= i < |disk.trace| :: ok(disk.trace[i])
  }

  const TMP_PREFIX := ".tmp-download-"

  /** A path that a temporary file in the directory may have. */
  predicate IsTemp(dir: string, path: string) {
    PathIn(dir, TMP_PREFIX) <= path && '.' !in path[|PathIn(dir, TMP_PREFIX)|..]
  }

  /** The temporary file: created under a new name, written, synced, closed, and its mode set. */
  method WriteTemp(disk: Disk, dir: string, data: seq<Byte>) returns (ok: bool, tmp: string, created: bool)
    requires disk.Valid()
    modifies disk
    ensures disk.Valid() && old(disk.trace) <= disk.trace && IsTemp(dir, tmp)
    ensures disk.faults >= old(disk.faults) + if ok then 0 else 1
    ensures var before := old(disk.files);
      Since(disk, old(|disk.trace|), (t: Files) => t == before || (tmp !in before && t - {tmp} == before))
    ensures if created then tmp !in old(disk.files) && disk.files - {tmp} == old(disk.files)
            else disk.files == old(disk.files)
    ensures ok ==> created && tmp in disk.files && disk.files[tmp] == data && tmp !in disk.dirty
  {
    ok, tmp := disk.CreateTemp(PathIn(dir, TMP_PREFIX));
    created := ok;
    if !ok {
      return;
    }
    assert disk.files - {tmp} == old(disk.files);
    ghost var n;
    ok, n := disk.Append(tmp, data);
    assert disk.files - {tmp} == old(disk.files) && (ok ==> disk.files[tmp] == data);
    ghost var files, trace := disk.files, disk.trace;
    if ok {
      ok := disk.Sync(tmp);
    }
    var i := 0;
    while ok && i < 2 // close, mode
      invariant disk.Valid() && disk.faults >= old(disk.faults) + if ok then 0 else 1
      invariant disk.files == files && disk.trace == trace
      invariant ok ==> tmp in files && files[tmp] == data && tmp !in disk.dirty
      decreases 2 - i, ok
    {
      ok := disk.Touch(tmp);
      i := i + 1;
    }
  }

  /**
   Writes a temporary file, syncs it, then renames it. In every state on the way, the target is either
   untouched or complete; a failure leaves it untouched.
   */
  method AtomicWrite(disk: Disk, dir: string, name: string, data: seq<Byte>) returns (ok: bool, ghost tmp: string)
    requires disk.Valid() && !(TMP_PREFIX <= name)
    modifies disk
    ensures disk.Valid() && old(disk.trace) <= disk.trace && IsTemp(dir, tmp)
    ensures disk.faults >= old(disk.faults) + if ok then 0 else 1
    ensures var before := old(disk.files);
      Since(disk, old(|disk.trace|), t => OldOrNew(before, t, PathIn(dir, name), tmp, data))
    ensures ok ==> disk.files == old(disk.files)[PathIn(dir, name) := data] && PathIn(dir, name) !in disk.dirty
    ensures !ok ==>
      disk.files == old(disk.files) || (tmp !in old(disk.files) && disk.files - {tmp} == old(disk.files))
  {
    var path := PathIn(dir, name);
    var temp, created;
    ok, temp, created := WriteTemp(disk, dir, data);
    tmp := temp;
    TempIsOther(dir, name, temp);
    if ok {
      ok := disk.Rename(temp, path);
      if ok {
        assert disk.files == old(disk.files)[path := data];
      }
    }
    if !ok && created {
      var _ := disk.Remove(temp);
      assert disk.files - {temp} == old(disk.files);
    }
  }

  lemma TempIsOther(dir: string, name: string, tmp: string)
    requires IsTemp(dir, tmp) && !(TMP_PREFIX <= name)
    ensures tmp != PathIn(dir, name)
  {
    PathPrefixIff(dir, TMP_PREFIX, name);
  }

  lemma PathPrefixIff(dir: string, prefix: string, name: string)
    ensures PathIn(dir, prefix) <= PathIn(dir, name) <==> prefix <= name
  {
    var p, q := PathIn(dir, prefix), PathIn(dir, name);
    assert p[|dir| + 1..] == prefix && q[|dir| + 1..] == name;
    assert p <= q ==> name[..|prefix|] == q[..|p|][|dir| + 1..];
  }

  method WriteReadyMarker(disk: Disk, dir: string) returns (ok: bool, ghost tmp: string)
    requires disk.Valid()
    modifies disk
    ensures disk.Valid() && old(disk.trace) <= disk.trace
    ensures disk.faults >= old(disk.faults) + if ok then 0 else 1
    ensures var before, marker := old(disk.files), PathIn(dir, READY_MARKER);
      Since(disk, old(|disk.trace|), t => OldOrNew(before, t, marker, tmp, []))
    ensures ok ==> disk.files == old(disk.files)[PathIn(dir, READY_MARKER) := []]
    ensures !ok ==>
      disk.files == old(disk.files) || (tmp !in old(disk.files) && disk.files - {tmp} == old(disk.files))
  {
    ok, tmp := AtomicWrite(disk, dir, READY_MARKER, []);
  }

  /** Succeeds also when there is no marker. */
  method RemoveReadyMarker(disk: Disk, dir: string) returns (ok: bool)
    requires disk.Valid()
    modifies disk
    ensures disk.Valid() && disk.faults == old(disk.faults) + if ok then 0 else 1
    ensures disk.files == old(disk.files) - if ok then {PathIn(dir, READY_MARKER)} else {}
    ensures disk.trace == old(disk.trace) || disk.trace == old(disk.trace) + [disk.files]
  {
    ok := disk.Remove(PathIn(dir, READY_MARKER));
  }

  // Verification.

  /** The extension of a path: from the last dot of its last element on. */
  function Ext(path: string): string {
    if path == "" || path[|path| - 1] == '/' then ""
    else if path[|path| - 1] == '.' then "."
    else
      var ext := Ext(path[..|path| - 1]);
      if ext == "" then "" else ext + [path[|path| - 1]]
  }

  predicate IsGguf(file: string) {
    Ext(file) == ".gguf"
  }

  /** Of an extension nothing but the end of the path matters. */
  lemma {:induction false} ExtIff(path: string, ext: string)
    requires ext != "" && ext[0] == '.' && '.' !in ext[1..] && '/' !in ext
    ensures Ext(path) == ext <==> |path| >= |ext| && path[|path| - |ext|..] == ext
    decreases |ext|
  {
    if path != "" && |ext| > 1 {
      var p, e := path[..|path| - 1], ext[..|ext| - 1];
      ExtIff(p, e);
      assert ext == e + [ext[|ext| - 1]];
      if |path| >= |ext| {
        assert path[|path| - |ext|..] == p[|p| - |e|..] + [path[|path| - 1]];
      }
    }
  }

  lemma GgufIff(file: string)
    ensures IsGguf(file) <==> |file| >= 5 && file[|file| - 5..] == ".gguf"
  {
    ExtIff(file, ".gguf");
  }

  ghost predicate FileVerified(files: Files, dir: string, file: string, size: int) {
    var path := PathIn(dir, file);
    path in files && |files[path]| == size && (IsGguf(file) ==> HeaderValid(files[path], size))
  }

  function ManifestOf(files: Files, dir: string, decode: seq<Byte> -> Option<Manifest>): Option<Manifest> {
    if PathIn(dir, MANIFEST_FILE) in files then decode(files[PathIn(dir, MANIFEST_FILE)]) else None
  }

  /** The manifest is readable and every listed file is there, complete, and with a valid header. */
  ghost predicate Verified(files: Files, dir: string, decode: seq<Byte> -> Option<Manifest>) {
    var m := ManifestOf(files, dir, decode);
    m.Some? && forall f | f in m.value :: FileVerified(files, dir, f, m.value[f])
  }

  method VerifyFile(disk: Disk, dir: string, file: string, size: int) returns (ok: bool)
    requires disk.Valid()
    modifies disk
    ensures disk.Valid() && disk.files == old(disk.files) && disk.trace == old(disk.trace)
    ensures disk.faults >= old(disk.faults)
    ensures ok ==> FileVerified(disk.files, dir, file, size)
    ensures !ok ==> !FileVerified(disk.files, dir, file, size) || disk.faults > old(disk.faults)
  {
    var path := PathIn(dir, file);
    if path !in disk.files {
      return false;
    }
    ok := disk.Touch(path); // stat
    if !ok || |disk.files[path]| != size {
      return false;
    }
    if IsGguf(file) {
      ok := disk.Touch(path);
      if ok {
        var v := ValidateHeader(disk.files[path], size);
        VerdictIsHeaderValid(disk.files[path], size, v);
        ok := v == Valid;
      }
    }
  }

  /** Checks every listed file, in any order, collecting the issues. */
  method VerifyFiles(disk: Disk, dir: string, decode: seq<Byte> -> Option<Manifest>) returns (ok: bool)
    requires disk.Valid()
    modifies disk
    ensures disk.Valid() && disk.files == old(disk.files) && disk.trace == old(disk.trace)
    ensures disk.faults >= old(disk.faults)
    ensures ok ==> Verified(disk.files, dir, decode)
    ensures !ok ==> !Verified(disk.files, dir, decode) || disk.faults > old(disk.faults)
  {
    hide FileVerified;
    if PathIn(dir, MANIFEST_FILE) in disk.files {
      var readable := disk.Touch(PathIn(dir, MANIFEST_FILE));
      if !readable {
        return false;
      }
    }
    var manifest := ManifestOf(disk.files, dir, decode);
    if manifest == None {
      return false;
    }
    var todo, issues := manifest.value.Keys, 0;
    while todo != {}
      invariant todo <= manifest.value.Keys && issues >= 0
      invariant disk.Valid() && disk.files == old(disk.files) && disk.trace == old(disk.trace)
      invariant disk.faults >= old(disk.faults)
      invariant issues == 0 ==>
        forall f | f in manifest.value && f !in todo :: FileVerified(disk.files, dir, f, manifest.value[f])
      invariant issues > 0 ==>
        (disk.faults > old(disk.faults)
         || exists f :: f in manifest.value && !FileVerified(disk.files, dir, f, manifest.value[f]))
      decreases |todo|
    {
      var f :| f in todo;
      var fine := VerifyFile(disk, dir, f, manifest.value[f]);
      issues := issues + if fine then 0 else 1;
      todo := todo - {f};
    }
    ok := issues == 0;
  }

  /** Only files under the directory disappear, nothing else changes. */
  predicate Thinned(before: Files, t: Files, dir: string) {
    && t.Keys <= before.Keys
    && forall p | p in before :: (p in t ==> t[p] == before[p]) && (!Under(dir, p) ==> p in t)
  }

  method RemoveAll(disk: Disk, dir: string) returns (ok: bool)
    requires disk.Valid()
    modifies disk
    ensures disk.Valid() && old(disk.trace) <= disk.trace
    ensures disk.faults >= old(disk.faults) + if ok then 0 else 1
    ensures var before := old(disk.files); Since(disk, old(|disk.trace|), t => Thinned(before, t, dir))
    ensures Thinned(old(disk.files), disk.files, dir)
    ensures ok ==> forall p | p in disk.files :: !Under(dir, p)
  {
    ghost var before := disk.files;
    var todo := set p | p in disk.files && Under(dir, p);
    ThinnedNothing(before, dir);
    hide Thinned;
    hide Under;
    ok := true;
    while todo != {}
      invariant disk.Valid() && old(disk.trace) <= disk.trace
      invariant disk.faults >= old(disk.faults) + if ok then 0 else 1
      invariant Since(disk, old(|disk.trace|), t => Thinned(before, t, dir)) && Thinned(before, disk.files, dir)
      invariant forall p | p in todo :: Under(dir, p)
      invariant ok ==> forall p | p in disk.files && Under(dir, p) :: p in todo
      decreases |todo|
    {
      var p :| p in todo;
      ThinnedMore(before, disk.files, dir, p);
      var removed := disk.Remove(p);
      ok := ok && removed;
      todo := todo - {p};
    }
  }

  lemma ThinnedNothing(files: Files, dir: string)
    ensures Thinned(files, files, dir)
  {
  }

  lemma ThinnedMore(before: Files, t: Files, dir: string, p: string)
    requires Thinned(before, t, dir) && Under(dir, p)
    ensures Thinned(before, t - {p}, dir)
  {
  }

  datatype Verification = Verification(markerExists: bool, verified: bool)

  /** Either nothing has changed, or the marker is gone and only files of the directory are missing. */
  predicate MarkerFirst(before: Files, t: Files, dir: string) {
    t == before || (PathIn(dir, READY_MARKER) !in t && Thinned(before, t, dir))
  }

  /** Any error of the lookup reads as no marker. */
  method CheckReadyMarker(disk: Disk, dir: string) returns (ok: bool)
    requires disk.Valid()
    modifies disk
    ensures disk.Valid() && disk.files == old(disk.files) && disk.trace == old(disk.trace)
    ensures ok ==> PathIn(dir, READY_MARKER) in disk.files && disk.faults == old(disk.faults)
    ensures !ok ==> disk.faults == old(disk.faults) + if PathIn(dir, READY_MARKER) in disk.files then 1 else 0
  {
    ok := PathIn(dir, READY_MARKER) in disk.files;
    if ok {
      ok := disk.Touch(PathIn(dir, READY_MARKER));
    }
  }

  /**
   The check of a model directory. A positive answer means every listed file verified. That there is no
   marker may also be a lookup that failed; then the marker stays. A negative answer
   with a marker removes the marker before anything else, so that a stop at any point leaves either the
   directory as it was or one without a marker, unless the removal itself failed.
   */
  method CheckAndVerifyReadyMarker(disk: Disk, dir: string, decode: seq<Byte> -> Option<Manifest>)
    returns (r: Verification, ghost unmarked: bool)
    requires disk.Valid()
    modifies disk
    ensures disk.Valid() && old(disk.trace) <= disk.trace && disk.faults >= old(disk.faults)
    ensures r.markerExists ==> PathIn(dir, READY_MARKER) in old(disk.files)
    ensures !r.markerExists && PathIn(dir, READY_MARKER) in old(disk.files) ==> disk.faults > old(disk.faults)
    ensures r.verified || !r.markerExists ==> disk.files == old(disk.files) && disk.trace == old(disk.trace)
    ensures r.verified ==> r.markerExists && Verified(disk.files, dir, decode)
    ensures !r.verified && r.markerExists ==>
      !Verified(old(disk.files), dir, decode) || disk.faults > old(disk.faults)
    ensures unmarked || disk.faults > old(disk.faults)
    ensures var before := old(disk.files); unmarked ==>
      Since(disk, old(|disk.trace|), t => MarkerFirst(before, t, dir)) && MarkerFirst(before, disk.files, dir)
    ensures !r.verified && r.markerExists && unmarked ==> PathIn(dir, READY_MARKER) !in disk.files
    ensures !r.verified && r.markerExists && disk.faults == old(disk.faults) ==>
      forall p | p in disk.files :: !Under(dir, p)
  {
    hide Verified;
    unmarked := true;
    var found := CheckReadyMarker(disk, dir);
    if !found {
      return Verification(false, false), unmarked;
    }
    var verified := VerifyFiles(disk, dir, decode);
    if verified {
      return Verification(true, true), unmarked;
    }
    ghost var before := disk.files;
    UnderDir(dir, READY_MARKER);
    var removed := RemoveReadyMarker(disk, dir);
    ghost var unmarkedFiles, from := disk.files, |disk.trace|;
    var _ := RemoveAll(disk, dir);
    unmarked := removed;
    r := Verification(true, false);
    if removed {
      forall t: Files | Thinned(unmarkedFiles, t, dir) ensures MarkerFirst(before, t, dir) {
        ThinnedFurther(before, unmarkedFiles, t, dir);
      }
      ThinnedFurther(before, unmarkedFiles, unmarkedFiles, dir);
      assert forall i | from <= i < |disk.trace| :: Thinned(unmarkedFiles, disk.trace[i], dir);
    }
  }

  lemma UnderDir(dir: string, name: string)
    ensures Under(dir, PathIn(dir, name))
  {
  }

  lemma ThinnedFurther(before: Files, mid: Files, after: Files, dir: string)
    requires mid == before - {PathIn(dir, READY_MARKER)} && Thinned(mid, after, dir)
    ensures MarkerFirst(before, after, dir)
  {
    UnderDir(dir, READY_MARKER);
    assert PathIn(dir, READY_MARKER) !in mid;
  }
}
