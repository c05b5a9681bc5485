/** Files as a map from path to bytes, together with every state they have been in. */
module Disks {
  import opened Bytes

  type Files = map<string, seq<Byte>>

  /**
   The file system. Each operation either takes effect or fails; a write that fails may have written a
   part of its bytes. `trace` records every state in order: a process that stops leaves one of them.
   `faults` counts the operations that failed; `dirty` are the files written since they were last synced.
   */
  class Disk {
    var files: Files
    ghost var trace: seq<Files>
    ghost var faults: nat
    ghost var dirty: set<string>

    ghost predicate Valid()
      reads this
    {
      trace != [] && trace[|trace| - 1] == files
    }

    constructor (files: Files)
      ensures Valid() && this.files == files && trace == [files] && faults == 0 && dirty == {}
    {
      this.files := files;
      trace := [files];
      faults := 0;
      dirty := {};
    }

    /** Creates the file or empties it. */
    method Create(path: string) returns (ok: bool)
      requires Valid()
      modifies this
      ensures Valid()
      ensures ok ==> files == old(files)[path := []] && trace == old(trace) + [files]
      ensures !ok ==> files == old(files) && trace == old(trace)
      ensures dirty == old(dirty) + if ok then {path} else {}
      ensures faults == old(faults) + if ok then 0 else 1
    {
      ok := *;
      if ok {
        files := files[path := []];
        trace := trace + [files];
        dirty := dirty + {path};
      } else {
        faults := faults + 1;
      }
    }

    /** Creates an empty file under a new name with the given beginning; fails also when it finds none. */
    method CreateTemp(prefix: string) returns (ok: bool, name: string)
      requires Valid()
      modifies this
      ensures Valid()
      ensures prefix <= name && '.' !in name[|prefix|..]
      ensures ok ==> name !in old(files) && files == old(files)[name := []] && trace == old(trace) + [files]
      ensures !ok ==> files == old(files) && trace == old(trace)
      ensures dirty == old(dirty) + if ok then {name} else {}
      ensures faults == old(faults) + if ok then 0 else 1
    {
      var suffix: string :| '.' !in suffix;
      name := prefix + suffix;
      var works: bool := *;
      ok := works && name !in files;
      if ok {
        files := files[name := []];
        trace := trace + [files];
        dirty := dirty + {name};
      } else {
        faults := faults + 1;
      }
    }

    /** Opens, looks up or closes an existing file, or sets its mode: nothing visible changes. */
    method Touch(path: string) returns (ok: bool)
      requires Valid() && path in files
      modifies this
      ensures Valid()
      ensures files == old(files) && trace == old(trace) && dirty == old(dirty)
      ensures faults == old(faults) + if ok then 0 else 1
    {
      ok := *;
      faults := faults + if ok then 0 else 1;
    }

    /** What was written to the file has reached the medium. */
    method Sync(path: string) returns (ok: bool)
      requires Valid() && path in files
      modifies this
      ensures Valid()
      ensures files == old(files) && trace == old(trace) && dirty == old(dirty) - if ok then {path} else {}
      ensures faults == old(faults) + if ok then 0 else 1
    {
      ok := *;
      dirty := dirty - if ok then {path} else {};
      faults := faults + if ok then 0 else 1;
    }

    /** Appends `n` of the given bytes: all of them unless the write fails. */
    method Append(path: string, bytes: seq<Byte>) returns (ok: bool, ghost n: nat)
      requires Valid() && path in files
      modifies this
      ensures Valid()
      ensures n <= |bytes| && (ok ==> n == |bytes|)
      ensures files == old(files)[path := old(files[path]) + bytes[..n]] && trace == old(trace) + [files]
      ensures dirty == old(dirty) + {path}
      ensures faults == old(faults) + if ok then 0 else 1
    {
      var count: nat :| count <= |bytes|;
      ok, n := count == |bytes|, count;
      files := files[path := files[path] + bytes[..count]];
      trace := trace + [files];
      dirty := dirty + {path};
      faults := faults + if ok then 0 else 1;
    }

    method Rename(from: string, to: string) returns (ok: bool)
      requires Valid() && from in files && from != to
      modifies this
      ensures Valid()
      ensures ok ==> files == (old(files) - {from})[to := old(files[from])] && trace == old(trace) + [files]
      ensures !ok ==> files == old(files) && trace == old(trace)
      ensures dirty == if !ok then old(dirty) else old(dirty) - {from, to} + if from in old(dirty) then {to} else {}
      ensures faults == old(faults) + if ok then 0 else 1
    {
      ok := *;
      if ok {
        files := (files - {from})[to := files[from]];
        trace := trace + [files];
        dirty := dirty - {from, to} + if from in dirty then {to} else {};
      } else {
        faults := faults + 1;
      }
    }

    method Remove(path: string) returns (ok: bool)
      requires Valid()
      modifies this
      ensures Valid()
      ensures ok ==> files == old(files) - {path} && trace == old(trace) + [files]
      ensures !ok ==> files == old(files) && trace == old(trace)
      ensures dirty == old(dirty) - if ok then {path} else {}
      ensures faults == old(faults) + if ok then 0 else 1
    {
      ok := *;
      if ok {
        files := files - {path};
        trace := trace + [files];
        dirty := dirty - {path};
      } else {
        faults := faults + 1;
      }
    }
  }
}
