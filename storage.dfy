/**
 * The checkpoint directories on durable storage, as abstract objects: each
 * directory maps a file name to the snapshot the file holds.
 * Both checkpointing strategies write snapshots here and find the most
 * recently written one by modification time. The cleanup as written evicts
 * the smallest file names in string order (`Directory.PruneOldest`); the
 * strategies use the eviction by age it evidently intends
 * (`Directory.PruneByAge`). The object outlives any strategy instance, so a
 * strategy the manager builds later sees the files an earlier one wrote.
 */
module Storage {
  import opened Common

  /** A checkpoint file: its checkpoint id, the snapshot of the store, and the
    * file's modification time as a logical clock reading. */
  datatype CheckpointFile = CheckpointFile(id: nat, data: map<Key, Value>, mtime: nat)

  const JsonSuffix := ".json"

  /** `f"{prefix}{id}_{int(time.time())}.json"`. */
  function FileName(prefix: string, id: nat, now: nat): (name: string)
    ensures StartsWith(name, prefix) && EndsWith(name, JsonSuffix)
  {
    var name := prefix + NatToString(id) + "_" + NatToString(now) + JsonSuffix;
    assert name[..|prefix|] == prefix;
    assert name[|name| - |JsonSuffix|..] == JsonSuffix;
    name
  }

  /** The names `os.listdir` yields that pass the prefix/".json" filter. */
  function CheckpointNames(files: map<string, CheckpointFile>, prefix: string): (names: set<string>)
    ensures names <= files.Keys
  {
    set n | n in files && StartsWith(n, prefix) && EndsWith(n, JsonSuffix)
  }

  /** Every file was written before `clock` and no two files of a directory
    * share a modification time. */
  ghost predicate Stamped(files: map<string, CheckpointFile>, clock: nat) {
    && (forall n :: n in files ==> files[n].mtime < clock)
    && (forall n, m :: n in files && m in files && n != m ==> files[n].mtime != files[m].mtime)
  }

  /** `name` heads the list sorted by modification time, newest first. */
  ghost predicate IsLatest(files: map<string, CheckpointFile>, prefix: string, name: string) {
    && name in CheckpointNames(files, prefix)
    && forall n :: n in CheckpointNames(files, prefix) ==> files[n].mtime <= files[name].mtime
  }

  lemma {:induction false} NewestExists(files: map<string, CheckpointFile>, names: set<string>)
    requires names != {} && names <= files.Keys
    ensures exists n :: n in names && forall m :: m in names ==> files[m].mtime <= files[n].mtime
    decreases names
  {
    var x :| x in names;
    if names != {x} {
      NewestExists(files, names - {x});
      var y :| y in names - {x} && forall m :: m in names - {x} ==> files[m].mtime <= files[y].mtime;
      if files[x].mtime <= files[y].mtime {
        assert forall m :: m in names ==> files[m].mtime <= files[y].mtime;
      } else {
        assert forall m :: m in names ==> files[m].mtime <= files[x].mtime;
      }
    } else {
      assert forall m :: m in names ==> files[m].mtime <= files[x].mtime;
    }
  }

  /** The checkpoint `_load_latest_checkpoint` picks, if there is one. */
  ghost function Latest(files: map<string, CheckpointFile>, prefix: string): (r: Option<string>)
    ensures r.None? <==> CheckpointNames(files, prefix) == {}
    ensures r.Some? ==> IsLatest(files, prefix, r.value)
  {
    if CheckpointNames(files, prefix) == {} then None
    else
      var names := CheckpointNames(files, prefix);
      NewestExists(files, names);
      var n :| n in names && forall m :: m in names ==> files[m].mtime <= files[n].mtime;
      Some(n)
  }

  /** With distinct modification times there is only one latest file. */
  lemma LatestUnique(files: map<string, CheckpointFile>, clock: nat, prefix: string, name: string)
    requires Stamped(files, clock)
    requires IsLatest(files, prefix, name)
    ensures Latest(files, prefix) == Some(name)
  {
  }

  /** A file just written (stamped with the clock) is the latest one as long
    * as it is still there. */
  lemma NewestIsLatest(files: map<string, CheckpointFile>, clock: nat, prefix: string, name: string)
    requires forall n :: n in files && n != name ==> files[n].mtime < clock
    requires Stamped(files, clock + 1)
    requires name in files && files[name].mtime == clock
    requires StartsWith(name, prefix) && EndsWith(name, JsonSuffix)
    ensures Latest(files, prefix) == Some(name)
  {
    LatestUnique(files, clock + 1, prefix, name);
  }

  /** What `_cleanup_old_checkpoints` leaves: the files it removes are
    * checkpoint files, the smallest names in string order, and just enough of
    * them to bring the count down to the limit (all of them when the limit is
    * negative); every other file is untouched. */
  ghost predicate Pruned(before: map<string, CheckpointFile>, after: map<string, CheckpointFile>,
                         prefix: string, limit: int)
  {
    var names := CheckpointNames(before, prefix);
    var kept := CheckpointNames(after, prefix);
    && kept <= names
    && after == before - (names - kept)
    && |kept| == (if |names| <= limit then |names| else if limit < 0 then 0 else limit)
    && AllBelow(names - kept, kept)
  }

  /** Eviction by name removes only files, so a latest file that survives it
    * is still the one a load picks. */
  lemma PrunedKeepsLatestIfPresent(before: map<string, CheckpointFile>, after: map<string, CheckpointFile>,
                                   clock: nat, prefix: string, limit: int, name: string)
    requires Stamped(before, clock)
    requires Pruned(before, after, prefix, limit)
    requires IsLatest(before, prefix, name) && name in after
    ensures Latest(after, prefix) == Some(name)
  {
    assert IsLatest(after, prefix, name);
    LatestUnique(after, clock, prefix, name);
  }

  /** Within the limit, eviction removes nothing. */
  lemma PrunedWithinLimit(before: map<string, CheckpointFile>, after: map<string, CheckpointFile>,
                          prefix: string, limit: int)
    requires Pruned(before, after, prefix, limit)
    requires |CheckpointNames(before, prefix)| <= limit
    ensures after == before
  {
    var names := CheckpointNames(before, prefix);
    var kept := CheckpointNames(after, prefix);
    assert names == kept + (names - kept);
    assert |names| == |kept| + |names - kept|;
    assert names - kept == {};
  }

  /** Every name of `low` sorts before every name of `high`. */
  ghost predicate AllBelow(low: set<string>, high: set<string>) {
    forall r, k :: r in low && k in high ==> LexLess(r, k)
  }

  lemma NamesAfterRemoval(files: map<string, CheckpointFile>, prefix: string, removed: set<string>)
    ensures CheckpointNames(files - removed, prefix) == CheckpointNames(files, prefix) - removed
  {
  }

  /** The state the eviction loop ends in is the one `Pruned` describes. */
  lemma PrunedAtExit(before: map<string, CheckpointFile>, after: map<string, CheckpointFile>,
                     prefix: string, limit: int, files: set<string>)
    requires files <= CheckpointNames(before, prefix)
    requires after == before - (CheckpointNames(before, prefix) - files)
    requires |files| < |CheckpointNames(before, prefix)| ==> |files| >= limit
    requires |files| <= limit || files == {}
    requires AllBelow(CheckpointNames(before, prefix) - files, files)
    ensures Pruned(before, after, prefix, limit)
  {
    var names := CheckpointNames(before, prefix);
    NamesAfterRemoval(before, prefix, names - files);
    assert names - (names - files) == files;
    if files == {} && limit < 0 {
      assert |names| > limit;
    }
  }

  /** One round of the eviction loop keeps both halves of `Pruned` true. */
  lemma PruneStep(before: map<string, CheckpointFile>, names: set<string>, files: set<string>, oldest: string)
    requires oldest in files && files <= names
    requires AllBelow(names - files, files)
    requires forall n :: n in files && n != oldest ==> LexLess(oldest, n)
    ensures (before - (names - files)) - {oldest} == before - (names - (files - {oldest}))
    ensures AllBelow(names - (files - {oldest}), files - {oldest})
  {
  }

  /** The smallest of a set of names, as `sorted(...)[0]` would give it. */
  method Smallest(names: set<string>) returns (m: string)
    requires names != {}
    ensures m in names
    ensures forall n :: n in names && n != m ==> LexLess(m, n)
  {
    m :| m in names;
    var rest := names - {m};
    while rest != {}
      invariant rest <= names && m in names && m !in rest
      invariant forall n :: n in names - rest && n != m ==> LexLess(m, n)
      decreases rest
    {
      var n :| n in rest;
      if LexLess(n, m) {
        forall k | k in names - rest && k != m
          ensures LexLess(n, k)
        {
          LexLessTransitive(n, m, k);
        }
        m := n;
      } else {
        LexLessTotal(m, n);
      }
      rest := rest - {n};
    }
  }

  // ---------------------------------------------------------------------
  // Eviction by age: the retention the cleanup evidently intends.

  /** Every file of `low` was written before every file of `high`. */
  ghost predicate AllOlder(files: map<string, CheckpointFile>, low: set<string>, high: set<string>) {
    forall r, k :: r in low && k in high ==> r in files && k in files && files[r].mtime < files[k].mtime
  }

  /** Like `Pruned`, but the files removed are the oldest by modification
    * time rather than the smallest names. */
  ghost predicate PrunedByAge(before: map<string, CheckpointFile>, after: map<string, CheckpointFile>,
                              prefix: string, limit: int)
  {
    var names := CheckpointNames(before, prefix);
    var kept := CheckpointNames(after, prefix);
    && kept <= names
    && after == before - (names - kept)
    && |kept| == (if |names| <= limit then |names| else if limit < 0 then 0 else limit)
    && AllOlder(before, names - kept, kept)
  }

  /** With a limit of at least one, eviction by age never removes the latest
    * checkpoint, and it stays the one a load picks. */
  lemma PrunedByAgeKeepsLatest(before: map<string, CheckpointFile>, after: map<string, CheckpointFile>,
                               clock: nat, prefix: string, limit: int, name: string)
    requires Stamped(before, clock)
    requires PrunedByAge(before, after, prefix, limit) && limit >= 1
    requires IsLatest(before, prefix, name)
    ensures name in after
    ensures Latest(after, prefix) == Some(name)
  {
    var names := CheckpointNames(before, prefix);
    var kept := CheckpointNames(after, prefix);
    assert |kept| >= 1;
    assert IsLatest(after, prefix, name);
    LatestUnique(after, clock, prefix, name);
  }

  /** Within the limit, eviction by age removes nothing. */
  lemma PrunedByAgeWithinLimit(before: map<string, CheckpointFile>, after: map<string, CheckpointFile>,
                               prefix: string, limit: int)
    requires PrunedByAge(before, after, prefix, limit)
    requires |CheckpointNames(before, prefix)| <= limit
    ensures after == before
  {
    var names := CheckpointNames(before, prefix);
    var kept := CheckpointNames(after, prefix);
    assert names == kept + (names - kept);
    assert |names| == |kept| + |names - kept|;
    assert names - kept == {};
  }

  /** A checkpoint written with the clock and then pruned by age: it survives
    * whenever the limit is at least one (and nothing is removed within the
    * limit), and it is then unchanged and the one a load picks. */
  lemma WrittenThenPrunedByAge(before: map<string, CheckpointFile>, clock: nat, prefix: string, limit: int,
                               name: string, f: CheckpointFile, after: map<string, CheckpointFile>)
    requires Stamped(before, clock) && f.mtime == clock
    requires StartsWith(name, prefix) && EndsWith(name, JsonSuffix)
    requires PrunedByAge(before[name := f], after, prefix, limit)
    ensures name in after <==> limit >= 1
    ensures |CheckpointNames(before[name := f], prefix)| <= limit ==> after == before[name := f]
    ensures name in after ==> Latest(after, prefix) == Some(name) && after[name] == f
  {
    var written := before[name := f];
    NewestIsLatest(written, clock, prefix, name);
    if |CheckpointNames(written, prefix)| <= limit {
      PrunedByAgeWithinLimit(written, after, prefix, limit);
    }
    if limit >= 1 {
      PrunedByAgeKeepsLatest(written, after, clock + 1, prefix, limit, name);
    } else {
      assert CheckpointNames(after, prefix) == {};
    }
  }

  lemma PruneStepByAge(before: map<string, CheckpointFile>, names: set<string>, files: set<string>, oldest: string)
    requires oldest in files && files <= names <= before.Keys
    requires AllOlder(before, names - files, files)
    requires forall n :: n in files && n != oldest ==> before[oldest].mtime < before[n].mtime
    ensures (before - (names - files)) - {oldest} == before - (names - (files - {oldest}))
    ensures AllOlder(before, names - (files - {oldest}), files - {oldest})
  {
  }

  lemma PrunedByAgeAtExit(before: map<string, CheckpointFile>, after: map<string, CheckpointFile>,
                          prefix: string, limit: int, files: set<string>)
    requires files <= CheckpointNames(before, prefix)
    requires after == before - (CheckpointNames(before, prefix) - files)
    requires |files| < |CheckpointNames(before, prefix)| ==> |files| >= limit
    requires |files| <= limit || files == {}
    requires AllOlder(before, CheckpointNames(before, prefix) - files, files)
    ensures PrunedByAge(before, after, prefix, limit)
  {
    var names := CheckpointNames(before, prefix);
    NamesAfterRemoval(before, prefix, names - files);
    assert names - (names - files) == files;
    if files == {} && limit < 0 {
      assert |names| > limit;
    }
  }

  /** The file of `names` with the smallest modification time. */
  method Oldest(files: map<string, CheckpointFile>, names: set<string>) returns (m: string)
    requires names != {} && names <= files.Keys
    requires forall n, k :: n in files && k in files && n != k ==> files[n].mtime != files[k].mtime
    ensures m in names
    ensures forall n :: n in names && n != m ==> files[m].mtime < files[n].mtime
  {
    m :| m in names;
    var rest := names - {m};
    while rest != {}
      invariant rest <= names && m in names && m !in rest
      invariant forall n :: n in names - rest && n != m ==> files[m].mtime < files[n].mtime
      decreases rest
    {
      var n :| n in rest;
      if files[n].mtime < files[m].mtime {
        m := n;
      }
      rest := rest - {n};
    }
  }

  /** A checkpoint directory and the clock that stamps the files written to it. */
  class Directory {
    var files: map<string, CheckpointFile>
    var clock: nat

    ghost predicate Valid()
      reads this
    {
      Stamped(files, clock)
    }

    /** A directory holding whatever checkpoint files earlier runs left. */
    constructor (existing: map<string, CheckpointFile>, time: nat)
      requires Stamped(existing, time)
      ensures Valid()
      ensures files == existing && clock == time
    {
      files := existing;
      clock := time;
    }

    /** `open(path, 'w')` + `json.dump`: the file is created or replaced and
      * stamped with the current time. */
    method Write(name: string, id: nat, data: map<Key, Value>)
      requires Valid()
      modifies this
      ensures Valid()
      ensures files == old(files)[name := CheckpointFile(id, data, old(clock))]
      ensures clock == old(clock) + 1
    {
      files := files[name := CheckpointFile(id, data, clock)];
      clock := clock + 1;
    }

    /** `os.remove(path)` of a file the directory listing returned. */
    method Remove(name: string)
      requires Valid()
      requires name in files
      modifies this
      ensures Valid()
      ensures files == old(files) - {name}
      ensures clock == old(clock)
    {
      files := files - {name};
    }

    /** The listing sorted by modification time, newest first, and its head. */
    method FindLatest(prefix: string) returns (latest: Option<string>)
      requires Valid()
      ensures latest == Latest(files, prefix)
    {
      var candidates := CheckpointNames(files, prefix);
      var rest := candidates;
      latest := None;
      while rest != {}
        invariant rest <= candidates
        invariant latest.None? <==> rest == candidates
        invariant latest.Some? ==> latest.value in candidates - rest
        invariant latest.Some? ==> forall n :: n in candidates - rest ==> files[n].mtime <= files[latest.value].mtime
        decreases rest
      {
        var n :| n in rest;
        if latest.None? || files[n].mtime > files[latest.value].mtime {
          latest := Some(n);
        }
        rest := rest - {n};
      }
      if latest.Some? {
        LatestUnique(files, clock, prefix, latest.value);
      }
    }

    /** `_cleanup_old_checkpoints`: sort the checkpoint names as strings and
      * pop and delete from the front while more than `limit` remain. Popping
      * from an empty list raises, which the source catches; that is the
      * `break` below. */
    method PruneOldest(prefix: string, limit: int)
      requires Valid()
      modifies this
      ensures Valid()
      ensures Pruned(old(files), files, prefix, limit)
      ensures clock == old(clock)
    {
      var remaining := CheckpointNames(files, prefix);
      ghost var names := remaining;
      while |remaining| > limit
        invariant Valid() && clock == old(clock)
        invariant remaining <= names
        invariant files == old(files) - (names - remaining)
        invariant |remaining| < |names| ==> |remaining| >= limit
        invariant AllBelow(names - remaining, remaining)
        decreases |remaining|
      {
        if remaining == {} {
          break;
        }
        var oldest := Smallest(remaining);
        PruneStep(old(files), names, remaining, oldest);
        Remove(oldest);
        remaining := remaining - {oldest};
      }
      PrunedAtExit(old(files), files, prefix, limit, remaining);
    }

    /** The file half of `create_checkpoint`: write the snapshot, then
      * clean up, with the retention corrected to evict by age. The new file
      * survives whenever the limit is at least one, and it is then the one a
      * load picks. */
    method SaveCheckpoint(prefix: string, limit: int, name: string, id: nat, data: map<Key, Value>)
      requires Valid()
      requires StartsWith(name, prefix) && EndsWith(name, JsonSuffix)
      modifies this
      ensures Valid()
      ensures clock == old(clock) + 1
      ensures PrunedByAge(old(files)[name := CheckpointFile(id, data, old(clock))], files, prefix, limit)
      ensures |CheckpointNames(old(files)[name := CheckpointFile(id, data, old(clock))], prefix)| <= limit
              ==> files == old(files)[name := CheckpointFile(id, data, old(clock))]
      ensures name in files <==> limit >= 1
      ensures name in files ==> Latest(files, prefix) == Some(name) && files[name] == CheckpointFile(id, data, old(clock))
    {
      Write(name, id, data);
      PruneByAge(prefix, limit);
      WrittenThenPrunedByAge(old(files), old(clock), prefix, limit, name, CheckpointFile(id, data, old(clock)), files);
    }

    /** `_cleanup_old_checkpoints` as its retention promise reads: while more
      * than `limit` checkpoint files remain, delete the one written longest
      * ago. */
    method PruneByAge(prefix: string, limit: int)
      requires Valid()
      modifies this
      ensures Valid()
      ensures PrunedByAge(old(files), files, prefix, limit)
      ensures clock == old(clock)
    {
      var remaining := CheckpointNames(files, prefix);
      ghost var names := remaining;
      while |remaining| > limit
        invariant Valid() && clock == old(clock)
        invariant remaining <= names
        invariant files == old(files) - (names - remaining)
        invariant |remaining| < |names| ==> |remaining| >= limit
        invariant AllOlder(old(files), names - remaining, remaining)
        decreases |remaining|
      {
        if remaining == {} {
          break;
        }
        var oldest := Oldest(files, remaining);
        PruneStepByAge(old(files), names, remaining, oldest);
        Remove(oldest);
        remaining := remaining - {oldest};
      }
      PrunedByAgeAtExit(old(files), files, prefix, limit, remaining);
    }
  }

  /** The file system: the checkpoint directories by path. */
  class FileSystem {
    var dirs: map<string, Directory>

    ghost predicate Valid()
      reads this, dirs.Values
    {
      forall p :: p in dirs ==> dirs[p].Valid()
    }

    constructor (existing: map<string, Directory>)
      requires forall p :: p in existing ==> existing[p].Valid()
      ensures Valid() && dirs == existing
    {
      dirs := existing;
    }

    /** `os.makedirs(path, exist_ok=True)`, handing back the directory. */
    method MakeDirs(path: string) returns (d: Directory)
      requires Valid()
      modifies this
      ensures Valid()
      ensures path in dirs && d == dirs[path] && d.Valid()
      ensures path in old(dirs) ==> dirs == old(dirs)
      ensures path !in old(dirs) ==> fresh(d) && d.files == map[] && dirs == old(dirs)[path := d]
    {
      if path in dirs {
        d := dirs[path];
      } else {
        d := new Directory(map[], 0);
        dirs := dirs[path := d];
      }
    }
  }
}
