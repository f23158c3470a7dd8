/**
 * Checkpoint eviction as written orders file names as strings, while the
 * names carry the checkpoint id in decimal without padding. From checkpoint
 * 10 on, the newest checkpoint can sort before older ones and be the first
 * file deleted, so a later load restores an older snapshot. Eviction by
 * modification time (`Storage.Directory.PruneByAge`) keeps the newest file
 * whenever the limit is at least one (`Storage.PrunedByAgeKeepsLatest`).
 */
module Findings {
  import opened Common
  import opened Storage
  import opened Checkpointing

  /** A shared prefix does not change the string order. */
  lemma {:induction false} LexLessSharedPrefix(p: string, x: string, y: string)
    requires LexLess(x, y)
    ensures LexLess(p + x, p + y)
    decreases |p|
  {
    if |p| == 0 {
      assert p + x == x && p + y == y;
    } else {
      LexLessSharedPrefix(p[1..], x, y);
      assert (p + x)[0] == (p + y)[0];
      assert (p + x)[1..] == p[1..] + x;
      assert (p + y)[1..] == p[1..] + y;
    }
  }

  /** Over the limit, eviction by name always deletes the name that sorts
    * first, however recently that file was written. */
  lemma PrunedEvictsFirstName(before: map<string, CheckpointFile>, after: map<string, CheckpointFile>,
                              prefix: string, limit: int, first: string)
    requires Pruned(before, after, prefix, limit)
    requires 0 <= limit < |CheckpointNames(before, prefix)|
    requires first in CheckpointNames(before, prefix)
    requires forall m :: m in CheckpointNames(before, prefix) && m != first ==> LexLess(first, m)
    ensures first !in after
  {
    var names := CheckpointNames(before, prefix);
    var kept := CheckpointNames(after, prefix);
    if first in after {
      assert first in kept;
      assert names == kept + (names - kept);
      assert |names| == |kept| + |names - kept|;
      var removed :| removed in names - kept;
      assert LexLess(removed, first);
      assert LexLess(first, removed);
      LexLessTransitive(first, removed, first);
      LexLessIrreflexive(first);
    }
  }

  const OlderCheckpoint := FileName(CheckpointPrefix, 5, 100)
  const NewerCheckpoint := FileName(CheckpointPrefix, 10, 200)

  /** Checkpoint 5, written first, and checkpoint 10, written last. */
  function TwoCheckpoints(): map<string, CheckpointFile> {
    map[OlderCheckpoint := CheckpointFile(5, map[], 0),
        NewerCheckpoint := CheckpointFile(10, map["issue_0" := Text("saved")], 1)]
  }

  lemma NewerSortsFirst()
    ensures OlderCheckpoint != NewerCheckpoint
    ensures LexLess(NewerCheckpoint, OlderCheckpoint)
  {
    var tail10 := NatToString(10) + "_" + NatToString(200) + JsonSuffix;
    var tail5 := NatToString(5) + "_" + NatToString(100) + JsonSuffix;
    assert NatToString(10) == "10";
    assert NatToString(5) == "5";
    assert tail10[0] == '1' && tail5[0] == '5';
    assert LexLess(tail10, tail5);
    assert NewerCheckpoint == CheckpointPrefix + tail10;
    assert OlderCheckpoint == CheckpointPrefix + tail5;
    LexLessSharedPrefix(CheckpointPrefix, tail10, tail5);
    assert NewerCheckpoint[|CheckpointPrefix|] != OlderCheckpoint[|CheckpointPrefix|];
  }

  /** Both files are checkpoint files, and checkpoint 10 is the newest. */
  lemma TwoCheckpointsListing()
    ensures CheckpointNames(TwoCheckpoints(), CheckpointPrefix) == {OlderCheckpoint, NewerCheckpoint}
    ensures Stamped(TwoCheckpoints(), 2)
    ensures IsLatest(TwoCheckpoints(), CheckpointPrefix, NewerCheckpoint)
  {
    NewerSortsFirst();
    var before := TwoCheckpoints();
    assert before[OlderCheckpoint].mtime == 0 && before[NewerCheckpoint].mtime == 1;
  }

  /** With room for one checkpoint, the cleanup after writing checkpoint 10
    * deletes checkpoint 10 itself: the directory's newest file is gone and
    * a load would pick the older checkpoint 5. */
  lemma NewestCheckpointEvicted(after: map<string, CheckpointFile>)
    requires Pruned(TwoCheckpoints(), after, CheckpointPrefix, 1)
    ensures Latest(TwoCheckpoints(), CheckpointPrefix) == Some(NewerCheckpoint)
    ensures NewerCheckpoint !in after
    ensures Latest(after, CheckpointPrefix) == Some(OlderCheckpoint)
  {
    var before := TwoCheckpoints();
    NewerSortsFirst();
    TwoCheckpointsListing();
    LatestUnique(before, 2, CheckpointPrefix, NewerCheckpoint);
    PrunedEvictsFirstName(before, after, CheckpointPrefix, 1, NewerCheckpoint);
    assert after == map[OlderCheckpoint := CheckpointFile(5, map[], 0)];
    assert CheckpointNames(after, CheckpointPrefix) == {OlderCheckpoint};
    assert IsLatest(after, CheckpointPrefix, OlderCheckpoint);
    LatestUnique(after, 2, CheckpointPrefix, OlderCheckpoint);
  }

  /** The same two files pruned by age keep checkpoint 10. */
  lemma NewestCheckpointKeptByAge(after: map<string, CheckpointFile>)
    requires PrunedByAge(TwoCheckpoints(), after, CheckpointPrefix, 1)
    ensures NewerCheckpoint in after
    ensures Latest(after, CheckpointPrefix) == Some(NewerCheckpoint)
  {
    var before := TwoCheckpoints();
    NewerSortsFirst();
    TwoCheckpointsListing();
    PrunedByAgeKeepsLatest(before, after, 2, CheckpointPrefix, 1, NewerCheckpoint);
  }
}
