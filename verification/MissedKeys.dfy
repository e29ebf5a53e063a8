/**
 Which keys a lookup misses when the files of a level overlap. The bisection relies on the files'
 largest keys ascending; a file it probes that breaks this sends it to the wrong side.
 */
module MissedKeys {
  import opened InternalKeys
  import opened Versions
  import opened InputSelection
  import opened CompactionLoop
  import opened CompactionReads
  import opened VersionSteps
  import opened LayeredGet
  import opened DbRuns
  import opened NestedRuns

  /** The bisection of left..right for `key` compares with file i. */
  ghost predicate Probes(files: seq<File>, key: IKey, left: nat, right: nat, i: nat)
    requires left <= right <= |files|
    decreases right - left
  {
    left < right &&
    var mid := (left + right) / 2;
    || i == mid
    || (if Less(Largest(files[mid]), key) then Probes(files, key, mid + 1, right, i)
        else Probes(files, key, left, mid, i))
  }

  /** File i stands before file j but does not end before the key, or behind it but ends before the key. */
  ghost predicate Misleads(files: seq<File>, key: IKey, j: nat, i: nat) {
    i < |files| && if Less(Largest(files[i]), key) then j < i else i < j
  }

  ghost predicate Misled(files: seq<File>, key: IKey, left: nat, right: nat, j: nat)
    requires left <= right <= |files|
  {
    exists i: nat :: Probes(files, key, left, right, i) && Misleads(files, key, j, i)
  }

  lemma MisledStep(files: seq<File>, key: IKey, left: nat, right: nat, j: nat)
    requires left < right <= |files|
    ensures var mid := (left + right) / 2;
            Misled(files, key, left, right, j) <==>
              Misleads(files, key, j, mid) ||
              if Less(Largest(files[mid]), key) then Misled(files, key, mid + 1, right, j)
              else Misled(files, key, left, mid, j)
  {
    var mid := (left + right) / 2;
    if Misleads(files, key, j, mid) {
      assert Probes(files, key, left, right, mid);
    }
    if Less(Largest(files[mid]), key) {
      forall i: nat | Probes(files, key, mid + 1, right, i)
        ensures Probes(files, key, left, right, i)
      {}
    } else {
      forall i: nat | Probes(files, key, left, mid, i)
        ensures Probes(files, key, left, right, i)
      {}
    }
  }

  /** Whatever the order of the files, the bisection ends at file j if and only if no file it probes misleads it. */
  lemma {:induction false} BisectEndsIff(files: seq<File>, key: IKey, left: nat, right: nat, j: nat)
    requires left <= j <= right <= |files| && (j < |files| ==> !Less(Largest(files[j]), key))
    ensures Bisect(files, key, left, right) == j <==> !Misled(files, key, left, right, j)
    decreases right - left
  {
    if left < right {
      var mid := (left + right) / 2;
      MisledStep(files, key, left, right, j);
      if Less(Largest(files[mid]), key) {
        if mid < j {
          BisectEndsIff(files, key, mid + 1, right, j);
        }
      } else if j <= mid {
        BisectEndsIff(files, key, left, mid, j);
      }
    }
  }

  /** `e` is the newest entry of the level that a reader at the snapshot may see, and file j has it. */
  ghost predicate NewestIn(files: seq<File>, j: nat, u: UserKey, snapshot: SeqNum, e: Entry) {
    && j < |files| && e in files[j].entries && IsNewest(FileEntries(files), u, snapshot, e)
    && forall i | 0 <= i < |files| && i != j :: e !in files[i].entries
  }

  /** The file that the bisection for `u` ends at, if any, does not have the entry. */
  ghost predicate EntryMissed(files: seq<File>, u: UserKey, snapshot: SeqNum, e: Entry) {
    var i := Bisect(files, SeekKey(u, snapshot), 0, |files|);
    i < |files| ==> e !in files[i].entries
  }

  lemma SeenBehindSeekKey(files: seq<File>, j: nat, u: UserKey, snapshot: SeqNum, e: Entry)
    requires NewestIn(files, j, u, snapshot, e)
    ensures !Less(Largest(files[j]), SeekKey(u, snapshot))
  {
    EntryBounds(files[j], e);
    SeekKeyOrder(u, snapshot, Largest(files[j]));
  }

  /** A lookup misses the newest entry of a key if and only if the bisection probes a misleading file. */
  lemma MissedIff(files: seq<File>, j: nat, u: UserKey, snapshot: SeqNum, e: Entry)
    requires NewestIn(files, j, u, snapshot, e)
    ensures EntryMissed(files, u, snapshot, e) <==> Misled(files, SeekKey(u, snapshot), 0, |files|, j)
  {
    SeenBehindSeekKey(files, j, u, snapshot, e);
    BisectEndsIff(files, SeekKey(u, snapshot), 0, |files|, j);
  }

  /** If no other file has entries of the key, nothing of it is found at the level then. */
  lemma NothingFoundIff(files: seq<File>, j: nat, u: UserKey, snapshot: SeqNum, e: Entry)
    requires NewestIn(files, j, u, snapshot, e)
    requires forall i, d | 0 <= i < |files| && i != j && d in files[i].entries :: d.key.user != u
    ensures LevelMisses(files, u, snapshot) <==> Misled(files, SeekKey(u, snapshot), 0, |files|, j)
  {
    MissedIff(files, j, u, snapshot, e);
  }

  /** In the builder's order a misleading file overlaps the one that has the entry. */
  lemma MisleadingOverlaps(files: seq<File>, j: nat, u: UserKey, snapshot: SeqNum, e: Entry, i: nat)
    requires NewestIn(files, j, u, snapshot, e) && InKeyOrder(files) && Misleads(files, SeekKey(u, snapshot), j, i)
    ensures files[i] != files[j] && !Apart(files[i], files[j])
  {
    var f, g := files[i], files[j];
    var first, last := f.entries[0], f.entries[|f.entries| - 1];
    EntryBounds(g, e);
    SeekKeyOrder(u, snapshot, Largest(f));
    assert first in f.entries && last in f.entries && f in files && last in FileEntries(files);
    EntryBounds(f, first);
    if i < j {
      assert BySmallestKey(f, g);
    } else {
      assert BySmallestKey(g, f);
    }
  }

  /** What is known of the output level, with `files` before and `after` an installation. */
  ghost predicate LevelInstalled(files: seq<File>, w: Work, outs: seq<File>, after: seq<File>)
    requires w.Busy?
  {
    && SortedDisjoint(files) && SortedDisjoint(outs) && InKeyOrder(after)
    && FromInputs(w.in0, w.in1, outs) && LevelsSorted(w.base) && InputsHold(w.base, w.level, w.in0, w.in1)
    && forall f | f in after :: f in outs || (f in files && f !in w.in1)
  }

  lemma InstallationMakes(v: Version, v': Version, w: Work, outs: seq<File>)
    requires w.Busy? && VersionInv(v) && InputsPresent(v, w.level, w.in0, w.in1)
    requires MergedInputs(w.in0, w.in1, w.merged) && Compacted(v, v', w.level, w.in0, w.in1, outs)
    requires Contents(outs) == Kept(w.base, w.level, w.merged, |w.merged|, w.snapshot)
    requires VersionInv(w.base) && InputsHold(w.base, w.level, w.in0, w.in1)
    ensures LevelInstalled(v[w.level + 1], w, outs, v'[w.level + 1])
  {
    KeptFromInputs(w.base, w.level, w.in0, w.in1, outs, w.merged, w.snapshot);
    InstalledFiles(v, v', w.level, w.in0, w.in1, outs);
    assert SortedDisjoint(v[w.level + 1]);
  }

  /** One is an output, the other was flushed to the level while the compaction ran. */
  ghost predicate Crossed(files: seq<File>, w: Work, outs: seq<File>, f: File, g: File)
    requires w.Busy? && w.level + 1 < NUM_LEVELS
  {
    || (f in outs && g in files && g !in w.base[w.level + 1])
    || (g in outs && f in files && f !in w.base[w.level + 1])
  }

  /** Only such files can overlap after an installation. */
  lemma OverlapIsCrossed(files: seq<File>, w: Work, outs: seq<File>, after: seq<File>, f: File, g: File)
    requires w.Busy? && LevelInstalled(files, w, outs, after) && f in after && g in after && f != g
    ensures Apart(f, g) || Crossed(files, w, outs, f, g)
  {
    if f in outs && g in outs {
      SortedApart(outs, f, g);
    } else if f !in outs && g !in outs {
      SortedApart(files, f, g);
    } else {
      var o, h := if f in outs then f else g, if f in outs then g else f;
      if h in w.base[w.level + 1] {
        OutputApart(w.base, w.level, w.in0, w.in1, outs, h, o);
      }
    }
  }

  lemma MisleadingIsCrossed(files: seq<File>, w: Work, outs: seq<File>, after: seq<File>, j: nat, u: UserKey,
                            snapshot: SeqNum, e: Entry, i: nat)
    requires w.Busy? && LevelInstalled(files, w, outs, after) && NewestIn(after, j, u, snapshot, e)
    requires Misleads(after, SeekKey(u, snapshot), j, i)
    ensures Crossed(files, w, outs, after[i], after[j])
  {
    MisleadingOverlaps(after, j, u, snapshot, e, i);
    OverlapIsCrossed(files, w, outs, after, after[i], after[j]);
  }

  /**
   After an installation, a lookup misses the newest entry that the output level has of a key if and
   only if the bisection probes a misleading file; and of the two files one is an output and the other
   was flushed to the level while the compaction ran.
   */
  lemma InstalledMissesIff(db: Db, w: Work, outs: seq<File>, db': Db, j: nat, u: UserKey, snapshot: SeqNum, e: Entry)
    requires w.Busy? && DbInv(db) && Begun(db, w) && Installs(db, w, outs, db')
    requires NewestIn(db'.version[w.level + 1], j, u, snapshot, e)
    ensures var after, key := db'.version[w.level + 1], SeekKey(u, snapshot);
            && (EntryMissed(after, u, snapshot, e) <==> Misled(after, key, 0, |after|, j))
            && forall i: nat | Misleads(after, key, j, i) ::
              Crossed(db.version[w.level + 1], w, outs, after[i], after[j])
  {
    var files, after := db.version[w.level + 1], db'.version[w.level + 1];
    InstallationMakes(db.version, db'.version, w, outs);
    MissedIff(after, j, u, snapshot, e);
    forall i: nat | Misleads(after, SeekKey(u, snapshot), j, i)
      ensures Crossed(files, w, outs, after[i], after[j])
    {
      MisleadingIsCrossed(files, w, outs, after, j, u, snapshot, e, i);
    }
  }
}
