/**
 The steps that change a version - flush, trivial move, compaction - and the proof that each keeps
 the version invariant.
 */
module VersionSteps {
  import opened Bytes
  import opened InternalKeys
  import opened Versions
  import opened InputSelection
  import opened CompactionLoop
  import opened CompactionReads

  // ----- output files

  ghost function Bodies(fs: seq<File>): seq<seq<Entry>> {
    seq(|fs|, i requires 0 <= i < |fs| => fs[i].entries)
  }

  /** The entries of a list of files, end to end. */
  ghost function Contents(fs: seq<File>): seq<Entry> {
    Flatten(Bodies(fs))
  }

  lemma ContentsLast(fs: seq<File>)
    requires fs != []
    ensures Contents(fs) == Contents(fs[..|fs| - 1]) + fs[|fs| - 1].entries
  {
    assert Bodies(fs)[..|fs| - 1] == Bodies(fs[..|fs| - 1]);
  }

  lemma {:induction false} ContentsMember(fs: seq<File>, e: Entry)
    ensures e in Contents(fs) <==> e in FileEntries(fs)
  {
    if fs != [] {
      var n := |fs| - 1;
      ContentsLast(fs);
      ContentsMember(fs[..n], e);
      assert fs == fs[..n] + [fs[n]];
    }
  }

  /** Cutting a sorted stream into files gives a sorted level. */
  lemma {:induction false} CutIsSorted(fs: seq<File>)
    requires Sorted(Contents(fs))
    ensures SortedDisjoint(fs)
  {
    if fs != [] {
      var n := |fs| - 1;
      var c := Contents(fs[..n]);
      ContentsLast(fs);
      SortedPrefix(c, fs[n].entries);
      CutIsSorted(fs[..n]);
      forall i | 0 <= i < n
        ensures FileBefore(fs[i], fs[n])
      {
        var last := fs[i].entries[|fs[i].entries| - 1];
        assert fs[..n][i] == fs[i] && fs[i] in fs[..n] && last in fs[i].entries;
        ContentsMember(fs[..n], last);
        SortedAcross(c, fs[n].entries, last);
      }
    }
  }

  lemma SortedPrefix(a: seq<Entry>, b: seq<Entry>)
    requires Sorted(a + b)
    ensures Sorted(a)
  {
    assert forall i | 0 <= i < |a| :: (a + b)[i] == a[i];
  }

  lemma SortedAcross(a: seq<Entry>, b: seq<Entry>, e: Entry)
    requires Sorted(a + b) && e in a && b != []
    ensures Before(e.key, b[0].key)
  {
    var i :| 0 <= i < |a| && a[i] == e;
    assert (a + b)[i] == e && (a + b)[|a|] == b[0];
  }

  // ----- file numbers

  ghost predicate NumbersBelow(v: Version, next: nat) {
    forall l, f | 0 <= l < NUM_LEVELS && f in v[l] :: f.number < next
  }

  /** Output files get new numbers; a file that is only moved keeps its number. */
  ghost predicate OutputNumbers(in0: seq<File>, outs: seq<File>, next: nat, next': nat) {
    && next <= next'
    && (forall f | f in outs :: next <= f.number < next' || f in in0)
    && forall f, g | f in outs && g in outs && f.number == g.number :: f == g
  }

  // ----- compaction

  /** The edit of a compaction: the inputs go, the outputs come in at level + 1. */
  ghost predicate Compacted(v: Version, v': Version, level: nat, in0: seq<File>, in1: seq<File>, outs: seq<File>) {
    && level + 1 < NUM_LEVELS
    && LevelEdited(v[level], Numbers(in0), [], v'[level])
    && LevelEdited(v[level + 1], Numbers(in1), outs, v'[level + 1])
    && forall l | 0 <= l < NUM_LEVELS && l != level && l != level + 1 :: v'[l] == v[l]
  }

  ghost predicate Survives(v: Version, level: nat, in0: seq<File>, in1: seq<File>, l: nat, f: File) {
    l < NUM_LEVELS && f in v[l] && !(l == level && f in in0) && !(l == level + 1 && f in in1)
  }

  lemma CompactedFiles(v: Version, v': Version, level: nat, in0: seq<File>, in1: seq<File>, outs: seq<File>, l: nat,
                       f: File)
    requires VersionInv(v) && InputsPresent(v, level, in0, in1) && Compacted(v, v', level, in0, in1, outs)
    requires l < NUM_LEVELS
    ensures f in v'[l] <==> Survives(v, level, in0, in1, l, f) || (l == level + 1 && f in outs)
  {
    if l == level && f in v[l] && f.number in Numbers(in0) {
      var g :| g in in0 && g.number == f.number;
    }
    if l == level + 1 && f in v[l] && f.number in Numbers(in1) {
      var g :| g in in1 && g.number == f.number;
    }
  }

  /** Everything an output holds comes from an input. */
  ghost predicate FromInputs(in0: seq<File>, in1: seq<File>, outs: seq<File>) {
    forall o, e | o in outs && e in o.entries :: e in FileEntries(in0) || e in FileEntries(in1)
  }

  /** A surviving file of `level` or shallower is newer than every output. */
  lemma SurvivorNewer(v: Version, level: nat, in0: seq<File>, in1: seq<File>, outs: seq<File>, l: nat, f: File, o: File)
    requires ShallowerNewer(v) && InputsPresent(v, level, in0, in1) && FromInputs(in0, in1, outs)
    requires Survives(v, level, in0, in1, l, f) && l <= level && o in outs
    ensures NewerFile(f, o)
  {
    forall d, e | d in f.entries && e in o.entries && d.key.user == e.key.user
      ensures d.key.seqno > e.key.seqno
    {
      if e in FileEntries(in0) {
        var h :| h in in0 && e in h.entries;
        if l == level { assert LeftBehind(f, h); } else { assert NewerFile(f, h); }
      } else {
        var h :| h in in1 && e in h.entries;
        assert NewerFile(f, h);
      }
    }
  }

  /** Every entry of an output comes from an input. */
  lemma OutputSource(v: Version, level: nat, in0: seq<File>, in1: seq<File>, outs: seq<File>, o: File,
                     e: Entry) returns (l: nat, h: File)
    requires InputsPresent(v, level, in0, in1) && FromInputs(in0, in1, outs) && o in outs && e in o.entries
    ensures level <= l <= level + 1 && h in v[l] && e in h.entries
  {
    if e in FileEntries(in0) {
      h :| h in in0 && e in h.entries;
      l := level;
    } else {
      h :| h in in1 && e in h.entries;
      l := level + 1;
    }
  }

  /** Every output is newer than the files deeper than its level. */
  lemma OutputNewer(v: Version, level: nat, in0: seq<File>, in1: seq<File>, outs: seq<File>, l: nat, f: File, o: File)
    requires ShallowerNewer(v) && InputsPresent(v, level, in0, in1) && FromInputs(in0, in1, outs)
    requires level + 1 < l < NUM_LEVELS && f in v[l] && o in outs
    ensures NewerFile(o, f)
  {
    forall d, e | d in o.entries && e in f.entries && d.key.user == e.key.user
      ensures d.key.seqno > e.key.seqno
    {
      var k, h := OutputSource(v, level, in0, in1, outs, o, d);
      DeeperOlder(v, k, h, l, f);
    }
  }

  lemma DeeperOlder(v: Version, l: nat, f: File, m: nat, g: File)
    requires ShallowerNewer(v) && l < m < NUM_LEVELS && f in v[l] && g in v[m]
    ensures NewerFile(f, g)
  {}

  /** A file of level + 1 that is left out lies wholly before or wholly after all inputs. */
  lemma OneSide(v: Version, level: nat, in0: seq<File>, in1: seq<File>, g: File, e: Entry)
    requires LevelsSorted(v) && InputsHold(v, level, in0, in1) && g in v[level + 1] && g !in in1
    requires e in FileEntries(in0) || e in FileEntries(in1)
    ensures Largest(g).user < MinUser(in0) ==> Before(Largest(g), e.key)
    ensures !(Largest(g).user < MinUser(in0)) ==> Before(e.key, Smallest(g))
  {
    EntryBounds(g, g.entries[0]);
    if e in FileEntries(in0) {
      var h :| h in in0 && e in h.entries;
      EntryBounds(h, e);
    } else {
      var h :| h in in1 && e in h.entries;
      EntryBounds(h, e);
      EntryBounds(h, h.entries[0]);
      assert SortedDisjoint(v[level + 1]);
      SortedApart(v[level + 1], g, h);
    }
  }

  lemma OutputApart(v: Version, level: nat, in0: seq<File>, in1: seq<File>, outs: seq<File>, g: File, o: File)
    requires LevelsSorted(v) && InputsHold(v, level, in0, in1) && FromInputs(in0, in1, outs)
    requires g in v[level + 1] && g !in in1 && o in outs
    ensures Apart(g, o)
  {
    OneSide(v, level, in0, in1, g, o.entries[0]);
    OneSide(v, level, in0, in1, g, o.entries[|o.entries| - 1]);
  }

  /** Every output keeps apart from the files of level + 1 that are left out. */
  ghost predicate OutsApart(v: Version, level: nat, in1: seq<File>, outs: seq<File>)
    requires level + 1 < NUM_LEVELS
  {
    forall g, o {:trigger Apart(g, o)} | g in v[level + 1] && g !in in1 && o in outs :: Apart(g, o)
  }

  /** A compaction keeps the version invariant, whether or not the inputs of level + 1 are closed. */
  lemma CompactionKeepsInv(v: Version, v': Version, level: nat, in0: seq<File>, in1: seq<File>, outs: seq<File>,
                           next: nat, next': nat)
    requires VersionInv(v) && NumbersBelow(v, next) && InputsHold(v, level, in0, in1)
    requires FromInputs(in0, in1, outs) && SortedDisjoint(outs) && OutputNumbers(in0, outs, next, next')
    requires Compacted(v, v', level, in0, in1, outs)
    ensures VersionInv(v') && NumbersBelow(v', next') && FilesAfter(v, v', level, in0, in1, outs)
  {
    forall g, o | g in v[level + 1] && g !in in1 && o in outs
      ensures Apart(g, o)
    {
      OutputApart(v, level, in0, in1, outs, g, o);
    }
    InstalledInvIff(v, v', level, in0, in1, outs, next, next');
  }

  lemma InstalledFiles(v: Version, v': Version, level: nat, in0: seq<File>, in1: seq<File>, outs: seq<File>)
    requires VersionInv(v) && InputsPresent(v, level, in0, in1) && Compacted(v, v', level, in0, in1, outs)
    ensures FilesAfter(v, v', level, in0, in1, outs)
  {
    forall l, f | 0 <= l < NUM_LEVELS
      ensures f in v'[l] <==> Survives(v, level, in0, in1, l, f) || (l == level + 1 && f in outs)
    {
      CompactedFiles(v, v', level, in0, in1, outs, l, f);
    }
  }

  /** Installing outputs keeps the version invariant if and only if they keep apart from what is left out. */
  lemma InstalledInvIff(v: Version, v': Version, level: nat, in0: seq<File>, in1: seq<File>, outs: seq<File>,
                        next: nat, next': nat)
    requires VersionInv(v) && NumbersBelow(v, next) && InputsPresent(v, level, in0, in1)
    requires FromInputs(in0, in1, outs) && SortedDisjoint(outs) && OutputNumbers(in0, outs, next, next')
    requires Compacted(v, v', level, in0, in1, outs)
    ensures VersionInv(v') <==> OutsApart(v, level, in1, outs)
    ensures NumbersBelow(v', next') && FilesAfter(v, v', level, in0, in1, outs)
  {
    InstalledFiles(v, v', level, in0, in1, outs);
    CompactionNumbers(v, v', level, in0, in1, outs, next, next');
    CompactionNewer(v, v', level, in0, in1, outs);
    if OutsApart(v, level, in1, outs) {
      CompactionSorted(v, v', level, in0, in1, outs);
    } else if LevelsSorted(v') {
      SortedOutsApart(v, v', level, in0, in1, outs, next, next');
    }
  }

  lemma SortedOutsApart(v: Version, v': Version, level: nat, in0: seq<File>, in1: seq<File>, outs: seq<File>,
                        next: nat, next': nat)
    requires NumbersDistinct(v) && NumbersBelow(v, next) && InputsPresent(v, level, in0, in1)
    requires OutputNumbers(in0, outs, next, next') && FilesAfter(v, v', level, in0, in1, outs) && LevelsSorted(v')
    ensures OutsApart(v, level, in1, outs)
  {
    assert SortedDisjoint(v'[level + 1]);
    forall g, o | g in v[level + 1] && g !in in1 && o in outs
      ensures Apart(g, o)
    {
      assert Survives(v, level, in0, in1, level + 1, g);
      SortedApart(v'[level + 1], g, o);
    }
  }

  ghost predicate FilesAfter(v: Version, v': Version, level: nat, in0: seq<File>, in1: seq<File>, outs: seq<File>) {
    forall l, f | 0 <= l < NUM_LEVELS ::
      f in v'[l] <==> Survives(v, level, in0, in1, l, f) || (l == level + 1 && f in outs)
  }

  lemma CompactionNewer(v: Version, v': Version, level: nat, in0: seq<File>, in1: seq<File>, outs: seq<File>)
    requires VersionInv(v) && InputsPresent(v, level, in0, in1) && FromInputs(in0, in1, outs)
    requires FilesAfter(v, v', level, in0, in1, outs)
    ensures ShallowerNewer(v') && LevelZeroOrdered(v')
  {
    forall l, m, f, g | 0 <= l < m < NUM_LEVELS && f in v'[l] && g in v'[m]
      ensures NewerFile(f, g)
    {
      if Survives(v, level, in0, in1, l, f) {
        if !Survives(v, level, in0, in1, m, g) {
          SurvivorNewer(v, level, in0, in1, outs, l, f, g);
        }
      } else {
        assert Survives(v, level, in0, in1, m, g);
        OutputNewer(v, level, in0, in1, outs, m, g, f);
      }
    }
    forall f, g | f in v'[0] && g in v'[0] && f.number > g.number
      ensures NewerFile(f, g)
    {
      assert Survives(v, level, in0, in1, 0, f) && Survives(v, level, in0, in1, 0, g);
    }
  }

  lemma CompactionNumbers(v: Version, v': Version, level: nat, in0: seq<File>, in1: seq<File>, outs: seq<File>,
                          next: nat, next': nat)
    requires NumbersDistinct(v) && NumbersBelow(v, next) && OutputNumbers(in0, outs, next, next')
    requires level + 1 < NUM_LEVELS && forall f | f in in0 :: f in v[level]
    requires FilesAfter(v, v', level, in0, in1, outs)
    ensures NumbersDistinct(v') && NumbersBelow(v', next')
  {
    forall l, m, f, g | 0 <= l < NUM_LEVELS && 0 <= m < NUM_LEVELS && f in v'[l] && g in v'[m] && f.number == g.number
      ensures l == m && f == g
    {
      assert Survives(v, level, in0, in1, l, f) || f in outs;
      assert Survives(v, level, in0, in1, m, g) || g in outs;
    }
  }

  lemma CompactionSorted(v: Version, v': Version, level: nat, in0: seq<File>, in1: seq<File>, outs: seq<File>)
    requires VersionInv(v) && InputsPresent(v, level, in0, in1) && SortedDisjoint(outs)
    requires OutsApart(v, level, in1, outs)
    requires FilesAfter(v, v', level, in0, in1, outs) && Compacted(v, v', level, in0, in1, outs)
    ensures LevelsSorted(v')
  {
    forall l | 1 <= l < NUM_LEVELS
      ensures SortedDisjoint(v'[l])
    {
      assert SortedDisjoint(v[l]);
      if l == level || l == level + 1 {
        forall f, g | f in v'[l] && g in v'[l] && f != g
          ensures Apart(f, g)
        {
          if Survives(v, level, in0, in1, l, f) {
            if Survives(v, level, in0, in1, l, g) { SortedApart(v[l], f, g); } else { assert Apart(f, g); }
          } else if Survives(v, level, in0, in1, l, g) {
            assert Apart(g, f);
          } else {
            SortedApart(outs, f, g);
          }
        }
        DisjointInOrder(v'[l]);
      }
    }
  }

  /** A surviving file holds none of the merged entries. */
  lemma SurvivorNotMerged(v: Version, level: nat, in0: seq<File>, in1: seq<File>, l: nat, f: File, e: Entry)
    requires VersionInv(v) && InputsPresent(v, level, in0, in1) && Survives(v, level, in0, in1, l, f) && e in f.entries
    ensures e !in FileEntries(in0) && e !in FileEntries(in1)
  {
    forall h | h in in0
      ensures e !in h.entries
    {
      FilesShareNothing(v, l, f, level, h, e);
    }
    forall h | h in in1
      ensures e !in h.entries
    {
      FilesShareNothing(v, l, f, level + 1, h, e);
    }
  }

  lemma FilesShareNothing(v: Version, l: nat, f: File, m: nat, g: File, e: Entry)
    requires VersionInv(v) && l < NUM_LEVELS && m < NUM_LEVELS && f in v[l] && g in v[m] && e in f.entries
    requires l != m || f != g
    ensures e !in g.entries
  {
    FilesComparable(v, l, m, f, g);
  }

  lemma StoredAfter(v: Version, v': Version, level: nat, in0: seq<File>, in1: seq<File>, outs: seq<File>, e: Entry)
    requires VersionInv(v) && InputsPresent(v, level, in0, in1) && FilesAfter(v, v', level, in0, in1, outs)
    requires e in AllEntries(v')
    ensures e in FileEntries(outs) || (e in AllEntries(v) && e !in FileEntries(in0) && e !in FileEntries(in1))
  {
    var l, f := InVersion(v', e);
    if Survives(v, level, in0, in1, l, f) {
      SurvivorNotMerged(v, level, in0, in1, l, f, e);
      VersionHas(v, l, f, e);
    }
  }

  lemma StillStored(v: Version, v': Version, level: nat, in0: seq<File>, in1: seq<File>, outs: seq<File>, e: Entry)
    requires level + 1 < NUM_LEVELS && FilesAfter(v, v', level, in0, in1, outs)
    ensures e in FileEntries(outs) ==> e in AllEntries(v')
    ensures e in AllEntries(v) && e !in FileEntries(in0) && e !in FileEntries(in1) ==> e in AllEntries(v')
  {
    if e in FileEntries(outs) {
      var o :| o in outs && e in o.entries;
      VersionHas(v', level + 1, o, e);
    }
    if e in AllEntries(v) && e !in FileEntries(in0) && e !in FileEntries(in1) {
      var l, f := InVersion(v, e);
      assert Survives(v, level, in0, in1, l, f);
      VersionHas(v', l, f, e);
    }
  }

  /** What is stored after a compaction: everything outside the inputs, and the kept entries. */
  lemma CompactedEntries(v: Version, v': Version, level: nat, in0: seq<File>, in1: seq<File>, outs: seq<File>,
                         m: seq<Entry>, snapshot: SeqNum)
    requires VersionInv(v) && InputsPresent(v, level, in0, in1) && FilesAfter(v, v', level, in0, in1, outs)
    requires MergedInputs(in0, in1, m) && Contents(outs) == Kept(v, level, m, |m|, snapshot)
    ensures AllEntries(v') == AfterCompaction(v, level, m, snapshot)
  {
    forall e
      ensures e in AllEntries(v') <==> e in AfterCompaction(v, level, m, snapshot)
    {
      ContentsMember(outs, e);
      assert e in Elems(m) <==> e in FileEntries(in0) || e in FileEntries(in1);
      StillStored(v, v', level, in0, in1, outs, e);
      if e in AllEntries(v') {
        StoredAfter(v, v', level, in0, in1, outs, e);
      }
    }
  }

  lemma KeptFromInputs(v: Version, level: nat, in0: seq<File>, in1: seq<File>, outs: seq<File>, m: seq<Entry>,
                       snapshot: SeqNum)
    requires MergedInputs(in0, in1, m) && Contents(outs) == Kept(v, level, m, |m|, snapshot)
    ensures FromInputs(in0, in1, outs) && SortedDisjoint(outs)
  {
    KeptSorted(v, level, m, |m|, snapshot);
    CutIsSorted(outs);
    forall o, e | o in outs && e in o.entries
      ensures e in FileEntries(in0) || e in FileEntries(in1)
    {
      ContentsMember(outs, e);
      KeptMember(v, level, m, |m|, snapshot, e);
      assert e in Elems(m);
    }
  }

  // ----- trivial move

  /** A trivial move is a compaction whose only output is its only input. */
  lemma MoveKeepsInv(v: Version, v': Version, level: nat, f: File, next: nat)
    requires VersionInv(v) && NumbersBelow(v, next) && InputsHold(v, level, [f], [])
    requires Compacted(v, v', level, [f], [], [f])
    ensures VersionInv(v') && NumbersBelow(v', next) && FilesAfter(v, v', level, [f], [], [f])
  {
    assert FromInputs([f], [], [f]) by { assert f in [f]; }
    CompactionKeepsInv(v, v', level, [f], [], [f], next, next);
  }

  lemma MovedEntries(v: Version, v': Version, level: nat, f: File)
    requires VersionInv(v) && InputsHold(v, level, [f], []) && FilesAfter(v, v', level, [f], [], [f])
    ensures AllEntries(v') == AllEntries(v)
  {
    assert f in [f] && FileEntries([]) == {};
    forall e
      ensures e in AllEntries(v') <==> e in AllEntries(v)
    {
      StillStored(v, v', level, [f], [], [f], e);
      if e in AllEntries(v') { StoredAfter(v, v', level, [f], [], [f], e); }
      if e in f.entries { VersionHas(v, level, f, e); }
    }
  }

  // ----- flush

  /** The edit of a memtable flush. */
  ghost predicate Flushed(v: Version, v': Version, level: nat, f: File) {
    && level < NUM_LEVELS && LevelEdited(v[level], {}, [f], v'[level])
    && forall l | 0 <= l < NUM_LEVELS && l != level :: v'[l] == v[l]
  }

  ghost predicate NewerThanAll(f: File, v: Version) {
    forall l, g | 0 <= l < NUM_LEVELS && g in v[l] :: NewerFile(f, g)
  }

  /** Nothing at the chosen level or above it overlaps the new file, unless it goes to level 0. */
  ghost predicate LevelFits(v: Version, level: nat, f: File) {
    level > 0 ==> forall l, g | 0 <= l <= level && l < NUM_LEVELS && g in v[l] ::
      !Overlaps(g, Some(Smallest(f).user), Some(Largest(f).user))
  }

  lemma NoOverlapApart(f: File, g: File)
    requires !Overlaps(g, Some(Smallest(f).user), Some(Largest(f).user))
    ensures Apart(f, g) && NewerFile(g, f)
  {
    forall d, e | d in g.entries && e in f.entries
      ensures d.key.user != e.key.user
    {
      EntryBounds(g, d);
      EntryBounds(f, e);
    }
  }

  ghost predicate OneMore(v: Version, v': Version, level: nat, f: File) {
    forall l, g | 0 <= l < NUM_LEVELS :: g in v'[l] <==> g in v[l] || (l == level && g == f)
  }

  lemma FlushNewer(v: Version, v': Version, level: nat, f: File, next: nat)
    requires VersionInv(v) && NumbersBelow(v, next) && f.number == next
    requires NewerThanAll(f, v) && LevelFits(v, level, f) && OneMore(v, v', level, f)
    ensures ShallowerNewer(v') && LevelZeroOrdered(v')
  {
    forall l, m, g, h | 0 <= l < m < NUM_LEVELS && g in v'[l] && h in v'[m]
      ensures NewerFile(g, h)
    {
      if h !in v[m] && g in v[l] { NoOverlapApart(f, g); }
    }
    forall g, h | g in v'[0] && h in v'[0] && g.number > h.number
      ensures NewerFile(g, h)
    {
      assert g in v[0] || g == f;
      assert h in v[0] || h == f;
    }
  }

  lemma FlushSorted(v: Version, v': Version, level: nat, f: File)
    requires VersionInv(v) && LevelFits(v, level, f) && OneMore(v, v', level, f) && Flushed(v, v', level, f)
    ensures LevelsSorted(v')
  {
    assert LevelsSorted(v);
    if level > 0 {
      assert SortedDisjoint(v[level]);
      forall g, h | g in v'[level] && h in v'[level] && g != h
        ensures Apart(g, h)
      {
        if g == f { NoOverlapApart(f, h); } else if h == f { NoOverlapApart(f, g); } else { SortedApart(v[level], g,
            h); }
      }
      DisjointInOrder(v'[level]);
    }
  }

  lemma FlushNumbers(v: Version, v': Version, level: nat, f: File, next: nat)
    requires NumbersDistinct(v) && NumbersBelow(v, next) && f.number == next && OneMore(v, v', level, f)
    ensures NumbersDistinct(v') && NumbersBelow(v', next + 1)
  {}

  lemma FlushedFiles(v: Version, v': Version, level: nat, f: File)
    requires Flushed(v, v', level, f)
    ensures OneMore(v, v', level, f)
  {}

  /** A flush keeps the version invariant and adds exactly the memtable's entries. */
  lemma FlushKeepsInv(v: Version, v': Version, level: nat, f: File, next: nat)
    requires VersionInv(v) && NumbersBelow(v, next) && f.number == next
    requires NewerThanAll(f, v) && LevelFits(v, level, f) && Flushed(v, v', level, f)
    ensures VersionInv(v') && NumbersBelow(v', next + 1) && AllEntries(v') == AllEntries(v) + Elems(f.entries)
  {
    FlushedFiles(v, v', level, f);
    FlushNumbers(v, v', level, f, next);
    FlushNewer(v, v', level, f, next);
    FlushSorted(v, v', level, f);
    FlushedEntries(v, v', level, f);
  }

  lemma FlushedEntries(v: Version, v': Version, level: nat, f: File)
    requires level < NUM_LEVELS && OneMore(v, v', level, f)
    ensures AllEntries(v') == AllEntries(v) + Elems(f.entries)
  {
    forall e
      ensures e in AllEntries(v') <==> e in AllEntries(v) || e in f.entries
    {
      if e in AllEntries(v') {
        var l, g := InVersion(v', e);
        if g in v[l] { VersionHas(v, l, g, e); }
      }
      if e in AllEntries(v) {
        var l, g := InVersion(v, e);
        VersionHas(v', l, g, e);
      }
      if e in f.entries { VersionHas(v', level, f, e); }
    }
  }
}
