/**
 What a compaction does to reads. The code closes the inputs of `level` over boundary files but
 not those of level + 1, so a deletion can be dropped while an older value of its key stays
 behind in the next file of level + 1. `ReadsPreservedIff` says that this is the only way in which
 a compaction can change the answer of a read.
 */
module CompactionReads {
  import opened Bytes
  import opened InternalKeys
  import opened Versions
  import opened InputSelection
  import opened CompactionLoop

  /** The merged input stream of a compaction. */
  ghost predicate MergedInputs(in0: seq<File>, in1: seq<File>, m: seq<Entry>) {
    Sorted(m) && Elems(m) == FileEntries(in0) + FileEntries(in1)
  }

  /** What is stored once the kept entries have taken the place of the inputs. */
  ghost function AfterCompaction(v: Version, level: nat, m: seq<Entry>, snapshot: SeqNum): set<Entry> {
    (AllEntries(v) - Elems(m)) + Elems(Kept(v, level, m, |m|, snapshot))
  }

  /**
   File j of level + 1 comes right after the inputs, is left out, and begins with a value; the
   newest visible entry of that value's key is the deletion `e` among the inputs, and no deeper
   level covers the key.
   */
  ghost predicate ResurrectsAt(v: Version, level: nat, in1: seq<File>, snapshot: SeqNum, j: nat, e: Entry)
    requires level + 1 < NUM_LEVELS
  {
    && 0 < j < |v[level + 1]| && v[level + 1][j - 1] in in1 && v[level + 1][j] !in in1
    && e in FileEntries(in1) && e.key.kind.Deletion?
    && Smallest(v[level + 1][j]).user == e.key.user && Smallest(v[level + 1][j]).kind.Value?
    && BaseLevelFor(v, level, e.key.user)
    && IsNewest(AllEntries(v), e.key.user, snapshot, e)
  }

  ghost predicate Resurrects(v: Version, level: nat, in1: seq<File>, snapshot: SeqNum)
    requires level + 1 < NUM_LEVELS
  {
    exists j, e :: ResurrectsAt(v, level, in1, snapshot, j, e)
  }

  // ----- facts about the inputs

  lemma InputsStored(v: Version, level: nat, in0: seq<File>, in1: seq<File>, m: seq<Entry>)
    requires InputsHold(v, level, in0, in1) && MergedInputs(in0, in1, m)
    ensures Elems(m) <= AllEntries(v)
    ensures forall f | f in in1 :: f in v[level + 1]
  {
    forall e | e in m
      ensures e in AllEntries(v)
    {
      assert e in Elems(m);
      if e in FileEntries(in0) {
        var f :| f in in0 && e in f.entries;
        VersionHas(v, level, f, e);
      } else {
        var f :| f in in1 && e in f.entries;
        VersionHas(v, level + 1, f, e);
      }
    }
  }

  lemma ParentsConvex(v: Version, level: nat, in0: seq<File>, in1: seq<File>)
    requires InputsHold(v, level, in0, in1)
    ensures Convex(v[level + 1], in1)
  {
    forall f, g, h | f in in1 && h in in1 && g in v[level + 1] && FileBefore(f, g) && FileBefore(g, h)
      ensures g in in1
    {
      BeforeUsers(f, g);
      BeforeUsers(g, h);
    }
  }

  /** A user key of the inputs of `level` occurs in no file of level + 1 that is left out. */
  lemma ParentsCoverKeys(v: Version, level: nat, in0: seq<File>, in1: seq<File>, f: File, g: File, d: Entry, e: Entry)
    requires InputsHold(v, level, in0, in1) && f in in0 && g in v[level + 1] && g !in in1
    requires d in f.entries && e in g.entries
    ensures d.key.user != e.key.user
  {
    EntryBounds(f, d);
    EntryBounds(g, e);
  }

  /** Outside the inputs, entries of a key of the level inputs are newer if no deeper level covers it. */
  lemma NewerThanInput0(v: Version, level: nat, in0: seq<File>, in1: seq<File>, f: File, e: Entry, l: nat, g: File,
                        d: Entry)
    requires VersionInv(v) && InputsHold(v, level, in0, in1) && BaseLevelFor(v, level, e.key.user)
    requires f in in0 && e in f.entries && l < NUM_LEVELS && g in v[l] && d in g.entries
    requires g !in in0 && g !in in1
    ensures d.key.user == e.key.user ==> d.key.seqno > e.key.seqno
  {
    EntryBounds(g, d);
    if l < level {
      assert f in v[level] && NewerFile(g, f);
    } else if l == level {
      assert LeftBehind(g, f);
    } else if l == level + 1 {
      ParentsCoverKeys(v, level, in0, in1, f, g, e, d);
    }
  }

  /** The same for a key of the level + 1 inputs, except within that level itself. */
  lemma NewerThanInput1(v: Version, level: nat, h: File, e: Entry, l: nat, g: File, d: Entry)
    requires VersionInv(v) && level + 1 < NUM_LEVELS && BaseLevelFor(v, level, e.key.user)
    requires h in v[level + 1] && e in h.entries && l < NUM_LEVELS && g in v[l] && d in g.entries
    ensures d.key.user == e.key.user && l != level + 1 ==> d.key.seqno > e.key.seqno
    ensures d.key.user == e.key.user && l == level + 1 && FileBefore(g, h) ==> d.key.seqno > e.key.seqno
  {
    EntryBounds(g, d);
    if l <= level {
      assert NewerFile(g, h);
    } else if l == level + 1 && FileBefore(g, h) {
      BeforeIsNewer(g, h);
    }
  }

  /**
   Where entries older than an obsolete deletion `e` can be outside the inputs: only in a file of
   level + 1 that follows e's file, begins with e's user key, and is left out.
   */
  lemma OlderLeftBehind(v: Version, level: nat, in0: seq<File>, in1: seq<File>, m: seq<Entry>, e: Entry, d: Entry)
    returns (h: File, g: File)
    requires VersionInv(v) && InputsHold(v, level, in0, in1) && MergedInputs(in0, in1, m)
    requires e in m && BaseLevelFor(v, level, e.key.user)
    requires d in AllEntries(v) && d !in m && d.key.user == e.key.user && d.key.seqno < e.key.seqno
    ensures h in in1 && h in v[level + 1] && e in h.entries
    ensures g in v[level + 1] && g !in in1 && d in g.entries && FileBefore(h, g)
    ensures Smallest(g).user == Largest(h).user == e.key.user
  {
    InputsStored(v, level, in0, in1, m);
    Merged(in0, in1, m, e);
    Merged(in0, in1, m, d);
    var l; l, g := HolderLeftOut(v, level, in0, in1, e, d);
    h :| h in in1 && e in h.entries;
    FollowsInput(v, level, in1, h, e, l, g, d);
  }

  lemma Merged(in0: seq<File>, in1: seq<File>, m: seq<Entry>, e: Entry)
    requires MergedInputs(in0, in1, m)
    ensures e in m <==> e in FileEntries(in0) || e in FileEntries(in1)
  {
    assert e in Elems(m) <==> e in m;
  }

  lemma HolderLeftOut(v: Version, level: nat, in0: seq<File>, in1: seq<File>, e: Entry, d: Entry)
    returns (l: nat, g: File)
    requires VersionInv(v) && InputsHold(v, level, in0, in1) && BaseLevelFor(v, level, e.key.user)
    requires d in AllEntries(v) && d !in FileEntries(in0) && d !in FileEntries(in1)
    requires d.key.user == e.key.user && d.key.seqno < e.key.seqno
    ensures l < NUM_LEVELS && g in v[l] && d in g.entries && g !in in1 && e !in FileEntries(in0)
  {
    l, g := InVersion(v, d);
    NotAnInput(in0, in1, g, d);
    NotFromLevel(v, level, in0, in1, e, l, g, d);
  }

  lemma NotAnInput(in0: seq<File>, in1: seq<File>, g: File, d: Entry)
    requires d in g.entries && d !in FileEntries(in0) && d !in FileEntries(in1)
    ensures g !in in0 && g !in in1
  {}

  lemma NotFromLevel(v: Version, level: nat, in0: seq<File>, in1: seq<File>, e: Entry, l: nat, g: File, d: Entry)
    requires VersionInv(v) && InputsHold(v, level, in0, in1) && BaseLevelFor(v, level, e.key.user)
    requires l < NUM_LEVELS && g in v[l] && d in g.entries && g !in in0 && g !in in1
    requires d.key.user == e.key.user && d.key.seqno < e.key.seqno
    ensures e !in FileEntries(in0)
  {
    if f :| f in in0 && e in f.entries { NewerThanInput0(v, level, in0, in1, f, e, l, g, d); }
  }

  lemma FollowsInput(v: Version, level: nat, in1: seq<File>, h: File, e: Entry, l: nat, g: File, d: Entry)
    requires VersionInv(v) && level + 1 < NUM_LEVELS && BaseLevelFor(v, level, e.key.user)
    requires h in in1 && h in v[level + 1] && e in h.entries && l < NUM_LEVELS && g in v[l] && d in g.entries
    requires g !in in1
    requires d.key.user == e.key.user && d.key.seqno < e.key.seqno
    ensures l == level + 1 && FileBefore(h, g) && Smallest(g).user == Largest(h).user == e.key.user
  {
    NewerThanInput1(v, level, h, e, l, g, d);
    assert SortedDisjoint(v[level + 1]);
    SortedApart(v[level + 1], h, g);
    EntryBounds(g, d);
    EntryBounds(h, e);
    BeforeUsers(h, g);
  }

  // ----- facts about the kept entries

  lemma HiddenIsOlder(m: seq<Entry>, i: nat, snapshot: SeqNum)
    requires Sorted(m) && i < |m| && Hidden(m, i, snapshot)
    ensures m[i - 1] in Elems(m) && m[i - 1].key.user == m[i].key.user
    ensures m[i].key.seqno < m[i - 1].key.seqno <= snapshot
  {
    assert Before(m[i - 1].key, m[i].key);
  }

  lemma OlderIsHidden(m: seq<Entry>, i: nat, j: nat, snapshot: SeqNum)
    requires Sorted(m) && i < j < |m| && m[i].key.user == m[j].key.user && m[i].key.seqno <= snapshot
    ensures Hidden(m, j, snapshot)
  {
    if i < j - 1 {
      assert Before(m[i].key, m[j - 1].key) && Before(m[j - 1].key, m[j].key);
    }
  }

  /** The newest visible entry of a key is dropped only if it is an obsolete deletion. */
  lemma DroppedNewest(v: Version, level: nat, m: seq<Entry>, snapshot: SeqNum, u: UserKey, s: SeqNum, e: Entry)
    requires Sorted(m) && Elems(m) <= AllEntries(v) && snapshot <= s
    requires IsNewest(AllEntries(v), u, s, e) && e !in AfterCompaction(v, level, m, snapshot)
    ensures e in m && Obsolete(v, level, e, snapshot)
    ensures IsNewest(AllEntries(v), u, snapshot, e)
  {
    assert e in m;
    var i :| 0 <= i < |m| && m[i] == e;
    KeptMember(v, level, m, |m|, snapshot, e);
    assert Dropped(v, level, m, i, snapshot);
    if Hidden(m, i, snapshot) { HiddenIsOlder(m, i, snapshot); }
  }

  /** An obsolete deletion takes all older inputs of its key with it. */
  lemma ObsoleteGone(v: Version, level: nat, m: seq<Entry>, snapshot: SeqNum, e: Entry, d: Entry)
    requires Sorted(m) && e in m && Obsolete(v, level, e, snapshot)
    requires d in AfterCompaction(v, level, m, snapshot) && d.key.user == e.key.user && d.key.seqno <= e.key.seqno
    ensures d in AllEntries(v) && d !in m
  {
    KeptMember(v, level, m, |m|, snapshot, d);
    KeptMember(v, level, m, |m|, snapshot, e);
    if d in Kept(v, level, m, |m|, snapshot) {
      var j :| 0 <= j < |m| && m[j] == d && !Dropped(v, level, m, j, snapshot);
      var i :| 0 <= i < |m| && m[i] == e;
      if i < j { OlderIsHidden(m, i, j, snapshot); }
    }
  }

  lemma AfterIsSmaller(v: Version, level: nat, m: seq<Entry>, snapshot: SeqNum)
    requires Elems(m) <= AllEntries(v)
    ensures AfterCompaction(v, level, m, snapshot) <= AllEntries(v)
  {
    forall e | e in AfterCompaction(v, level, m, snapshot)
      ensures e in AllEntries(v)
    {
      KeptMember(v, level, m, |m|, snapshot, e);
      assert e in m ==> e in Elems(m);
    }
  }

  // ----- one key at one snapshot

  /** An entry of a file of level + 1 that is left out is not in any input. */
  lemma LeftOutElsewhere(v: Version, level: nat, in0: seq<File>, in1: seq<File>, g: File, d: Entry)
    requires VersionInv(v) && InputsHold(v, level, in0, in1)
    requires g in v[level + 1] && g !in in1 && d in g.entries
    ensures d !in FileEntries(in0) && d !in FileEntries(in1)
  {
    forall f | f in in0
      ensures d !in f.entries
    {
      if d in f.entries { ParentsCoverKeys(v, level, in0, in1, f, g, d, d); }
    }
    assert SortedDisjoint(v[level + 1]);
    EntryBounds(g, d);
    forall f | f in in1
      ensures d !in f.entries
    {
      SortedApart(v[level + 1], f, g);
      if d in f.entries { EntryBounds(f, d); }
    }
  }

  /** It is still stored afterwards. */
  lemma LeftOutStays(v: Version, level: nat, in0: seq<File>, in1: seq<File>, m: seq<Entry>, snapshot: SeqNum,
                     g: File, d: Entry)
    requires VersionInv(v) && InputsHold(v, level, in0, in1) && MergedInputs(in0, in1, m)
    requires g in v[level + 1] && g !in in1 && d in g.entries
    ensures d in AllEntries(v) && d !in m && d in AfterCompaction(v, level, m, snapshot)
  {
    LeftOutElsewhere(v, level, in0, in1, g, d);
    assert d !in Elems(m);
    VersionHas(v, level + 1, g, d);
  }

  lemma FirstIsNewest(v: Version, level: nat, m: seq<Entry>, snapshot: SeqNum, u: UserKey, s: SeqNum, g: File, x: Entry)
    requires DistinctKeys(AllEntries(v)) && level + 1 < NUM_LEVELS && g in v[level + 1]
    requires x in g.entries && Smallest(g).user == u
    requires AfterCompaction(v, level, m, snapshot) <= AllEntries(v)
    requires IsNewest(AfterCompaction(v, level, m, snapshot), u, s, x)
    requires g.entries[0] in AfterCompaction(v, level, m, snapshot) && Smallest(g).seqno <= s
    ensures x == g.entries[0]
  {
    EntryBounds(g, x);
  }

  /** Files between one that ends with `u` and one that begins with `u` hold `u` alone. */
  lemma PreviousHolds(files: seq<File>, h: File, j: nat, u: UserKey)
    requires SortedDisjoint(files) && h in files && 0 < j < |files| && FileBefore(h, files[j])
    requires Largest(h).user == u == Smallest(files[j]).user && files[j - 1] != h
    ensures FileBefore(h, files[j - 1]) && Smallest(files[j - 1]).user == u
    ensures Smallest(files[j]).seqno < Smallest(files[j - 1]).seqno < Largest(h).seqno
  {
    var i :| 0 <= i < |files| && files[i] == h;
    EntryBounds(h, h.entries[0]);
    EntryBounds(files[j], files[j].entries[0]);
    assert i < j - 1;
    BeforeUsers(h, files[j - 1]);
    BeforeUsers(files[j - 1], files[j]);
  }

  /** The newest leftover under an obsolete deletion opens the file right after the inputs. */
  lemma LeftoverOpensNextFile(v: Version, level: nat, in0: seq<File>, in1: seq<File>, m: seq<Entry>, snapshot: SeqNum,
                              s: SeqNum, e: Entry, x: Entry) returns (j: nat)
    requires VersionInv(v) && InputsHold(v, level, in0, in1) && MergedInputs(in0, in1, m)
    requires e in m && BaseLevelFor(v, level, e.key.user) && e.key.seqno <= s
    requires x in AllEntries(v) && x !in m && x.key.user == e.key.user && x.key.seqno < e.key.seqno
    requires IsNewest(AfterCompaction(v, level, m, snapshot), e.key.user, s, x)
    ensures e in FileEntries(in1)
    ensures 0 < j < |v[level + 1]| && v[level + 1][j - 1] in in1 && v[level + 1][j] !in in1
    ensures x == v[level + 1][j].entries[0]
  {
    var h, g := OlderLeftBehind(v, level, in0, in1, m, e, x);
    var files := v[level + 1];
    assert SortedDisjoint(files);
    j :| 0 <= j < |files| && files[j] == g;
    EntryBounds(h, e);
    LeftOutStays(v, level, in0, in1, m, snapshot, g, g.entries[0]);
    InputsStored(v, level, in0, in1, m);
    AfterIsSmaller(v, level, m, snapshot);
    VersionKeysDistinct(v);
    FirstIsNewest(v, level, m, snapshot, e.key.user, s, g, x);
    NotFirst(files, h, j);
    PreviousIsInput(v, level, in0, in1, m, snapshot, s, e, x, h, j);
  }

  /** The file before it is an input: otherwise what that one opens with would be newer and still be there. */
  lemma PreviousIsInput(v: Version, level: nat, in0: seq<File>, in1: seq<File>, m: seq<Entry>, snapshot: SeqNum,
                        s: SeqNum, e: Entry, x: Entry, h: File, j: nat)
    requires VersionInv(v) && InputsHold(v, level, in0, in1) && MergedInputs(in0, in1, m)
    requires h in in1 && h in v[level + 1] && e in h.entries && e.key.seqno <= s && 0 < j < |v[level + 1]|
    requires FileBefore(h, v[level + 1][j]) && Smallest(v[level + 1][j]).user == Largest(h).user == e.key.user
    requires x == v[level + 1][j].entries[0] && IsNewest(AfterCompaction(v, level, m, snapshot), e.key.user, s, x)
    ensures v[level + 1][j - 1] in in1
  {
    var files := v[level + 1];
    assert SortedDisjoint(files);
    if files[j - 1] != h && files[j - 1] !in in1 {
      EntryBounds(h, e);
      PreviousHolds(files, h, j, e.key.user);
      LeftOutStays(v, level, in0, in1, m, snapshot, files[j - 1], files[j - 1].entries[0]);
    }
  }

  lemma NotFirst(files: seq<File>, h: File, j: nat)
    requires SortedDisjoint(files) && h in files && j < |files| && FileBefore(h, files[j])
    ensures j > 0
  {
    var i :| 0 <= i < |files| && files[i] == h;
    EntryBounds(h, h.entries[0]);
    EntryBounds(files[j], files[j].entries[0]);
  }

  // ----- the theorem

  /** The compaction does not resurrect this key. */
  ghost predicate KeySafe(v: Version, level: nat, in1: seq<File>, snapshot: SeqNum, u: UserKey)
    requires level + 1 < NUM_LEVELS
  {
    forall j: nat, e: Entry {:trigger ResurrectsAt(v, level, in1, snapshot, j, e)} | e.key.user == u ::
      !ResurrectsAt(v, level, in1, snapshot, j, e)
  }

  /** Without resurrection a key whose newest entry is dropped reads as deleted before and after. */
  lemma StaysDeleted(v: Version, level: nat, in0: seq<File>, in1: seq<File>, m: seq<Entry>, snapshot: SeqNum,
                     u: UserKey, s: SeqNum, e: Entry)
    requires VersionInv(v) && InputsHold(v, level, in0, in1) && MergedInputs(in0, in1, m) && snapshot <= s
    requires KeySafe(v, level, in1, snapshot, u)
    requires IsNewest(AllEntries(v), u, s, e) && e !in AfterCompaction(v, level, m, snapshot)
    ensures e.key.kind.Deletion?
    ensures forall x | IsNewest(AfterCompaction(v, level, m, snapshot), u, s, x) :: x.key.kind.Deletion?
  {
    InputsStored(v, level, in0, in1, m);
    AfterIsSmaller(v, level, m, snapshot);
    VersionKeysDistinct(v);
    DroppedNewest(v, level, m, snapshot, u, s, e);
    forall x | IsNewest(AfterCompaction(v, level, m, snapshot), u, s, x)
      ensures x.key.kind.Deletion?
    {
      ObsoleteGone(v, level, m, snapshot, e, x);
      var j := LeftoverOpensNextFile(v, level, in0, in1, m, snapshot, s, e, x);
      assert !ResurrectsAt(v, level, in1, snapshot, j, e);
    }
  }

  /** Removing entries other than the newest one changes nothing. */
  lemma NewestStays(before: set<Entry>, after: set<Entry>, u: UserKey, s: SeqNum, e: Entry, r: Option<Str>)
    requires after <= before && DistinctKeys(before) && IsNewest(before, u, s, e) && e in after
    ensures Reads(before, u, s, r) <==> Reads(after, u, s, r)
  {
    OnlyNewest(before, u, s, e);
    assert IsNewest(after, u, s, e);
    OnlyNewest(after, u, s, e);
  }

  lemma DeletedEither(before: set<Entry>, after: set<Entry>, u: UserKey, s: SeqNum, e: Entry, r: Option<Str>)
    requires DistinctKeys(before) && IsNewest(before, u, s, e) && e.key.kind.Deletion?
    requires forall x | IsNewest(after, u, s, x) :: x.key.kind.Deletion?
    ensures Reads(before, u, s, r) <==> Reads(after, u, s, r)
  {
    OnlyNewest(before, u, s, e);
  }

  lemma AbsentEither(before: set<Entry>, after: set<Entry>, u: UserKey, s: SeqNum, r: Option<Str>)
    requires after <= before && forall d | d in before && d.key.user == u :: d.key.seqno > s
    ensures Reads(before, u, s, r) <==> Reads(after, u, s, r)
  {}

  lemma OnlyNewest(t: set<Entry>, u: UserKey, s: SeqNum, e: Entry)
    requires DistinctKeys(t) && IsNewest(t, u, s, e)
    ensures forall x :: IsNewest(t, u, s, x) <==> x == e
  {}

  lemma SameRead(v: Version, level: nat, in0: seq<File>, in1: seq<File>, m: seq<Entry>, snapshot: SeqNum,
                 u: UserKey, s: SeqNum, r: Option<Str>)
    requires VersionInv(v) && InputsHold(v, level, in0, in1) && MergedInputs(in0, in1, m) && snapshot <= s
    requires KeySafe(v, level, in1, snapshot, u)
    ensures Reads(AllEntries(v), u, s, r) <==> Reads(AfterCompaction(v, level, m, snapshot), u, s, r)
  {
    InputsStored(v, level, in0, in1, m);
    AfterIsSmaller(v, level, m, snapshot);
    VersionKeysDistinct(v);
    if d :| d in AllEntries(v) && d.key.user == u && d.key.seqno <= s {
      var e := NewestExists(AllEntries(v), u, s, d);
      if e in AfterCompaction(v, level, m, snapshot) {
        NewestStays(AllEntries(v), AfterCompaction(v, level, m, snapshot), u, s, e, r);
      } else {
        StaysDeleted(v, level, in0, in1, m, snapshot, u, s, e);
        DeletedEither(AllEntries(v), AfterCompaction(v, level, m, snapshot), u, s, e, r);
      }
    } else {
      AbsentEither(AllEntries(v), AfterCompaction(v, level, m, snapshot), u, s, r);
    }
  }

  /** A file left out that follows one of the inputs of a convex choice follows all of them. */
  lemma FollowsAll(files: seq<File>, chosen: seq<File>, p: File, g: File, h: File)
    requires SortedDisjoint(files) && Convex(files, chosen) && p in chosen && h in chosen && h in files
    requires g in files && g !in chosen && FileBefore(p, g)
    ensures FileBefore(h, g)
  {
    SortedApart(files, h, g);
  }

  /** The file that resurrects a key opens with an entry older than the dropped deletion. */
  lemma OpensOlder(v: Version, level: nat, in0: seq<File>, in1: seq<File>, e: Entry, j: nat)
    requires VersionInv(v) && InputsHold(v, level, in0, in1) && 0 < j < |v[level + 1]|
    requires v[level + 1][j - 1] in in1 && v[level + 1][j] !in in1 && e in FileEntries(in1)
    requires Smallest(v[level + 1][j]).user == e.key.user
    ensures Smallest(v[level + 1][j]).seqno < e.key.seqno
  {
    var files := v[level + 1];
    assert SortedDisjoint(files);
    var h :| h in in1 && e in h.entries;
    EntryBounds(h, e);
    ParentsConvex(v, level, in0, in1);
    assert FileBefore(files[j - 1], files[j]);
    FollowsAll(files, in1, files[j - 1], files[j], h);
  }

  lemma NothingBetween(v: Version, level: nat, in0: seq<File>, in1: seq<File>, m: seq<Entry>, e: Entry, d: Entry,
                       j: nat)
    requires VersionInv(v) && InputsHold(v, level, in0, in1) && MergedInputs(in0, in1, m)
    requires e in m && BaseLevelFor(v, level, e.key.user)
    requires d in AllEntries(v) && d !in m && d.key.user == e.key.user && d.key.seqno < e.key.seqno
    requires 0 < j < |v[level + 1]| && v[level + 1][j - 1] in in1 && v[level + 1][j] !in in1
    requires Smallest(v[level + 1][j]).user == e.key.user
    ensures d.key.seqno <= Smallest(v[level + 1][j]).seqno
  {
    var files := v[level + 1];
    assert SortedDisjoint(files);
    var h, g := OlderLeftBehind(v, level, in0, in1, m, e, d);
    ParentsConvex(v, level, in0, in1);
    FollowsAll(files, in1, h, g, files[j - 1]);
    OpeningIsNewest(files, j, g, d);
  }

  /** Past file j - 1, no entry of the user key that opens file j is newer than the opening one. */
  lemma OpeningIsNewest(files: seq<File>, j: nat, g: File, d: Entry)
    requires SortedDisjoint(files) && 0 < j < |files| && g in files && FileBefore(files[j - 1], g)
    requires d in g.entries && d.key.user == Smallest(files[j]).user
    ensures d.key.seqno <= Smallest(files[j]).seqno
  {
    var i :| 0 <= i < |files| && files[i] == g;
    EntryBounds(g, d);
    EntryBounds(g, g.entries[0]);
    EntryBounds(files[j - 1], files[j - 1].entries[0]);
    EntryBounds(files[j], files[j].entries[0]);
    assert i >= j;
  }

  /** Of what is stored afterwards, only leftovers of the next file are older than the deletion. */
  lemma LeftoverBound(v: Version, level: nat, in0: seq<File>, in1: seq<File>, m: seq<Entry>, snapshot: SeqNum,
                      j: nat, e: Entry, d: Entry)
    requires VersionInv(v) && InputsHold(v, level, in0, in1) && MergedInputs(in0, in1, m)
    requires ResurrectsAt(v, level, in1, snapshot, j, e)
    requires d in AfterCompaction(v, level, m, snapshot) && d.key.user == e.key.user && d.key.seqno <= snapshot
    ensures d.key.seqno <= Smallest(v[level + 1][j]).seqno
  {
    InputsStored(v, level, in0, in1, m);
    AfterIsSmaller(v, level, m, snapshot);
    VersionKeysDistinct(v);
    assert e in Elems(m);
    ObsoleteGone(v, level, m, snapshot, e, d);
    NothingBetween(v, level, in0, in1, m, e, d, j);
  }

  lemma OldValueIsNewest(v: Version, level: nat, in0: seq<File>, in1: seq<File>, m: seq<Entry>, snapshot: SeqNum,
                         j: nat, e: Entry)
    requires VersionInv(v) && InputsHold(v, level, in0, in1) && MergedInputs(in0, in1, m)
    requires ResurrectsAt(v, level, in1, snapshot, j, e)
    ensures IsNewest(AfterCompaction(v, level, m, snapshot), e.key.user, snapshot, v[level + 1][j].entries[0])
  {
    var g := v[level + 1][j];
    LeftOutStays(v, level, in0, in1, m, snapshot, g, g.entries[0]);
    OpensOlder(v, level, in0, in1, e, j);
    forall d | d in AfterCompaction(v, level, m, snapshot) && d.key.user == e.key.user && d.key.seqno <= snapshot
      ensures d.key.seqno <= g.entries[0].key.seqno
    {
      LeftoverBound(v, level, in0, in1, m, snapshot, j, e, d);
    }
  }

  lemma ReadsDeletion(t: set<Entry>, u: UserKey, s: SeqNum, e: Entry)
    requires DistinctKeys(t) && IsNewest(t, u, s, e) && e.key.kind.Deletion?
    ensures Reads(t, u, s, None)
  {
    OnlyNewest(t, u, s, e);
  }

  lemma ReadsValue(t: set<Entry>, u: UserKey, s: SeqNum, e: Entry)
    requires IsNewest(t, u, s, e) && e.key.kind.Value?
    ensures Reads(t, u, s, Some(e.value)) && !Reads(t, u, s, None)
  {}

  /** With resurrection the key reads as deleted before and as its old value after. */
  lemma ComesBack(v: Version, level: nat, in0: seq<File>, in1: seq<File>, m: seq<Entry>, snapshot: SeqNum, j: nat,
                  e: Entry)
    requires VersionInv(v) && InputsHold(v, level, in0, in1) && MergedInputs(in0, in1, m)
    requires ResurrectsAt(v, level, in1, snapshot, j, e)
    ensures Reads(AllEntries(v), e.key.user, snapshot, None)
    ensures Reads(AfterCompaction(v, level, m, snapshot), e.key.user, snapshot, Some(v[level + 1][j].entries[0].value))
    ensures !Reads(AfterCompaction(v, level, m, snapshot), e.key.user, snapshot, None)
  {
    VersionKeysDistinct(v);
    ReadsDeletion(AllEntries(v), e.key.user, snapshot, e);
    OldValueIsNewest(v, level, in0, in1, m, snapshot, j, e);
    ReadsValue(AfterCompaction(v, level, m, snapshot), e.key.user, snapshot, v[level + 1][j].entries[0]);
  }

  /**
   A compaction leaves every read at or above the oldest snapshot unchanged exactly when it does
   not resurrect a deleted key.
   */
  lemma ReadsPreservedIff(v: Version, level: nat, in0: seq<File>, in1: seq<File>, m: seq<Entry>, snapshot: SeqNum)
    requires VersionInv(v) && InputsHold(v, level, in0, in1) && MergedInputs(in0, in1, m)
    ensures SameReads(AllEntries(v), AfterCompaction(v, level, m, snapshot), snapshot) <==>
            !Resurrects(v, level, in1, snapshot)
  {
    if Resurrects(v, level, in1, snapshot) {
      var j, e :| ResurrectsAt(v, level, in1, snapshot, j, e);
      ComesBack(v, level, in0, in1, m, snapshot, j, e);
    } else {
      forall u: UserKey, s: SeqNum, r: Option<Str> | snapshot <= s
        ensures Reads(AllEntries(v), u, s, r) <==> Reads(AfterCompaction(v, level, m, snapshot), u, s, r)
      {
        SameRead(v, level, in0, in1, m, snapshot, u, s, r);
      }
    }
  }

  /** Inputs of level + 1 that are closed over boundary files, as those of `level` are, never resurrect. */
  lemma ClosedParentsPreserve(v: Version, level: nat, in0: seq<File>, in1: seq<File>, m: seq<Entry>, snapshot: SeqNum)
    requires VersionInv(v) && InputsHold(v, level, in0, in1) && MergedInputs(in0, in1, m)
    requires NoBoundaryLeft(v[level + 1], in1)
    ensures SameReads(AllEntries(v), AfterCompaction(v, level, m, snapshot), snapshot)
  {
    ReadsPreservedIff(v, level, in0, in1, m, snapshot);
    forall j: nat, e
      ensures !ResurrectsAt(v, level, in1, snapshot, j, e)
    {
      ClosedNeverResurrects(v, level, in0, in1, snapshot, j, e);
    }
  }

  lemma ClosedNeverResurrects(v: Version, level: nat, in0: seq<File>, in1: seq<File>, snapshot: SeqNum, j: nat,
                              e: Entry)
    requires VersionInv(v) && InputsHold(v, level, in0, in1) && NoBoundaryLeft(v[level + 1], in1)
    ensures !ResurrectsAt(v, level, in1, snapshot, j, e)
  {
    var files := v[level + 1];
    assert SortedDisjoint(files);
    ParentsConvex(v, level, in0, in1);
    if in1 != [] {
      BoundaryClosed(files, in1, level + 1);
    }
    if ResurrectsAt(v, level, in1, snapshot, j, e) {
      var h :| h in in1 && e in h.entries;
      EntryBounds(h, e);
      OpensOlder(v, level, in0, in1, e, j);
    }
  }
}
