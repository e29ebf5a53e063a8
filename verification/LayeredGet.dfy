/**
 Point lookups through the layers: memtable, immutable memtable, level-0 files newest first, then
 one file per deeper level, found by binary search.
 */
module LayeredGet {
  import opened Bytes
  import opened InternalKeys
  import opened Versions
  import opened InputSelection

  // ----- searching a level

  /** Where the bisection of left..right for `key` ends, whatever the order of the files. */
  ghost function Bisect(files: seq<File>, key: IKey, left: nat, right: nat): (r: nat)
    requires left <= right <= |files|
    ensures left <= r <= right
    decreases right - left
  {
    if left == right then right
    else
      var mid := (left + right) / 2;
      if Less(Largest(files[mid]), key) then Bisect(files, key, mid + 1, right) else Bisect(files, key, left, mid)
  }

  /** FindFile: in a sorted level, the first file whose largest key is not before `key`. */
  method FindFile(files: seq<File>, key: IKey) returns (r: nat)
    ensures r == Bisect(files, key, 0, |files|)
    ensures SortedDisjoint(files) ==> forall i | 0 <= i < r :: Less(Largest(files[i]), key)
    ensures SortedDisjoint(files) ==> forall i | r <= i < |files| :: !Less(Largest(files[i]), key)
  {
    var left, right := 0, |files|;
    while left < right
      invariant left <= right <= |files| && Bisect(files, key, left, right) == Bisect(files, key, 0, |files|)
    {
      var mid := (left + right) / 2;
      if Less(Largest(files[mid]), key) {
        left := mid + 1;
      } else {
        right := mid;
      }
    }
    r := right;
    if SortedDisjoint(files) {
      BisectFinds(files, key, 0, |files|);
    }
  }

  lemma {:induction false} BisectFinds(files: seq<File>, key: IKey, left: nat, right: nat)
    requires SortedDisjoint(files) && left <= right <= |files|
    requires forall i | 0 <= i < left :: Less(Largest(files[i]), key)
    requires forall i | right <= i < |files| :: !Less(Largest(files[i]), key)
    ensures forall i | 0 <= i < Bisect(files, key, left, right) :: Less(Largest(files[i]), key)
    ensures forall i | Bisect(files, key, left, right) <= i < |files| :: !Less(Largest(files[i]), key)
    decreases right - left
  {
    if left < right {
      var mid := (left + right) / 2;
      LargestAscend(files, mid);
      if Less(Largest(files[mid]), key) {
        BisectFinds(files, key, mid + 1, right);
      } else {
        BisectFinds(files, key, left, mid);
      }
    }
  }

  lemma LargestAscend(files: seq<File>, m: nat)
    requires SortedDisjoint(files) && m < |files|
    ensures forall i | 0 <= i < m :: Less(Largest(files[i]), Largest(files[m]))
    ensures forall i | m < i < |files| :: Less(Largest(files[m]), Largest(files[i]))
  {
    forall i | 0 <= i < m
      ensures Less(Largest(files[i]), Largest(files[m]))
    {
      assert FileBefore(files[i], files[m]);
      EntryBounds(files[m], files[m].entries[0]);
    }
    forall i | m < i < |files|
      ensures Less(Largest(files[m]), Largest(files[i]))
    {
      assert FileBefore(files[m], files[i]);
      EntryBounds(files[i], files[i].entries[0]);
    }
  }

  /** SomeFileOverlapsRange: a scan of all files, or one binary search when they are sorted. */
  method SomeFileOverlapsRange(disjoint: bool, files: seq<File>, lo: Option<UserKey>, hi: Option<UserKey>)
    returns (r: bool)
    requires disjoint ==> SortedDisjoint(files)
    ensures r <==> exists f | f in files :: Overlaps(f, lo, hi)
  {
    if !disjoint {
      for i := 0 to |files|
        invariant forall j | 0 <= j < i :: !Overlaps(files[j], lo, hi)
      {
        if BeforeRange(files[i], lo) || AfterRange(files[i], hi) {
          // no overlap
        } else {
          assert files[i] in files;
          return true;
        }
      }
      return false;
    }
    var index := 0;
    if lo.Some? {
      index := FindFile(files, SeekKey(lo.value, MAX_SEQ));
    }
    assert forall i | 0 <= i < |files| :: BeforeRange(files[i], lo) <==> i < index;
    if index >= |files| {
      return false;
    }
    r := !AfterRange(files[index], hi);
    assert files[index] in files;
    if !r {
      forall i | index < i < |files|
        ensures AfterRange(files[i], hi)
      {
        assert FileBefore(files[index], files[i]);
        BeforeUsers(files[index], files[i]);
      }
    }
  }

  /** Version::OverlapInLevel */
  method OverlapInLevel(v: Version, level: nat, lo: UserKey, hi: UserKey) returns (r: bool)
    requires LevelsSorted(v) && level < NUM_LEVELS
    ensures r <==> exists f | f in v[level] :: Overlaps(f, Some(lo), Some(hi))
  {
    assert level > 0 ==> SortedDisjoint(v[level]);
    r := SomeFileOverlapsRange(level > 0, v[level], Some(lo), Some(hi));
  }

  ghost predicate NoOverlap(files: seq<File>, lo: UserKey, hi: UserKey) {
    forall f | f in files :: !Overlaps(f, Some(lo), Some(hi))
  }

  /** A memtable may be pushed down from this level: nothing below overlaps it, and not too much two levels below. */
  ghost predicate Descends(v: Version, level: nat, lo: UserKey, hi: UserKey, maxFileSize: nat)
    requires level + 2 < NUM_LEVELS
  {
    NoOverlap(v[level + 1], lo, hi) && TotalFileSize(Overlapping(v[level + 2], Some(lo), Some(hi))) <= 10 * maxFileSize
  }

  /** The level a memtable with the range lo..hi goes to: as deep as it may descend, but not below level 2. */
  ghost predicate PicksLevel(v: Version, lo: UserKey, hi: UserKey, maxFileSize: nat, level: nat) {
    && level <= 2
    && (level > 0 ==> NoOverlap(v[0], lo, hi)) && (forall l | 0 <= l < level :: Descends(v, l, lo, hi, maxFileSize))
    && (level < 2 ==> !NoOverlap(v[0], lo, hi) || !Descends(v, level, lo, hi, maxFileSize))
  }

  /** Version::PickLevelForMemTableOutput */
  method PickLevelForMemTableOutput(v: Version, lo: UserKey, hi: UserKey, maxFileSize: nat) returns (level: nat)
    requires LevelsSorted(v)
    ensures PicksLevel(v, lo, hi, maxFileSize, level)
    ensures level > 0 ==> forall l, f | 0 <= l <= level && f in v[l] :: !Overlaps(f, Some(lo), Some(hi))
  {
    level := 0;
    var overlap := OverlapInLevel(v, 0, lo, hi);
    if overlap {
      return;
    }
    while level < 2
      invariant level <= 2 && NoOverlap(v[0], lo, hi)
      invariant forall l | 0 <= l < level :: Descends(v, l, lo, hi, maxFileSize)
    {
      overlap := OverlapInLevel(v, level + 1, lo, hi);
      if overlap {
        break;
      }
      var grandparents;
      ghost var b, e;
      grandparents, b, e := GetOverlappingInputs(level + 2, v[level + 2], Some(lo), Some(hi));
      if TotalFileSize(grandparents) > 10 * maxFileSize {
        break;
      }
      level := level + 1;
    }
    PickedAbove(v, lo, hi, maxFileSize, level);
  }

  /** Nothing overlaps the memtable at its level or above, unless it goes to level 0. */
  lemma PickedAbove(v: Version, lo: UserKey, hi: UserKey, maxFileSize: nat, level: nat)
    requires PicksLevel(v, lo, hi, maxFileSize, level)
    ensures level > 0 ==> forall l, f | 0 <= l <= level && f in v[l] :: !Overlaps(f, Some(lo), Some(hi))
  {
    forall l, f | 0 < l <= level && f in v[l]
      ensures !Overlaps(f, Some(lo), Some(hi))
    {
      assert Descends(v, l - 1, lo, hi, maxFileSize);
    }
  }

  /** No file that a lookup of `u` looks into has an entry of it. */
  ghost predicate Misses(v: Version, u: UserKey, snapshot: SeqNum) {
    && (forall f, e | f in v[0] && e in f.entries :: e.key.user != u)
    && forall l | 1 <= l < NUM_LEVELS :: LevelMisses(v[l], u, snapshot)
  }

  /** The file of a level that the bisection for `u` ends at, if any, has no entry of it. */
  ghost predicate LevelMisses(files: seq<File>, u: UserKey, snapshot: SeqNum) {
    var i := Bisect(files, SeekKey(u, snapshot), 0, |files|);
    i < |files| ==> forall e | e in files[i].entries :: e.key.user != u
  }

  // ----- searching one sorted run of entries

  ghost predicate NoneVisible(s: set<Entry>, u: UserKey, snapshot: SeqNum) {
    forall e | e in s && e.key.user == u :: e.key.seqno > snapshot
  }

  datatype Saver = NotFound | Found(value: Str) | Deleted

  /** What a search of the entries `s` may report. */
  ghost predicate Answers(s: set<Entry>, u: UserKey, snapshot: SeqNum, r: Saver) {
    match r
    case NotFound => NoneVisible(s, u, snapshot)
    case Found(x) => exists e :: IsNewest(s, u, snapshot, e) && e.key.kind.Value? && e.value == x
    case Deleted => exists e :: IsNewest(s, u, snapshot, e) && e.key.kind.Deletion?
  }

  /** The first entry of a sorted run that is not before `k`. */
  function PointLookup(es: seq<Entry>, k: IKey): Option<Entry> {
    if es == [] then None
    else if Less(es[0].key, k) then PointLookup(es[1..], k)
    else Some(es[0])
  }

  lemma {:induction false} PointLookupFirst(es: seq<Entry>, k: IKey) returns (i: nat)
    ensures i <= |es| && forall j | 0 <= j < i :: Less(es[j].key, k)
    ensures if i < |es| then PointLookup(es, k) == Some(es[i]) && !Less(es[i].key, k) else PointLookup(es, k) == None
  {
    if es == [] || !Less(es[0].key, k) {
      i := 0;
    } else {
      i := PointLookupFirst(es[1..], k);
      i := i + 1;
      assert forall j | 1 <= j < |es| :: es[j] == es[1..][j - 1];
    }
  }

  /** SaveValue: what the found entry means for the user key being looked up. */
  function SaveValue(u: UserKey, found: Option<Entry>): Saver {
    if found.Some? && found.value.key.user == u then
      if found.value.key.kind.Value? then Found(found.value.value) else Deleted
    else NotFound
  }

  /**
   A lookup in a table or a memtable. Callers rely on the promise only: a table whose filter
   turns the key away reports NotFound, which the promise allows just when no entry is visible.
   */
  method SearchRun(es: seq<Entry>, u: UserKey, snapshot: SeqNum) returns (r: Saver)
    requires Sorted(es)
    ensures Answers(Elems(es), u, snapshot, r)
  {
    var k := SeekKey(u, snapshot);
    ghost var i := PointLookupFirst(es, k);
    r := SaveValue(u, PointLookup(es, k));
    forall j | 0 <= j < |es| && es[j].key.user == u
      ensures j < i <==> es[j].key.seqno > snapshot
      ensures i < |es| ==> es[i].key.user == u || es[j].key.seqno > snapshot
      ensures i <= j ==> es[j].key.seqno <= es[i].key.seqno || es[i].key.user != u
    {
      assert i < j ==> Before(es[i].key, es[j].key);
      assert j < i < |es| ==> Before(es[j].key, es[i].key);
    }
    if i < |es| && es[i].key.user == u {
      assert IsNewest(Elems(es), u, snapshot, es[i]);
    }
  }

  // ----- combining layers

  /** All entries of `s` are newer than those of `t`, user key by user key. */
  ghost predicate NewerSet(s: set<Entry>, t: set<Entry>) {
    forall d, e | d in s && e in t && d.key.user == e.key.user :: d.key.seqno > e.key.seqno
  }

  /** Searching the newer layer first and the older one only on a miss searches their union. */
  lemma LayerOrder(s: set<Entry>, t: set<Entry>, u: UserKey, snapshot: SeqNum, r: Saver)
    requires NewerSet(s, t)
    ensures Answers(s, u, snapshot, r) && !r.NotFound? ==> Answers(s + t, u, snapshot, r)
    ensures NoneVisible(s, u, snapshot) && Answers(t, u, snapshot, r) ==> Answers(s + t, u, snapshot, r)
  {
    if Answers(s, u, snapshot, r) && !r.NotFound? {
      var e :| IsNewest(s, u, snapshot, e) && e.key.kind.Value? == r.Found? && (r.Found? ==> e.value == r.value);
      assert IsNewest(s + t, u, snapshot, e);
    }
    if NoneVisible(s, u, snapshot) && Answers(t, u, snapshot, r) && !r.NotFound? {
      var e :| IsNewest(t, u, snapshot, e) && e.key.kind.Value? == r.Found? && (r.Found? ==> e.value == r.value);
      assert IsNewest(s + t, u, snapshot, e);
    }
  }

  /** Entries of other user keys do not matter to a search. */
  lemma IrrelevantEntries(s: set<Entry>, t: set<Entry>, u: UserKey, snapshot: SeqNum, r: Saver)
    requires Answers(s, u, snapshot, r) && s <= t
    requires forall e | e in t && e !in s :: e.key.user != u
    ensures Answers(t, u, snapshot, r)
  {
    if !r.NotFound? {
      var e :| IsNewest(s, u, snapshot, e) && e.key.kind.Value? == r.Found? && (r.Found? ==> e.value == r.value);
      assert IsNewest(t, u, snapshot, e);
    }
  }

  ghost function LevelsFrom(v: Version, l: nat): set<Entry>
    requires l <= NUM_LEVELS
    decreases NUM_LEVELS - l
  {
    if l == NUM_LEVELS then {} else FileEntries(v[l]) + LevelsFrom(v, l + 1)
  }

  lemma {:induction false} LevelsFromMember(v: Version, l: nat, e: Entry)
    requires l <= NUM_LEVELS
    ensures e in LevelsFrom(v, l) <==> exists m | l <= m < NUM_LEVELS :: e in FileEntries(v[m])
    decreases NUM_LEVELS - l
  {
    if l < NUM_LEVELS {
      LevelsFromMember(v, l + 1, e);
    }
  }

  lemma LevelsFromZero(v: Version)
    ensures LevelsFrom(v, 0) == AllEntries(v)
  {
    forall e
      ensures e in LevelsFrom(v, 0) <==> e in AllEntries(v)
    {
      LevelsFromMember(v, 0, e);
    }
  }

  lemma LevelNewer(v: Version, l: nat)
    requires ShallowerNewer(v) && l < NUM_LEVELS
    ensures NewerSet(FileEntries(v[l]), LevelsFrom(v, l + 1))
  {
    forall d, e | d in FileEntries(v[l]) && e in LevelsFrom(v, l + 1) && d.key.user == e.key.user
      ensures d.key.seqno > e.key.seqno
    {
      LevelsFromMember(v, l + 1, e);
      var m :| l < m < NUM_LEVELS && e in FileEntries(v[m]);
      var f :| f in v[l] && d in f.entries;
      var g :| g in v[m] && e in g.entries;
      assert NewerFile(f, g);
    }
  }

  // ----- level 0

  ghost predicate NewestFirst(fs: seq<File>) {
    forall i, j | 0 <= i < j < |fs| :: fs[i].number >= fs[j].number
  }

  /** std::sort by NewestFirst */
  method SortNewestFirst(fs: seq<File>) returns (r: seq<File>)
    ensures multiset(r) == multiset(fs) && NewestFirst(r)
  {
    r := [];
    for i := 0 to |fs|
      invariant multiset(r) == multiset(fs[..i]) && NewestFirst(r)
    {
      assert fs[..i + 1] == fs[..i] + [fs[i]];
      r := InsertNewest(r, fs[i]);
    }
    assert fs[..|fs|] == fs;
  }

  method InsertNewest(fs: seq<File>, f: File) returns (r: seq<File>)
    requires NewestFirst(fs)
    ensures multiset(r) == multiset(fs) + multiset{f} && NewestFirst(r)
  {
    var k := 0;
    while k < |fs| && fs[k].number > f.number
      invariant k <= |fs| && forall a | 0 <= a < k :: fs[a].number > f.number
    {
      k := k + 1;
    }
    InsertNewestFirst(fs, k, f);
    r := fs[..k] + [f] + fs[k..];
  }

  lemma InsertNewestFirst(r: seq<File>, k: nat, f: File)
    requires NewestFirst(r) && k <= |r| && forall a | 0 <= a < k :: r[a].number > f.number
    requires k < |r| ==> r[k].number <= f.number
    ensures NewestFirst(r[..k] + [f] + r[k..])
    ensures multiset(r[..k] + [f] + r[k..]) == multiset(r) + multiset{f}
  {
    assert r == r[..k] + r[k..];
  }

  ghost function RunEntries(fs: seq<File>, i: nat): set<Entry>
    requires i <= |fs|
    decreases |fs| - i
  {
    if i == |fs| then {} else Elems(fs[i].entries) + RunEntries(fs, i + 1)
  }

  lemma {:induction false} RunMember(fs: seq<File>, i: nat, e: Entry)
    requires i <= |fs|
    ensures e in RunEntries(fs, i) <==> exists j | i <= j < |fs| :: e in fs[j].entries
    decreases |fs| - i
  {
    if i < |fs| {
      RunMember(fs, i + 1, e);
    }
  }

  /** Search the given files one after the other until one has an answer. */
  method SearchInOrder(fs: seq<File>, u: UserKey, snapshot: SeqNum) returns (r: Saver)
    requires forall i, j | 0 <= i < j < |fs| :: fs[i] == fs[j] || NewerFile(fs[i], fs[j])
    ensures Answers(RunEntries(fs, 0), u, snapshot, r)
  {
    r := NotFound;
    var i := 0;
    while i < |fs| && r.NotFound?
      invariant i <= |fs|
      invariant r.NotFound? ==> Decides(RunEntries(fs, i), RunEntries(fs, 0), u, snapshot)
      invariant !r.NotFound? ==> Answers(RunEntries(fs, 0), u, snapshot, r)
    {
      r := SearchRun(fs[i].entries, u, snapshot);
      SkipRun(fs, i, u, snapshot, r);
      i := i + 1;
    }
  }

  lemma SkipRun(fs: seq<File>, i: nat, u: UserKey, snapshot: SeqNum, r: Saver)
    requires i < |fs| && Answers(Elems(fs[i].entries), u, snapshot, r)
    requires forall i, j | 0 <= i < j < |fs| :: fs[i] == fs[j] || NewerFile(fs[i], fs[j])
    ensures r.NotFound? ==> Decides(RunEntries(fs, i + 1), RunEntries(fs, i), u, snapshot)
    ensures !r.NotFound? ==> Answers(RunEntries(fs, i), u, snapshot, r)
  {
    var s, t := Elems(fs[i].entries), RunEntries(fs, i + 1) - Elems(fs[i].entries);
    forall d, e | d in s && e in t && d.key.user == e.key.user
      ensures d.key.seqno > e.key.seqno
    {
      RunMember(fs, i + 1, e);
    }
    assert s + t == RunEntries(fs, i);
    LayerOrder(s, t, u, snapshot, r);
    if r.NotFound? {
      forall x | Answers(RunEntries(fs, i + 1), u, snapshot, x)
        ensures Answers(RunEntries(fs, i), u, snapshot, x)
      {
        WithoutInvisible(RunEntries(fs, i + 1), s, u, snapshot, x);
        LayerOrder(s, t, u, snapshot, x);
      }
    }
  }

  lemma WithoutInvisible(t: set<Entry>, s: set<Entry>, u: UserKey, snapshot: SeqNum, x: Saver)
    requires NoneVisible(s, u, snapshot) && Answers(t, u, snapshot, x)
    ensures Answers(t - s, u, snapshot, x)
  {
    if !x.NotFound? {
      var e :| IsNewest(t, u, snapshot, e) && e.key.kind.Value? == x.Found? && (x.Found? ==> e.value == x.value);
      assert IsNewest(t - s, u, snapshot, e);
    }
  }

  /** The level-0 part of Version::ForEachOverlapping. */
  method SearchLevelZero(v: Version, u: UserKey, snapshot: SeqNum) returns (r: Saver)
    requires VersionInv(v)
    ensures Answers(FileEntries(v[0]), u, snapshot, r)
  {
    var tmp := [];
    for i := 0 to |v[0]|
      invariant forall f :: f in tmp <==> f in v[0][..i] && Smallest(f).user <= u <= Largest(f).user
    {
      if Smallest(v[0][i]).user <= u <= Largest(v[0][i]).user {
        tmp := tmp + [v[0][i]];
      }
    }
    assert v[0][..|v[0]|] == v[0];
    var sorted := SortNewestFirst(tmp);
    forall f
      ensures f in sorted <==> f in tmp
    {
      assert f in multiset(sorted) <==> f in multiset(tmp);
    }
    forall i, j | 0 <= i < j < |sorted|
      ensures sorted[i] == sorted[j] || NewerFile(sorted[i], sorted[j])
    {
      assert sorted[i] in sorted && sorted[j] in sorted;
    }
    r := SearchInOrder(sorted, u, snapshot);
    OnlyCandidates(v[0], sorted, u);
    IrrelevantEntries(RunEntries(sorted, 0), FileEntries(v[0]), u, snapshot, r);
  }

  lemma OnlyCandidates(files: seq<File>, tmp: seq<File>, u: UserKey)
    requires forall f :: f in tmp <==> f in files && Smallest(f).user <= u <= Largest(f).user
    ensures RunEntries(tmp, 0) <= FileEntries(files)
    ensures forall e | e in FileEntries(files) && e !in RunEntries(tmp, 0) :: e.key.user != u
  {
    forall e
      ensures e in RunEntries(tmp, 0) ==> e in FileEntries(files)
      ensures e in FileEntries(files) && e.key.user == u ==> e in RunEntries(tmp, 0)
    {
      RunMember(tmp, 0, e);
      if e in RunEntries(tmp, 0) {
        var j :| 0 <= j < |tmp| && e in tmp[j].entries;
        assert tmp[j] in tmp;
      }
      if e in FileEntries(files) && e.key.user == u {
        var f :| f in files && e in f.entries;
        EntryBounds(f, e);
        var j :| 0 <= j < |tmp| && tmp[j] == f;
      }
    }
  }

  // ----- deeper levels

  /** One level of Version::ForEachOverlapping: a user key may span several files of the level. */
  method SearchSortedLevel(files: seq<File>, u: UserKey, snapshot: SeqNum) returns (r: Saver)
    requires SortedDisjoint(files)
    ensures Answers(FileEntries(files), u, snapshot, r)
  {
    var index := FindFile(files, SeekKey(u, snapshot));
    r := NotFound;
    if index < |files| && Smallest(files[index]).user <= u {
      r := SearchRun(files[index].entries, u, snapshot);
      OneFileSuffices(files, index, u, snapshot, r);
    } else {
      NoFileMatters(files, index, u, snapshot);
    }
  }

  lemma EarlierInvisible(files: seq<File>, index: nat, u: UserKey, snapshot: SeqNum, f: File, e: Entry)
    requires index <= |files| && forall i | 0 <= i < index :: Less(Largest(files[i]), SeekKey(u, snapshot))
    requires f in files[..index] && e in f.entries && e.key.user == u
    ensures e.key.seqno > snapshot
  {
    EntryBounds(f, e);
  }

  lemma NoFileMatters(files: seq<File>, index: nat, u: UserKey, snapshot: SeqNum)
    requires SortedDisjoint(files) && index <= |files|
    requires forall i | 0 <= i < index :: Less(Largest(files[i]), SeekKey(u, snapshot))
    requires index < |files| ==> Smallest(files[index]).user > u
    ensures NoneVisible(FileEntries(files), u, snapshot)
  {
    forall e | e in FileEntries(files) && e.key.user == u
      ensures e.key.seqno > snapshot
    {
      var f :| f in files && e in f.entries;
      var i :| 0 <= i < |files| && files[i] == f;
      if i < index {
        EarlierInvisible(files, index, u, snapshot, f, e);
      } else {
        EntryBounds(f, e);
        if index < i { BeforeUsers(files[index], files[i]); }
      }
    }
  }

  lemma OneFileSuffices(files: seq<File>, index: nat, u: UserKey, snapshot: SeqNum, r: Saver)
    requires SortedDisjoint(files) && index < |files|
    requires forall i | 0 <= i < index :: Less(Largest(files[i]), SeekKey(u, snapshot))
    requires !Less(Largest(files[index]), SeekKey(u, snapshot))
    requires Answers(Elems(files[index].entries), u, snapshot, r)
    ensures Answers(FileEntries(files), u, snapshot, r)
  {
    var g := files[index];
    if r.NotFound? {
      // a file that reaches past the seek key without a visible entry ends after the user key
      EntryBounds(g, g.entries[|g.entries| - 1]);
      assert Largest(g).user > u by { assert g.entries[|g.entries| - 1] in Elems(g.entries); }
      forall e | e in FileEntries(files) && e.key.user == u
        ensures e.key.seqno > snapshot
      {
        var f :| f in files && e in f.entries;
        var i :| 0 <= i < |files| && files[i] == f;
        if i < index {
          EarlierInvisible(files, index, u, snapshot, f, e);
        } else if i > index {
          EntryBounds(f, e);
          BeforeUsers(g, f);
        }
      }
    } else {
      var e :| IsNewest(Elems(g.entries), u, snapshot,
                        e) && e.key.kind.Value? == r.Found? && (r.Found? ==> e.value == r.value);
      forall d | d in FileEntries(files) && d.key.user == u && d.key.seqno <= snapshot
        ensures d.key.seqno <= e.key.seqno
      {
        var f :| f in files && d in f.entries;
        var i :| 0 <= i < |files| && files[i] == f;
        if i < index {
          EarlierInvisible(files, index, u, snapshot, f, d);
        } else if i > index {
          BeforeIsNewer(g, f);
        }
      }
      assert e in FileEntries(files);
      assert IsNewest(FileEntries(files), u, snapshot, e);
    }
  }

  // ----- the whole version

  /** Version::Get through ForEachOverlapping: the search of all layers finds the newest visible entry. */
  method SearchVersion(v: Version, u: UserKey, snapshot: SeqNum) returns (r: Saver)
    requires VersionInv(v)
    ensures Answers(AllEntries(v), u, snapshot, r)
  {
    r := SearchLevelZero(v, u, snapshot);
    DescendLevel(v, 0, u, snapshot, r);
    var level := 1;
    while level < NUM_LEVELS && r.NotFound?
      invariant 1 <= level <= NUM_LEVELS
      invariant r.NotFound? ==> Decides(LevelsFrom(v, level), LevelsFrom(v, 0), u, snapshot)
      invariant !r.NotFound? ==> Answers(LevelsFrom(v, 0), u, snapshot, r)
    {
      assert SortedDisjoint(v[level]);
      r := SearchSortedLevel(v[level], u, snapshot);
      DescendLevel(v, level, u, snapshot, r);
      DecidesTransitive(LevelsFrom(v, level + 1), LevelsFrom(v, level), LevelsFrom(v, 0), u, snapshot);
      level := level + 1;
    }
    LevelsFromZero(v);
  }

  /** Searching `part` is enough to search `whole`. */
  ghost predicate Decides(part: set<Entry>, whole: set<Entry>, u: UserKey, snapshot: SeqNum) {
    forall x | Answers(part, u, snapshot, x) :: Answers(whole, u, snapshot, x)
  }

  lemma DecidesTransitive(a: set<Entry>, b: set<Entry>, c: set<Entry>, u: UserKey, snapshot: SeqNum)
    ensures Decides(a, b, u, snapshot) && Decides(b, c, u, snapshot) ==> Decides(a, c, u, snapshot)
  {}

  lemma DescendLevel(v: Version, l: nat, u: UserKey, snapshot: SeqNum, r: Saver)
    requires ShallowerNewer(v) && l < NUM_LEVELS && Answers(FileEntries(v[l]), u, snapshot, r)
    ensures r.NotFound? ==> Decides(LevelsFrom(v, l + 1), LevelsFrom(v, l), u, snapshot)
    ensures !r.NotFound? ==> Answers(LevelsFrom(v, l), u, snapshot, r)
  {
    LevelNewer(v, l);
    LayerOrder(FileEntries(v[l]), LevelsFrom(v, l + 1), u, snapshot, r);
    if r.NotFound? {
      forall x | Answers(LevelsFrom(v, l + 1), u, snapshot, x)
        ensures Answers(LevelsFrom(v, l), u, snapshot, x)
      {
        LayerOrder(FileEntries(v[l]), LevelsFrom(v, l + 1), u, snapshot, x);
      }
    }
  }

  /**
   DBImpl::Get up to the value's address: memtable, then immutable memtable, then the version.
   The answer is the plain read over the union of everything stored.
   */
  method Get(mem: seq<Entry>, imm: seq<Entry>, v: Version, u: UserKey, snapshot: SeqNum) returns (r: Option<Str>)
    requires Sorted(mem) && Sorted(imm) && VersionInv(v)
    requires NewerSet(Elems(mem), Elems(imm) + AllEntries(v)) && NewerSet(Elems(imm), AllEntries(v))
    ensures Reads(Elems(mem) + (Elems(imm) + AllEntries(v)), u, snapshot, r)
  {
    ghost var below := Elems(imm) + AllEntries(v);
    var saver := SearchRun(mem, u, snapshot);
    LayerOrder(Elems(mem), below, u, snapshot, saver);
    if saver.NotFound? {
      saver := SearchBelow(imm, v, u, snapshot);
      LayerOrder(Elems(mem), below, u, snapshot, saver);
    }
    r := if saver.Found? then Some(saver.value) else None;
    StoredDistinct(mem, imm, v);
    AnswerIsRead(Elems(mem) + below, u, snapshot, saver);
  }

  /** The part of DBImpl::Get below the memtable. */
  method SearchBelow(imm: seq<Entry>, v: Version, u: UserKey, snapshot: SeqNum) returns (r: Saver)
    requires Sorted(imm) && VersionInv(v) && NewerSet(Elems(imm), AllEntries(v))
    ensures Answers(Elems(imm) + AllEntries(v), u, snapshot, r)
  {
    r := SearchRun(imm, u, snapshot);
    LayerOrder(Elems(imm), AllEntries(v), u, snapshot, r);
    if r.NotFound? {
      r := SearchVersion(v, u, snapshot);
      LayerOrder(Elems(imm), AllEntries(v), u, snapshot, r);
    }
  }

  lemma SortedDistinct(es: seq<Entry>)
    requires Sorted(es)
    ensures DistinctKeys(Elems(es))
  {
    forall d, e | d in Elems(es) && e in Elems(es) && d.key.user == e.key.user && d.key.seqno == e.key.seqno
      ensures d == e
    {
      var i :| 0 <= i < |es| && es[i] == d;
      var j :| 0 <= j < |es| && es[j] == e;
    }
  }

  lemma StoredDistinct(mem: seq<Entry>, imm: seq<Entry>, v: Version)
    requires Sorted(mem) && Sorted(imm) && VersionInv(v)
    requires NewerSet(Elems(mem), Elems(imm) + AllEntries(v)) && NewerSet(Elems(imm), AllEntries(v))
    ensures DistinctKeys(Elems(mem) + (Elems(imm) + AllEntries(v)))
  {
    SortedDistinct(mem);
    SortedDistinct(imm);
    VersionKeysDistinct(v);
  }

  lemma AnswerIsRead(s: set<Entry>, u: UserKey, snapshot: SeqNum, r: Saver)
    requires DistinctKeys(s) && Answers(s, u, snapshot, r)
    ensures Reads(s, u, snapshot, if r.Found? then Some(r.value) else None)
  {}
}
