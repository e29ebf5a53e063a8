/**
 Versions: seven levels of table files, the invariant every version keeps, and version edits.
 */
module Versions {
  import opened InternalKeys

  /** config::kNumLevels */
  const NUM_LEVELS: nat := 7

  datatype RawFile = RawFile(number: nat, size: nat, entries: seq<Entry>)

  /** A table file: its entries are non-empty and strictly increasing. */
  type File = f: RawFile | f.entries != [] && Sorted(f.entries)
    witness RawFile(0, 0, [Entry(IKey(0.0, 0, Value), [])])

  type Version = v: seq<seq<File>> | |v| == NUM_LEVELS
    witness [[], [], [], [], [], [], []]

  ghost predicate EmptyVersion(v: Version) {
    forall l | 0 <= l < NUM_LEVELS :: v[l] == []
  }

  function Smallest(f: File): IKey { f.entries[0].key }
  function Largest(f: File): IKey { f.entries[|f.entries| - 1].key }

  /** Every entry of a file lies between its smallest and its largest key. */
  lemma EntryBounds(f: File, e: Entry)
    requires e in f.entries
    ensures !Before(e.key, Smallest(f)) && !Before(Largest(f), e.key)
    ensures Smallest(f).user <= e.key.user <= Largest(f).user
  {
    var i :| 0 <= i < |f.entries| && f.entries[i] == e;
    assert 0 < i ==> Before(f.entries[0].key, f.entries[i].key);
    assert i < |f.entries| - 1 ==> Before(f.entries[i].key, f.entries[|f.entries| - 1].key);
  }

  // ----- entries of files, levels and versions

  ghost function FileEntries(fs: seq<File>): set<Entry> {
    set f, e | f in fs && e in f.entries :: e
  }

  ghost function AllEntries(v: Version): set<Entry> {
    set l, e | 0 <= l < NUM_LEVELS && e in FileEntries(v[l]) :: e
  }

  // ----- the invariant

  /** Entries of `f` are newer than entries of `g` for every user key they share. */
  ghost predicate NewerFile(f: File, g: File) {
    forall d, e | d in f.entries && e in g.entries && d.key.user == e.key.user :: d.key.seqno > e.key.seqno
  }

  ghost predicate FileBefore(f: File, g: File) {
    Before(Largest(f), Smallest(g))
  }

  /** Files of a level >= 1 follow each other without overlap in internal-key order. */
  ghost predicate SortedDisjoint(fs: seq<File>) {
    forall i, j | 0 <= i < j < |fs| :: FileBefore(fs[i], fs[j])
  }

  ghost predicate NumbersDistinct(v: Version) {
    forall l, m, f, g | 0 <= l < NUM_LEVELS && 0 <= m < NUM_LEVELS && f in v[l] && g in v[m] && f.number == g.number ::
      l == m && f == g
  }

  ghost predicate LevelZeroOrdered(v: Version) {
    forall f, g | f in v[0] && g in v[0] && f.number > g.number :: NewerFile(f, g)
  }

  ghost predicate ShallowerNewer(v: Version) {
    forall l, m, f, g | 0 <= l < m < NUM_LEVELS && f in v[l] && g in v[m] :: NewerFile(f, g)
  }

  ghost predicate LevelsSorted(v: Version) {
    forall l | 1 <= l < NUM_LEVELS :: SortedDisjoint(v[l])
  }

  ghost predicate VersionInv(v: Version) {
    NumbersDistinct(v) && LevelsSorted(v) && LevelZeroOrdered(v) && ShallowerNewer(v)
  }

  /** Within a sorted level an earlier file holds the newer entries of a shared user key. */
  lemma BeforeIsNewer(f: File, g: File)
    requires FileBefore(f, g)
    ensures NewerFile(f, g)
  {
    forall d, e | d in f.entries && e in g.entries && d.key.user == e.key.user
      ensures d.key.seqno > e.key.seqno
    {
      EntryBounds(f, d);
      EntryBounds(g, e);
    }
  }

  /** Any two different files of a version hold comparable versions of the keys they share. */
  lemma FilesComparable(v: Version, l: nat, m: nat, f: File, g: File)
    requires VersionInv(v) && l < NUM_LEVELS && m < NUM_LEVELS && f in v[l] && g in v[m]
    requires f.number != g.number
    ensures NewerFile(f, g) || NewerFile(g, f)
  {
    if l == m != 0 {
      var i :| 0 <= i < |v[l]| && v[l][i] == f;
      var j :| 0 <= j < |v[l]| && v[l][j] == g;
      assert SortedDisjoint(v[l]);
      if i < j { BeforeIsNewer(f, g); } else { BeforeIsNewer(g, f); }
    }
  }

  lemma EntryDistinct(v: Version, l: nat, m: nat, f: File, g: File, d: Entry, e: Entry)
    requires VersionInv(v) && l < NUM_LEVELS && m < NUM_LEVELS && f in v[l] && g in v[m]
    requires d in f.entries && e in g.entries && d.key.user == e.key.user && d.key.seqno == e.key.seqno
    ensures d == e
  {
    if f.number != g.number {
      FilesComparable(v, l, m, f, g);
    }
  }

  lemma InVersion(v: Version, e: Entry) returns (l: nat, f: File)
    requires e in AllEntries(v)
    ensures l < NUM_LEVELS && f in v[l] && e in f.entries
  {
    l :| 0 <= l < NUM_LEVELS && e in FileEntries(v[l]);
    f :| f in v[l] && e in f.entries;
  }

  lemma VersionHas(v: Version, l: nat, f: File, e: Entry)
    requires l < NUM_LEVELS && f in v[l] && e in f.entries
    ensures e in AllEntries(v)
  {
    assert e in FileEntries(v[l]);
  }

  /** Entries of a version are told apart by user key and sequence number. */
  lemma {:induction false} VersionKeysDistinct(v: Version)
    requires VersionInv(v)
    ensures DistinctKeys(AllEntries(v))
  {
    forall d, e | d in AllEntries(v) && e in AllEntries(v) && d.key.user == e.key.user && d.key.seqno == e.key.seqno
      ensures d == e
    {
      var l, f := InVersion(v, d);
      var m, g := InVersion(v, e);
      EntryDistinct(v, l, m, f, g, d, e);
    }
  }

  // ----- version edits

  /** Builder::BySmallestKey */
  predicate BySmallestKey(f: File, g: File) {
    Less(Smallest(f), Smallest(g)) ||
    (Smallest(f).user == Smallest(g).user && Pack(Smallest(f)) == Pack(Smallest(g)) && f.number < g.number)
  }

  ghost predicate InKeyOrder(fs: seq<File>) {
    forall i, j | 0 <= i < j < |fs| :: BySmallestKey(fs[i], fs[j])
  }

  /**
   What applying an edit does to one level: the files whose numbers are deleted go, the added
   files come, and the result is in the builder's order.
   */
  ghost predicate LevelEdited(base: seq<File>, deleted: set<nat>, added: seq<File>, out: seq<File>) {
    && InKeyOrder(out)
    && forall f :: f in out <==> (f in base && f.number !in deleted) || f in added
  }

  ghost function Numbers(fs: seq<File>): set<nat> {
    set f | f in fs :: f.number
  }

  ghost predicate Apart(f: File, g: File) {
    FileBefore(f, g) || FileBefore(g, f)
  }

  /** Pairwise disjoint files in the builder's order form a sorted level. */
  lemma DisjointInOrder(fs: seq<File>)
    requires InKeyOrder(fs)
    requires forall f, g | f in fs && g in fs && f != g :: Apart(f, g)
    ensures SortedDisjoint(fs)
  {
    forall i, j | 0 <= i < j < |fs|
      ensures FileBefore(fs[i], fs[j])
    {
      assert BySmallestKey(fs[i], fs[j]);
      EntryBounds(fs[j], fs[j].entries[|fs[j].entries| - 1]);
      assert Apart(fs[i], fs[j]);
    }
  }

  lemma SortedApart(fs: seq<File>, f: File, g: File)
    requires SortedDisjoint(fs) && f in fs && g in fs && f != g
    ensures Apart(f, g)
  {
    var i :| 0 <= i < |fs| && fs[i] == f;
    var j :| 0 <= j < |fs| && fs[j] == g;
  }
}
