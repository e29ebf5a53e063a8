/**
 The input of a compaction: the merging iterator over the inputs yields each of their entries once,
 in order.
 */
module InputStream {
  import opened InternalKeys
  import opened Versions
  import opened InputSelection
  import opened CompactionReads
  import opened VersionSteps
  import M = MergingIterator

  /** One child for each level-0 file, one for all files of a deeper level. */
  ghost function Children(level: nat, in0: seq<File>, in1: seq<File>): seq<seq<Entry>> {
    (if level == 0 then Bodies(in0) else [Contents(in0)]) + [Contents(in1)]
  }

  /** The concatenation of the files of a sorted level is sorted. */
  lemma {:induction false} ContentsSorted(fs: seq<File>)
    requires SortedDisjoint(fs)
    ensures Sorted(Contents(fs))
  {
    if fs != [] {
      var n := |fs| - 1;
      var c, last := Contents(fs[..n]), fs[n].entries;
      ContentsLast(fs);
      ContentsSorted(fs[..n]);
      forall i, j | 0 <= i < |c| && 0 <= j < |last|
        ensures Before(c[i].key, last[j].key)
      {
        assert c[i] in c && last[j] in last;
        EarlierFile(fs, n, c[i], last[j]);
      }
      SortedConcat(c, last);
    }
  }

  lemma EarlierFile(fs: seq<File>, n: nat, d: Entry, e: Entry)
    requires SortedDisjoint(fs) && n == |fs| - 1 && d in Contents(fs[..n]) && e in fs[n].entries
    ensures Before(d.key, e.key)
  {
    ContentsMember(fs[..n], d);
    var f :| f in fs[..n] && d in f.entries;
    var i :| 0 <= i < n && fs[..n][i] == f;
    assert FileBefore(fs[i], fs[n]);
    EntryBounds(f, d);
    EntryBounds(fs[n], e);
  }

  lemma SortedConcat(a: seq<Entry>, b: seq<Entry>)
    requires Sorted(a) && Sorted(b) && forall i, j | 0 <= i < |a| && 0 <= j < |b| :: Before(a[i].key, b[j].key)
    ensures Sorted(a + b)
  {
    forall i, j | 0 <= i < j < |a + b|
      ensures Before((a + b)[i].key, (a + b)[j].key)
    {
      if |a| <= i {
        assert Before(b[i - |a|].key, b[j - |a|].key);
      }
    }
  }

  /** Entries of different files of a version have different keys. */
  lemma FilesApart(v: Version, l: nat, f: File, m: nat, g: File, d: Entry, e: Entry)
    requires VersionInv(v) && l < NUM_LEVELS && m < NUM_LEVELS && f in v[l] && g in v[m] && (l != m || f != g)
    requires d in f.entries && e in g.entries
    ensures !M.SameKey(d, e)
  {
    FilesComparable(v, l, m, f, g);
  }

  /** Where the entries of a child come from. */
  lemma ChildSource(v: Version, level: nat, in0: seq<File>, in1: seq<File>, c: nat, e: Entry) returns (l: nat, f: File)
    requires InputsHold(v, level, in0, in1) && c < |Children(level, in0, in1)| && e in Children(level, in0, in1)[c]
    ensures l < NUM_LEVELS && f in v[l] && e in f.entries
    ensures if c == |Children(level, in0, in1)| - 1 then l == level + 1 && f in in1
            else l == level && f in in0 && (level == 0 ==> f == in0[c])
  {
    if c == |Children(level, in0, in1)| - 1 {
      ContentsMember(in1, e);
      f :| f in in1 && e in f.entries;
      l := level + 1;
    } else {
      if level == 0 {
        f := in0[c];
      } else {
        ContentsMember(in0, e);
        f :| f in in0 && e in f.entries;
      }
      l := level;
    }
  }

  lemma ChildSorted(level: nat, in0: seq<File>, in1: seq<File>, c: nat)
    requires Listed(level, in0) && SortedDisjoint(in1) && c < |Children(level, in0, in1)|
    ensures Sorted(Children(level, in0, in1)[c])
  {
    ContentsSorted(in1);
    if level > 0 {
      ContentsSorted(in0);
    } else if c < |in0| {
      assert Children(level, in0, in1)[c] == in0[c].entries;
    }
  }

  lemma ChildrenFit(v: Version, level: nat, in0: seq<File>, in1: seq<File>)
    requires VersionInv(v) && InputsHold(v, level, in0, in1) && Listed(level, in0) && SortedDisjoint(in1)
    ensures M.ChildrenOk(Children(level, in0, in1))
  {
    var cs := Children(level, in0, in1);
    forall c | 0 <= c < |cs|
      ensures Sorted(cs[c])
    {
      ChildSorted(level, in0, in1, c);
    }
    forall c, d, i, j | 0 <= c < d < |cs| && 0 <= i < |cs[c]| && 0 <= j < |cs[d]|
      ensures !M.SameKey(cs[c][i], cs[d][j])
    {
      var l, f := ChildSource(v, level, in0, in1, c, cs[c][i]);
      var m, g := ChildSource(v, level, in0, in1, d, cs[d][j]);
      FilesApart(v, l, f, m, g, cs[c][i], cs[d][j]);
    }
  }

  lemma ChildrenHold(level: nat, in0: seq<File>, in1: seq<File>, e: Entry)
    ensures M.InSome(Children(level, in0, in1), e) <==> e in FileEntries(in0) + FileEntries(in1)
  {
    var cs := Children(level, in0, in1);
    ContentsMember(in0, e);
    ContentsMember(in1, e);
    if e in FileEntries(in1) {
      var i :| 0 <= i < |cs[|cs| - 1]| && cs[|cs| - 1][i] == e;
    } else if e in FileEntries(in0) {
      var c := ChildOf(level, in0, in1, e);
      var i :| 0 <= i < |cs[c]| && cs[c][i] == e;
    }
    if M.InSome(cs, e) {
      var c, i :| 0 <= c < |cs| && 0 <= i < |cs[c]| && cs[c][i] == e;
      ChildHeld(level, in0, in1, c, e);
    }
  }

  lemma ChildHeld(level: nat, in0: seq<File>, in1: seq<File>, c: nat, e: Entry)
    requires c < |Children(level, in0, in1)| && e in Children(level, in0, in1)[c]
    ensures e in FileEntries(in0) + FileEntries(in1)
  {
    ContentsMember(in0, e);
    ContentsMember(in1, e);
    if level == 0 && c < |in0| {
      assert in0[c] in in0 && e in in0[c].entries;
    }
  }

  lemma ChildOf(level: nat, in0: seq<File>, in1: seq<File>, e: Entry) returns (c: nat)
    requires e in FileEntries(in0)
    ensures c < |Children(level, in0, in1)| && e in Children(level, in0, in1)[c]
  {
    ContentsMember(in0, e);
    if level == 0 {
      var f :| f in in0 && e in f.entries;
      c :| 0 <= c < |in0| && in0[c] == f;
    } else {
      c := 0;
    }
  }

  /** The union of the children is what a compaction merges. */
  lemma UnionIsMerged(v: Version, level: nat, in0: seq<File>, in1: seq<File>)
    requires VersionInv(v) && InputsHold(v, level, in0, in1) && Listed(level, in0) && SortedDisjoint(in1)
    ensures M.ChildrenOk(Children(level, in0, in1)) && MergedInputs(in0, in1, M.Union(Children(level, in0, in1)))
  {
    var cs := Children(level, in0, in1);
    ChildrenFit(v, level, in0, in1);
    M.UnionIsSorted(cs);
    forall e
      ensures e in Elems(M.Union(cs)) <==> e in FileEntries(in0) + FileEntries(in1)
    {
      ChildrenHold(level, in0, in1, e);
    }
  }

  /** The files of a level end to end, as the concatenating iterator yields them. */
  method Concatenate(fs: seq<File>) returns (es: seq<Entry>)
    ensures es == Contents(fs)
  {
    es := [];
    for i := 0 to |fs|
      invariant es == Contents(fs[..i])
    {
      ContentsLast(fs[..i + 1]);
      assert fs[..i + 1][..i] == fs[..i];
      es := es + fs[i].entries;
    }
    assert fs[..|fs|] == fs;
  }

  /** VersionSet::MakeInputIterator, and the pass over it. */
  method MergeInputs(ghost v: Version, level: nat, in0: seq<File>, in1: seq<File>) returns (m: seq<Entry>)
    requires VersionInv(v) && InputsHold(v, level, in0, in1) && Listed(level, in0) && SortedDisjoint(in1)
    ensures MergedInputs(in0, in1, m)
  {
    UnionIsMerged(v, level, in0, in1);
    var first := [];
    if level == 0 {
      first := seq(|in0|, i requires 0 <= i < |in0| => in0[i].entries);
    } else {
      var es := Concatenate(in0);
      first := [es];
    }
    var second := Concatenate(in1);
    m := ReadAll(first + [second]);
  }

  /** A pass over a merging iterator gives the union of its children. */
  method ReadAll(children: seq<seq<Entry>>) returns (m: seq<Entry>)
    requires M.ChildrenOk(children)
    ensures m == M.Union(children)
  {
    var input := new M.Merging(children);
    input.SeekToFirst();
    m := [];
    while input.current >= 0
      invariant input.Inv() && input.children == children
      invariant m == M.Union(children)[..if input.cursor < 0 then |M.Union(children)| else input.cursor]
      decreases |M.Union(children)| - |m|
    {
      var e := input.children[input.current][input.pos[input.current]];
      m := m + [e];
      input.Next();
    }
  }
}
