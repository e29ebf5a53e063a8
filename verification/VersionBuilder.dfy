/** VersionSet::Builder for one level: merge the added files into the base files, dropping deleted ones. */
module VersionBuilder {
  import opened Versions

  /** No added file has the number of a base file. */
  ghost predicate NewNumbers(base: seq<File>, added: seq<File>) {
    forall f, g | f in base && g in added :: f.number != g.number
  }

  /** f may stand before g; strictly, if no two files can tie. */
  ghost predicate MayPrecede(strict: bool, f: File, g: File) {
    if strict then BySmallestKey(f, g) else !BySmallestKey(g, f)
  }

  ghost predicate Ordered(strict: bool, fs: seq<File>) {
    forall i, j | 0 <= i < j < |fs| :: MayPrecede(strict, fs[i], fs[j])
  }

  /**
   Builder::Apply and Builder::SaveTo for one level. Adding a file takes its number out of the
   deleted set; every added file is preceded by all base files that do not sort after it. A file
   added under the number of a base file comes beside it, not in its place.
   */
  method SaveLevel(base: seq<File>, deletedNumbers: set<nat>, added: seq<File>) returns (out: seq<File>)
    requires InKeyOrder(base) && InKeyOrder(added)
    ensures forall f :: f in out <==> (f in base && f.number !in deletedNumbers - Numbers(added)) || f in added
    ensures Ordered(false, out)
    ensures NewNumbers(base, added) ==> LevelEdited(base, deletedNumbers, added, out)
  {
    out := [];
    var deleted := deletedNumbers - set f | f in added :: f.number;
    ghost var strict := NewNumbers(base, added);
    var b := 0;
    for i := 0 to |added|
      invariant b <= |base|
      invariant Merged(strict, base, b, deleted, added, i, out)
    {
      // std::upper_bound: the base files that do not sort after the added file
      while b < |base| && !BySmallestKey(added[i], base[b])
        invariant b <= |base|
        invariant Merged(strict, base, b, deleted, added, i, out)
      {
        TakeBase(strict, base, b, deleted, added, i, out);
        if base[b].number !in deleted {
          out := out + [base[b]];
        }
        b := b + 1;
      }
      TakeAdded(strict, base, b, deleted, added, i, out);
      out := out + [added[i]];
    }
    while b < |base|
      invariant b <= |base|
      invariant Merged(strict, base, b, deleted, added, |added|, out)
    {
      TakeBase(strict, base, b, deleted, added, |added|, out);
      if base[b].number !in deleted {
        out := out + [base[b]];
      }
      b := b + 1;
    }
    assert base[..b] == base && added[..|added|] == added;
    Weaken(strict, out);
  }

  lemma Weaken(strict: bool, fs: seq<File>)
    requires Ordered(strict, fs)
    ensures Ordered(false, fs) && (strict ==> InKeyOrder(fs))
  {
    forall i, j | 0 <= i < j < |fs|
      ensures MayPrecede(false, fs[i], fs[j]) && (strict ==> BySmallestKey(fs[i], fs[j]))
    {
      assert MayPrecede(strict, fs[i], fs[j]);
    }
  }

  lemma TakeBase(strict: bool, base: seq<File>, b: nat, deleted: set<nat>, added: seq<File>, i: nat, out: seq<File>)
    requires InKeyOrder(base) && InKeyOrder(added) && b < |base| && i <= |added|
    requires Merged(strict, base, b, deleted, added, i, out)
    requires i < |added| ==> (strict ==> base[b].number != added[i].number) && !BySmallestKey(added[i], base[b])
    ensures Merged(strict, base, b + 1, deleted, added, i, if base[b].number in deleted then out else out + [base[b]])
  {
    assert base[..b + 1] == base[..b] + [base[b]];
    forall j | i <= j < |added|
      ensures MayPrecede(strict, base[b], added[j])
    {
      assert i < j ==> BySmallestKey(added[i], added[j]);
    }
    forall j | b < j < |base|
      ensures MayPrecede(strict, base[b], base[j])
    {
      assert BySmallestKey(base[b], base[j]);
    }
  }

  lemma TakeAdded(strict: bool, base: seq<File>, b: nat, deleted: set<nat>, added: seq<File>, i: nat, out: seq<File>)
    requires InKeyOrder(base) && InKeyOrder(added) && b <= |base| && i < |added|
    requires Merged(strict, base, b, deleted, added, i, out)
    requires b < |base| ==> BySmallestKey(added[i], base[b])
    ensures Merged(strict, base, b, deleted, added, i + 1, out + [added[i]])
  {
    assert added[..i + 1] == added[..i] + [added[i]];
    forall j | b <= j < |base|
      ensures MayPrecede(strict, added[i], base[j])
    {
      assert b < j ==> BySmallestKey(base[b], base[j]);
    }
    forall j | i < j < |added|
      ensures MayPrecede(strict, added[i], added[j])
    {
      assert BySmallestKey(added[i], added[j]);
    }
  }

  /** What has been written after `b` base files and `i` added files, and what is still to come. */
  ghost predicate Merged(strict: bool, base: seq<File>, b: nat, deleted: set<nat>, added: seq<File>, i: nat,
                         out: seq<File>)
    requires b <= |base| && i <= |added|
  {
    && Ordered(strict, out)
    && (forall f :: f in out <==> (f in base[..b] && f.number !in deleted) || f in added[..i])
    && (forall f, j | f in out && b <= j < |base| :: MayPrecede(strict, f, base[j]))
    && (forall f, j | f in out && i <= j < |added| :: MayPrecede(strict, f, added[j]))
  }
}
