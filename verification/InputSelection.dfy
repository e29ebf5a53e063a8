/**
 Choosing the files of a compaction: overlap queries with the level-0 restart loop, boundary
 files, and the expansion of the inputs.
 */
module InputSelection {
  import opened Bytes
  import opened InternalKeys
  import opened Versions

  // ----- overlap with a user-key range; an absent bound is infinite

  predicate BeforeRange(f: File, lo: Option<UserKey>) {
    lo.Some? && Largest(f).user < lo.value
  }

  predicate AfterRange(f: File, hi: Option<UserKey>) {
    hi.Some? && Smallest(f).user > hi.value
  }

  predicate Overlaps(f: File, lo: Option<UserKey>, hi: Option<UserKey>) {
    !BeforeRange(f, lo) && !AfterRange(f, hi)
  }

  function Overlapping(files: seq<File>, lo: Option<UserKey>, hi: Option<UserKey>): (r: seq<File>)
    ensures |r| <= |files|
  {
    if files == [] then []
    else
      var r := Overlapping(files[..|files| - 1], lo, hi);
      if Overlaps(files[|files| - 1], lo, hi) then r + [files[|files| - 1]] else r
  }

  lemma {:induction false} OverlappingMembers(files: seq<File>, lo: Option<UserKey>, hi: Option<UserKey>)
    ensures forall f :: f in Overlapping(files, lo, hi) <==> f in files && Overlaps(f, lo, hi)
  {
    if files != [] {
      OverlappingMembers(files[..|files| - 1], lo, hi);
      assert files == files[..|files| - 1] + [files[|files| - 1]];
    }
  }

  /** The range lo..hi contains the range lo'..hi'. */
  ghost predicate Covers(lo: Option<UserKey>, hi: Option<UserKey>, lo': Option<UserKey>, hi': Option<UserKey>) {
    && (lo.Some? ==> lo'.Some? && lo.value <= lo'.value)
    && (hi.Some? ==> hi'.Some? && hi'.value <= hi.value)
  }

  ghost predicate Within(f: File, lo: Option<UserKey>, hi: Option<UserKey>) {
    (lo.Some? ==> lo.value <= Smallest(f).user) && (hi.Some? ==> Largest(f).user <= hi.value)
  }

  /** Every file that meets the range lies inside it. */
  ghost predicate ClosedRange(files: seq<File>, lo: Option<UserKey>, hi: Option<UserKey>) {
    forall f | f in files && Overlaps(f, lo, hi) :: Within(f, lo, hi)
  }

  ghost function StartingBelow(files: seq<File>, lo: Option<UserKey>): set<File> {
    set f | f in files && lo.Some? && Smallest(f).user < lo.value
  }

  ghost function EndingAbove(files: seq<File>, hi: Option<UserKey>): set<File> {
    set f | f in files && hi.Some? && Largest(f).user > hi.value
  }

  /** Every closed range around begin..end contains lo..hi. */
  ghost predicate LeastClosed(files: seq<File>, begin: Option<UserKey>, end: Option<UserKey>,
                              lo: Option<UserKey>, hi: Option<UserKey>) {
    forall b, e | Covers(b, e, begin, end) && ClosedRange(files, b, e) :: Covers(b, e, lo, hi)
  }

  /** Pulling the range out to a file that meets it keeps it inside every closed range. */
  lemma Widen(files: seq<File>, begin: Option<UserKey>, end: Option<UserKey>,
              lo: Option<UserKey>, hi: Option<UserKey>, f: File)
    requires LeastClosed(files, begin, end, lo, hi) && f in files && Overlaps(f, lo, hi)
    ensures lo.Some? ==> LeastClosed(files, begin, end, Some(Smallest(f).user), hi)
    ensures hi.Some? ==> LeastClosed(files, begin, end, lo, Some(Largest(f).user))
    ensures lo.Some? && Smallest(f).user < lo.value ==>
              StartingBelow(files, Some(Smallest(f).user)) < StartingBelow(files, lo)
    ensures hi.Some? && Largest(f).user > hi.value ==>
              EndingAbove(files, Some(Largest(f).user)) < EndingAbove(files, hi)
  {
    forall b, e | Covers(b, e, begin, end) && ClosedRange(files, b, e)
      ensures Within(f, b, e)
    {
      assert Covers(b, e, lo, hi) && Overlaps(f, b, e);
    }
    if lo.Some? && Smallest(f).user < lo.value {
      assert f in StartingBelow(files, lo) && f !in StartingBelow(files, Some(Smallest(f).user));
    }
    if hi.Some? && Largest(f).user > hi.value {
      assert f in EndingAbove(files, hi) && f !in EndingAbove(files, Some(Largest(f).user));
    }
  }

  lemma OverlappingNext(files: seq<File>, i: nat, lo: Option<UserKey>, hi: Option<UserKey>)
    requires i < |files|
    ensures Overlapping(files[..i + 1], lo, hi) ==
              Overlapping(files[..i], lo, hi) + if Overlaps(files[i], lo, hi) then [files[i]] else []
    ensures ClosedRange(files[..i], lo, hi) && (Overlaps(files[i], lo, hi) ==> Within(files[i], lo, hi)) ==>
              ClosedRange(files[..i + 1], lo, hi)
  {
    assert files[..i + 1][..i] == files[..i];
    assert files[..i + 1] == files[..i] + [files[i]];
  }

  /**
   Version::GetOverlappingInputs. At level 0 the search restarts with a wider range whenever a
   file sticks out of it. The range it settles on is the least range that covers the requested
   one and is closed, and the inputs are exactly the files that meet it.
   */
  method GetOverlappingInputs(level: nat, files: seq<File>, begin: Option<UserKey>, end: Option<UserKey>)
    returns (inputs: seq<File>, ghost lo: Option<UserKey>, ghost hi: Option<UserKey>)
    ensures inputs == Overlapping(files, lo, hi)
    ensures Covers(lo, hi, begin, end) && (begin.Some? ==> lo.Some?) && (end.Some? ==> hi.Some?)
    ensures level > 0 ==> lo == begin && hi == end
    ensures level == 0 ==> ClosedRange(files, lo, hi) && LeastClosed(files, begin, end, lo, hi)
  {
    var userBegin, userEnd := begin, end;
    inputs := [];
    var i := 0;
    while i < |files|
      invariant i <= |files|
      invariant inputs == Overlapping(files[..i], userBegin, userEnd)
      invariant Covers(userBegin, userEnd, begin, end) && (begin.Some? ==> userBegin.Some?) &&
                  (end.Some? ==> userEnd.Some?)
      invariant level > 0 ==> userBegin == begin && userEnd == end
      invariant level == 0 ==> ClosedRange(files[..i], userBegin, userEnd)
      invariant LeastClosed(files, begin, end, userBegin, userEnd)
      decreases StartingBelow(files, userBegin), EndingAbove(files, userEnd), |files| - i
    {
      var f := files[i];
      OverlappingNext(files, i, userBegin, userEnd);
      i := i + 1;
      if BeforeRange(f, userBegin) || AfterRange(f, userEnd) {
        // outside the range: skip it
      } else {
        inputs := inputs + [f];
        if level == 0 {
          Widen(files, begin, end, userBegin, userEnd, f);
          if userBegin.Some? && Smallest(f).user < userBegin.value {
            userBegin := Some(Smallest(f).user);
            inputs := [];
            i := 0;
          } else if userEnd.Some? && Largest(f).user > userEnd.value {
            userEnd := Some(Largest(f).user);
            inputs := [];
            i := 0;
          }
        }
      }
    }
    assert files[..i] == files;
    lo, hi := userBegin, userEnd;
  }

  /** Between two chosen files of a level no file is left out. */
  ghost predicate Convex(files: seq<File>, chosen: seq<File>) {
    forall f, g, h | f in chosen && h in chosen && g in files && FileBefore(f, g) && FileBefore(g, h) :: g in chosen
  }

  lemma BeforeUsers(f: File, g: File)
    requires FileBefore(f, g)
    ensures Smallest(f).user <= Largest(f).user <= Smallest(g).user <= Largest(g).user
  {
    EntryBounds(f, f.entries[0]);
    EntryBounds(g, g.entries[0]);
  }

  lemma OverlappingConvex(files: seq<File>, lo: Option<UserKey>, hi: Option<UserKey>)
    ensures Convex(files, Overlapping(files, lo, hi))
  {
    OverlappingMembers(files, lo, hi);
    forall f, g, h | Overlaps(f, lo, hi) && Overlaps(h, lo, hi) && g in files && FileBefore(f, g) && FileBefore(g, h)
      ensures Overlaps(g, lo, hi)
    {
      BeforeUsers(f, g);
      BeforeUsers(g, h);
    }
  }

  // ----- the range of a set of files

  ghost function MinUser(fs: seq<File>): (r: UserKey)
    requires fs != []
    ensures forall f | f in fs :: r <= Smallest(f).user
    ensures exists f | f in fs :: r == Smallest(f).user
  {
    if |fs| == 1 then Smallest(fs[0]).user
    else
      var r := MinUser(fs[1..]);
      assert fs == [fs[0]] + fs[1..];
      if Smallest(fs[0]).user < r then Smallest(fs[0]).user else r
  }

  ghost function MaxUser(fs: seq<File>): (r: UserKey)
    requires fs != []
    ensures forall f | f in fs :: Largest(f).user <= r
    ensures exists f | f in fs :: r == Largest(f).user
  {
    if |fs| == 1 then Largest(fs[0]).user
    else
      var r := MaxUser(fs[1..]);
      assert fs == [fs[0]] + fs[1..];
      if r < Largest(fs[0]).user then Largest(fs[0]).user else r
  }

  ghost predicate IsLargestKey(fs: seq<File>, k: IKey) {
    (exists f | f in fs :: k == Largest(f)) && forall f | f in fs :: !Less(k, Largest(f))
  }

  ghost predicate IsSmallestKey(fs: seq<File>, k: IKey) {
    (exists f | f in fs :: k == Smallest(f)) && forall f | f in fs :: !Less(Smallest(f), k)
  }

  /** VersionSet::GetRange: the least and the greatest key of a non-empty set of files. */
  method GetRange(fs: seq<File>) returns (smallest: IKey, largest: IKey)
    requires fs != []
    ensures IsSmallestKey(fs, smallest) && IsLargestKey(fs, largest)
    ensures smallest.user == MinUser(fs) && largest.user == MaxUser(fs)
  {
    smallest, largest := Smallest(fs[0]), Largest(fs[0]);
    for i := 0 to |fs|
      invariant exists k | 0 <= k < |fs| :: smallest == Smallest(fs[k])
      invariant exists k | 0 <= k < |fs| :: largest == Largest(fs[k])
      invariant forall k | 0 <= k < i :: !Less(Smallest(fs[k]), smallest) && !Less(largest, Largest(fs[k]))
    {
      if Less(Smallest(fs[i]), smallest) {
        smallest := Smallest(fs[i]);
      }
      if Less(largest, Largest(fs[i])) {
        largest := Largest(fs[i]);
      }
    }
  }

  // ----- gaps between files

  ghost predicate InRange(f: File, u: UserKey) {
    Smallest(f).user <= u <= Largest(f).user
  }

  ghost predicate CoveredBy(fs: seq<File>, u: UserKey) {
    exists f | f in fs :: InRange(f, u)
  }

  ghost predicate InHull(fs: seq<File>, u: UserKey) {
    fs != [] && MinUser(fs) <= u <= MaxUser(fs)
  }

  /** The files cover their whole range. */
  ghost predicate Solid(fs: seq<File>) {
    forall u: UserKey {:trigger InHull(fs, u)} | InHull(fs, u) :: CoveredBy(fs, u)
  }

  /** The files of both levels cover the range of those of the first. */
  ghost predicate Connected(in0: seq<File>, in1: seq<File>) {
    forall u: UserKey {:trigger InHull(in0, u)} | InHull(in0, u) :: CoveredBy(in0 + in1, u)
  }

  /** Where the range of gs goes beyond that of fs, gs covers it. */
  ghost predicate Reaches(fs: seq<File>, gs: seq<File>) {
    forall u: UserKey {:trigger InHull(gs, u)} | InHull(gs, u) && !InHull(fs, u) :: CoveredBy(gs, u)
  }

  lemma CoveredMore(fs: seq<File>, gs: seq<File>, u: UserKey)
    requires CoveredBy(fs, u) && forall f | f in fs :: f in gs
    ensures CoveredBy(gs, u)
  {}

  /** A file that begins at the end of the range leaves no gap. */
  lemma ReachesNext(inputs: seq<File>, result: seq<File>, largest: IKey, f: File)
    requires Reaches(inputs, result) && IsLargestKey(result, largest) && IsBoundary(f, largest)
    ensures Reaches(inputs, result + [f])
  {
    var more := result + [f];
    LargestIsMax(result, largest);
    forall u: UserKey | InHull(more, u) && !InHull(inputs, u)
      ensures CoveredBy(more, u)
    {
      if InHull(result, u) {
        CoveredMore(result, more, u);
      } else {
        HullNext(result, f, u);
        assert f in more;
      }
    }
  }

  lemma LargestIsMax(fs: seq<File>, k: IKey)
    requires IsLargestKey(fs, k)
    ensures fs != [] && k.user == MaxUser(fs)
  {}

  lemma HullNext(fs: seq<File>, f: File, u: UserKey)
    requires fs != [] && Smallest(f).user == MaxUser(fs) && InHull(fs + [f], u) && !InHull(fs, u)
    ensures InRange(f, u)
  {
    HullAppend(fs, f);
    assert fs[0] in fs;
    EntryBounds(fs[0], fs[0].entries[0]);
  }

  lemma HullAppend(fs: seq<File>, f: File)
    requires fs != []
    ensures MinUser(fs + [f]) == if Smallest(f).user < MinUser(fs) then Smallest(f).user else MinUser(fs)
    ensures MaxUser(fs + [f]) == if MaxUser(fs) < Largest(f).user then Largest(f).user else MaxUser(fs)
  {
    BoundsAppend(fs, f, fs + [f], MinUser(fs), MaxUser(fs), MinUser(fs + [f]), MaxUser(fs + [f]));
  }

  ghost predicate IsBounds(fs: seq<File>, lo: UserKey, hi: UserKey) {
    && (forall f | f in fs :: lo <= Smallest(f).user && Largest(f).user <= hi)
    && (exists f | f in fs :: Smallest(f).user == lo) && (exists f | f in fs :: Largest(f).user == hi)
  }

  lemma BoundsAppend(fs: seq<File>, f: File, more: seq<File>, lo: UserKey, hi: UserKey, lo': UserKey, hi': UserKey)
    requires IsBounds(fs, lo, hi) && IsBounds(more, lo', hi') && more == fs + [f]
    ensures lo' == if Smallest(f).user < lo then Smallest(f).user else lo
    ensures hi' == if hi < Largest(f).user then Largest(f).user else hi
  {
    assert f in more && forall g | g in fs :: g in more;
  }

  // ----- boundary files

  /** The file starts after `k` with another entry of k's user key. */
  predicate IsBoundary(f: File, k: IKey) {
    Less(k, Smallest(f)) && Smallest(f).user == k.user
  }

  /** FindSmallestBoundaryFile */
  method FindSmallestBoundaryFile(files: seq<File>, k: IKey) returns (r: Option<File>)
    ensures r.None? ==> forall f | f in files :: !IsBoundary(f, k)
    ensures r.Some? ==> r.value in files && IsBoundary(r.value, k)
    ensures r.Some? ==> forall f | f in files && IsBoundary(f, k) :: !Less(Smallest(f), Smallest(r.value))
  {
    r := None;
    for i := 0 to |files|
      invariant r.None? ==> forall j | 0 <= j < i :: !IsBoundary(files[j], k)
      invariant r.Some? ==> r.value in files && IsBoundary(r.value, k)
      invariant r.Some? ==>
                  forall j | 0 <= j < i && IsBoundary(files[j], k) :: !Less(Smallest(files[j]), Smallest(r.value))
    {
      if IsBoundary(files[i], k) && (r.None? || Less(Smallest(files[i]), Smallest(r.value))) {
        r := Some(files[i]);
      }
    }
  }

  /** No file of the level starts after the last key of the inputs with that key's user key. */
  ghost predicate NoBoundaryLeft(files: seq<File>, inputs: seq<File>) {
    forall k, f | IsLargestKey(inputs, k) && f in files :: !IsBoundary(f, k)
  }

  /** How the inputs look while boundary files are being added to them. */
  ghost predicate Growing(files: seq<File>, inputs: seq<File>, result: seq<File>, largest: IKey) {
    && inputs <= result && (forall f | f in result :: f in files)
    && IsLargestKey(result, largest)
    && (SortedDisjoint(files) && Convex(files, inputs) ==> Convex(files, result))
    && (NoBoundaryLeft(files, inputs) ==> result == inputs)
    && Reaches(inputs, result)
    && (SortedDisjoint(files) && SortedDisjoint(inputs) ==> SortedDisjoint(result))
  }

  /**
   AddBoundaryInputs. Afterwards no boundary file is left, in a sorted level no gap has opened
   between the inputs, and inputs without a boundary file stay as they are.
   */
  method AddBoundaryInputs(files: seq<File>, inputs: seq<File>) returns (result: seq<File>)
    requires forall f | f in inputs :: f in files
    ensures inputs <= result && (forall f | f in result :: f in files)
    ensures NoBoundaryLeft(files, result)
    ensures SortedDisjoint(files) && Convex(files, inputs) ==> Convex(files, result)
    ensures NoBoundaryLeft(files, inputs) ==> result == inputs
    ensures Reaches(inputs, result)
    ensures SortedDisjoint(files) && SortedDisjoint(inputs) ==> SortedDisjoint(result)
  {
    result := inputs;
    if inputs == [] {
      return;
    }
    var _, largest := GetRange(inputs);
    var searching := true;
    while searching
      invariant Growing(files, inputs, result, largest)
      invariant !searching ==> NoBoundaryLeft(files, result)
      decreases StartingAfter(files, largest), searching
    {
      var boundary := FindSmallestBoundaryFile(files, largest);
      if boundary.Some? {
        GrowingStep(files, inputs, result, largest, boundary.value);
        result := result + [boundary.value];
        largest := Largest(boundary.value);
      } else {
        NothingLeft(files, result, largest);
        searching := false;
      }
    }
  }

  lemma GrowingStep(files: seq<File>, inputs: seq<File>, result: seq<File>, largest: IKey, f: File)
    requires Growing(files, inputs, result, largest)
    requires f in files && IsBoundary(f, largest)
    requires forall g | g in files && IsBoundary(g, largest) :: !Less(Smallest(g), Smallest(f))
    ensures Growing(files, inputs, result + [f], Largest(f))
    ensures StartingAfter(files, Largest(f)) < StartingAfter(files, largest)
  {
    BoundaryShrinks(files, largest, f);
    LargestExtend(result, largest, f);
    ReachesNext(inputs, result, largest, f);
    if SortedDisjoint(files) && Convex(files, inputs) {
      ConvexExtend(files, result, largest, f);
    }
    if SortedDisjoint(files) && SortedDisjoint(inputs) {
      SortedExtend(files, result, largest, f);
    }
  }

  lemma SortedExtend(files: seq<File>, chosen: seq<File>, k: IKey, f: File)
    requires SortedDisjoint(files) && SortedDisjoint(chosen) && (forall g | g in chosen :: g in files)
    requires IsLargestKey(chosen, k) && f in files && IsBoundary(f, k)
    ensures SortedDisjoint(chosen + [f])
  {
    EntryBounds(f, f.entries[0]);
    forall i | 0 <= i < |chosen|
      ensures FileBefore(chosen[i], f)
    {
      assert chosen[i] in chosen;
      EntryBounds(chosen[i], chosen[i].entries[0]);
      SortedApart(files, chosen[i], f);
    }
  }

  lemma NothingLeft(files: seq<File>, result: seq<File>, largest: IKey)
    requires IsLargestKey(result, largest) && forall f | f in files :: !IsBoundary(f, largest)
    ensures NoBoundaryLeft(files, result)
  {
    forall k | IsLargestKey(result, k)
      ensures forall f | f in files :: !IsBoundary(f, k)
    {
      LargestUnique(result, k, largest);
    }
  }

  ghost function StartingAfter(files: seq<File>, k: IKey): set<File> {
    set f | f in files && Less(k, Smallest(f))
  }

  lemma BoundaryShrinks(files: seq<File>, k: IKey, f: File)
    requires f in files && Less(k, Smallest(f))
    ensures StartingAfter(files, Largest(f)) < StartingAfter(files, k)
  {
    EntryBounds(f, f.entries[0]);
    assert f in StartingAfter(files, k) && f !in StartingAfter(files, Largest(f));
  }

  lemma LargestExtend(fs: seq<File>, k: IKey, f: File)
    requires IsLargestKey(fs, k) && Less(k, Smallest(f))
    ensures IsLargestKey(fs + [f], Largest(f))
  {
    EntryBounds(f, f.entries[0]);
    assert f in fs + [f];
  }

  lemma LargestUnique(fs: seq<File>, k: IKey, k': IKey)
    requires IsLargestKey(fs, k) && IsLargestKey(fs, k')
    ensures k.user == k'.user && Pack(k) == Pack(k')
  {}

  lemma ConvexExtend(files: seq<File>, chosen: seq<File>, k: IKey, f: File)
    requires SortedDisjoint(files) && Convex(files, chosen) && (forall g | g in chosen :: g in files)
    requires IsLargestKey(chosen, k) && f in files && IsBoundary(f, k)
    requires forall g | g in files && IsBoundary(g, k) :: !Less(Smallest(g), Smallest(f))
    ensures Convex(files, chosen + [f])
  {
    var top :| top in chosen && k == Largest(top);
    forall e, g, h | e in chosen + [f] && h in chosen + [f] && g in files && FileBefore(e, g) && FileBefore(g, h)
      ensures g in chosen + [f]
    {
      if g !in chosen && g != f {
        SortedApart(files, top, g);
        EntryBounds(g, g.entries[0]);
        EntryBounds(f, f.entries[0]);
      }
    }
  }

  // ----- the chosen inputs

  /**
   No file of the level is left behind with older entries of a user key of the inputs. At level 0
   no file left behind shares the user-key range of an input at all.
   */
  ghost predicate LevelClosed(level: nat, files: seq<File>, inputs: seq<File>) {
    forall f, g | f in inputs && g in files && g !in inputs ::
      || Largest(f).user < Smallest(g).user
      || (if level == 0 then Largest(g).user < Smallest(f).user else FileBefore(g, f))
  }

  /** The files of level + 1 that meet the user-key range of `fs`. */
  ghost function Parents(v: Version, level: nat, fs: seq<File>): seq<File>
    requires level + 1 < NUM_LEVELS && fs != []
  {
    Overlapping(v[level + 1], Some(MinUser(fs)), Some(MaxUser(fs)))
  }

  /** The files of level + 1 are those that meet the user-key range of the inputs of level. */
  ghost predicate InputsOk(v: Version, level: nat, in0: seq<File>, in1: seq<File>) {
    && level + 1 < NUM_LEVELS
    && in0 != [] && (forall f | f in in0 :: f in v[level])
    && LevelClosed(level, v[level], in0)
    && in1 == Parents(v, level, in0)
  }

  /** The inputs are there, and files left behind at `level` are newer than them. */
  ghost predicate InputsPresent(v: Version, level: nat, in0: seq<File>, in1: seq<File>) {
    && level + 1 < NUM_LEVELS
    && in0 != [] && (forall f | f in in0 :: f in v[level]) && (forall f | f in in1 :: f in v[level + 1])
    && forall f, g {:trigger LeftBehind(g, f)} | f in in0 && g in v[level] && g !in in0 :: LeftBehind(g, f)
  }

  /** What a compaction needs of its inputs: those of level + 1 are all files in the range of the others, too. */
  ghost predicate InputsHold(v: Version, level: nat, in0: seq<File>, in1: seq<File>) {
    && InputsPresent(v, level, in0, in1)
    && forall g :: g in in1 <==> g in v[level + 1] && Overlaps(g, Some(MinUser(in0)), Some(MaxUser(in0)))
  }

  /** A file that may stay behind when f is compacted. */
  ghost predicate LeftBehind(g: File, f: File) {
    NewerFile(g, f)
  }

  lemma InputsOkHold(v: Version, level: nat, in0: seq<File>, in1: seq<File>)
    requires InputsOk(v, level, in0, in1)
    ensures InputsHold(v, level, in0, in1)
  {
    OverlappingMembers(v[level + 1], Some(MinUser(in0)), Some(MaxUser(in0)));
    forall f, g | f in in0 && g in v[level] && g !in in0
      ensures LeftBehind(g, f)
    {
      if Largest(f).user < Smallest(g).user || Largest(g).user < Smallest(f).user {
        UsersApart(g, f);
      } else {
        BeforeIsNewer(g, f);
      }
    }
  }

  lemma UsersApart(f: File, g: File)
    requires Largest(f).user < Smallest(g).user || Largest(g).user < Smallest(f).user
    ensures NewerFile(f, g) && NewerFile(g, f)
  {
    forall d, e | d in f.entries && e in g.entries
      ensures d.key.user != e.key.user
    {
      EntryBounds(f, d);
      EntryBounds(g, e);
    }
  }

  /** Closing consecutive inputs of a sorted level over boundary files leaves no older entry behind. */
  lemma BoundaryClosed(files: seq<File>, chosen: seq<File>, level: nat)
    requires level > 0 && SortedDisjoint(files) && Convex(files, chosen) && chosen != []
    requires forall f | f in chosen :: f in files
    requires NoBoundaryLeft(files, chosen)
    ensures LevelClosed(level, files, chosen)
  {
    var k, top := LargestExists(chosen);
    forall f, g | f in chosen && g in files && g !in chosen
      ensures Largest(f).user < Smallest(g).user || FileBefore(g, f)
    {
      SortedApart(files, f, g);
      SortedApart(files, top, g);
      if FileBefore(f, g) {
        assert FileBefore(top, g);
        assert !IsBoundary(g, k);
      }
    }
  }

  lemma {:induction false} LargestExists(fs: seq<File>) returns (k: IKey, top: File)
    requires fs != []
    ensures IsLargestKey(fs, k) && top in fs && k == Largest(top)
  {
    top := fs[0];
    if |fs| == 1 {
      k := Largest(top);
    } else {
      k, top := LargestExists(fs[1..]);
      assert fs == [fs[0]] + fs[1..];
      if Less(k, Largest(fs[0])) {
        k, top := Largest(fs[0]), fs[0];
      }
    }
    assert forall f | f in fs :: !Less(k, Largest(f));
  }

  /** At level 0 a closed range leaves no file behind that shares user keys with the inputs. */
  lemma RangeClosed(files: seq<File>, lo: Option<UserKey>, hi: Option<UserKey>)
    requires ClosedRange(files, lo, hi)
    ensures LevelClosed(0, files, Overlapping(files, lo, hi))
  {
    OverlappingMembers(files, lo, hi);
  }

  /** At level 0 a closed range has no boundary files left to add. */
  lemma NoBoundaryAtLevelZero(files: seq<File>, chosen: seq<File>)
    requires LevelClosed(0, files, chosen)
    ensures NoBoundaryLeft(files, chosen)
  {
    forall k, f | IsLargestKey(chosen, k) && f in files
      ensures !IsBoundary(f, k)
    {
      EntryBounds(f, f.entries[0]);
    }
  }

  ghost predicate SeedOk(level: nat, files: seq<File>, seed: seq<File>) {
    && seed != [] && (forall f | f in seed :: f in files)
    && if level == 0 then LevelClosed(0, files, seed) else Convex(files, seed)
  }

  ghost predicate Distinct(fs: seq<File>) {
    forall i, j | 0 <= i < j < |fs| :: fs[i] != fs[j]
  }

  /** How the input files of a level are listed: none twice at level 0, in order and disjoint below. */
  ghost predicate Listed(level: nat, fs: seq<File>) {
    if level == 0 then Distinct(fs) else SortedDisjoint(fs)
  }

  lemma {:induction false} OverlappingDistinct(files: seq<File>, lo: Option<UserKey>, hi: Option<UserKey>)
    requires Distinct(files)
    ensures Distinct(Overlapping(files, lo, hi))
  {
    if files != [] {
      var n := |files| - 1;
      var r := Overlapping(files[..n], lo, hi);
      OverlappingDistinct(files[..n], lo, hi);
      OverlappingMembers(files[..n], lo, hi);
      forall i | 0 <= i < |r|
        ensures r[i] != files[n]
      {
        assert r[i] in files[..n];
      }
    }
  }

  lemma OverlappingListed(level: nat, files: seq<File>, lo: Option<UserKey>, hi: Option<UserKey>)
    requires Listed(level, files)
    ensures Listed(level, Overlapping(files, lo, hi))
  {
    if level == 0 {
      OverlappingDistinct(files, lo, hi);
    } else {
      OverlappingSorted(files, lo, hi);
    }
  }

  /** AddBoundaryInputs on a seed closes it; at level 0 the seed is closed already and stays as it is. */
  method CloseInputs(level: nat, files: seq<File>, seed: seq<File>) returns (inputs: seq<File>)
    requires SeedOk(level, files, seed)
    requires level > 0 ==> SortedDisjoint(files)
    ensures seed <= inputs && (forall f | f in inputs :: f in files)
    ensures LevelClosed(level, files, inputs) && Reaches(seed, inputs)
    ensures level == 0 ==> inputs == seed
    ensures Listed(level, seed) ==> Listed(level, inputs)
  {
    inputs := AddBoundaryInputs(files, seed);
    if level > 0 {
      BoundaryClosed(files, inputs, level);
    } else {
      NoBoundaryAtLevelZero(files, seed);
    }
  }

  // ----- the whole selection

  function TotalFileSize(fs: seq<File>): nat {
    if fs == [] then 0 else fs[0].size + TotalFileSize(fs[1..])
  }

  /** A wider range meets at least as many files; if no more, then the very same ones. */
  lemma {:induction false} WiderRange(files: seq<File>, lo: Option<UserKey>, hi: Option<UserKey>,
                                      lo': Option<UserKey>, hi': Option<UserKey>)
    requires Covers(lo, hi, lo', hi')
    ensures |Overlapping(files, lo', hi')| <= |Overlapping(files, lo, hi)|
    ensures |Overlapping(files, lo', hi')| == |Overlapping(files, lo, hi)| ==>
              Overlapping(files, lo', hi') == Overlapping(files, lo, hi)
  {
    if files != [] {
      WiderRange(files[..|files| - 1], lo, hi, lo', hi');
    }
  }

  lemma RangeGrows(fs: seq<File>, gs: seq<File>)
    requires fs != [] && forall f | f in fs :: f in gs
    ensures gs != [] && MinUser(gs) <= MinUser(fs) && MaxUser(fs) <= MaxUser(gs)
  {
    assert fs[0] in gs;
  }

  /** The wider inputs are more, not too large, and ask for as many files of level + 1. */
  ghost predicate Worthwhile(v: Version, level: nat, in0: seq<File>, in1: seq<File>, wider: seq<File>, maxFileSize: nat)
    requires level + 1 < NUM_LEVELS
  {
    && |wider| > |in0| && TotalFileSize(in1) + TotalFileSize(wider) < 25 * maxFileSize
    && |Parents(v, level, wider)| == |in1|
  }

  /**
   VersionSet::SetupOtherInputs. The inputs of `level` contain the seed and are closed, those of
   level + 1 are the files in their user-key range. Expanding the inputs of `level` never changes
   the inputs of level + 1: they are the ones the unexpanded inputs ask for.
   */
  method SetupOtherInputs(v: Version, level: nat, seed: seq<File>, maxFileSize: nat)
    returns (in0: seq<File>, in1: seq<File>, ghost closed: seq<File>, ghost wider: seq<File>)
    requires LevelsSorted(v) && level + 1 < NUM_LEVELS && SeedOk(level, v[level], seed)
    ensures InputsOk(v, level, in0, in1)
    ensures seed <= closed && LevelClosed(level, v[level], closed) && (level == 0 ==> closed == seed)
    ensures forall f | f in closed :: f in in0
    ensures in1 == Parents(v, level, closed)
    ensures in1 != [] ==> TakesAll(v[level], wider, MinUser(closed + in1), MaxUser(closed + in1))
    ensures in0 == if in1 != [] && Worthwhile(v, level, closed, in1, wider, maxFileSize) then wider else closed
    ensures Solid(seed) ==> Connected(in0, in1)
    ensures Listed(level, v[level]) && Listed(level, seed) ==> Listed(level, in0)
  {
    assert level > 0 ==> SortedDisjoint(v[level]);
    in0 := CloseInputs(level, v[level], seed);
    closed, wider := in0, in0;
    var smallest, largest := GetRange(in0);
    in1 := ParentInputs(v, level, in0);
    if Solid(seed) {
      InputsSolid(v, level, seed, in0, in1);
    }
    if in1 != [] {
      var expanded0 := ExpandInputs(v, level, in0, in1);
      wider := expanded0;
      if |expanded0| > |in0| && TotalFileSize(in1) + TotalFileSize(expanded0) < 25 * maxFileSize {
        var expanded1 := ParentInputs(v, level, expanded0);
        if |expanded1| == |in1| {
          SameParents(v, level, in0, expanded0);
          if Solid(seed) {
            WiderConnected(in0, in1, expanded0);
          }
          in0, in1 := expanded0, expanded1;
        }
      }
    }
  }

  /** The overlap query of SetupOtherInputs into level + 1. */
  method ParentInputs(v: Version, level: nat, in0: seq<File>) returns (in1: seq<File>)
    requires level + 1 < NUM_LEVELS && in0 != []
    ensures in1 == Parents(v, level, in0)
  {
    var smallest, largest := GetRange(in0);
    ghost var lo, hi;
    in1, lo, hi := GetOverlappingInputs(level + 1, v[level + 1], Some(smallest.user), Some(largest.user));
  }

  /** The inputs of `level` that the range of both input sets asks for, closed again. */
  method ExpandInputs(v: Version, level: nat, in0: seq<File>, in1: seq<File>) returns (expanded0: seq<File>)
    requires LevelsSorted(v) && level + 1 < NUM_LEVELS
    requires in0 != [] && forall f | f in in0 :: f in v[level]
    ensures forall f | f in in0 :: f in expanded0
    ensures forall f | f in expanded0 :: f in v[level]
    ensures LevelClosed(level, v[level], expanded0)
    ensures TakesAll(v[level], expanded0, MinUser(in0 + in1), MaxUser(in0 + in1))
    ensures Reaches(in0 + in1, expanded0)
    ensures Listed(level, v[level]) ==> Listed(level, expanded0)
  {
    var allStart, allLimit := GetRange(in0 + in1);
    RangeGrows(in0, in0 + in1);
    ghost var lo, hi;
    expanded0, lo, hi := GetOverlappingInputs(level, v[level], Some(allStart.user), Some(allLimit.user));
    StaysSelected(v[level], in0, lo, hi, allStart.user, allLimit.user);
    ExpansionSeed(level, v[level], lo, hi);
    assert level > 0 ==> SortedDisjoint(v[level]);
    ghost var overlapping := expanded0;
    if Listed(level, v[level]) {
      OverlappingListed(level, v[level], lo, hi);
    }
    TakesCovered(v[level], lo, hi, allStart.user, allLimit.user);
    expanded0 := CloseInputs(level, v[level], expanded0);
    TakesMore(v[level], overlapping, expanded0, allStart.user, allLimit.user);
    ExpansionReaches(level, v[level], in0 + in1, overlapping, expanded0, lo, hi);
  }

  lemma ExpansionReaches(level: nat, files: seq<File>, fs: seq<File>, overlapping: seq<File>, result: seq<File>,
                         lo: Option<UserKey>, hi: Option<UserKey>)
    requires fs != [] && lo.Some? && hi.Some? && lo.value <= MinUser(fs) && MaxUser(fs) <= hi.value
    requires level > 0 ==> lo.value == MinUser(fs) && hi.value == MaxUser(fs)
    requires level == 0 ==>
               ClosedRange(files, lo, hi) && LeastClosed(files, Some(MinUser(fs)), Some(MaxUser(fs)), lo, hi)
    requires overlapping == Overlapping(files, lo, hi) && overlapping <= result && Reaches(overlapping, result)
    ensures Reaches(fs, result)
  {
    forall u: UserKey | InHull(result, u) && !InHull(fs, u)
      ensures CoveredBy(result, u)
    {
      if InHull(overlapping, u) {
        SelectionReaches(level, files, MinUser(fs), MaxUser(fs), lo.value, hi.value, u);
        CoveredMore(overlapping, result, u);
      }
    }
  }

  /** Every file that meets the range is taken. */
  ghost predicate TakesAll(files: seq<File>, chosen: seq<File>, lo: UserKey, hi: UserKey) {
    forall f {:trigger Overlaps(f, Some(lo), Some(hi))} | f in files && Overlaps(f, Some(lo), Some(hi)) :: f in chosen
  }

  lemma TakesCovered(files: seq<File>, lo: Option<UserKey>, hi: Option<UserKey>, start: UserKey, limit: UserKey)
    requires Covers(lo, hi, Some(start), Some(limit))
    ensures TakesAll(files, Overlapping(files, lo, hi), start, limit)
  {
    OverlappingMembers(files, lo, hi);
  }

  lemma TakesMore(files: seq<File>, chosen: seq<File>, more: seq<File>, lo: UserKey, hi: UserKey)
    requires TakesAll(files, chosen, lo, hi) && chosen <= more
    ensures TakesAll(files, more, lo, hi)
  {
    assert more == chosen + more[|chosen|..];
  }

  lemma SameParents(v: Version, level: nat, fs: seq<File>, gs: seq<File>)
    requires level + 1 < NUM_LEVELS && fs != [] && gs != [] && forall f | f in fs :: f in gs
    requires |Parents(v, level, fs)| == |Parents(v, level, gs)|
    ensures Parents(v, level, fs) == Parents(v, level, gs)
  {
    RangeGrows(fs, gs);
    WiderRange(v[level + 1], Some(MinUser(gs)), Some(MaxUser(gs)), Some(MinUser(fs)), Some(MaxUser(fs)));
  }

  lemma StaysSelected(files: seq<File>, in0: seq<File>, lo: Option<UserKey>, hi: Option<UserKey>, start: UserKey,
                      limit: UserKey)
    requires in0 != [] && (forall f | f in in0 :: f in files)
    requires start <= MinUser(in0) && MaxUser(in0) <= limit && Covers(lo, hi, Some(start), Some(limit))
    ensures Overlapping(files, lo, hi) != [] && forall f | f in in0 :: f in Overlapping(files, lo, hi)
  {
    OverlappingMembers(files, lo, hi);
    forall f | f in in0
      ensures f in Overlapping(files, lo, hi)
    {
      EntryBounds(f, f.entries[0]);
    }
    assert in0[0] in in0;
  }

  lemma ExpansionSeed(level: nat, files: seq<File>, lo: Option<UserKey>, hi: Option<UserKey>)
    requires Overlapping(files, lo, hi) != []
    requires level == 0 ==> ClosedRange(files, lo, hi)
    ensures SeedOk(level, files, Overlapping(files, lo, hi))
  {
    OverlappingMembers(files, lo, hi);
    if level == 0 {
      RangeClosed(files, lo, hi);
    } else {
      OverlappingConvex(files, lo, hi);
    }
  }

  // ----- inputs without gaps

  /** The largest end of a file below u, but at least e. */
  lemma {:induction false} EndBelow(fs: seq<File>, e: UserKey, u: UserKey) returns (r: UserKey)
    requires e < u
    ensures e <= r < u && forall f | f in fs && Largest(f).user < u :: Largest(f).user <= r
  {
    r := e;
    if fs != [] {
      r := EndBelow(fs[1..], e, u);
      assert fs == [fs[0]] + fs[1..];
      if r < Largest(fs[0]).user < u { r := Largest(fs[0]).user; }
    }
  }

  lemma {:induction false} StartAbove(fs: seq<File>, b: UserKey, u: UserKey) returns (r: UserKey)
    requires u < b
    ensures u < r <= b && forall f | f in fs && u < Smallest(f).user :: r <= Smallest(f).user
  {
    r := b;
    if fs != [] {
      r := StartAbove(fs[1..], b, u);
      assert fs == [fs[0]] + fs[1..];
      if u < Smallest(fs[0]).user < r { r := Smallest(fs[0]).user; }
    }
  }

  /** Below an uncovered key, the selected files that end before it are closed by themselves. */
  lemma CutAbove(files: seq<File>, b: UserKey, e: UserKey, lo: UserKey, hi: UserKey, u: UserKey, r: UserKey)
    requires ClosedRange(files, Some(lo), Some(hi)) && lo <= b && e <= r < u <= hi
    requires !CoveredBy(Overlapping(files, Some(lo), Some(hi)), u)
    requires forall f | f in Overlapping(files, Some(lo), Some(hi)) && Largest(f).user < u :: Largest(f).user <= r
    ensures Covers(Some(lo), Some(r), Some(b), Some(e)) && ClosedRange(files, Some(lo), Some(r))
  {
    OverlappingMembers(files, Some(lo), Some(hi));
    forall g | g in files && Overlaps(g, Some(lo), Some(r))
      ensures Within(g, Some(lo), Some(r))
    {
      assert g in Overlapping(files, Some(lo), Some(hi)) && !InRange(g, u);
    }
  }

  lemma CutBelow(files: seq<File>, b: UserKey, e: UserKey, lo: UserKey, hi: UserKey, u: UserKey, r: UserKey)
    requires ClosedRange(files, Some(lo), Some(hi)) && e <= hi && lo <= u < r <= b
    requires !CoveredBy(Overlapping(files, Some(lo), Some(hi)), u)
    requires forall f | f in Overlapping(files, Some(lo), Some(hi)) && u < Smallest(f).user :: r <= Smallest(f).user
    ensures Covers(Some(r), Some(hi), Some(b), Some(e)) && ClosedRange(files, Some(r), Some(hi))
  {
    OverlappingMembers(files, Some(lo), Some(hi));
    forall g | g in files && Overlaps(g, Some(r), Some(hi))
      ensures Within(g, Some(r), Some(hi))
    {
      assert g in Overlapping(files, Some(lo), Some(hi)) && !InRange(g, u);
    }
  }

  /** A key beyond the requested end that no selected file covers is beyond the least closed range. */
  lemma GapAbove(files: seq<File>, b: UserKey, e: UserKey, lo: UserKey, hi: UserKey, u: UserKey)
    requires ClosedRange(files, Some(lo), Some(hi)) && LeastClosed(files, Some(b), Some(e), Some(lo), Some(hi))
    requires lo <= b && e < u && !CoveredBy(Overlapping(files, Some(lo), Some(hi)), u)
    ensures hi < u
  {
    var r := EndBelow(Overlapping(files, Some(lo), Some(hi)), e, u);
    if u <= hi {
      CutAbove(files, b, e, lo, hi, u, r);
    }
  }

  lemma GapBelow(files: seq<File>, b: UserKey, e: UserKey, lo: UserKey, hi: UserKey, u: UserKey)
    requires ClosedRange(files, Some(lo), Some(hi)) && LeastClosed(files, Some(b), Some(e), Some(lo), Some(hi))
    requires e <= hi && u < b && !CoveredBy(Overlapping(files, Some(lo), Some(hi)), u)
    ensures u < lo
  {
    var r := StartAbove(Overlapping(files, Some(lo), Some(hi)), b, u);
    if lo <= u {
      CutBelow(files, b, e, lo, hi, u, r);
    }
  }

  /** What GetOverlappingInputs selects covers its range wherever that goes beyond the requested one. */
  lemma SelectionReaches(level: nat, files: seq<File>, b: UserKey, e: UserKey, lo: UserKey, hi: UserKey, u: UserKey)
    requires lo <= b && e <= hi && (level > 0 ==> lo == b && hi == e)
    requires level == 0 ==>
               ClosedRange(files, Some(lo), Some(hi)) && LeastClosed(files, Some(b), Some(e), Some(lo), Some(hi))
    requires InHull(Overlapping(files, Some(lo), Some(hi)), u)
    ensures b <= u <= e || CoveredBy(Overlapping(files, Some(lo), Some(hi)), u)
  {
    var fs := Overlapping(files, Some(lo), Some(hi));
    OverlappingMembers(files, Some(lo), Some(hi));
    var f :| f in fs && Smallest(f).user == MinUser(fs);
    var g :| g in fs && Largest(g).user == MaxUser(fs);
    if !CoveredBy(fs, u) {
      assert !InRange(f, u) && !InRange(g, u);
      if u > e && level == 0 {
        GapAbove(files, b, e, lo, hi, u);
      } else if u < b && level == 0 {
        GapBelow(files, b, e, lo, hi, u);
      }
    }
  }

  /** Files that all meet the range of solid files extend it without a gap. */
  lemma ParentsSolid(fs: seq<File>, gs: seq<File>)
    requires Solid(fs) && fs != [] && forall g | g in gs :: Overlaps(g, Some(MinUser(fs)), Some(MaxUser(fs)))
    ensures Solid(fs + gs)
  {
    forall u: UserKey | InHull(fs + gs, u)
      ensures CoveredBy(fs + gs, u)
    {
      if InHull(fs, u) {
        CoveredMore(fs, fs + gs, u);
      } else {
        ParentCovers(fs, gs, u);
      }
    }
  }

  lemma ParentCovers(fs: seq<File>, gs: seq<File>, u: UserKey)
    requires fs != [] && InHull(fs + gs, u) && !InHull(fs, u)
    requires forall g | g in gs :: Overlaps(g, Some(MinUser(fs)), Some(MaxUser(fs)))
    ensures CoveredBy(fs + gs, u)
  {
    EndCovers(fs, gs, fs + gs, MinUser(fs), MaxUser(fs), MinUser(fs + gs), MaxUser(fs + gs), u);
  }

  lemma EndCovers(fs: seq<File>, gs: seq<File>, all: seq<File>, lo: UserKey, hi: UserKey, lo': UserKey,
                  hi': UserKey, u: UserKey)
    requires all == fs + gs && IsBounds(fs, lo, hi) && IsBounds(all, lo', hi') && lo' <= u <= hi' && !(lo <= u <= hi)
    requires forall g | g in gs :: Overlaps(g, Some(lo), Some(hi))
    ensures CoveredBy(all, u)
  {
    var f :| f in all && Smallest(f).user == lo';
    var g :| g in all && Largest(g).user == hi';
    assert InRange(f, u) || InRange(g, u);
  }

  /** Widening inputs that are solid together with their parents leaves no gap either. */
  lemma WiderConnected(in0: seq<File>, in1: seq<File>, wider: seq<File>)
    requires Solid(in0 + in1) && Reaches(in0 + in1, wider) && forall f | f in in0 :: f in wider
    ensures Connected(wider, in1)
  {
    forall u: UserKey | InHull(wider, u)
      ensures CoveredBy(wider + in1, u)
    {
      if InHull(in0 + in1, u) {
        CoveredMore(in0 + in1, wider + in1, u);
      } else {
        CoveredMore(wider, wider + in1, u);
      }
    }
  }

  lemma InputsSolid(v: Version, level: nat, seed: seq<File>, in0: seq<File>, in1: seq<File>)
    requires Solid(seed) && Reaches(seed, in0) && seed <= in0 && in0 != []
    requires level + 1 < NUM_LEVELS && in1 == Parents(v, level, in0)
    ensures Connected(in0, in1) && Solid(in0 + in1)
  {
    ClosedSolid(seed, in0);
    SolidConnected(in0, in1);
    OverlappingMembers(v[level + 1], Some(MinUser(in0)), Some(MaxUser(in0)));
    ParentsSolid(in0, in1);
  }

  lemma SolidConnected(fs: seq<File>, gs: seq<File>)
    requires Solid(fs)
    ensures Connected(fs, gs)
  {
    forall u: UserKey | InHull(fs, u)
      ensures CoveredBy(fs + gs, u)
    {
      CoveredMore(fs, fs + gs, u);
    }
  }

  lemma ClosedSolid(fs: seq<File>, gs: seq<File>)
    requires Solid(fs) && Reaches(fs, gs) && fs <= gs
    ensures Solid(gs)
  {
    forall u: UserKey | InHull(gs, u)
      ensures CoveredBy(gs, u)
    {
      if InHull(fs, u) {
        CoveredMore(fs, gs, u);
      }
    }
  }

  /** The file ends after the compaction pointer. */
  ghost predicate Behind(pointer: Option<IKey>, f: File) {
    pointer.None? || Less(pointer.value, Largest(f))
  }

  /** The first file behind the pointer, or the first file of all when the pointer has passed them. */
  ghost predicate NextInTurn(files: seq<File>, pointer: Option<IKey>, f: File) {
    || (exists i | 0 <= i < |files| ::
          files[i] == f && Behind(pointer, f) && forall j | 0 <= j < i :: !Behind(pointer, files[j]))
    || (files != [] && f == files[0] && forall g | g in files :: !Behind(pointer, g))
  }

  /**
   VersionSet::PickCompaction for a level: the first file past the compaction pointer (wrapping
   around), or the file a seek-triggered compaction names.
   */
  method PickCompaction(v: Version, level: nat, pointer: Option<IKey>, seekFile: Option<File>, maxFileSize: nat)
    returns (in0: seq<File>, in1: seq<File>, picked: File)
    requires LevelsSorted(v) && level + 1 < NUM_LEVELS && v[level] != []
    requires seekFile.Some? ==> seekFile.value in v[level]
    ensures InputsOk(v, level, in0, in1) && picked in in0
    ensures if seekFile.Some? then picked == seekFile.value else NextInTurn(v[level], pointer, picked)
    ensures Connected(in0, in1)
    ensures Listed(level, v[level]) ==> Listed(level, in0)
  {
    picked := FirstPast(v[level], pointer);
    picked := if seekFile.Some? then seekFile.value else picked;
    var seed := SeedFor(v, level, picked);
    ghost var closed, wider;
    in0, in1, closed, wider := SetupOtherInputs(v, level, seed, maxFileSize);
  }

  /** The first file past the compaction pointer, or the first of all. */
  method FirstPast(files: seq<File>, pointer: Option<IKey>) returns (picked: File)
    requires files != []
    ensures picked in files && NextInTurn(files, pointer, picked)
  {
    var i := 0;
    while i < |files| && pointer.Some? && !Less(pointer.value, Largest(files[i]))
      invariant i <= |files|
      invariant forall j | 0 <= j < i :: !Behind(pointer, files[j])
    {
      i := i + 1;
    }
    picked := if i < |files| then files[i] else files[0];
  }

  /** The picked file; at level 0 with all files it is chained to by overlaps. */
  method SeedFor(v: Version, level: nat, picked: File) returns (seed: seq<File>)
    requires level + 1 < NUM_LEVELS && picked in v[level]
    ensures SeedOk(level, v[level], seed) && Solid(seed) && picked in seed
    ensures Listed(level, v[level]) ==> Listed(level, seed)
  {
    seed := [picked];
    EntryBounds(picked, picked.entries[0]);
    if level == 0 {
      ghost var lo, hi;
      seed, lo, hi := GetOverlappingInputs(0, v[0], Some(Smallest(picked).user), Some(Largest(picked).user));
      StaysSelected(v[0], [picked], lo, hi, Smallest(picked).user, Largest(picked).user);
      ExpansionSeed(0, v[0], lo, hi);
      assert picked in [picked];
      PickedSolid(v[0], picked, lo, hi);
      if Listed(0, v[0]) {
        OverlappingListed(0, v[0], lo, hi);
      }
    } else {
      SingleConvex(v[level], picked);
    }
  }

  lemma PickedSolid(files: seq<File>, f: File, lo: Option<UserKey>, hi: Option<UserKey>)
    requires lo.Some? && hi.Some? && lo.value <= Smallest(f).user && Largest(f).user <= hi.value
    requires ClosedRange(files, lo, hi) && LeastClosed(files, Some(Smallest(f).user), Some(Largest(f).user), lo, hi)
    requires f in Overlapping(files, lo, hi)
    ensures Solid(Overlapping(files, lo, hi))
  {
    var fs := Overlapping(files, lo, hi);
    forall u: UserKey | InHull(fs, u)
      ensures CoveredBy(fs, u)
    {
      SelectionReaches(0, files, Smallest(f).user, Largest(f).user, lo.value, hi.value, u);
      assert Smallest(f).user <= u <= Largest(f).user ==> InRange(f, u);
    }
  }

  lemma SingleConvex(files: seq<File>, f: File)
    ensures Convex(files, [f]) && Solid([f])
  {
    assert f in [f] && forall u: UserKey | InHull([f], u) :: InRange(f, u);
    EntryBounds(f, f.entries[0]);
    forall g | FileBefore(f, g) && FileBefore(g, f)
      ensures false
    {
      EntryBounds(g, g.entries[0]);
    }
  }

  lemma {:induction false} OverlappingSorted(files: seq<File>, lo: Option<UserKey>, hi: Option<UserKey>)
    requires SortedDisjoint(files)
    ensures SortedDisjoint(Overlapping(files, lo, hi))
  {
    if files != [] {
      var n := |files| - 1;
      var r := Overlapping(files[..n], lo, hi);
      OverlappingSorted(files[..n], lo, hi);
      OverlappingMembers(files[..n], lo, hi);
      forall i | 0 <= i < |r|
        ensures FileBefore(r[i], files[n])
      {
        assert r[i] in files[..n];
      }
    }
  }

  lemma PrefixConvex(files: seq<File>, chosen: seq<File>, n: nat)
    requires SortedDisjoint(chosen) && Convex(files, chosen) && n <= |chosen|
    ensures Convex(files, chosen[..n])
  {
    forall f, g, h | f in chosen[..n] && h in chosen[..n] && g in files && FileBefore(f, g) && FileBefore(g, h)
      ensures g in chosen[..n]
    {
      var i :| 0 <= i < |chosen| && chosen[i] == g;
      var j :| 0 <= j < n && chosen[j] == h;
      EntryBounds(g, g.entries[0]);
      EntryBounds(h, h.entries[0]);
      assert j < i ==> FileBefore(h, g);
    }
  }

  /** The first of the files, as many as it takes to reach the size limit and no more. */
  ghost predicate Limited(files: seq<File>, r: seq<File>, maxFileSize: nat) {
    && r != [] && r <= files
    && (r == files || TotalFileSize(r) >= maxFileSize)
    && (|r| == 1 || TotalFileSize(r[..|r| - 1]) < maxFileSize)
  }

  /** The part of CompactRange that stops taking files once they reach the size limit. */
  method LimitInputs(files: seq<File>, inputs: seq<File>, maxFileSize: nat) returns (r: seq<File>)
    requires inputs != [] && SortedDisjoint(inputs) && Convex(files, inputs)
    ensures Limited(inputs, r, maxFileSize) && Convex(files, r)
  {
    var total, i := 0, 0;
    while i < |inputs| && total + inputs[i].size < maxFileSize
      invariant i <= |inputs| && total == TotalFileSize(inputs[..i]) && (i > 0 ==> total < maxFileSize)
      invariant i > 0 ==> TotalFileSize(inputs[..i - 1]) < maxFileSize
    {
      TotalNext(inputs, i);
      total := total + inputs[i].size;
      i := i + 1;
    }
    if i < |inputs| {
      TotalNext(inputs, i);
      PrefixConvex(files, inputs, i + 1);
      r := inputs[..i + 1];
      assert r[..i] == inputs[..i];
    } else {
      r := inputs;
      assert r[..i - 1] == inputs[..i - 1];
    }
  }

  lemma {:induction false} TotalNext(fs: seq<File>, i: nat)
    requires i < |fs|
    ensures TotalFileSize(fs[..i + 1]) == TotalFileSize(fs[..i]) + fs[i].size
  {
    if i > 0 {
      TotalNext(fs[1..], i - 1);
      assert fs[..i + 1][1..] == fs[1..][..i] && fs[..i][1..] == fs[1..][..i - 1];
    }
  }

  /** The files of the requested range; below level 0 only as many as reach the size limit. */
  method RangeSeed(level: nat, files: seq<File>, begin: Option<UserKey>, end: Option<UserKey>, maxFileSize: nat)
    returns (seed: seq<File>)
    requires level > 0 ==> SortedDisjoint(files)
    ensures seed == [] <==> forall f | f in files :: !Overlaps(f, begin, end)
    ensures seed != [] ==> SeedOk(level, files, seed)
    ensures level == 0 ==> forall f | f in files && Overlaps(f, begin, end) :: f in seed
    ensures seed != [] && level > 0 ==> Limited(Overlapping(files, begin, end), seed, maxFileSize)
    ensures Listed(level, files) ==> Listed(level, seed)
  {
    ghost var lo, hi;
    seed, lo, hi := GetOverlappingInputs(level, files, begin, end);
    OverlappingMembers(files, lo, hi);
    NothingOverlaps(level, files, begin, end, lo, hi);
    if Listed(level, files) {
      OverlappingListed(level, files, lo, hi);
    }
    if seed != [] {
      ExpansionSeed(level, files, lo, hi);
      if level > 0 {
        seed := LimitInputs(files, seed, maxFileSize);
      }
    }
  }

  /** VersionSet::CompactRange */
  method CompactRange(v: Version, level: nat, begin: Option<UserKey>, end: Option<UserKey>, maxFileSize: nat)
    returns (in0: seq<File>, in1: seq<File>, ghost seed: seq<File>)
    requires LevelsSorted(v) && level + 1 < NUM_LEVELS
    ensures in0 == [] <==> forall f | f in v[level] :: !Overlaps(f, begin, end)
    ensures in0 != [] ==> InputsOk(v, level, in0, in1) && forall f | f in seed :: f in in0
    ensures in0 != [] && level > 0 ==> Limited(Overlapping(v[level], begin, end), seed, maxFileSize)
    ensures level == 0 ==> forall f | f in v[0] && Overlaps(f, begin, end) :: f in seed
    ensures Listed(level, v[level]) ==> Listed(level, in0)
  {
    assert level > 0 ==> SortedDisjoint(v[level]);
    var inputs := RangeSeed(level, v[level], begin, end, maxFileSize);
    seed := inputs;
    if inputs == [] {
      return [], [], [];
    }
    ghost var closed, wider;
    in0, in1, closed, wider := SetupOtherInputs(v, level, inputs, maxFileSize);
  }

  lemma NothingOverlaps(level: nat, files: seq<File>, begin: Option<UserKey>, end: Option<UserKey>,
                        lo: Option<UserKey>, hi: Option<UserKey>)
    requires Covers(lo, hi, begin, end)
    requires level > 0 ==> lo == begin && hi == end
    requires level == 0 ==> LeastClosed(files, begin, end, lo, hi)
    ensures Overlapping(files, lo, hi) == [] <==> forall f | f in files :: !Overlaps(f, begin, end)
  {
    var found := Overlapping(files, lo, hi);
    OverlappingMembers(files, lo, hi);
    assert found == [] || found[0] in found;
    if forall f | f in files :: !Overlaps(f, begin, end) {
      assert ClosedRange(files, begin, end) && Covers(begin, end, begin, end);
    }
  }
}
