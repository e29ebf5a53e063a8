/**
 The compaction loop: which entries of the merged inputs are dropped, with the stateful scan of
 the deeper levels, and how the survivors are cut into output files.
 */
module CompactionLoop {
  import opened Bytes
  import opened InternalKeys
  import opened Versions
  import opened InputSelection

  /** No file at level + 2 or deeper has `u` in its user-key range. */
  ghost predicate BaseLevelFor(v: Version, level: nat, u: UserKey) {
    forall l, f | level + 2 <= l < NUM_LEVELS && f in v[l] :: !(Smallest(f).user <= u <= Largest(f).user)
  }

  /** An entry is hidden when the entry just before it has its user key and is old enough. */
  ghost predicate Hidden(m: seq<Entry>, i: nat, snapshot: SeqNum)
    requires i < |m|
  {
    i > 0 && m[i - 1].key.user == m[i].key.user && m[i - 1].key.seqno <= snapshot
  }

  /** A deletion that every reader is past and that nothing deeper needs. */
  ghost predicate Obsolete(v: Version, level: nat, e: Entry, snapshot: SeqNum) {
    e.key.kind.Deletion? && e.key.seqno <= snapshot && BaseLevelFor(v, level, e.key.user)
  }

  ghost predicate Dropped(v: Version, level: nat, m: seq<Entry>, i: nat, snapshot: SeqNum)
    requires i < |m|
  {
    Hidden(m, i, snapshot) || Obsolete(v, level, m[i], snapshot)
  }

  /** The entries of the first `n` that survive. */
  ghost function Kept(v: Version, level: nat, m: seq<Entry>, n: nat, snapshot: SeqNum): (r: seq<Entry>)
    requires n <= |m|
  {
    if n == 0 then []
    else
      Kept(v, level, m, n - 1, snapshot) + if Dropped(v, level, m, n - 1, snapshot) then [] else [m[n - 1]]
  }

  lemma {:induction false} KeptMember(v: Version, level: nat, m: seq<Entry>, n: nat, snapshot: SeqNum, e: Entry)
    requires n <= |m|
    ensures e in Kept(v, level, m, n, snapshot) <==>
            exists i | 0 <= i < n :: m[i] == e && !Dropped(v, level, m, i, snapshot)
  {
    if n > 0 {
      KeptMember(v, level, m, n - 1, snapshot, e);
    }
  }

  lemma {:induction false} KeptSorted(v: Version, level: nat, m: seq<Entry>, n: nat, snapshot: SeqNum)
    requires n <= |m| && Sorted(m)
    ensures Sorted(Kept(v, level, m, n, snapshot))
  {
    if n > 0 {
      var r := Kept(v, level, m, n - 1, snapshot);
      KeptSorted(v, level, m, n - 1, snapshot);
      forall i | 0 <= i < |r|
        ensures Before(r[i].key, m[n - 1].key)
      {
        KeptMember(v, level, m, n - 1, snapshot, r[i]);
      }
    }
  }

  ghost function Flatten(files: seq<seq<Entry>>): seq<Entry> {
    if files == [] then [] else Flatten(files[..|files| - 1]) + files[|files| - 1]
  }

  /**
   A compaction's cursors into the deeper levels (level_ptrs_), advanced by IsBaseLevelForKey as
   the user keys it is asked about go up.
   */
  class Compaction {
    const version: Version
    const level: nat
    var levelPtrs: seq<nat>

    constructor (v: Version, l: nat)
      ensures version == v && level == l && |levelPtrs| == NUM_LEVELS
      ensures forall u :: Usable(u)
    {
      version, level, levelPtrs := v, l, [0, 0, 0, 0, 0, 0, 0];
    }

    /** Every file a cursor has passed ends before `u`. */
    ghost predicate Usable(u: UserKey)
      reads this
    {
      && |levelPtrs| == NUM_LEVELS
      && (forall l | 0 <= l < NUM_LEVELS :: levelPtrs[l] <= |version[l]|)
      && forall l, i | 0 <= l < NUM_LEVELS && 0 <= i < levelPtrs[l] :: Largest(version[l][i]).user < u
    }

    /** Compaction::IsBaseLevelForKey */
    method IsBaseLevelForKey(u: UserKey) returns (r: bool)
      requires Usable(u) && LevelsSorted(version)
      modifies this
      ensures forall w | u <= w :: Usable(w)
      ensures r <==> BaseLevelFor(version, level, u)
    {
      var lvl := level + 2;
      while lvl < NUM_LEVELS
        invariant level + 2 <= lvl
        invariant Usable(u)
        invariant forall l, f | level + 2 <= l < lvl && l < NUM_LEVELS && f in version[l] ::
                    !(Smallest(f).user <= u <= Largest(f).user)
      {
        var files := version[lvl];
        assert SortedDisjoint(files);
        while levelPtrs[lvl] < |files| && Largest(files[levelPtrs[lvl]]).user < u
          invariant Usable(u)
          decreases |files| - levelPtrs[lvl]
        {
          levelPtrs := levelPtrs[lvl := levelPtrs[lvl] + 1];
        }
        var p := levelPtrs[lvl];
        if p < |files| && Smallest(files[p]).user <= u {
          assert files[p] in version[lvl];
          return false;
        }
        NotInLevel(files, p, u);
        lvl := lvl + 1;
      }
      return true;
    }
  }

  lemma NotInLevel(files: seq<File>, p: nat, u: UserKey)
    requires SortedDisjoint(files) && p <= |files|
    requires forall i | 0 <= i < p :: Largest(files[i]).user < u
    requires p < |files| ==> Smallest(files[p]).user > u
    ensures forall f | f in files :: !(Smallest(f).user <= u <= Largest(f).user)
  {
    forall f | f in files
      ensures !(Smallest(f).user <= u <= Largest(f).user)
    {
      var i :| 0 <= i < |files| && files[i] == f;
      if p < i { BeforeUsers(files[p], files[i]); }
    }
  }

  /** The drop rule of the loop, given the sequence number of the previous entry of the same user key. */
  method ShouldDrop(c: Compaction, m: seq<Entry>, i: nat, snapshot: SeqNum, lastSequence: nat) returns (drop: bool)
    requires Sorted(m) && snapshot < MAX_SEQ && i < |m| && LevelsSorted(c.version)
    requires forall u | i > 0 ==> m[i - 1].key.user <= u :: c.Usable(u)
    requires lastSequence == if i > 0 && m[i - 1].key.user == m[i].key.user then m[i - 1].key.seqno else MAX_SEQ
    modifies c
    ensures drop <==> Dropped(c.version, c.level, m, i, snapshot)
    ensures forall u | m[i].key.user <= u :: c.Usable(u)
  {
    var key := m[i].key;
    assert i > 0 ==> Before(m[i - 1].key, key);
    drop := false;
    if lastSequence <= snapshot {
      drop := true;
    } else if key.kind.Deletion? && key.seqno <= snapshot {
      drop := c.IsBaseLevelForKey(key.user);
    }
  }

  /**
   The loop of DBImpl::DoCompactionWork over the merged inputs. `stop[i]` says whether an output
   file is finished before entry i (ShouldStopBefore) and `full[i]` whether it is finished after
   it (the size limit). However the outputs are cut, together they hold exactly the kept entries,
   in order, and no output is empty.
   */
  method DoCompactionWork(c: Compaction, m: seq<Entry>, snapshot: SeqNum, stop: seq<bool>, full: seq<bool>)
    returns (outputs: seq<seq<Entry>>)
    requires Sorted(m) && snapshot < MAX_SEQ && |stop| == |full| == |m|
    requires LevelsSorted(c.version) && forall u :: c.Usable(u)
    modifies c
    ensures Flatten(outputs) == Kept(c.version, c.level, m, |m|, snapshot)
    ensures forall o | o in outputs :: o != []
  {
    outputs := [];
    var builder: seq<Entry> := [];
    var currentUserKey: Option<UserKey> := None;
    var lastSequence: nat := MAX_SEQ;
    for i := 0 to |m|
      invariant Flatten(outputs) + builder == Kept(c.version, c.level, m, i, snapshot)
      invariant forall o | o in outputs :: o != []
      invariant i == 0 ==> currentUserKey.None?
      invariant i > 0 ==> currentUserKey == Some(m[i - 1].key.user) && lastSequence == m[i - 1].key.seqno
      invariant forall u | i > 0 ==> m[i - 1].key.user <= u :: c.Usable(u)
    {
      if stop[i] && builder != [] {
        outputs, builder := Finish(outputs, builder);
      }
      var key := m[i].key;
      assert i > 0 ==> Before(m[i - 1].key, key);
      if currentUserKey != Some(key.user) {
        currentUserKey, lastSequence := Some(key.user), MAX_SEQ;
      }
      var drop := ShouldDrop(c, m, i, snapshot, lastSequence);
      lastSequence := key.seqno;
      if !drop {
        builder := builder + [m[i]];
        if full[i] {
          outputs, builder := Finish(outputs, builder);
        }
      }
    }
    if builder != [] {
      outputs, builder := Finish(outputs, builder);
    }
  }

  /** FinishCompactionOutputFile: the builder's entries become the next output. */
  method Finish(outputs: seq<seq<Entry>>, builder: seq<Entry>) returns (outputs': seq<seq<Entry>>, builder': seq<Entry>)
    requires builder != [] && forall o | o in outputs :: o != []
    ensures Flatten(outputs') + builder' == Flatten(outputs) + builder && builder' == []
    ensures forall o | o in outputs' :: o != []
  {
    outputs', builder' := outputs + [builder], [];
    assert outputs'[..|outputs|] == outputs;
  }
}
