/**
 What a compaction does to reads of the whole store. Newer entries on top of the files - memtables, and
 files flushed since the compaction began - can hide a key that the compaction resurrects. Reads
 change exactly when one is left in sight.
 */
module StoreReads {
  import opened Bytes
  import opened InternalKeys
  import opened Versions
  import opened InputSelection
  import opened CompactionReads
  import opened LayeredGet

  lemma ReadLayer(top: set<Entry>, s: set<Entry>, u: UserKey, snapshot: SeqNum, r: Option<Str>)
    requires NewerSet(top, s)
    ensures NoneVisible(top, u, snapshot) ==> (Reads(top + s, u, snapshot, r) <==> Reads(s, u, snapshot, r))
    ensures !NoneVisible(top, u, snapshot) ==> (Reads(top + s, u, snapshot, r) <==> Reads(top, u, snapshot, r))
  {
    if NoneVisible(top, u, snapshot) {
      assert forall x :: IsNewest(top + s, u, snapshot, x) <==> IsNewest(s, u, snapshot, x);
    } else {
      assert forall x :: IsNewest(top + s, u, snapshot, x) <==> IsNewest(top, u, snapshot, x);
    }
  }

  /** A resurrected key whose deletion is the newest entry of the whole store that the oldest reader sees. */
  ghost predicate ShowsAt(v: Version, level: nat, in1: seq<File>, s: SeqNum, stored: set<Entry>, j: nat, e: Entry)
    requires level + 1 < NUM_LEVELS
  {
    ResurrectsAt(v, level, in1, s, j, e) && IsNewest(stored, e.key.user, s, e)
  }

  ghost predicate Shows(v: Version, level: nat, in1: seq<File>, s: SeqNum, stored: set<Entry>)
    requires level + 1 < NUM_LEVELS
  {
    exists j: nat, e: Entry :: ShowsAt(v, level, in1, s, stored, j, e)
  }

  /** What is shown is resurrected. */
  lemma ShownIsResurrected(v: Version, level: nat, in1: seq<File>, s: SeqNum, stored: set<Entry>)
    requires level + 1 < NUM_LEVELS && !Resurrects(v, level, in1, s)
    ensures !Shows(v, level, in1, s, stored)
  {
    forall j: nat, e: Entry
      ensures !ShowsAt(v, level, in1, s, stored, j, e)
    {
      assert !ResurrectsAt(v, level, in1, s, j, e);
    }
  }

  lemma NewestOnTop(top: set<Entry>, files: set<Entry>, u: UserKey, s: SeqNum, e: Entry)
    requires NewerSet(top, files) && e in files
    ensures IsNewest(top + files, u, s, e) <==> IsNewest(files, u, s, e) && NoneVisible(top, u, s)
  {
    if IsNewest(top + files, u, s, e) {
      forall d | d in top && d.key.user == u
        ensures d.key.seqno > s
      {
        assert d.key.seqno > e.key.seqno;
      }
    }
  }

  /** A key that stays out of sight is not resurrected, or something newer is on top of it. */
  lemma HiddenKeySafe(v: Version, level: nat, in1: seq<File>, s: SeqNum, top: set<Entry>, u: UserKey)
    requires level + 1 < NUM_LEVELS && NewerSet(top, AllEntries(v)) && NoneVisible(top, u, s)
    requires !Shows(v, level, in1, s, top + AllEntries(v))
    ensures KeySafe(v, level, in1, s, u)
  {
    forall j: nat, e: Entry | e.key.user == u && ResurrectsAt(v, level, in1, s, j, e)
      ensures ShowsAt(v, level, in1, s, top + AllEntries(v), j, e)
    {
      NewestOnTop(top, AllEntries(v), u, s, e);
    }
  }

  lemma HiddenSameRead(v: Version, level: nat, in0: seq<File>, in1: seq<File>, m: seq<Entry>, s: SeqNum,
                       top: set<Entry>, u: UserKey, t: SeqNum, r: Option<Str>)
    requires VersionInv(v) && InputsHold(v, level, in0, in1) && MergedInputs(in0, in1, m) && s <= t
    requires NewerSet(top, AllEntries(v)) && !Shows(v, level, in1, s, top + AllEntries(v))
    ensures Reads(top + AllEntries(v), u, t, r) <==> Reads(top + AfterCompaction(v, level, m, s), u, t, r)
  {
    var files, files' := AllEntries(v), AfterCompaction(v, level, m, s);
    InputsStored(v, level, in0, in1, m);
    AfterIsSmaller(v, level, m, s);
    ReadLayer(top, files, u, t, r);
    ReadLayer(top, files', u, t, r);
    if NoneVisible(top, u, t) {
      HiddenKeySafe(v, level, in1, s, top, u);
      SameRead(v, level, in0, in1, m, s, u, t, r);
    }
  }

  lemma ShownReadChanges(v: Version, level: nat, in0: seq<File>, in1: seq<File>, m: seq<Entry>, s: SeqNum,
                         top: set<Entry>, j: nat, e: Entry)
    requires VersionInv(v) && InputsHold(v, level, in0, in1) && MergedInputs(in0, in1, m)
    requires NewerSet(top, AllEntries(v)) && ShowsAt(v, level, in1, s, top + AllEntries(v), j, e)
    ensures Reads(top + AllEntries(v), e.key.user, s, None)
    ensures !Reads(top + AfterCompaction(v, level, m, s), e.key.user, s, None)
  {
    var files, files' := AllEntries(v), AfterCompaction(v, level, m, s);
    InputsStored(v, level, in0, in1, m);
    AfterIsSmaller(v, level, m, s);
    NewestOnTop(top, files, e.key.user, s, e);
    ComesBack(v, level, in0, in1, m, s, j, e);
    ReadLayer(top, files, e.key.user, s, None);
    ReadLayer(top, files', e.key.user, s, None);
  }

  /**
   With newer entries on top of the files, a compaction leaves every read at or above the oldest
   snapshot unchanged exactly when it shows no deleted key.
   */
  lemma TopReadsIff(v: Version, level: nat, in0: seq<File>, in1: seq<File>, m: seq<Entry>, s: SeqNum, top: set<Entry>)
    requires VersionInv(v) && InputsHold(v, level, in0, in1) && MergedInputs(in0, in1, m)
    requires NewerSet(top, AllEntries(v))
    ensures SameReads(top + AllEntries(v), top + AfterCompaction(v, level, m, s), s) <==>
            !Shows(v, level, in1, s, top + AllEntries(v))
  {
    if Shows(v, level, in1, s, top + AllEntries(v)) {
      var j: nat, e :| ShowsAt(v, level, in1, s, top + AllEntries(v), j, e);
      ShownReadChanges(v, level, in0, in1, m, s, top, j, e);
    } else {
      forall u: UserKey, t: SeqNum, r: Option<Str> | s <= t
        ensures Reads(top + AllEntries(v), u, t, r) <==> Reads(top + AfterCompaction(v, level, m, s), u, t, r)
      {
        HiddenSameRead(v, level, in0, in1, m, s, top, u, t, r);
      }
    }
  }

  /** Where one set reads like the history, another does just when the two read alike. */
  lemma SameReadsSwitch(h: set<Entry>, s: set<Entry>, t: set<Entry>, floor: SeqNum, floor': SeqNum)
    requires SameReads(h, s, floor) && floor <= floor'
    ensures SameReads(h, t, floor') <==> SameReads(s, t, floor')
  {
    forall u: UserKey, snapshot: SeqNum, r: Option<Str> | floor' <= snapshot
      ensures Reads(h, u, snapshot, r) <==> Reads(s, u, snapshot, r)
    {}
  }

  /** From a store that reads like the history, a compaction leads to one that does if and only if it shows nothing. */
  lemma StoreReadsIff(h: set<Entry>, stored: set<Entry>, stored': set<Entry>, floor: SeqNum, s: SeqNum, top: set<Entry>,
                      v: Version, level: nat, in0: seq<File>, in1: seq<File>, m: seq<Entry>)
    requires SameReads(h, stored, floor) && floor <= s
    requires VersionInv(v) && InputsHold(v, level, in0, in1) && MergedInputs(in0, in1, m)
    requires NewerSet(top, AllEntries(v))
    requires stored == top + AllEntries(v) && stored' == top + AfterCompaction(v, level, m, s)
    ensures SameReads(h, stored', s) <==> !Shows(v, level, in1, s, stored)
  {
    SameReadsSwitch(h, stored, stored', floor, s);
    TopReadsIff(v, level, in0, in1, m, s, top);
  }
}
