/** The cache's hash table: chained buckets that together are one map from keys to handles. */
module HandleTable {
  import opened Bytes

  /** A cache entry as the table sees it; `id` names the handle. */
  datatype Slot = Slot(key: Str, hash: nat, id: nat)

  ghost predicate NoRepeat(chain: seq<Slot>) {
    forall i, j | 0 <= i < j < |chain| :: chain[i].key != chain[j].key
  }

  /** A slot is in the bucket its hash selects. */
  ghost predicate InPlace(buckets: seq<seq<Slot>>, contents: map<Str, Slot>, s: Slot, b: nat)
    requires |buckets| > 0
  {
    s.hash % |buckets| == b && s.key in contents && contents[s.key] == s
  }

  ghost predicate BucketOk(buckets: seq<seq<Slot>>, contents: map<Str, Slot>, b: nat)
    requires b < |buckets|
  {
    NoRepeat(buckets[b]) && forall s {:trigger InPlace(buckets, contents, s, b)} | s in buckets[b] ::
      InPlace(buckets, contents, s, b)
  }

  ghost predicate Found(buckets: seq<seq<Slot>>, contents: map<Str, Slot>, key: Str)
    requires |buckets| > 0 && key in contents
  {
    contents[key].key == key && contents[key] in buckets[contents[key].hash % |buckets|]
  }

  /** The buckets hold exactly the contents. */
  ghost predicate Holds(buckets: seq<seq<Slot>>, contents: map<Str, Slot>) {
    && |buckets| > 0
    && (forall b | 0 <= b < |buckets| :: BucketOk(buckets, contents, b))
    && (forall key {:trigger Found(buckets, contents, key)} | key in contents :: Found(buckets, contents, key))
  }

  /** The place of the key in its chain, the end of the chain if it is not there. */
  ghost predicate IsPlace(chain: seq<Slot>, key: Str, i: nat) {
    i <= |chain| && (forall j | 0 <= j < i :: chain[j].key != key) && (i < |chain| ==> chain[i].key == key)
  }

  /** FindPointer; every key is always passed with the same hash. */
  method FindPlace(chain: seq<Slot>, key: Str, hash: nat) returns (i: nat)
    requires forall s | s in chain && s.key == key :: s.hash == hash
    ensures IsPlace(chain, key, i)
  {
    i := 0;
    while i < |chain| && (chain[i].hash != hash || chain[i].key != key)
      invariant i <= |chain| && forall j | 0 <= j < i :: chain[j].key != key
    {
      i := i + 1;
    }
  }

  /** Keys keep their hash. */
  ghost predicate SameHash(contents: map<Str, Slot>, key: Str, hash: nat) {
    key in contents ==> contents[key].hash == hash
  }

  /** A key is nowhere but in the bucket of its hash. */
  lemma PlaceIsContents(buckets: seq<seq<Slot>>, contents: map<Str, Slot>, key: Str, hash: nat, i: nat)
    requires Holds(buckets, contents) && SameHash(contents, key, hash)
    requires IsPlace(buckets[hash % |buckets|], key, i)
    ensures i < |buckets[hash % |buckets|]| <==> key in contents
    ensures key in contents ==> buckets[hash % |buckets|][i] == contents[key]
  {
    var b := hash % |buckets|;
    assert BucketOk(buckets, contents, b);
    if i < |buckets[b]| {
      assert InPlace(buckets, contents, buckets[b][i], b);
    }
    if key in contents {
      assert Found(buckets, contents, key);
    }
  }

  lemma HashesAgree(buckets: seq<seq<Slot>>, contents: map<Str, Slot>, key: Str, hash: nat)
    requires Holds(buckets, contents) && SameHash(contents, key, hash)
    ensures forall s | s in buckets[hash % |buckets|] && s.key == key :: s.hash == hash
  {
    var b := hash % |buckets|;
    assert BucketOk(buckets, contents, b);
    forall s | s in buckets[b] && s.key == key
      ensures s.hash == hash
    {
      assert InPlace(buckets, contents, s, b);
    }
  }

  /** A chain with h in the place of its key. */
  function Put(chain: seq<Slot>, i: nat, h: Slot): seq<Slot>
    requires i <= |chain|
  {
    if i < |chain| then chain[i := h] else chain + [h]
  }

  lemma PutHolds(buckets: seq<seq<Slot>>, contents: map<Str, Slot>, h: Slot, i: nat)
    requires Holds(buckets, contents) && SameHash(contents, h.key, h.hash)
    requires IsPlace(buckets[h.hash % |buckets|], h.key, i)
    ensures Holds(buckets[h.hash % |buckets| := Put(buckets[h.hash % |buckets|], i, h)], contents[h.key := h])
  {
    var b := h.hash % |buckets|;
    var after, now := buckets[b := Put(buckets[b], i, h)], contents[h.key := h];
    assert BucketOk(buckets, contents, b);
    ChangeHolds(buckets, contents, after, now, b, h.key);
    forall s | s in after[b]
      ensures InPlace(after, now, s, b)
    {
      assert s != h ==> s in buckets[b] && InPlace(buckets, contents, s, b);
    }
    assert after[b][i] == h;
    forall key | key in now
      ensures Found(after, now, key)
    {
      if key != h.key {
        assert Found(buckets, contents, key);
        var s := contents[key];
        if s.hash % |buckets| == b {
          var k :| 0 <= k < |buckets[b]| && buckets[b][k] == s;
          assert after[b][k] == s;
        }
      }
    }
  }

  /** The buckets that do not change stay in order. */
  lemma ChangeHolds(buckets: seq<seq<Slot>>, contents: map<Str, Slot>, after: seq<seq<Slot>>, now: map<Str, Slot>,
                    b: nat, key: Str)
    requires Holds(buckets, contents) && |after| == |buckets| && b < |buckets|
    requires forall c | 0 <= c < |buckets| && c != b :: after[c] == buckets[c]
    requires forall k | k in contents && k != key :: k in now && now[k] == contents[k]
    requires key in contents ==> contents[key].hash % |buckets| == b
    ensures forall c | 0 <= c < |buckets| && c != b :: BucketOk(after, now, c)
  {
    forall c | 0 <= c < |buckets| && c != b
      ensures BucketOk(after, now, c)
    {
      assert BucketOk(buckets, contents, c);
      forall s | s in after[c]
        ensures InPlace(after, now, s, c)
      {
        assert InPlace(buckets, contents, s, c);
      }
    }
  }

  function Cut(chain: seq<Slot>, i: nat): seq<Slot>
    requires i < |chain|
  {
    chain[..i] + chain[i + 1..]
  }

  lemma CutHolds(buckets: seq<seq<Slot>>, contents: map<Str, Slot>, key: Str, hash: nat, i: nat)
    requires Holds(buckets, contents) && key in contents && contents[key].hash == hash
    requires IsPlace(buckets[hash % |buckets|], key, i) && i < |buckets[hash % |buckets|]|
    ensures Holds(buckets[hash % |buckets| := Cut(buckets[hash % |buckets|], i)], contents - {key})
  {
    var b := hash % |buckets|;
    var after, now := buckets[b := Cut(buckets[b], i)], contents - {key};
    assert BucketOk(buckets, contents, b);
    ChangeHolds(buckets, contents, after, now, b, key);
    forall s | s in after[b]
      ensures InPlace(after, now, s, b)
    {
      var k :| 0 <= k < |after[b]| && after[b][k] == s;
      assert s == buckets[b][if k < i then k else k + 1];
      assert InPlace(buckets, contents, s, b);
    }
    forall other | other in now
      ensures Found(after, now, other)
    {
      assert Found(buckets, contents, other);
      var s := contents[other];
      if s.hash % |buckets| == b {
        var k :| 0 <= k < |buckets[b]| && buckets[b][k] == s;
        assert after[b][if k < i then k else k - 1] == s;
      }
    }
  }

  class HandleTable {
    var buckets: seq<seq<Slot>>
    var elems: nat
    ghost var contents: map<Str, Slot>

    ghost predicate Valid()
      reads this
    {
      Holds(buckets, contents) && elems == |contents| <= |buckets|
    }

    constructor ()
      ensures Valid() && contents == map[]
    {
      buckets, elems := [[], [], [], []], 0;
      contents := map[];
    }

    /** HandleTable::Lookup */
    method Lookup(key: Str, hash: nat) returns (r: Option<Slot>)
      requires Valid() && SameHash(contents, key, hash)
      ensures r == if key in contents then Some(contents[key]) else None
    {
      var chain := buckets[hash % |buckets|];
      HashesAgree(buckets, contents, key, hash);
      var i := FindPlace(chain, key, hash);
      PlaceIsContents(buckets, contents, key, hash, i);
      return if i < |chain| then Some(chain[i]) else None;
    }

    /** HandleTable::Insert: returns what it replaced. */
    method Insert(h: Slot) returns (old_: Option<Slot>)
      requires Valid() && SameHash(contents, h.key, h.hash)
      modifies this
      ensures Valid() && contents == old(contents)[h.key := h]
      ensures old_ == if h.key in old(contents) then Some(old(contents)[h.key]) else None
    {
      var b := h.hash % |buckets|;
      var chain := buckets[b];
      HashesAgree(buckets, contents, h.key, h.hash);
      var i := FindPlace(chain, h.key, h.hash);
      PlaceIsContents(buckets, contents, h.key, h.hash, i);
      PutHolds(buckets, contents, h, i);
      old_ := if i < |chain| then Some(chain[i]) else None;
      buckets := buckets[b := Put(chain, i, h)];
      contents := contents[h.key := h];
      if old_.None? {
        elems := elems + 1;
        if elems > |buckets| {
          Resize();
        }
      }
    }

    /** HandleTable::Remove */
    method Remove(key: Str, hash: nat) returns (r: Option<Slot>)
      requires Valid() && SameHash(contents, key, hash)
      modifies this
      ensures Valid() && contents == old(contents) - {key}
      ensures r == if key in old(contents) then Some(old(contents)[key]) else None
    {
      var b := hash % |buckets|;
      var chain := buckets[b];
      HashesAgree(buckets, contents, key, hash);
      var i := FindPlace(chain, key, hash);
      PlaceIsContents(buckets, contents, key, hash, i);
      if i == |chain| {
        assert contents - {key} == contents;
        return None;
      }
      CutHolds(buckets, contents, key, hash, i);
      r := Some(chain[i]);
      buckets := buckets[b := Cut(chain, i)];
      assert |contents - {key}| == |contents| - 1 by {
        RemoveOne(contents, key);
      }
      contents := contents - {key};
      elems := elems - 1;
    }

    /** Resize: every slot moves to the front of its chain in a larger table. */
    method Resize()
      requires Holds(buckets, contents) && elems == |contents|
      modifies this`buckets
      ensures Valid()
    {
      var length := 4;
      while length < elems
        invariant length > 0
      {
        length := length * 2;
      }
      buckets := Rehash(buckets, contents, length);
    }
  }

  method Rehash(buckets: seq<seq<Slot>>, ghost contents: map<Str, Slot>, length: nat) returns (larger: seq<seq<Slot>>)
    requires Holds(buckets, contents) && length > 0
    ensures Holds(larger, contents) && |larger| == length
  {
    larger := seq(length, _ => []);
    for i := 0 to |buckets|
      invariant Holds(larger, Moved(buckets, contents, i, 0)) && |larger| == length
    {
      larger := EmptyBucket(buckets, contents, larger, i);
      MoveNext(buckets, contents, i);
    }
    MovedAll(buckets, contents);
  }

  method EmptyBucket(buckets: seq<seq<Slot>>, ghost contents: map<Str, Slot>, from: seq<seq<Slot>>, i: nat)
      returns (larger: seq<seq<Slot>>)
    requires Holds(buckets, contents) && i < |buckets| && Holds(from, Moved(buckets, contents, i, 0))
    ensures Holds(larger, Moved(buckets, contents, i, |buckets[i]|)) && |larger| == |from|
  {
    larger := from;
    for j := 0 to |buckets[i]|
      invariant Holds(larger, Moved(buckets, contents, i, j)) && |larger| == |from|
    {
      var h := buckets[i][j];
      MoveStep(buckets, contents, i, j);
      PushHolds(larger, Moved(buckets, contents, i, j), h);
      var b := h.hash % |larger|;
      larger := larger[b := [h] + larger[b]];
    }
  }

  /** What has moved when bucket i has been emptied up to its slot j. */
  ghost function Moved(buckets: seq<seq<Slot>>, contents: map<Str, Slot>, i: nat, j: nat): map<Str, Slot>
    requires |buckets| > 0 && i <= |buckets| && (if i < |buckets| then j <= |buckets[i]| else j == 0)
  {
    map key | key in contents && IsMoved(buckets, contents[key], i, j) :: contents[key]
  }

  ghost predicate IsMoved(buckets: seq<seq<Slot>>, s: Slot, i: nat, j: nat)
    requires |buckets| > 0 && i <= |buckets| && (if i < |buckets| then j <= |buckets[i]| else j == 0)
  {
    var b := s.hash % |buckets|;
    b < i || (b == i && s in buckets[i][..j])
  }

  lemma MoveStep(buckets: seq<seq<Slot>>, contents: map<Str, Slot>, i: nat, j: nat)
    requires Holds(buckets, contents) && i < |buckets| && j < |buckets[i]|
    ensures var h := buckets[i][j];
            h.key !in Moved(buckets, contents, i, j) &&
            Moved(buckets, contents, i, j + 1) == Moved(buckets, contents, i, j)[h.key := h]
  {
    var h := buckets[i][j];
    assert BucketOk(buckets, contents, i) && InPlace(buckets, contents, h, i);
    assert buckets[i][..j + 1] == buckets[i][..j] + [h];
    forall key | key in contents
      ensures contents[key].key == key
    {
      assert Found(buckets, contents, key);
    }
  }

  lemma MoveNext(buckets: seq<seq<Slot>>, contents: map<Str, Slot>, i: nat)
    requires Holds(buckets, contents) && i < |buckets|
    ensures Moved(buckets, contents, i + 1, 0) == Moved(buckets, contents, i, |buckets[i]|)
  {
    var a, b := Moved(buckets, contents, i + 1, 0), Moved(buckets, contents, i, |buckets[i]|);
    assert buckets[i][..|buckets[i]|] == buckets[i];
    forall key | key in contents
      ensures key in a <==> key in b
    {
      assert Found(buckets, contents, key);
    }
  }

  lemma MovedAll(buckets: seq<seq<Slot>>, contents: map<Str, Slot>)
    requires Holds(buckets, contents)
    ensures Moved(buckets, contents, |buckets|, 0) == contents
  {
  }

  lemma PushHolds(buckets: seq<seq<Slot>>, contents: map<Str, Slot>, h: Slot)
    requires Holds(buckets, contents) && h.key !in contents
    ensures var b := h.hash % |buckets|;
            Holds(buckets[b := [h] + buckets[b]], contents[h.key := h])
  {
    var b := h.hash % |buckets|;
    var after, now := buckets[b := [h] + buckets[b]], contents[h.key := h];
    assert BucketOk(buckets, contents, b);
    ChangeHolds(buckets, contents, after, now, b, h.key);
    forall s | s in after[b]
      ensures InPlace(after, now, s, b)
    {
      assert s != h ==> s in buckets[b] && InPlace(buckets, contents, s, b);
    }
    forall k | 0 <= k < |buckets[b]|
      ensures buckets[b][k].key != h.key
    {
      assert InPlace(buckets, contents, buckets[b][k], b);
    }
    assert after[b][0] == h;
    forall key | key in now
      ensures Found(after, now, key)
    {
      if key != h.key {
        assert Found(buckets, contents, key);
        assert contents[key] in buckets[b] ==> contents[key] in after[b];
      }
    }
  }

  lemma RemoveOne(contents: map<Str, Slot>, key: Str)
    requires key in contents
    ensures |contents - {key}| == |contents| - 1
  {
    assert contents == (contents - {key})[key := contents[key]];
  }
}
