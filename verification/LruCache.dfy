/** One shard of the cache: which handles are cached, in use or free to go, and when each is deleted. */
module LruCache {
  import opened Bytes
  import opened HandleTable

  datatype Handle = Handle(key: Str, hash: nat, charge: nat, refs: nat, inCache: bool)

  // ----- lists without repetition

  ghost predicate NoDup(s: seq<nat>) {
    forall i, j | 0 <= i < j < |s| :: s[i] != s[j]
  }

  /** LRU_Remove */
  function Without(s: seq<nat>, id: nat): seq<nat> {
    if s == [] then [] else if s[0] == id then s[1..] else [s[0]] + Without(s[1..], id)
  }

  lemma {:induction false} WithoutMembers(s: seq<nat>, id: nat, x: nat)
    requires NoDup(s)
    ensures x in Without(s, id) <==> x in s && x != id
  {
    if s != [] {
      assert s == [s[0]] + s[1..];
      if s[0] != id {
        WithoutMembers(s[1..], id, x);
      }
    }
  }

  lemma {:induction false} WithoutNoDup(s: seq<nat>, id: nat)
    requires NoDup(s)
    ensures NoDup(Without(s, id))
  {
    if s != [] && s[0] != id {
      WithoutNoDup(s[1..], id);
      var rest := Without(s[1..], id);
      forall i | 0 <= i < |rest|
        ensures rest[i] != s[0]
      {
        WithoutMembers(s[1..], id, rest[i]);
        assert rest[i] in s[1..];
      }
    }
  }

  lemma WithoutAll(s: seq<nat>, id: nat)
    requires NoDup(s)
    ensures NoDup(Without(s, id)) && forall x: nat :: x in Without(s, id) <==> x in s && x != id
  {
    WithoutNoDup(s, id);
    forall x: nat
      ensures x in Without(s, id) <==> x in s && x != id
    {
      WithoutMembers(s, id, x);
    }
  }

  lemma {:induction false} WithoutAppend(s: seq<nat>, id: nat, x: nat)
    requires x != id
    ensures Without(s + [x], id) == Without(s, id) + [x]
  {
    if s != [] {
      assert (s + [x])[1..] == s[1..] + [x];
      WithoutAppend(s[1..], id, x);
    }
  }

  // ----- charges

  ghost function Sum(handles: map<nat, Handle>, ids: seq<nat>): nat {
    if ids == [] then 0 else (if ids[0] in handles then handles[ids[0]].charge else 0) + Sum(handles, ids[1..])
  }

  lemma {:induction false} SumAppend(handles: map<nat, Handle>, ids: seq<nat>, id: nat)
    requires id in handles
    ensures Sum(handles, ids + [id]) == Sum(handles, ids) + handles[id].charge
  {
    if ids != [] {
      SumAppend(handles, ids[1..], id);
      assert (ids + [id])[1..] == ids[1..] + [id];
    }
  }

  lemma {:induction false} SumWithout(handles: map<nat, Handle>, ids: seq<nat>, id: nat)
    requires id in ids && id in handles
    ensures Sum(handles, ids) == Sum(handles, Without(ids, id)) + handles[id].charge
  {
    assert ids == [ids[0]] + ids[1..];
    if ids[0] != id {
      SumWithout(handles, ids[1..], id);
      assert Without(ids, id)[1..] == Without(ids[1..], id);
    }
  }

  lemma {:induction false} SumSame(handles: map<nat, Handle>, now: map<nat, Handle>, ids: seq<nat>)
    requires forall id | id in ids :: id in handles && id in now && now[id].charge == handles[id].charge
    ensures Sum(now, ids) == Sum(handles, ids)
  {
    if ids != [] {
      SumSame(handles, now, ids[1..]);
    }
  }

  // ----- the state of a shard

  /** `clients` counts the handles given out and not yet released; `deleted` lists the deleter calls. */
  datatype Shard = Shard(handles: map<nat, Handle>, fresh_: nat, lru: seq<nat>, inUse: seq<nat>, usage: nat,
                         contents: map<Str, Slot>, clients: map<nat, nat>, deleted: seq<nat>)

  ghost predicate HandleOk(s: Shard, id: nat)
    requires id in s.handles
  {
    var h := s.handles[id];
    && id < s.fresh_ && id in s.clients
    && h.refs == s.clients[id] + (if h.inCache then 1 else 0)
    && h.refs >= 1
    && (h.inCache <==> h.key in s.contents && s.contents[h.key] == Slot(h.key, h.hash, id))
    && (id in s.lru <==> h.inCache && h.refs == 1)
    && (id in s.inUse <==> h.inCache && h.refs >= 2)
  }

  ghost predicate SlotOk(s: Shard, key: Str)
    requires key in s.contents
  {
    var slot := s.contents[key];
    slot.key == key && slot.id in s.handles && s.handles[slot.id].inCache &&
    slot == Slot(s.handles[slot.id].key, s.handles[slot.id].hash, slot.id)
  }

  /** A list holds only live handles, none twice. */
  ghost predicate ListOk(s: Shard, used: bool) {
    var ids := if used then s.inUse else s.lru;
    NoDup(ids) && forall id | id in ids :: id in s.handles
  }

  /** Each handle ever made is live or has been deleted, not both. */
  ghost predicate LiveOrDeleted(s: Shard, id: nat) {
    id in s.handles <==> id !in s.deleted
  }

  ghost predicate Inv(s: Shard) {
    && (forall id {:trigger HandleOk(s, id)} | id in s.handles :: HandleOk(s, id))
    && (forall key {:trigger SlotOk(s, key)} | key in s.contents :: SlotOk(s, key))
    && (forall used {:trigger ListOk(s, used)} :: ListOk(s, used))
    && s.usage == Sum(s.handles, s.lru) + Sum(s.handles, s.inUse)
    && NoDup(s.deleted)
    && (forall id {:trigger id in s.deleted} | id in s.deleted :: id < s.fresh_)
    && (forall id: nat {:trigger LiveOrDeleted(s, id)} | id < s.fresh_ :: LiveOrDeleted(s, id))
  }

  // ----- steps

  /** Ref by a client */
  ghost function AfterRef(s: Shard, id: nat): Shard
    requires id in s.handles && id in s.clients
  {
    var h := s.handles[id];
    var moves := h.refs == 1 && h.inCache;
    s.(handles := s.handles[id := h.(refs := h.refs + 1)], clients := s.clients[id := s.clients[id] + 1],
       lru := if moves then Without(s.lru, id) else s.lru, inUse := if moves then s.inUse + [id] else s.inUse)
  }

  /** A handle moves from one list to the other; charges and usage stay. */
  lemma ListsAfterMove(from: seq<nat>, to: seq<nat>, handles: map<nat, Handle>, now: map<nat, Handle>, id: nat)
    requires NoDup(from) && NoDup(to) && id in from && id !in to
    requires forall x | x in from || x in to :: x in handles && x in now && now[x].charge == handles[x].charge
    ensures NoDup(Without(from, id)) && NoDup(to + [id])
    ensures forall x: nat :: x in Without(from, id) <==> x in from && x != id
    ensures Sum(now, Without(from, id)) + Sum(now, to + [id]) == Sum(handles, from) + Sum(handles, to)
  {
    WithoutAll(from, id);
    SumSame(handles, now, from);
    SumSame(handles, now, to);
    SumWithout(now, from, id);
    SumAppend(now, to, id);
  }

  lemma RefLists(s: Shard, id: nat)
    requires Inv(s) && id in s.handles && HandleOk(s, id)
    ensures var t := AfterRef(s, id);
            && ListOk(t, true) && ListOk(t, false) && t.usage == Sum(t.handles, t.lru) + Sum(t.handles, t.inUse)
            && (s.handles[id].refs == 1 && s.handles[id].inCache ==>
                  forall x: nat :: x in t.lru <==> x in s.lru && x != id)
  {
    var t, h := AfterRef(s, id), s.handles[id];
    assert ListOk(s, true) && ListOk(s, false);
    if h.refs == 1 && h.inCache {
      ListsAfterMove(s.lru, s.inUse, s.handles, t.handles, id);
    } else {
      SumSame(s.handles, t.handles, s.lru);
      SumSame(s.handles, t.handles, s.inUse);
    }
  }

  lemma RefKeepsInv(s: Shard, id: nat)
    requires Inv(s) && id in s.handles
    ensures HandleOk(s, id) && Inv(AfterRef(s, id))
  {
    assert HandleOk(s, id);
    var t := AfterRef(s, id);
    RefLists(s, id);
    forall x | x in t.handles
      ensures HandleOk(t, x)
    {
      assert HandleOk(s, x);
    }
    forall key | key in t.contents
      ensures SlotOk(t, key)
    {
      assert SlotOk(s, key);
    }
    forall x: nat | x < t.fresh_
      ensures LiveOrDeleted(t, x)
    {
      assert LiveOrDeleted(s, x);
    }
  }

  /** The last reference is gone: the deleter runs and the handle is freed. */
  ghost function Dropped(s: Shard, id: nat): Shard {
    s.(handles := s.handles - {id}, clients := s.clients - {id}, deleted := s.deleted + [id])
  }

  /** Release: Unref by a client */
  ghost function AfterRelease(s: Shard, id: nat): Shard
    requires id in s.handles && id in s.clients && s.clients[id] > 0 && s.handles[id].refs > 0
  {
    var h := s.handles[id];
    if h.refs == 1 then Dropped(s, id)
    else
      var moves := h.inCache && h.refs == 2;
      s.(handles := s.handles[id := h.(refs := h.refs - 1)], clients := s.clients[id := s.clients[id] - 1],
         inUse := if moves then Without(s.inUse, id) else s.inUse, lru := if moves then s.lru + [id] else s.lru)
  }

  lemma DropKeepsInv(s: Shard, id: nat)
    requires Inv(s) && id in s.handles && !s.handles[id].inCache
    ensures Inv(Dropped(s, id))
  {
    assert ListOk(s, true) && ListOk(s, false);
    var t := Dropped(s, id);
    assert HandleOk(s, id) && LiveOrDeleted(s, id);
    SumSame(s.handles, t.handles, s.lru);
    SumSame(s.handles, t.handles, s.inUse);
    forall x | x in t.handles
      ensures HandleOk(t, x)
    {
      assert HandleOk(s, x);
    }
    forall key | key in t.contents
      ensures SlotOk(t, key)
    {
      assert SlotOk(s, key);
    }
    forall used
      ensures ListOk(t, used)
    {
    }
    forall x: nat | x < t.fresh_
      ensures LiveOrDeleted(t, x)
    {
      assert x < s.fresh_ ==> LiveOrDeleted(s, x);
    }
  }

  lemma UnrefLists(s: Shard, id: nat)
    requires Inv(s) && id in s.handles && HandleOk(s, id) && s.clients[id] > 0 && s.handles[id].refs > 1
    ensures var t := AfterRelease(s, id);
            && ListOk(t, true) && ListOk(t, false) && t.usage == Sum(t.handles, t.lru) + Sum(t.handles, t.inUse)
            && (s.handles[id].refs == 2 && s.handles[id].inCache ==>
                  forall x: nat :: x in t.inUse <==> x in s.inUse && x != id)
  {
    var t, h := AfterRelease(s, id), s.handles[id];
    assert ListOk(s, true) && ListOk(s, false);
    if h.inCache && h.refs == 2 {
      ListsAfterMove(s.inUse, s.lru, s.handles, t.handles, id);
    } else {
      SumSame(s.handles, t.handles, s.lru);
      SumSame(s.handles, t.handles, s.inUse);
    }
  }

  lemma UnrefKeepsInv(s: Shard, id: nat)
    requires Inv(s) && id in s.handles && id in s.clients && s.clients[id] > 0 && s.handles[id].refs > 1
    ensures Inv(AfterRelease(s, id))
  {
    var t := AfterRelease(s, id);
    assert HandleOk(s, id);
    UnrefLists(s, id);
    forall x | x in t.handles
      ensures HandleOk(t, x)
    {
      assert HandleOk(s, x);
    }
    forall key | key in t.contents
      ensures SlotOk(t, key)
    {
      assert SlotOk(s, key);
    }
    forall x: nat | x < t.fresh_
      ensures LiveOrDeleted(t, x)
    {
      assert LiveOrDeleted(s, x);
    }
  }

  lemma ReleaseKeepsInv(s: Shard, id: nat)
    requires Inv(s) && id in s.handles && id in s.clients && s.clients[id] > 0
    ensures HandleOk(s, id) && Inv(AfterRelease(s, id))
  {
    assert HandleOk(s, id);
    if s.handles[id].refs == 1 {
      DropKeepsInv(s, id);
    } else {
      UnrefKeepsInv(s, id);
    }
  }

  /** FinishErase of a handle only the cache refers to: it is deleted. */
  ghost function Evicted(s: Shard, id: nat): Shard
    requires id in s.handles && s.usage >= s.handles[id].charge
  {
    Dropped(s.(contents := s.contents - {s.handles[id].key}, lru := Without(s.lru, id),
               usage := s.usage - s.handles[id].charge), id)
  }

  /** FinishErase of a handle some client still holds: it leaves the cache and lives on. */
  ghost function Detached(s: Shard, id: nat): Shard
    requires id in s.handles && s.usage >= s.handles[id].charge && s.handles[id].refs > 0
  {
    var h := s.handles[id];
    s.(contents := s.contents - {h.key}, inUse := Without(s.inUse, id), usage := s.usage - h.charge,
       handles := s.handles[id := h.(inCache := false, refs := h.refs - 1)])
  }

  ghost function AfterErase(s: Shard, id: nat): Shard
    requires id in s.handles && s.usage >= s.handles[id].charge && s.handles[id].refs > 0
  {
    if s.handles[id].refs == 1 then Evicted(s, id) else Detached(s, id)
  }

  /** A cached handle's charge is part of the usage. */
  lemma ChargeCounted(s: Shard, id: nat)
    requires Inv(s) && id in s.handles && s.handles[id].inCache
    ensures s.usage >= s.handles[id].charge && s.handles[id].refs > 0
  {
    assert HandleOk(s, id);
    if s.handles[id].refs == 1 {
      SumWithout(s.handles, s.lru, id);
    } else {
      SumWithout(s.handles, s.inUse, id);
    }
  }

  /** Taking a cached handle's key away leaves the other slots alone. */
  lemma OtherSlots(s: Shard, id: nat, key: Str)
    requires Inv(s) && id in s.handles && s.handles[id].inCache && key in s.contents && key != s.handles[id].key
    ensures SlotOk(s, key) && s.contents[key].id != id
  {
    assert HandleOk(s, id) && SlotOk(s, key);
  }

  lemma EvictKeepsInv(s: Shard, id: nat)
    requires Inv(s) && id in s.handles && s.handles[id].inCache && s.handles[id].refs == 1
    requires s.usage >= s.handles[id].charge
    ensures Inv(Evicted(s, id))
  {
    assert ListOk(s, true) && ListOk(s, false);
    var t := Evicted(s, id);
    assert HandleOk(s, id) && LiveOrDeleted(s, id);
    WithoutAll(s.lru, id);
    SumWithout(s.handles, s.lru, id);
    SumSame(s.handles, t.handles, t.lru);
    SumSame(s.handles, t.handles, s.inUse);
    forall x | x in t.handles
      ensures HandleOk(t, x)
    {
      assert HandleOk(s, x);
    }
    forall key | key in t.contents
      ensures SlotOk(t, key)
    {
      OtherSlots(s, id, key);
    }
    forall used
      ensures ListOk(t, used)
    {
    }
    forall x: nat | x < t.fresh_
      ensures LiveOrDeleted(t, x)
    {
      assert x < s.fresh_ ==> LiveOrDeleted(s, x);
    }
  }

  lemma DetachKeepsInv(s: Shard, id: nat)
    requires Inv(s) && id in s.handles && s.handles[id].inCache && s.handles[id].refs > 1
    requires s.usage >= s.handles[id].charge
    ensures Inv(Detached(s, id))
  {
    assert ListOk(s, true) && ListOk(s, false);
    var t := Detached(s, id);
    assert HandleOk(s, id);
    WithoutAll(s.inUse, id);
    SumWithout(s.handles, s.inUse, id);
    SumSame(s.handles, t.handles, s.lru);
    SumSame(s.handles, t.handles, t.inUse);
    forall x | x in t.handles
      ensures HandleOk(t, x)
    {
      assert HandleOk(s, x);
    }
    forall key | key in t.contents
      ensures SlotOk(t, key)
    {
      OtherSlots(s, id, key);
    }
    forall used
      ensures ListOk(t, used)
    {
    }
    forall x: nat | x < t.fresh_
      ensures LiveOrDeleted(t, x)
    {
      assert x < s.fresh_ ==> LiveOrDeleted(s, x);
    }
  }

  lemma EraseKeepsInv(s: Shard, id: nat)
    requires Inv(s) && id in s.handles && s.handles[id].inCache
    ensures s.usage >= s.handles[id].charge && s.handles[id].refs > 0 && Inv(AfterErase(s, id))
  {
    ChargeCounted(s, id);
    if s.handles[id].refs == 1 {
      EvictKeepsInv(s, id);
    } else {
      DetachKeepsInv(s, id);
    }
  }

  /** A new handle, held by its caller and, unless caching is off, by the cache. */
  ghost function AfterAdd(s: Shard, key: Str, hash: nat, charge: nat, cached: bool): Shard {
    var id := s.fresh_;
    var made := s.(handles := s.handles[id := Handle(key, hash, charge, if cached then 2 else 1, cached)],
                   clients := s.clients[id := 1], fresh_ := id + 1);
    if cached then
      made.(inUse := s.inUse + [id], usage := s.usage + charge, contents := s.contents[key := Slot(key, hash, id)])
    else made
  }

  lemma FreshUnused(s: Shard)
    requires Inv(s)
    ensures s.fresh_ !in s.handles && s.fresh_ !in s.lru && s.fresh_ !in s.inUse && s.fresh_ !in s.deleted
  {
    assert ListOk(s, true) && ListOk(s, false);
    assert s.fresh_ in s.handles ==> HandleOk(s, s.fresh_);
  }

  lemma AddUncachedKeepsInv(s: Shard, key: Str, hash: nat, charge: nat)
    requires Inv(s)
    ensures Inv(AfterAdd(s, key, hash, charge, false))
  {
    assert ListOk(s, true) && ListOk(s, false);
    var t, id := AfterAdd(s, key, hash, charge, false), s.fresh_;
    FreshUnused(s);
    assert key in s.contents ==> SlotOk(s, key);
    SumSame(s.handles, t.handles, s.lru);
    SumSame(s.handles, t.handles, s.inUse);
    forall x | x in t.handles
      ensures HandleOk(t, x)
    {
      assert x != id ==> HandleOk(s, x);
    }
    forall k | k in t.contents
      ensures SlotOk(t, k)
    {
      assert SlotOk(s, k);
    }
    forall used
      ensures ListOk(t, used)
    {
    }
    forall x: nat | x < t.fresh_
      ensures LiveOrDeleted(t, x)
    {
      assert x < s.fresh_ ==> LiveOrDeleted(s, x);
    }
  }

  lemma AddCachedLists(s: Shard, key: Str, hash: nat, charge: nat)
    requires Inv(s) && key !in s.contents
    ensures var t := AfterAdd(s, key, hash, charge, true);
            ListOk(t, true) && ListOk(t, false) && t.usage == Sum(t.handles, t.lru) + Sum(t.handles, t.inUse)
  {
    assert ListOk(s, true) && ListOk(s, false);
    var t := AfterAdd(s, key, hash, charge, true);
    FreshUnused(s);
    SumSame(s.handles, t.handles, s.lru);
    SumSame(s.handles, t.handles, s.inUse);
    SumAppend(t.handles, s.inUse, s.fresh_);
  }

  lemma AddCachedKeepsInv(s: Shard, key: Str, hash: nat, charge: nat)
    requires Inv(s) && key !in s.contents
    ensures Inv(AfterAdd(s, key, hash, charge, true))
  {
    var t, id := AfterAdd(s, key, hash, charge, true), s.fresh_;
    FreshUnused(s);
    AddCachedLists(s, key, hash, charge);
    forall x | x in t.handles
      ensures HandleOk(t, x)
    {
      assert x != id ==> HandleOk(s, x);
    }
    forall k | k in t.contents
      ensures SlotOk(t, k)
    {
      assert k != key ==> SlotOk(s, k);
    }
    forall x: nat | x < t.fresh_
      ensures LiveOrDeleted(t, x)
    {
      assert x < s.fresh_ ==> LiveOrDeleted(s, x);
    }
  }

  // ----- the cache

  ghost predicate HashOk(handles: map<nat, Handle>, hashOf: Str -> nat, id: nat)
    requires id in handles
  {
    handles[id].hash == hashOf(handles[id].key)
  }

  ghost predicate Hashed(handles: map<nat, Handle>, hashOf: Str -> nat) {
    forall id {:trigger HashOk(handles, hashOf, id)} | id in handles :: HashOk(handles, hashOf, id)
  }

  lemma StillHashed(was: map<nat, Handle>, now: map<nat, Handle>, hashOf: Str -> nat, except: nat)
    requires Hashed(was, hashOf) && now.Keys <= was.Keys + {except}
    requires forall id | id in now && id != except :: now[id] == was[id]
    requires except in now ==> HashOk(now, hashOf, except)
    ensures Hashed(now, hashOf)
  {
    forall id | id in now
      ensures HashOk(now, hashOf, id)
    {
      assert id != except ==> HashOk(was, hashOf, id);
    }
  }

  /** One shard, called with its mutex held. */
  class Cache {
    const capacity: nat
    const hashOf: Str -> nat
    const table: HandleTable
    var handles: map<nat, Handle>
    var nextId: nat
    var lru: seq<nat>
    var inUse: seq<nat>
    var usage: nat
    var deleted: seq<nat>
    ghost var clients: map<nat, nat>

    ghost function Abs(): Shard
      reads this, table
    {
      Shard(handles, nextId, lru, inUse, usage, table.contents, clients, deleted)
    }

    ghost predicate Valid()
      reads this, table
    {
      table.Valid() && Inv(Abs()) && Hashed(handles, hashOf)
    }

    constructor (capacity: nat, hashOf: Str -> nat)
      ensures Valid() && fresh(table) && handles == map[] && deleted == []
    {
      this.capacity, this.hashOf := capacity, hashOf;
      table := new HandleTable();
      handles, nextId, lru, inUse, usage, deleted := map[], 0, [], [], 0, [];
      clients := map[];
    }

    lemma HashAgrees(key: Str)
      requires Valid()
      ensures SameHash(table.contents, key, hashOf(key))
    {
      if key in table.contents {
        assert SlotOk(Abs(), key) && HashOk(handles, hashOf, table.contents[key].id);
      }
    }

    /** Lookup: the handle of the key, with one more reference. */
    method Lookup(key: Str) returns (r: Option<nat>)
      requires Valid()
      modifies this
      ensures Valid() && deleted == old(deleted) && usage == old(usage)
      ensures r == if key in old(table.contents) then Some(old(table.contents)[key].id) else None
      ensures r.Some? ==> IsRef(old(Abs()), r.value, Abs())
      ensures r.None? ==> Abs() == old(Abs())
    {
      HashAgrees(key);
      var slot := table.Lookup(key, hashOf(key));
      if slot.None? {
        return None;
      }
      assert SlotOk(Abs(), key);
      Ref(slot.value.id);
      return Some(slot.value.id);
    }

    /** Ref, on behalf of a client */
    method Ref(id: nat)
      requires Valid() && id in handles
      modifies this
      ensures Valid() && IsRef(old(Abs()), id, Abs())
    {
      ghost var s := Abs();
      RefKeepsInv(s, id);
      ghost var t := AfterRef(s, id);
      assert HashOk(handles, hashOf, id);
      StillHashed(handles, t.handles, hashOf, id);
      var h := handles[id];
      if h.refs == 1 && h.inCache {
        lru := Without(lru, id);
        inUse := inUse + [id];
      }
      assert lru == t.lru && inUse == t.inUse;
      handles := handles[id := h.(refs := h.refs + 1)];
      clients := t.clients;
      assert handles == t.handles;
    }

    /** Release: Unref on behalf of a client that holds the handle */
    method Release(id: nat)
      requires Valid() && id in handles && id in clients && clients[id] > 0
      modifies this
      ensures Valid() && table.contents == old(table.contents) && usage == old(usage)
      ensures HandleOk(old(Abs()), id) && Abs() == AfterRelease(old(Abs()), id)
    {
      ghost var s := Abs();
      ReleaseKeepsInv(s, id);
      ghost var t := AfterRelease(s, id);
      assert HashOk(handles, hashOf, id);
      StillHashed(handles, t.handles, hashOf, id);
      var h := handles[id];
      if h.refs == 1 {
        deleted := deleted + [id];
        handles := handles - {id};
      } else {
        if h.inCache && h.refs == 2 {
          inUse := Without(inUse, id);
          lru := lru + [id];
        }
        handles := handles[id := h.(refs := h.refs - 1)];
      }
      clients := t.clients;
      assert Abs() == t;
    }

    /** FinishErase, for a handle the table has let go of */
    method FinishErase(id: nat)
      requires id in handles && usage >= handles[id].charge && handles[id].refs > 0 && Hashed(handles, hashOf)
      modifies this
      ensures Abs() == AfterErase(old(Abs()), id).(contents := table.contents) && Hashed(handles, hashOf)
    {
      ghost var s, h0 := Abs(), handles;
      var h := handles[id];
      usage := usage - h.charge;
      assert HashOk(handles, hashOf, id);
      if h.refs == 1 {
        lru := Without(lru, id);
        deleted := deleted + [id];
        handles := handles - {id};
        clients := clients - {id};
      } else {
        inUse := Without(inUse, id);
        handles := handles[id := h.(inCache := false, refs := h.refs - 1)];
      }
      StillHashed(h0, handles, hashOf, id);
    }

    /** Erase */
    method Erase(key: Str)
      requires Valid()
      modifies this, table
      ensures Valid() && key !in table.contents
      ensures key in old(table.contents) ==> IsErase(old(Abs()), old(table.contents)[key].id, Abs())
      ensures key !in old(table.contents) ==> Abs() == old(Abs())
    {
      ghost var s := Abs();
      HashAgrees(key);
      var slot := table.Remove(key, hashOf(key));
      if slot.Some? {
        assert SlotOk(s, key);
        EraseKeepsInv(s, slot.value.id);
        FinishErase(slot.value.id);
        assert Abs() == AfterErase(s, slot.value.id);
      } else {
        assert table.contents == s.contents;
      }
    }

    /** Remove the oldest handle nobody uses from table and list. */
    method EvictFirst()
      requires Valid() && lru != []
      modifies this, table
      ensures Valid() && IsErase(old(Abs()), old(lru)[0], Abs())
    {
      ghost var s := Abs();
      var id := lru[0];
      assert ListOk(s, false) && HandleOk(s, id) && HashOk(handles, hashOf, id);
      var h := handles[id];
      var slot := table.Remove(h.key, h.hash);
      EraseKeepsInv(s, id);
      FinishErase(id);
      assert Abs() == AfterErase(s, id);
    }

    /** One eviction more. */
    method EvictOldest(ghost full: Shard, ghost n: nat)
      requires Valid() && lru != [] && OldestGone(full, n, Abs())
      modifies this, table
      ensures Valid() && OldestGone(full, n + 1, Abs())
      ensures old(usage) > capacity ==> Needed(full, n + 1, usage, capacity)
    {
      GoneNext(full, n, Abs());
      EvictFirst();
    }

    /** Prune: everything not in use goes, oldest first. */
    method Prune()
      requires Valid()
      modifies this, table
      ensures Valid() && lru == [] && OldestGone(old(Abs()), |old(lru)|, Abs())
    {
      ghost var s, n := Abs(), 0;
      NothingGone(s);
      while lru != []
        invariant Valid() && OldestGone(s, n, Abs())
        decreases |s.lru| - n
      {
        EvictOldest(s, n);
        n := n + 1;
      }
    }

    /** Insert with caching on, up to the evictions: an older entry of the key goes. */
    method AddCached(key: Str, charge: nat) returns (id: nat)
      requires Valid()
      modifies this, table
      ensures Valid() && IsAdded(old(Abs()), key, hashOf(key), charge, Abs()) && id == old(nextId)
    {
      ghost var s := Abs();
      HashAgrees(key);
      ghost var t := Replaced(s, key, hashOf(key), charge);
      if key in s.contents {
        EraseAfterAdd(s, key, hashOf(key), charge);
      }
      id := nextId;
      var was := Link(key, charge);
      FinishReplaced(was, t);
    }

    /** FinishErase of what the table returned, if anything */
    method FinishReplaced(was: Option<Slot>, ghost t: Shard)
      requires was.None? ==> Abs() == t
      requires was.Some? ==>
                 IsErasable(Abs(), was.value.id) && AfterErase(Abs(), was.value.id).(contents := table.contents) == t
      requires Hashed(handles, hashOf)
      modifies this
      ensures Abs() == t && Hashed(handles, hashOf)
    {
      if was.Some? {
        FinishErase(was.value.id);
      }
    }

    /** The new handle is put on the in-use list and into the table. */
    method Link(key: Str, charge: nat) returns (was: Option<Slot>)
      requires table.Valid() && Hashed(handles, hashOf) && SameHash(table.contents, key, hashOf(key))
      modifies this, table
      ensures table.Valid() && Hashed(handles, hashOf) && Abs() == AfterAdd(old(Abs()), key, hashOf(key), charge, true)
      ensures was == if key in old(table.contents) then Some(old(table.contents)[key]) else None
    {
      var id := NewHandle(key, charge, true);
      was := table.Insert(Slot(key, hashOf(key), id));
    }

    /** A handle for the caller, counted and listed if the cache keeps it too. */
    method NewHandle(key: Str, charge: nat, cached: bool) returns (id: nat)
      requires Hashed(handles, hashOf)
      modifies this
      ensures Hashed(handles, hashOf) && id == old(nextId)
      ensures Abs() == AfterAdd(old(Abs()), key, hashOf(key), charge, cached).(contents := table.contents)
    {
      ghost var h0 := handles;
      id := nextId;
      handles := handles[id := Handle(key, hashOf(key), charge, if cached then 2 else 1, cached)];
      clients := clients[id := 1];
      nextId := nextId + 1;
      if cached {
        inUse := inUse + [id];
        usage := usage + charge;
      }
      StillHashed(h0, handles, hashOf, id);
    }

    /** Insert: the new handle is added, then as many old ones go as the capacity demands. */
    method Insert(key: Str, charge: nat) returns (id: nat, ghost full: Shard, ghost n: nat)
      requires Valid()
      modifies this, table
      ensures Valid() && id == old(nextId)
      ensures capacity > 0 ==> IsAdded(old(Abs()), key, hashOf(key), charge, full)
      ensures capacity == 0 ==> full == AfterAdd(old(Abs()), key, hashOf(key), charge, false)
      ensures OldestGone(full, n, Abs()) && (usage <= capacity || lru == [])
      ensures Needed(full, n, usage, capacity)
    {
      if capacity > 0 {
        id := AddCached(key, charge);
      } else {
        id := AddUncached(key, charge);
      }
      full := Abs();
      n := FitCapacity(full);
    }

    /** Evict until the usage fits the capacity or everything cached is in use. */
    method FitCapacity(ghost full: Shard) returns (ghost n: nat)
      requires Valid() && full == Abs()
      modifies this, table
      ensures Valid() && OldestGone(full, n, Abs()) && Needed(full, n, usage, capacity)
      ensures usage <= capacity || lru == []
    {
      n := 0;
      NothingGone(full);
      while usage > capacity && lru != []
        invariant Valid() && OldestGone(full, n, Abs())
        invariant Needed(full, n, usage, capacity)
        decreases |full.lru| - n
      {
        EvictOldest(full, n);
        n := n + 1;
      }
    }

    /** Insert with caching off: the caller gets a handle the cache does not keep. */
    method AddUncached(key: Str, charge: nat) returns (id: nat)
      requires Valid()
      modifies this
      ensures Valid() && id == old(nextId) && Abs() == AfterAdd(old(Abs()), key, hashOf(key), charge, false)
    {
      AddUncachedKeepsInv(Abs(), key, hashOf(key), charge);
      id := NewHandle(key, charge, false);
    }
  }

  /** The state with the key's old entry erased and a new one added. */
  lemma Replaced(s: Shard, key: Str, hash: nat, charge: nat) returns (t: Shard)
    requires Inv(s)
    ensures Inv(t) && IsAdded(s, key, hash, charge, t)
    ensures key in s.contents ==> IsErase(s, s.contents[key].id, AfterErasing(s, key)) && s.contents[key].id != s.fresh_
    ensures t == AfterAdd(AfterErasing(s, key), key, hash, charge, true)
  {
    FreshUnused(s);
    if key in s.contents {
      assert SlotOk(s, key);
      EraseKeepsInv(s, s.contents[key].id);
    }
    var e := AfterErasing(s, key);
    AddCachedKeepsInv(e, key, hash, charge);
    t := AfterAdd(e, key, hash, charge, true);
  }

  lemma UpdateOrder<K, V>(m: map<K, V>, a: K, x: V, b: K, y: V)
    requires a != b
    ensures m[a := x] - {b} == (m - {b})[a := x]
    ensures m[a := x][b := y] == m[b := y][a := x]
    ensures m[a := x] == (m - {a})[a := x]
  {
  }

  /** Erasing the old entry after the new one is linked comes to the same. */
  lemma EraseAfterAdd(s: Shard, key: Str, hash: nat, charge: nat)
    requires Inv(s) && key in s.contents
    ensures var t, id := AfterAdd(s, key, hash, charge, true), s.contents[key].id;
            IsErasable(t, id) && AfterErase(t, id).(contents := t.contents) == AfterAdd(AfterErasing(s, key), key,
                hash, charge, true)
  {
    assert SlotOk(s, key);
    FreshUnused(s);
    ChargeCounted(s, s.contents[key].id);
    EraseCommutes(s, key, hash, charge, s.contents[key].id);
  }

  lemma EraseCommutes(s: Shard, key: Str, hash: nat, charge: nat, id: nat)
    requires IsErasable(s, id) && id != s.fresh_ && s.handles[id].key == key
    ensures var t := AfterAdd(s, key, hash, charge, true);
            IsErasable(t, id) && AfterErase(t, id).(contents := t.contents) == AfterAdd(AfterErase(s, id), key, hash,
                charge, true)
  {
    var h := s.handles[id];
    UpdateOrder(s.handles, s.fresh_, Handle(key, hash, charge, 2, true), id, h.(inCache := false, refs := h.refs - 1));
    UpdateOrder(s.clients, s.fresh_, 1, id, 0);
    assert s.contents[key := Slot(key, hash, s.fresh_)] == (s.contents - {key})[key := Slot(key, hash, s.fresh_)];
    WithoutAppend(s.inUse, id, s.fresh_);
  }

  ghost function AfterErasing(s: Shard, key: Str): Shard {
    if key in s.contents && IsErasable(s, s.contents[key].id) then AfterErase(s, s.contents[key].id) else s
  }

  ghost predicate IsErasable(s: Shard, id: nat) {
    id in s.handles && s.usage >= s.handles[id].charge && s.handles[id].refs > 0
  }

  ghost predicate IsAdded(s: Shard, key: Str, hash: nat, charge: nat, t: Shard) {
    t == AfterAdd(AfterErasing(s, key), key, hash, charge, true)
  }

  ghost predicate IsErase(s: Shard, id: nat, t: Shard) {
    IsErasable(s, id) && t == AfterErase(s, id)
  }

  /** The n oldest handles nobody uses are gone, and nothing else is. */
  ghost predicate OldestGone(s: Shard, n: nat, t: Shard) {
    && n <= |s.lru| && t.lru == s.lru[n..] && t.inUse == s.inUse && t.fresh_ == s.fresh_
    && t.deleted == s.deleted + s.lru[..n] && t.handles == s.handles - Ids(s.lru[..n])
  }

  /** Without the last of the n evictions the usage would not fit. */
  ghost predicate Needed(s: Shard, n: nat, usage: nat, capacity: nat) {
    0 < n <= |s.lru| ==> usage + ChargeOf(s, s.lru[n - 1]) > capacity
  }

  ghost function Ids(ids: seq<nat>): set<nat> {
    set id | id in ids
  }

  ghost function ChargeOf(s: Shard, id: nat): nat {
    if id in s.handles then s.handles[id].charge else 0
  }

  lemma NothingGone(s: Shard)
    ensures OldestGone(s, 0, s)
  {
    assert s.handles - Ids(s.lru[..0]) == s.handles;
  }

  /** Evicting the oldest handle of t takes away one more. */
  lemma GoneNext(s: Shard, n: nat, t: Shard)
    requires Inv(t) && OldestGone(s, n, t) && t.lru != []
    ensures IsErasable(t, t.lru[0]) && OldestGone(s, n + 1, AfterErase(t, t.lru[0]))
    ensures AfterErase(t, t.lru[0]).usage + ChargeOf(s, s.lru[n]) == t.usage
  {
    var id := t.lru[0];
    assert ListOk(t, false) && HandleOk(t, id);
    EraseKeepsInv(t, id);
    assert s.lru[..n + 1] == s.lru[..n] + [id];
    assert Ids(s.lru[..n + 1]) == Ids(s.lru[..n]) + {id};
    assert s.lru[n..][1..] == s.lru[n + 1..];
  }

  ghost predicate IsRef(s: Shard, id: nat, t: Shard) {
    id in s.handles && id in s.clients && t == AfterRef(s, id)
  }
}
