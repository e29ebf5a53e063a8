/**
 The commands of master and slave as operations on their state, each taking the steps of the
 collection protocol: PUT, GET and DELETE of a client, and a collection that nobody interrupts.
 */
module GcSteps {
  import opened Bytes
  import opened VlogFrames
  import opened VlogFormat
  import opened GcProtocol

  class Cluster {
    const size: SizeOf
    const maxSize: nat
    var logs: Logs
    var cur: nat
    var master: map<Str, Addr>
    ghost var expected: map<Str, Str>
    ghost var puts: map<nat, Put>
    ghost var gcs: map<nat, Gc>

    ghost function Abs(): State
      reads this
    {
      State(logs, cur, master, expected, puts, gcs)
    }

    ghost predicate Valid()
      reads this
    {
      Inv(size, Abs())
    }

    constructor (size: SizeOf, maxSize: nat)
      ensures Valid() && Initial(Abs())
    {
      this.size, this.maxSize := size, maxSize;
      logs, cur, master := map[0 := []], 0, map[];
      expected, puts, gcs := map[], map[], map[];
    }

    /** GetWritePos */
    method WritePos(log: seq<Rec>) returns (end: nat)
      ensures end == Start(size, log, |log|)
    {
      end := 0;
      for i := 0 to |log|
        invariant end == Start(size, log, i)
      {
        end := end + HEADER + size(log[i]);
      }
    }

    /** write_value_to_vlog */
    method WriteValue(rec: Rec) returns (a: Addr)
      requires cur in logs
      modifies this`logs, this`cur
      ensures Appends(size, maxSize, old(Abs()), rec, logs, cur, a)
    {
      var end := WritePos(logs[cur]);
      if end >= maxSize {
        cur := cur + 1;
        logs := logs[cur := []];
        end := 0;
      }
      a := Addr(cur, end + HEADER, size(rec));
      logs := logs[cur := logs[cur] + [rec]];
      assert [] + [rec] == [rec];
    }

    /** The first half of a client PUT: the value is appended. */
    method AppendPut(rec: Rec, ghost id: nat) returns (a: Addr)
      requires Valid() && id !in puts
      modifies this`logs, this`cur, this`puts
      ensures Valid() && puts == old(puts)[id := GcProtocol.Put(rec, a)] && a.vlog == cur
    {
      ghost var s := Abs();
      a := WriteValue(rec);
      AppendedPoints(size, maxSize, s, rec, logs, cur, a);
      puts := puts[id := GcProtocol.Put(rec, a)];
      NextKeepsInv(size, maxSize, s, PutAppend(id, rec, a), Abs());
    }

    /** A client PUT: append the value, then PUT_ADDR. */
    method Put(key: Str, value: Str)
      requires Valid()
      modifies this`logs, this`cur, this`master, this`expected, this`puts
      ensures Valid() && expected == old(expected)[key := value] && puts == old(puts)
    {
      ghost var id: nat := FreshId(puts);
      var a := AppendPut(Rec(key, value), id);
      ghost var s := Abs();
      NewestAhead(size, s, a);
      master := master[key := a];
      expected, puts := expected[key := value], puts - {id};
      NextKeepsInv(size, maxSize, s, PutRegister(id), Abs());
      assert puts == old(puts);
    }

    /** DELETE_ADDR */
    method Delete(key: Str)
      requires Valid()
      modifies this`master, this`expected
      ensures Valid() && expected == old(expected) - {key}
    {
      ghost var s := Abs();
      master, expected := master - {key}, expected - {key};
      NextKeepsInv(size, maxSize, s, GcProtocol.Delete(key), Abs());
    }

    /** Reading an address from its vlog file. */
    method Fetch(a: Addr) returns (r: Option<Rec>)
      ensures forall rec | Points(size, logs, a, rec) :: r == Some(rec)
    {
      if a.vlog !in logs {
        return None;
      }
      var log, start := logs[a.vlog], 0;
      for i := 0 to |log|
        invariant start == Start(size, log, i)
        invariant forall j | 0 <= j < i :: AddressOf(size, log, a.vlog, j) != a
      {
        if Addr(a.vlog, start + HEADER, size(log[i])) == a {
          assert IsAt(size, logs, a, i, log[i]);
          forall rec | Points(size, logs, a, rec)
            ensures rec == log[i]
          {
            PointsFunctional(size, logs, a, rec, log[i]);
          }
          return Some(log[i]);
        }
        start := start + HEADER + size(log[i]);
      }
      return None;
    }

    /** A client GET: GET_ADDR, then the value from the vlog. It is that of the last registered PUT. */
    method Get(key: Str) returns (r: Option<Str>)
      requires Valid()
      ensures r == if key in expected then Some(expected[key]) else None
    {
      if key !in master {
        assert key !in expected.Keys;
        return None;
      }
      assert key in expected.Keys;
      var rec := Fetch(master[key]);
      return if rec.Some? then Some(rec.value.value) else None;
    }

    /** UPDATE_ADDR: compare-and-swap if the key is there, a plain store if it is not. */
    method UpdateAddr(key: Str, was: Addr, now: Addr) returns (updated: bool)
      modifies this`master
      ensures updated <==> key !in old(master) || old(master)[key] == was
      ensures master == if updated then old(master)[key := now] else old(master)
    {
      if key in master && master[key] != was {
        return false;
      }
      master := master[key := now];
      return true;
    }

    // ----- the collector, request by request

    /** The collector `id` stands before record i of its file. */
    ghost predicate Collecting(id: nat, file: nat, records: seq<Rec>, i: nat, phase: Phase)
      reads this
    {
      i <= |records| && id in gcs && gcs[id] == Gc(file, records, i, phase)
    }

    method Begin(ghost id: nat, file: nat)
      requires Valid() && file in logs && file < cur && id !in gcs
      modifies this`gcs
      ensures Valid() && gcs == old(gcs)[id := Gc(file, logs[file], 0, Scan)]
    {
      ghost var s := Abs();
      gcs := gcs[id := Gc(file, logs[file], 0, Scan)];
      NextKeepsInv(size, maxSize, s, GcStart(id, file), Abs());
    }

    /** GCGET_ADDR and the comparison with the record's own address */
    method Check(ghost id: nat, file: nat, ghost records: seq<Rec>, ghost i: nat, key: Str,
                 thisAddr: Addr) returns (live: bool)
      requires Valid() && Collecting(id, file, records, i, Scan) && i < |records|
      requires key == records[i].key && thisAddr == AddressOf(size, records, file, i)
      modifies this`gcs
      ensures Valid() && gcs == old(gcs)[id := if live then Gc(file, records, i, Matched) else Gc(file, records,
                i + 1, Scan)]
      ensures live ==> key in master
    {
      ghost var s := Abs();
      live := key in master && master[key] == thisAddr;
      gcs := gcs[id := if live then Gc(file, records, i, Matched) else Gc(file, records, i + 1, Scan)];
      NextKeepsInv(size, maxSize, s, GcCheck(id), Abs());
    }

    method Rewrite(ghost id: nat, file: nat, ghost records: seq<Rec>, ghost i: nat, rec: Rec) returns (a: Addr)
      requires Valid() && Collecting(id, file, records, i, Matched) && i < |records| && rec == records[i]
      modifies this`logs, this`cur, this`gcs
      ensures Valid() && gcs == old(gcs)[id := Gc(file, records, i, Moved(a))] && a.vlog == cur
    {
      ghost var s := Abs();
      assert cur in logs;
      a := WriteValue(rec);
      AppendedPoints(size, maxSize, s, rec, logs, cur, a);
      gcs := gcs[id := Gc(file, records, i, Moved(a))];
      NextKeepsInv(size, maxSize, s, GcAppend(id, a), Abs());
    }

    method Update(ghost id: nat, file: nat, ghost records: seq<Rec>, ghost i: nat, key: Str, thisAddr: Addr, a: Addr)
      requires Valid() && Collecting(id, file, records, i, Moved(a)) && i < |records| && key in master && a.vlog == cur
      requires key == records[i].key && thisAddr == AddressOf(size, records, file, i)
      modifies this`master, this`gcs
      ensures Valid() && gcs == old(gcs)[id := Gc(file, records, i + 1, Scan)]
    {
      ghost var s := Abs();
      NewestAhead(size, s, a);
      var updated := UpdateAddr(key, thisAddr, a);
      gcs := gcs[id := Gc(file, records, i + 1, Scan)];
      NextKeepsInv(size, maxSize, s, GcUpdate(id), Abs());
    }

    method End(ghost id: nat, file: nat, ghost records: seq<Rec>, total: nat)
      requires Valid() && Collecting(id, file, records, |records|, Scan) && total == |records|
      modifies this`logs, this`gcs
      ensures Valid() && gcs == old(gcs) - {id} && logs == if total > 0 then old(logs) - {file} else old(logs)
    {
      ghost var s := Abs();
      if total > 0 {
        logs := logs - {file};
      }
      gcs := gcs - {id};
      NextKeepsInv(size, maxSize, s, GcEnd(id), Abs());
    }

    /** The collector's work on one record, all its requests answered. */
    method CollectRecord(ghost id: nat, file: nat, ghost records: seq<Rec>, ghost i: nat, rec: Rec, thisAddr: Addr)
      requires Valid() && Collecting(id, file, records, i, Scan) && i < |records|
      requires rec == records[i] && thisAddr == AddressOf(size, records, file, i)
      modifies this`logs, this`cur, this`master, this`gcs
      ensures Valid() && gcs == old(gcs)[id := Gc(file, records, i + 1, Scan)]
    {
      ghost var gcs0 := gcs;
      var live := Check(id, file, records, i, rec.key, thisAddr);
      if live {
        var a := Rewrite(id, file, records, i, rec);
        Update(id, file, records, i, rec.key, thisAddr, a);
        assert gcs == gcs0[id := Gc(file, records, i + 1, Scan)];
      }
    }

    /** execute_gc_on_file, uninterrupted: afterwards no address of the master names the file. */
    method ExecuteGc(file: nat) returns (removed: bool)
      requires Valid() && file in logs && file < cur
      modifies this`logs, this`cur, this`master, this`gcs
      ensures Valid() && gcs == old(gcs) && forall k | k in master :: master[k].vlog != file
      ensures removed <==> old(logs[file]) != []
      ensures removed ==> file !in logs
    {
      ghost var gcs0 := gcs;
      ghost var id: nat := FreshId(gcs);
      var records, recOffset := logs[file], 0;
      Begin(id, file);
      for i := 0 to |records|
        invariant Valid() && recOffset == Start(size, records, i)
        invariant gcs == gcs0[id := Gc(file, records, i, Scan)]
      {
        var rec := records[i];
        CollectRecord(id, file, records, i, rec, Addr(file, recOffset + HEADER, size(rec)));
        recOffset := recOffset + HEADER + size(rec);
        assert gcs == gcs0[id := Gc(file, records, i + 1, Scan)];
      }
      forall k | k in master
        ensures master[k].vlog != file
      {
        ScannedFileUnnamed(size, Abs(), id, k);
      }
      removed := |records| > 0;
      End(id, file, records, |records|);
      assert gcs == gcs0;
    }
  }

  /** An address in the current file is ahead of every scan. */
  lemma NewestAhead(size: SizeOf, s: State, a: Addr)
    requires Weak(size, s) && a.vlog == s.cur
    ensures Ahead(size, s, a)
  {
    forall id | id in s.gcs
      ensures AheadOf(size, s.gcs[id], a)
    {
      assert GcOk(size, s, s.gcs[id]);
    }
  }

  ghost function FreshId<T>(m: map<nat, T>): (id: nat)
    ensures id !in m
  {
    FreshExists(m.Keys);
    var id: nat :| id !in m;
    id
  }

  lemma {:induction false} FreshExists(ids: set<nat>)
    ensures exists id: nat :: id !in ids
  {
    var n := Above(ids);
    assert n !in ids;
  }

  lemma {:induction false} Above(ids: set<nat>) returns (n: nat)
    ensures forall id | id in ids :: id < n
  {
    if ids == {} {
      n := 0;
    } else {
      var x :| x in ids;
      var m := Above(ids - {x});
      n := if m > x then m else x + 1;
      forall id | id in ids
        ensures id < n
      {
        assert id == x || id in ids - {x};
      }
    }
  }
}
