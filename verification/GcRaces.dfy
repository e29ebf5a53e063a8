/** Runs of the collection protocol whose last step does not meet its condition, and what goes wrong in them. */
module GcRaces {
  import opened VlogFrames
  import opened VlogFormat
  import opened GcProtocol
  import opened RunLogic

  const R := Rec([1], [1])
  const Q := Rec([2], [2])

  ghost function AddrR(size: SizeOf, vlog: nat): Addr {
    Addr(vlog, HEADER, size(R))
  }

  ghost function AddrQ(size: SizeOf): Addr {
    Addr(1, HEADER, size(Q))
  }

  ghost function Logs1(): Logs {
    map[0 := [R]]
  }

  ghost function Logs2(): Logs {
    map[0 := [R], 1 := [Q]]
  }

  ghost function Logs3(): Logs {
    map[0 := [R], 1 := [Q], 2 := [R]]
  }

  lemma NextRollsOver(size: SizeOf, rec: Rec)
    ensures Start(size, [rec], 1) == HEADER + size(rec) >= 1
  {
    assert Start(size, [rec], 0) == 0;
  }

  // ----- a key deleted between its check and its update

  /** The state while the collector works on R; both R and the collector's phase vary. */
  ghost function Working(size: SizeOf, logs: Logs, cur: nat, live: bool, gc: map<nat, Gc>): State {
    State(logs, cur,
          if live then map[R.key := AddrR(size, 0)] else map[],
          if live then map[R.key := R.value] else map[],
          map[0 := Put(Q, AddrQ(size))], gc)
  }

  ghost function DeleteSteps(size: SizeOf): seq<Step> {
    [PutAppend(0, R, AddrR(size, 0)), PutRegister(0), PutAppend(0, Q, AddrQ(size)), GcStart(0, 0),
     GcCheck(0), GcAppend(0, AddrR(size, 2)), Delete(R.key), GcUpdate(0)]
  }

  ghost function DeleteState(size: SizeOf, i: nat): State {
    if i == 0 then State(map[0 := []], 0, map[], map[], map[], map[])
    else if i == 1 then State(Logs1(), 0, map[], map[], map[0 := Put(R, AddrR(size, 0))], map[])
    else if i == 2 then State(Logs1(), 0, map[R.key := AddrR(size, 0)], map[R.key := R.value], map[], map[])
    else if i == 3 then Working(size, Logs2(), 1, true, map[])
    else if i == 4 then Working(size, Logs2(), 1, true, map[0 := Gc(0, [R], 0, Scan)])
    else if i == 5 then Working(size, Logs2(), 1, true, map[0 := Gc(0, [R], 0, Matched)])
    else if i == 6 then Working(size, Logs3(), 2, true, map[0 := Gc(0, [R], 0, Moved(AddrR(size, 2)))])
    else if i == 7 then Working(size, Logs3(), 2, false, map[0 := Gc(0, [R], 0, Moved(AddrR(size, 2)))])
    else Working(size, Logs3(), 2, false, map[0 := Gc(0, [R], 1, Scan)]).(master := map[R.key := AddrR(size, 2)])
  }

  lemma DeleteSetUp(size: SizeOf, i: nat)
    requires i < 4
    ensures Next(size, 1, DeleteState(size, i), DeleteSteps(size)[i], DeleteState(size, i + 1))
    ensures Exact(size, DeleteState(size, i), DeleteSteps(size)[i])
  {
    NextRollsOver(size, R);
    assert [] + [R] == [R];
  }

  lemma DeleteRace(size: SizeOf, i: nat)
    requires 4 <= i < 8
    ensures Next(size, 1, DeleteState(size, i), DeleteSteps(size)[i], DeleteState(size, i + 1))
    ensures i < 7 ==> Exact(size, DeleteState(size, i), DeleteSteps(size)[i])
  {
    NextRollsOver(size, Q);
  }

  /** Lookups are right up to a deletion between check and update; after the update the key is back without a PUT. */
  lemma DeletedKeyReturns(size: SizeOf) returns (states: seq<State>)
    ensures IsRun(size, 1, states, DeleteSteps(size)) && |states| == 9 && OldestFirst(states, DeleteSteps(size))
    ensures UpTo(RightAts(size, states), 7) && R.key in states[8].master && R.key !in states[8].expected
  {
    states := seq(9, i requires 0 <= i => DeleteState(size, i));
    var steps := DeleteSteps(size);
    forall i | 0 <= i < 8
      ensures StepAt(size, 1, states, steps, i) && OldestAt(states, steps, i)
      ensures i < 7 ==> ExactAts(size, states, steps)(i)
    {
      if i < 4 {
        DeleteSetUp(size, i);
      } else {
        DeleteRace(size, i);
      }
    }
    RunsRightIff(size, 1, states, steps, 7);
  }

  // ----- a PUT registered after its file was collected

  ghost function LateSteps(size: SizeOf): seq<Step> {
    [PutAppend(0, R, AddrR(size, 0)), PutAppend(1, Q, AddrQ(size)), GcStart(0, 0), GcCheck(0), GcEnd(0), PutRegister(0)]
  }

  ghost function LateState(size: SizeOf, i: nat): State {
    var r, q := Put(R, AddrR(size, 0)), Put(Q, AddrQ(size));
    if i == 0 then State(map[0 := []], 0, map[], map[], map[], map[])
    else if i == 1 then State(Logs1(), 0, map[], map[], map[0 := r], map[])
    else if i == 2 then State(Logs2(), 1, map[], map[], map[0 := r, 1 := q], map[])
    else if i == 3 then State(Logs2(), 1, map[], map[], map[0 := r, 1 := q], map[0 := Gc(0, [R], 0, Scan)])
    else if i == 4 then State(Logs2(), 1, map[], map[], map[0 := r, 1 := q], map[0 := Gc(0, [R], 1, Scan)])
    else if i == 5 then State(map[1 := [Q]], 1, map[], map[], map[0 := r, 1 := q], map[])
    else State(map[1 := [Q]], 1, map[R.key := r.addr], map[R.key := R.value], map[1 := q], map[])
  }

  lemma LateStep(size: SizeOf, i: nat)
    requires i < 6
    ensures Next(size, 1, LateState(size, i), LateSteps(size)[i], LateState(size, i + 1))
    ensures i < 5 ==> Exact(size, LateState(size, i), LateSteps(size)[i])
  {
    NextRollsOver(size, R);
    assert [] + [R] == [R];
  }

  /** Lookups are right up to a PUT whose file has been collected; registered, it names a file that is gone. */
  lemma PendingPutIsLost(size: SizeOf) returns (states: seq<State>)
    ensures IsRun(size, 1, states, LateSteps(size)) && |states| == 7 && OldestFirst(states, LateSteps(size))
    ensures UpTo(RightAts(size, states), 5)
    ensures R.key in states[6].master && states[6].master[R.key].vlog !in states[6].logs
  {
    states := seq(7, i requires 0 <= i => LateState(size, i));
    var steps := LateSteps(size);
    forall i | 0 <= i < 6
      ensures StepAt(size, 1, states, steps, i) && OldestAt(states, steps, i)
      ensures i < 5 ==> ExactAts(size, states, steps)(i)
    {
      LateStep(size, i);
    }
    RunsRightIff(size, 1, states, steps, 5);
  }

  // ----- a PUT registered after a scan has passed its record

  ghost function PassedSteps(size: SizeOf): seq<Step> {
    [PutAppend(0, R, AddrR(size, 0)), PutAppend(1, Q, AddrQ(size)), GcStart(0, 0), GcCheck(0), PutRegister(0), GcEnd(0)]
  }

  ghost function PassedState(size: SizeOf, i: nat): State {
    var r, q := Put(R, AddrR(size, 0)), Put(Q, AddrQ(size));
    if i <= 4 then LateState(size, i)
    else if i == 5 then
      State(Logs2(), 1, map[R.key := r.addr], map[R.key := R.value], map[1 := q], map[0 := Gc(0, [R], 1, Scan)])
    else State(map[1 := [Q]], 1, map[R.key := r.addr], map[R.key := R.value], map[1 := q], map[])
  }

  lemma PassedStep(size: SizeOf, i: nat)
    requires i < 6
    ensures Next(size, 1, PassedState(size, i), PassedSteps(size)[i], PassedState(size, i + 1))
    ensures i < 5 ==> Exact(size, PassedState(size, i), PassedSteps(size)[i])
  {
    if i < 4 {
      LateStep(size, i);
    }
  }

  /** Lookups are right up to the end of a complete scan that passed a record before its PUT was registered. */
  lemma PassedPutIsLost(size: SizeOf) returns (states: seq<State>)
    ensures IsRun(size, 1, states, PassedSteps(size)) && |states| == 7 && OldestFirst(states, PassedSteps(size))
    ensures UpTo(RightAts(size, states), 5) && Scanned(states[5], 0)
    ensures R.key in states[6].master && states[6].master[R.key].vlog !in states[6].logs
  {
    states := seq(7, i requires 0 <= i => PassedState(size, i));
    var steps := PassedSteps(size);
    forall i | 0 <= i < 6
      ensures StepAt(size, 1, states, steps, i) && OldestAt(states, steps, i)
      ensures i < 5 ==> ExactAts(size, states, steps)(i)
    {
      PassedStep(size, i);
    }
    RunsRightIff(size, 1, states, steps, 5);
  }

  // ----- a record skipped because a request stayed unanswered

  ghost function SkipSteps(size: SizeOf): seq<Step> {
    DeleteSteps(size)[..4] + [GcSkip(0), GcEnd(0)]
  }

  ghost function SkipState(size: SizeOf, i: nat): State {
    if i <= 4 then DeleteState(size, i)
    else if i == 5 then Working(size, Logs2(), 1, true, map[0 := Gc(0, [R], 1, Scan)])
    else Working(size, map[1 := [Q]], 1, true, map[])
  }

  lemma SkipStep(size: SizeOf, i: nat)
    requires i < 6
    ensures Next(size, 1, SkipState(size, i), SkipSteps(size)[i], SkipState(size, i + 1))
    ensures i < 5 ==> Exact(size, SkipState(size, i), SkipSteps(size)[i])
  {
    if i < 4 {
      DeleteSetUp(size, i);
    }
  }

  /** Lookups are right up to the end of a complete scan that skipped a live record; then that is gone. */
  lemma SkippedRecordIsLost(size: SizeOf) returns (states: seq<State>)
    ensures IsRun(size, 1, states, SkipSteps(size)) && |states| == 7 && OldestFirst(states, SkipSteps(size))
    ensures UpTo(RightAts(size, states), 5) && Scanned(states[5], 0)
    ensures R.key in states[6].master && states[6].master[R.key].vlog !in states[6].logs
  {
    states := seq(7, i requires 0 <= i => SkipState(size, i));
    var steps := SkipSteps(size);
    forall i | 0 <= i < 6
      ensures StepAt(size, 1, states, steps, i) && OldestAt(states, steps, i)
      ensures i < 5 ==> ExactAts(size, states, steps)(i)
    {
      SkipStep(size, i);
    }
    RunsRightIff(size, 1, states, steps, 5);
  }

  // ----- a scan broken off before a live record

  /** The size limit that puts two records into the first file and the third into the next. */
  ghost function TwoFit(size: SizeOf): nat {
    HEADER + size(R) + 1
  }

  ghost function SecondAddr(size: SizeOf): Addr {
    Addr(0, HEADER + size(R) + HEADER, size(Q))
  }

  ghost function BrokenSteps(size: SizeOf): seq<Step> {
    [PutAppend(0, R, AddrR(size, 0)), PutFail(0), PutAppend(0, Q, SecondAddr(size)), PutRegister(0),
     PutAppend(0, R, AddrR(size, 1)), GcStart(0, 0), GcCheck(0), GcEnd(0)]
  }

  ghost function Two(size: SizeOf, logs: Logs, cur: nat, puts: map<nat, Put>, gcs: map<nat, Gc>): State {
    State(logs, cur, map[Q.key := SecondAddr(size)], map[Q.key := Q.value], puts, gcs)
  }

  ghost function BrokenState(size: SizeOf, i: nat): State {
    var r, q := Put(R, AddrR(size, 1)), Put(Q, SecondAddr(size));
    if i == 0 then State(map[0 := []], 0, map[], map[], map[], map[])
    else if i == 1 then State(Logs1(), 0, map[], map[], map[0 := Put(R, AddrR(size, 0))], map[])
    else if i == 2 then State(Logs1(), 0, map[], map[], map[], map[])
    else if i == 3 then State(map[0 := [R, Q]], 0, map[], map[], map[0 := q], map[])
    else if i == 4 then Two(size, map[0 := [R, Q]], 0, map[], map[])
    else if i == 5 then Two(size, map[0 := [R, Q], 1 := [R]], 1, map[0 := r], map[])
    else if i == 6 then Two(size, map[0 := [R, Q], 1 := [R]], 1, map[0 := r], map[0 := Gc(0, [R, Q], 0, Scan)])
    else if i == 7 then Two(size, map[0 := [R, Q], 1 := [R]], 1, map[0 := r], map[0 := Gc(0, [R, Q], 1, Scan)])
    else Two(size, map[1 := [R]], 1, map[0 := r], map[])
  }

  lemma TwoStarts(size: SizeOf)
    ensures Start(size, [], 0) == 0 && Start(size, [R], 1) == HEADER + size(R)
    ensures Start(size, [R, Q], 2) == HEADER + size(R) + HEADER + size(Q) >= TwoFit(size)
  {
    assert Start(size, [R, Q], 0) == 0;
    assert Start(size, [R, Q], 1) == HEADER + size(R);
    NextRollsOver(size, R);
  }

  lemma BrokenSetUp(size: SizeOf, i: nat)
    requires i < 5
    ensures Next(size, TwoFit(size), BrokenState(size, i), BrokenSteps(size)[i], BrokenState(size, i + 1))
    ensures Exact(size, BrokenState(size, i), BrokenSteps(size)[i])
  {
    TwoStarts(size);
    assert [] + [R] == [R] && [R] + [Q] == [R, Q];
  }

  lemma BrokenScan(size: SizeOf, i: nat)
    requires 5 <= i < 8
    ensures Next(size, TwoFit(size), BrokenState(size, i), BrokenSteps(size)[i], BrokenState(size, i + 1))
    ensures i < 7 ==> Exact(size, BrokenState(size, i), BrokenSteps(size)[i])
  {
  }

  /** Lookups are right up to the end of a scan that was broken off before a live record; then that is gone. */
  lemma BrokenScanLosesKey(size: SizeOf) returns (states: seq<State>)
    ensures IsRun(size, TwoFit(size), states, BrokenSteps(size)) && |states| == 9
    ensures OldestFirst(states, BrokenSteps(size))
    ensures UpTo(RightAts(size, states), 7)
    ensures Q.key in states[8].expected && Q.key in states[8].master && states[8].master[Q.key].vlog !in states[8].logs
  {
    states := seq(9, i requires 0 <= i => BrokenState(size, i));
    var steps := BrokenSteps(size);
    forall i | 0 <= i < 8
      ensures StepAt(size, TwoFit(size), states, steps, i) && OldestAt(states, steps, i)
      ensures i < 7 ==> ExactAts(size, states, steps)(i)
    {
      if i < 5 {
        BrokenSetUp(size, i);
      } else {
        BrokenScan(size, i);
      }
    }
    RunsRightIff(size, TwoFit(size), states, steps, 7);
  }
}
