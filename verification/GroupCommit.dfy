/**
 The writer queue of DBImpl::Write: the writer at the front commits a group for those behind it.
 Writers arrive at any time; forming a group and finishing it are atomic, and in between the mutex
 is free.
 */
module GroupCommit {
  import opened Bytes

  /** A waiting writer; one without a batch only wants a compaction. */
  datatype Writer = Writer(id: nat, sync: bool, batch: bool, count: nat, bytes: nat)

  const SMALL: nat := 0x2_0000
  const LARGE: nat := 0x10_0000

  /** The size a group may grow to, which depends on its first batch. */
  function Bound(first: Writer): nat {
    if first.bytes <= SMALL then first.bytes + SMALL else LARGE
  }

  function BytesOf(w: Writer): nat {
    if w.batch then w.bytes else 0
  }

  ghost function TotalBytes(g: seq<Writer>): nat {
    if g == [] then 0 else TotalBytes(g[..|g| - 1]) + BytesOf(g[|g| - 1])
  }

  /** No batch but the first. */
  ghost predicate OnlyFirst(g: seq<Writer>) {
    forall i | 0 < i < |g| :: !g[i].batch
  }

  /** A non-sync leader serves no sync writer, and later batches keep the group within its bound. */
  ghost predicate GoodGroup(g: seq<Writer>) {
    && g != [] && g[0].batch
    && (forall i | 0 <= i < |g| && g[i].sync :: g[0].sync)
    && (TotalBytes(g) <= Bound(g[0]) || OnlyFirst(g))
  }

  /** The writer behind the group could not have joined it. */
  ghost predicate CannotJoin(g: seq<Writer>, w: Writer)
    requires g != []
  {
    (w.sync && !g[0].sync) || (w.batch && TotalBytes(g) + w.bytes > Bound(g[0]))
  }

  lemma TotalStep(queue: seq<Writer>, n: nat)
    requires n < |queue|
    ensures TotalBytes(queue[..n + 1]) == TotalBytes(queue[..n]) + BytesOf(queue[n])
  {
    assert queue[..n + 1][..n] == queue[..n];
  }

  /** BuildBatchGroup: the longest group the rules allow, as the number of writers in it. */
  method BuildBatchGroup(queue: seq<Writer>) returns (n: nat)
    requires queue != [] && queue[0].batch
    ensures 1 <= n <= |queue| && GoodGroup(queue[..n])
    ensures n < |queue| ==> CannotJoin(queue[..n], queue[n])
  {
    var first := queue[0];
    var size, maxSize := first.bytes, Bound(first);
    n := 1;
    TotalStep(queue, 0);
    assert TotalBytes(queue[..0]) == 0;
    while n < |queue|
      invariant 1 <= n <= |queue| && size == TotalBytes(queue[..n]) && GoodGroup(queue[..n])
    {
      var w := queue[n];
      if w.sync && !first.sync {
        return;
      }
      TotalStep(queue, n);
      if w.batch {
        if size + w.bytes > maxSize {
          return;
        }
        size := size + w.bytes;
      }
      n := n + 1;
    }
  }

  // ----- runs

  datatype Outcome =
    | Committed(group: seq<Writer>, first: nat)  // the group and its first sequence number
    | Alone(w: Writer)                           // nothing to write, or no room for it

  datatype State = State(queue: seq<Writer>, leading: Option<nat>, lastSeq: nat, outcomes: seq<Outcome>,
                         arrived: seq<Writer>)

  datatype Step =
    | Arrive(w: Writer)
    | Refuse            // the front writer has no batch, or MakeRoomForWrite failed
    | Lead(n: nat)      // BuildBatchGroup chose n writers; the mutex is released
    | Finish            // the group is logged, numbered and taken off the queue

  ghost function Count(g: seq<Writer>): nat {
    if g == [] then 0 else Count(g[..|g| - 1]) + (if g[|g| - 1].batch then g[|g| - 1].count else 0)
  }

  ghost predicate Next(s: State, step: Step, t: State) {
    match step
    case Arrive(w) =>
      w.id == |s.arrived| && t == s.(queue := s.queue + [w], arrived := s.arrived + [w])
    case Refuse =>
      && s.queue != [] && s.leading.None?
      && t == s.(queue := s.queue[1..], outcomes := s.outcomes + [Alone(s.queue[0])])
    case Lead(n) =>
      && s.queue != [] && s.queue[0].batch && s.leading.None? && 1 <= n <= |s.queue|
      && GoodGroup(s.queue[..n]) && (n < |s.queue| ==> CannotJoin(s.queue[..n], s.queue[n]))
      && t == s.(leading := Some(n))
    case Finish =>
      && s.leading.Some? && s.leading.value <= |s.queue|
      && var n := s.leading.value;
      t == s.(leading := None, lastSeq := s.lastSeq + Count(s.queue[..n]), queue := s.queue[n..],
              outcomes := s.outcomes + [Committed(s.queue[..n], s.lastSeq + 1)])
  }

  ghost predicate Initial(s: State) {
    s == State([], None, 0, [], [])
  }

  ghost function Writers(o: Outcome): seq<Writer> {
    match o
    case Committed(g, _) => g
    case Alone(w) => [w]
  }

  /** All writers served so far, in the order they were served. */
  ghost function Served(outcomes: seq<Outcome>): seq<Writer> {
    if outcomes == [] then [] else Served(outcomes[..|outcomes| - 1]) + Writers(outcomes[|outcomes| - 1])
  }

  /** The last sequence number used by these outcomes. */
  ghost function LastSeq(outcomes: seq<Outcome>): nat {
    if outcomes == [] then 0
    else
      var last := outcomes[|outcomes| - 1];
      LastSeq(outcomes[..|outcomes| - 1]) + if last.Committed? then Count(last.group) else 0
  }

  /** Outcome i is a good group that starts right behind the numbers used before it. */
  ghost predicate OutcomeOk(outcomes: seq<Outcome>, i: nat)
    requires i < |outcomes|
  {
    outcomes[i].Committed? ==> GoodGroup(outcomes[i].group) && outcomes[i].first == LastSeq(outcomes[..i]) + 1
  }

  ghost predicate Inv(s: State) {
    && Served(s.outcomes) + s.queue == s.arrived
    && (forall i | 0 <= i < |s.arrived| :: s.arrived[i].id == i)
    && s.lastSeq == LastSeq(s.outcomes)
    && (forall i {:trigger OutcomeOk(s.outcomes, i)} | 0 <= i < |s.outcomes| :: OutcomeOk(s.outcomes, i))
    && (s.leading.Some? ==> 1 <= s.leading.value <= |s.queue| && GoodGroup(s.queue[..s.leading.value]))
  }

  lemma OutcomesKeep(outcomes: seq<Outcome>, o: Outcome)
    requires forall i {:trigger OutcomeOk(outcomes, i)} | 0 <= i < |outcomes| :: OutcomeOk(outcomes, i)
    requires OutcomeOk(outcomes + [o], |outcomes|)
    ensures forall i {:trigger OutcomeOk(outcomes + [o], i)} | 0 <= i <= |outcomes| :: OutcomeOk(outcomes + [o], i)
    ensures Served(outcomes + [o]) == Served(outcomes) + Writers(o)
    ensures LastSeq(outcomes + [o]) == LastSeq(outcomes) + if o.Committed? then Count(o.group) else 0
  {
    var more := outcomes + [o];
    assert more[..|more| - 1] == outcomes;
    forall i | 0 <= i < |more|
      ensures OutcomeOk(more, i)
    {
      if i < |outcomes| {
        assert OutcomeOk(outcomes, i);
        assert more[..i] == outcomes[..i];
      }
    }
  }

  lemma ArriveKeepsInv(s: State, w: Writer, t: State)
    requires Inv(s) && Next(s, Arrive(w), t)
    ensures Inv(t)
  {
    assert Served(s.outcomes) + (s.queue + [w]) == (Served(s.outcomes) + s.queue) + [w];
    if s.leading.Some? {
      assert t.queue[..s.leading.value] == s.queue[..s.leading.value];
    }
  }

  /** The first n of the queue have been served. */
  lemma ServeKeepsInv(s: State, n: nat, o: Outcome, t: State)
    requires Inv(s) && n <= |s.queue| && Writers(o) == s.queue[..n] && OutcomeOk(s.outcomes + [o], |s.outcomes|)
    requires t == State(s.queue[n..], None, s.lastSeq + (if o.Committed? then Count(o.group) else 0),
                        s.outcomes + [o], s.arrived)
    ensures Inv(t)
  {
    OutcomesKeep(s.outcomes, o);
    var served := Served(s.outcomes);
    assert s.queue == s.queue[..n] + s.queue[n..];
    assert (served + s.queue[..n]) + s.queue[n..] == served + s.queue;
    assert Served(t.outcomes) + t.queue == s.arrived;
    forall i | 0 <= i < |t.outcomes|
      ensures OutcomeOk(t.outcomes, i)
    {
      assert OutcomeOk(s.outcomes + [o], i);
    }
  }

  lemma NextKeepsInv(s: State, step: Step, t: State)
    requires Inv(s) && Next(s, step, t)
    ensures Inv(t)
  {
    match step
    case Arrive(w) => ArriveKeepsInv(s, w, t);
    case Refuse => ServeKeepsInv(s, 1, Alone(s.queue[0]), t);
    case Lead(n) =>
    case Finish =>
      var o := Committed(s.queue[..s.leading.value], s.lastSeq + 1);
      assert (s.outcomes + [o])[..|s.outcomes|] == s.outcomes;
      ServeKeepsInv(s, s.leading.value, o, t);
  }

  // ----- what the invariant means

  lemma {:induction false} LastSeqGrows(outcomes: seq<Outcome>, i: nat, j: nat)
    requires i <= j <= |outcomes|
    ensures LastSeq(outcomes[..i]) <= LastSeq(outcomes[..j])
    decreases j
  {
    if i < j {
      LastSeqGrows(outcomes, i, j - 1);
      assert outcomes[..j][..j - 1] == outcomes[..j - 1];
    }
  }

  /** The numbers of a later group start behind those of an earlier one, and none is beyond the last. */
  lemma NumbersDisjoint(s: State, i: nat, j: nat)
    requires Inv(s) && i < |s.outcomes| && s.outcomes[i].Committed?
    requires i < j < |s.outcomes| && s.outcomes[j].Committed?
    ensures s.outcomes[i].first + Count(s.outcomes[i].group) <= s.outcomes[j].first
    ensures s.outcomes[j].first + Count(s.outcomes[j].group) <= s.lastSeq + 1
  {
    var o := s.outcomes;
    assert OutcomeOk(o, i) && OutcomeOk(o, j);
    assert o[..i + 1][..i] == o[..i] && o[..j + 1][..j] == o[..j] && o[..|o|] == o;
    LastSeqGrows(o, i + 1, j);
    LastSeqGrows(o, j + 1, |o|);
  }

  /** No number is left out: a committed group starts where the committed one before it ends. */
  lemma NumbersContiguous(s: State, i: nat, j: nat)
    requires Inv(s) && i < j < |s.outcomes| && s.outcomes[i].Committed? && s.outcomes[j].Committed?
    requires forall k | i < k < j :: s.outcomes[k].Alone?
    ensures s.outcomes[j].first == s.outcomes[i].first + Count(s.outcomes[i].group)
  {
    var o := s.outcomes;
    assert OutcomeOk(o, i) && OutcomeOk(o, j);
    assert o[..i + 1][..i] == o[..i];
    SkipAlone(o, i + 1, j);
  }

  lemma {:induction false} SkipAlone(outcomes: seq<Outcome>, i: nat, j: nat)
    requires i <= j <= |outcomes| && forall k | i <= k < j :: outcomes[k].Alone?
    ensures LastSeq(outcomes[..i]) == LastSeq(outcomes[..j])
    decreases j
  {
    if i < j {
      SkipAlone(outcomes, i, j - 1);
      assert outcomes[..j][..j - 1] == outcomes[..j - 1];
    }
  }

  /** A writer that was served was served once, and in the order of arrival. */
  lemma ServedOnce(s: State, i: nat)
    requires Inv(s) && i < |Served(s.outcomes)|
    ensures Served(s.outcomes)[i] == s.arrived[i] && Served(s.outcomes)[i].id == i
  {
    assert (Served(s.outcomes) + s.queue)[i] == s.arrived[i];
  }

  // ----- runs as sequences of states

  ghost predicate IsRun(states: seq<State>, steps: seq<Step>) {
    && |states| == |steps| + 1
    && Initial(states[0])
    && forall i | 0 <= i < |steps| :: Next(states[i], steps[i], states[i + 1])
  }

  /**
   In every interleaving, the writers served so far and those still waiting are, in this order,
   exactly those that arrived; groups obey the sync and size rules; and the groups' sequence
   numbers follow each other without gap or overlap.
   */
  lemma {:induction false} RunsKeepOrder(states: seq<State>, steps: seq<Step>, n: nat)
    requires IsRun(states, steps) && n < |states|
    ensures Inv(states[n])
  {
    if n > 0 {
      RunsKeepOrder(states, steps, n - 1);
      NextKeepsInv(states[n - 1], steps[n - 1], states[n]);
    }
  }
}
