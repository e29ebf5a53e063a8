/** SpinSharedMutex: a reader-writer lock in one 64-bit word, over interleaved atomic steps. */
module SpinLock {
  const UNIQUE_LOCKED: nat := 0x8000_0000_0000_0000
  const WORD: nat := 0x1_0000_0000_0000_0000

  /** Where a thread is: a reader counts itself in before it waits. */
  datatype Phase = Out | Spinning | Reading | Writing

  datatype State = State(word: nat, threads: seq<Phase>)

  datatype Step =
    | TryUnique(t: nat)     // one compare_exchange_weak of UniqueLock
    | UniqueUnlock(t: nat)
    | SharedAdd(t: nat)     // the fetch_add of SharedLock
    | SharedLoad(t: nat)    // one load of its waiting loop
    | SharedUnlock(t: nat)

  function Add(a: nat, b: nat): nat {
    (a + b) % WORD
  }

  function Sub(a: nat, b: nat): nat {
    (a - b) % WORD
  }

  ghost predicate Next(s: State, step: Step, u: State) {
    var t := step.t;
    t < |s.threads| &&
    match step
    case TryUnique(_) =>
      // the exchange may fail without cause
      && s.threads[t].Out?
      && (u == s || (s.word == 0 && u == State(UNIQUE_LOCKED, s.threads[t := Writing])))
    case UniqueUnlock(_) =>
      s.threads[t].Writing? && u == State(Sub(s.word, UNIQUE_LOCKED), s.threads[t := Out])
    case SharedAdd(_) =>
      s.threads[t].Out? && u == State(Add(s.word, 1), s.threads[t := Spinning])
    case SharedLoad(_) =>
      && s.threads[t].Spinning?
      && u == (if s.word > UNIQUE_LOCKED then s else s.(threads := s.threads[t := Reading]))
    case SharedUnlock(_) =>
      s.threads[t].Reading? && u == State(Sub(s.word, 1), s.threads[t := Out])
  }

  /** A writer is inside alone. */
  ghost predicate Exclusive(s: State) {
    forall i, j | 0 <= i < |s.threads| && 0 <= j < |s.threads| && i != j && s.threads[i].Writing? ::
      !s.threads[j].Writing? && !s.threads[j].Reading?
  }

  ghost function Weight(p: Phase): nat {
    match p
    case Out => 0
    case Spinning => 1
    case Reading => 1
    case Writing => UNIQUE_LOCKED
  }

  /** What the threads have added to the word. */
  ghost function Total(threads: seq<Phase>): nat {
    if threads == [] then 0 else Weight(threads[0]) + Total(threads[1..])
  }

  lemma {:induction false} TotalUpdate(threads: seq<Phase>, t: nat, p: Phase)
    requires t < |threads|
    ensures Total(threads[t := p]) == Total(threads) - Weight(threads[t]) + Weight(p)
  {
    if t == 0 {
      assert threads[t := p][1..] == threads[1..];
    } else {
      TotalUpdate(threads[1..], t - 1, p);
      assert threads[t := p][1..] == threads[1..][t - 1 := p];
    }
  }

  /** A thread's own part is in the total, and so is any second thread's. */
  lemma {:induction false} PartOfTotal(threads: seq<Phase>, i: nat)
    requires i < |threads|
    ensures Weight(threads[i]) <= Total(threads)
  {
    if i > 0 {
      PartOfTotal(threads[1..], i - 1);
    }
  }

  lemma TwoParts(threads: seq<Phase>, i: nat, j: nat)
    requires i < |threads| && j < |threads| && i != j
    ensures Weight(threads[i]) + Weight(threads[j]) <= Total(threads)
  {
    TotalUpdate(threads, i, Out);
    PartOfTotal(threads[i := Out], j);
  }

  /** Without a writer the total is at most the number of threads, and less if one of them is out. */
  lemma {:induction false} TotalBound(threads: seq<Phase>)
    requires forall t | 0 <= t < |threads| :: !threads[t].Writing?
    ensures Total(threads) <= |threads|
    ensures (exists t :: 0 <= t < |threads| && threads[t].Out?) ==> Total(threads) < |threads|
  {
    if threads != [] {
      TotalBound(threads[1..]);
      if t :| 0 < t < |threads| && threads[t].Out? {
        assert threads[1..][t - 1].Out?;
      }
    }
  }

  /** The word is what the threads have added, and a writer shares the lock with nobody inside. */
  ghost predicate Inv(s: State) {
    s.word == Total(s.threads) && Exclusive(s)
  }

  lemma WordInRange(s: State)
    requires Inv(s) && |s.threads| < UNIQUE_LOCKED
    ensures s.word < WORD - 1
  {
    if t :| 0 <= t < |s.threads| && s.threads[t].Writing? {
      TotalUpdate(s.threads, t, Out);
      assert s.threads[t := Out][t].Out?;
      TotalBound(s.threads[t := Out]);
    } else {
      TotalBound(s.threads);
    }
  }

  lemma LoadKeepsExclusive(s: State, t: nat, u: State)
    requires Inv(s) && Next(s, SharedLoad(t), u)
    ensures Exclusive(u)
  {
    forall i | 0 <= i < |s.threads| && s.threads[i].Writing?
      ensures s.word > UNIQUE_LOCKED
    {
      TwoParts(s.threads, i, t);
    }
  }

  lemma LockKeepsExclusive(s: State, t: nat, u: State)
    requires Inv(s) && Next(s, TryUnique(t), u)
    ensures Exclusive(u)
  {
    if s.word == 0 {
      forall i | 0 <= i < |s.threads|
        ensures s.threads[i].Out?
      {
        PartOfTotal(s.threads, i);
      }
    }
  }

  lemma NextKeepsInv(s: State, step: Step, u: State)
    requires Inv(s) && Next(s, step, u) && |s.threads| < UNIQUE_LOCKED
    ensures Inv(u) && |u.threads| == |s.threads|
  {
    var t := step.t;
    WordInRange(s);
    PartOfTotal(s.threads, t);
    match step
    case TryUnique(_) =>
      TotalUpdate(s.threads, t, Writing);
      LockKeepsExclusive(s, t, u);
    case UniqueUnlock(_) => TotalUpdate(s.threads, t, Out);
    case SharedAdd(_) => TotalUpdate(s.threads, t, Spinning);
    case SharedLoad(_) =>
      TotalUpdate(s.threads, t, Reading);
      LoadKeepsExclusive(s, t, u);
    case SharedUnlock(_) => TotalUpdate(s.threads, t, Out);
  }

  ghost predicate IsRun(states: seq<State>, steps: seq<Step>) {
    && |states| == |steps| + 1
    && states[0].word == 0 && (forall t | 0 <= t < |states[0].threads| :: states[0].threads[t].Out?)
    && forall i | 0 <= i < |steps| :: Next(states[i], steps[i], states[i + 1])
  }

  lemma {:induction false} NobodyInside(threads: seq<Phase>)
    requires forall t | 0 <= t < |threads| :: threads[t].Out?
    ensures Total(threads) == 0
  {
    if threads != [] {
      NobodyInside(threads[1..]);
    }
  }

  /** For fewer than 2^63 threads, in every interleaving a writer excludes writers and readers. */
  lemma {:induction false} RunsExclude(states: seq<State>, steps: seq<Step>, n: nat)
    requires IsRun(states, steps) && |states[0].threads| < UNIQUE_LOCKED && n < |states|
    ensures Inv(states[n]) && |states[n].threads| == |states[0].threads|
  {
    if n == 0 {
      NobodyInside(states[0].threads);
    } else {
      RunsExclude(states, steps, n - 1);
      NextKeepsInv(states[n - 1], steps[n - 1], states[n]);
    }
  }
}
