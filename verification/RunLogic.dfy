/** Induction over runs, for properties of states and conditions on steps given as functions of the index. */
module RunLogic {

  /** The states up to the n-th have the property. */
  ghost predicate UpTo(right: nat -> bool, n: nat) {
    forall i: nat | i <= n :: right(i)
  }

  /** The first n steps meet the condition. */
  ghost predicate FirstAll(exact: nat -> bool, n: nat) {
    forall i: nat | i < n :: exact(i)
  }

  /** A property that each step keeps just when it meets its condition holds exactly as long as all steps do. */
  lemma {:induction false} IffChain(right: nat -> bool, exact: nat -> bool, n: nat)
    requires right(0) && forall i: nat | i < n && right(i) :: right(i + 1) <==> exact(i)
    ensures UpTo(right, n) <==> FirstAll(exact, n)
  {
    if n > 0 {
      IffChain(right, exact, n - 1);
      if UpTo(right, n) {
        assert right(n - 1) && right(n);
      }
      if FirstAll(exact, n) {
        assert exact(n - 1) && right(n - 1);
      }
    }
  }
}
