/** Two facts about sequences and their multisets used by the list and sort
    proofs. */
module Multisets {

  /** Cutting position `k` out of a sequence takes exactly `s[k]` out of
      its multiset. */
  lemma CutMultiset<T>(s: seq<T>, k: nat)
    requires k < |s|
    ensures multiset(s) == multiset(s[..k] + s[k + 1..]) + multiset{s[k]}
  {
    assert s == s[..k] + [s[k]] + s[k + 1..];
  }

  /** Adding the same element to two multisets keeps them apart or equal. */
  lemma MultisetCancel<T>(p: multiset<T>, q: multiset<T>, x: T)
    requires p + multiset{x} == q + multiset{x}
    ensures p == q
  {
    forall y ensures p[y] == q[y] {
      assert (p + multiset{x})[y] == (q + multiset{x})[y];
    }
  }
}
