/** Small facts about sequences that the list proofs rewrite with. */
module Seqs {

  /** A non-empty sequence is its head followed by its tail, also in front
      of another sequence. */
  lemma HeadSplit<T>(a: seq<T>, b: seq<T>)
    requires a != []
    ensures a == [a[0]] + a[1..] && a + b == [a[0]] + (a[1..] + b)
  {
  }

  /** Concatenation regrouped to the left. */
  lemma Reassociate<T>(h: seq<T>, x: seq<T>, y: seq<T>, whole: seq<T>, left: seq<T>)
    requires whole == h + (x + y) && left == h + x
    ensures whole == left + y
  {
  }

  /** Cutting a sequence at `k > 0` is cutting its tail at `k - 1`. */
  lemma TailCut<T>(s: seq<T>, k: nat)
    requires 0 < k <= |s|
    ensures s[..k] == [s[0]] + s[1..][..k - 1] && s[1..][k - 1..] == s[k..]
  {
  }

  /** Keeping or dropping a last element keeps a sub-multiset relation. */
  lemma SubMultisetSnoc<T>(a: seq<T>, b: seq<T>, x: T, keep: bool)
    requires multiset(a) <= multiset(b)
    ensures multiset(a + (if keep then [x] else [])) <= multiset(b + [x])
  {
    assert multiset(b + [x]) == multiset(b) + multiset{x};
    if keep {
      assert multiset(a + [x]) == multiset(a) + multiset{x};
    } else {
      assert a + [] == a;
    }
  }
}
