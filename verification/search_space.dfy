/**
 * How the solver splits the attempt offsets among its workers: worker `w` of
 * `n` tries offsets `w`, `w + n`, `w + 2n`, ... from the common base.
 */
module SearchSpace {

  /** The offset from the base of worker `w`'s `k`-th attempt when `n` workers run. */
  function Offset(w: nat, k: nat, n: nat): nat {
    w + k * n
  }

  /** Two workers never try the same offset, and one worker never tries an offset twice. */
  lemma OffsetsDisjoint(w1: nat, k1: nat, w2: nat, k2: nat, n: nat)
    requires w1 < n && w2 < n && Offset(w1, k1, n) == Offset(w2, k2, n)
    ensures w1 == w2 && k1 == k2
  {
    if k1 != k2 {
      var lo, hi := if k1 < k2 then k1 else k2, if k1 < k2 then k2 else k1;
      MultiplyStep(lo, hi, n);
    }
  }

  lemma {:induction false} MultiplyStep(lo: nat, hi: nat, n: nat)
    requires lo < hi
    ensures hi * n >= lo * n + n
    decreases hi
  {
    assert hi * n == (hi - 1) * n + n;
    if lo < hi - 1 {
      MultiplyStep(lo, hi - 1, n);
    }
  }

  /** Every offset is tried by exactly one worker, at exactly one step: worker `m % n` at step `m / n`. */
  lemma OffsetsPartition(m: nat, n: nat)
    requires n > 0
    ensures Offset(m % n, m / n, n) == m
    ensures forall w: nat, k: nat :: w < n && Offset(w, k, n) == m ==> w == m % n && k == m / n
  {
    forall w: nat, k: nat | w < n && Offset(w, k, n) == m
      ensures w == m % n && k == m / n
    {
      OffsetsDisjoint(w, k, m % n, m / n, n);
    }
  }
}
