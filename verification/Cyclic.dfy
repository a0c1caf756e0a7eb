/** Positions on a ring of `n` slots: the arithmetic behind a rotating pointer. */
module Cyclic {

  /** The slot reached from `start` after `k` moves, written without division for `k < n`. */
  function Slot(start: nat, k: nat, n: nat): (i: nat)
    requires k < n
    ensures i < n
  {
    if start % n + k < n then start % n + k else start % n + k - n
  }

  /** How many moves lead from the pointer to slot `i`. */
  function Distance(start: nat, i: nat, n: nat): (d: nat)
    requires i < n
    ensures d < n
  {
    if start % n <= i then i - start % n else i - start % n + n
  }

  lemma QuotientUnique(a: int, n: int, q: int, r: int)
    requires 0 <= r < n && a == n * q + r
    ensures a % n == r && a / n == q
  {
    var d := a / n - q;
    assert a == n * (a / n) + a % n;
    assert n * d == r - a % n by {
      assert n * d == n * (a / n) - n * q;
    }
    if d >= 1 {
      Scale(n, 1, d);
    } else if d <= -1 {
      Scale(n, d, -1);
    }
    assert d == 0;
  }

  lemma Scale(n: int, x: int, y: int)
    requires 0 <= n && x <= y
    ensures n * x <= n * y
  {
    assert n * (y - x) >= 0;
    assert n * (y - x) == n * y - n * x;
  }

  /** `(start + k) % n` is the slot `k` moves on, for any stored pointer, even one larger than `n`. */
  lemma SlotIsModulo(start: nat, k: nat, n: nat)
    requires k < n
    ensures (start + k) % n == Slot(start, k, n)
  {
    var q, r := start / n, start % n;
    assert start == n * q + r;
    if r + k < n {
      QuotientUnique(start + k, n, q, r + k);
    } else {
      assert start + k == n * (q + 1) + (r + k - n) by {
        assert n * (q + 1) == n * q + n;
      }
      QuotientUnique(start + k, n, q + 1, r + k - n);
    }
  }

  /** The pointer stored after serving the slot `k` moves on. */
  lemma NextPointer(start: nat, k: nat, n: nat)
    requires k < n
    ensures (start + k + 1) % n == if Slot(start, k, n) + 1 == n then 0 else Slot(start, k, n) + 1
  {
    if k + 1 < n {
      SlotIsModulo(start, k + 1, n);
    } else {
      var q, r := start / n, start % n;
      assert start == n * q + r;
      assert start + k + 1 == n * (q + 1) + r by {
        assert n * (q + 1) == n * q + n;
      }
      QuotientUnique(start + k + 1, n, q + 1, r);
    }
  }

  /** Moving by the distance lands on the slot, and only that number of moves below `n` does. */
  lemma DistanceInverts(start: nat, i: nat, n: nat)
    requires i < n
    ensures Slot(start, Distance(start, i, n), n) == i
    ensures forall k: nat :: k < n && Slot(start, k, n) == i ==> k == Distance(start, i, n)
  {
  }
}
