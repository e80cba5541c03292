/**
 * The index arithmetic of the three cursor navigators over a finite sequence
 * of `n` items: the modulo form used by the review carousel and the gallery
 * lightbox, and the conditional form used by the service gallery.
 *
 * JavaScript's `%` truncates toward zero, Dafny's is Euclidean; the two agree
 * here because every dividend is non-negative once `0 <= i < n`.
 */
module Cursor {

  /** `(i + 1) % n` */
  function Next(i: int, n: int): (j: int)
    requires 0 <= i < n
    ensures 0 <= j < n
  {
    (i + 1) % n
  }

  /** `(i - 1 + n) % n` */
  function Prev(i: int, n: int): (j: int)
    requires 0 <= i < n
    ensures 0 <= j < n
  {
    (i - 1 + n) % n
  }

  /** `i === n - 1 ? 0 : i + 1` */
  function WrapNext(i: int, n: int): (j: int)
    requires 0 <= i < n
    ensures 0 <= j < n
  {
    if i == n - 1 then 0 else i + 1
  }

  /** `i === 0 ? n - 1 : i - 1` */
  function WrapPrev(i: int, n: int): (j: int)
    requires 0 <= i < n
    ensures 0 <= j < n
  {
    if i == 0 then n - 1 else i - 1
  }

  /** The two wrap formulas agree on every in-range index. */
  lemma WrapAgreesWithModulo(i: int, n: int)
    requires 0 <= i < n
    ensures WrapNext(i, n) == Next(i, n)
    ensures WrapPrev(i, n) == Prev(i, n)
  {
    if i == n - 1 {
      assert (i + 1) % n == 0;
    } else {
      assert (i + 1) % n == i + 1;
    }
    if i == 0 {
      assert (i - 1 + n) % n == n - 1;
    } else {
      assert (i - 1 + n) % n == i - 1 by {
        assert i - 1 + n == (i - 1) + 1 * n;
      }
    }
  }

  /** Next and Prev undo each other. */
  lemma NextPrevInverse(i: int, n: int)
    requires 0 <= i < n
    ensures Prev(Next(i, n), n) == i
    ensures Next(Prev(i, n), n) == i
  {
    WrapAgreesWithModulo(i, n);
    WrapAgreesWithModulo(Next(i, n), n);
    WrapAgreesWithModulo(Prev(i, n), n);
  }

  /** With a single item both moves stay on it. */
  lemma SingleItemStays()
    ensures Next(0, 1) == 0 && Prev(0, 1) == 0
  {
  }

  /** The cursor after `k` presses of Next starting at `i`. */
  function NextTimes(i: int, n: int, k: nat): (j: int)
    requires 0 <= i < n
    ensures 0 <= j < n
  {
    if k == 0 then i else Next(NextTimes(i, n, k - 1), n)
  }

  /** Euclidean division leaves a unique remainder. */
  lemma ModUnique(a: int, n: int, q: int, r: int)
    requires 0 <= r < n && a == q * n + r
    ensures a % n == r
  {
    var q', r' := a / n, a % n;
    assert q' * n + r' == q * n + r;
    assert (q - q') * n == r' - r;
    if q > q' {
      MulAtLeast(q - q', n);
    } else if q < q' {
      MulAtLeast(q' - q, n);
    }
  }

  lemma MulAtLeast(d: int, n: int)
    requires d >= 1 && n > 0
    ensures d * n >= n
  {
  }

  /** Adding one to a dividend steps its remainder around the circle. */
  lemma SuccMod(a: int, n: int)
    requires n > 0
    ensures (a + 1) % n == if a % n == n - 1 then 0 else a % n + 1
  {
    var q, r := a / n, a % n;
    assert a == q * n + r;
    if r == n - 1 {
      assert a + 1 == (q + 1) * n + 0 by {
        assert (q + 1) * n == q * n + n;
      }
      ModUnique(a + 1, n, q + 1, 0);
    } else {
      ModUnique(a + 1, n, q, r + 1);
    }
  }

  /** `k` presses of Next move the cursor `k` places around the circle. */
  lemma {:induction false} NextTimesIsOffset(i: int, n: int, k: nat)
    requires 0 <= i < n
    ensures NextTimes(i, n, k) == (i + k) % n
  {
    if k == 0 {
      ModUnique(i, n, 0, i);
    } else {
      NextTimesIsOffset(i, n, k - 1);
      var r := (i + k - 1) % n;
      assert NextTimes(i, n, k) == Next(r, n);
      WrapAgreesWithModulo(r, n);
      SuccMod(i + k - 1, n);
    }
  }

  /** `n` presses of Next bring the cursor back to where it started. */
  lemma FullCycleReturns(i: int, n: int)
    requires 0 <= i < n
    ensures NextTimes(i, n, n) == i
  {
    NextTimesIsOffset(i, n, n);
    ModUnique(i + n, n, 1, i);
  }
}
