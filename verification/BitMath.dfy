/** Bit arithmetic of src/common/Math.cpp on unsigned machine words: what the masks compute. */
module BitMath {
  function Pow2(k: nat): (p: nat)
    ensures p > 0
  {
    if k == 0 then 1 else 2 * Pow2(k - 1)
  }

  /** `x & y` on words of `w` bits. */
  function And(w: nat, x: nat, y: nat): nat {
    if w == 0 then 0 else (if x % 2 == 1 && y % 2 == 1 then 1 else 0) + 2 * And(w - 1, x / 2, y / 2)
  }

  /** `~x` on words of `w` bits. */
  function Not(w: nat, x: nat): nat
    requires x < Pow2(w)
  {
    Pow2(w) - 1 - x
  }

  // ----- Division -----

  lemma {:induction false} MulStep(a: nat, q: nat, q': nat)
    ensures q < q' ==> a * q + a <= a * q'
  {
    if q < q' {
      MulStep(a, q, q' - 1);
      assert a * q' == a * (q' - 1) + a;
    }
  }

  /** Quotient and remainder are determined. */
  lemma DivisionUnique(a: nat, q: nat, r: nat)
    requires r < a
    ensures (a * q + r) / a == q && (a * q + r) % a == r
  {
    var x := a * q + r;
    var q', r' := x / a, x % a;
    assert x == a * q' + r';
    MulStep(a, q, q');
    MulStep(a, q', q);
  }

  /** `x` rounded up to a multiple of `a`. */
  function RoundUp(x: nat, a: nat): (r: nat)
    requires a > 0
    ensures x <= r < x + a && r % a == 0
  {
    RoundUpExact(x, a);
    if x % a == 0 then x else x + (a - x % a)
  }

  lemma RoundUpExact(x: nat, a: nat)
    requires a > 0
    ensures (x + (a - x % a)) % a == 0
  {
    DivisionUnique(a, x / a + 1, 0);
    assert x + (a - x % a) == a * (x / a + 1);
  }

  /** The rounded number is the only multiple in its range. */
  lemma RoundUpUnique(x: nat, a: nat, r: nat)
    requires a > 0 && x <= r < x + a && r % a == 0
    ensures r == RoundUp(x, a)
  {
    var u := RoundUp(x, a);
    MulStep(a, r / a, u / a);
    MulStep(a, u / a, r / a);
    assert r == a * (r / a) && u == a * (u / a);
  }

  // ----- Masks -----

  lemma HalvesPow2(k: nat, x: nat)
    requires k > 0
    ensures x < Pow2(k) <==> x / 2 < Pow2(k - 1)
    ensures x % Pow2(k) == x % 2 + 2 * (x / 2 % Pow2(k - 1))
  {
    var p, h := Pow2(k - 1), x / 2;
    assert h == p * (h / p) + h % p;
    assert x == (2 * p) * (h / p) + (x % 2 + 2 * (h % p)) by {
      assert 2 * (p * (h / p)) == (2 * p) * (h / p);
    }
    DivisionUnique(2 * p, h / p, x % 2 + 2 * (h % p));
  }

  /** Masking with `2^k - 1` is the remainder. */
  lemma {:induction false} AndLowMask(w: nat, k: nat, x: nat)
    requires k <= w
    ensures And(w, x, Pow2(k) - 1) == x % Pow2(k)
    decreases w
  {
    if k == 0 {
      AndZero(w, x);
    } else {
      HalvesPow2(k, x);
      AndLowMask(w - 1, k - 1, x / 2);
      assert (Pow2(k) - 1) / 2 == Pow2(k - 1) - 1;
    }
  }

  lemma {:induction false} AndZero(w: nat, x: nat)
    ensures And(w, x, 0) == 0
  {
    if w > 0 {
      AndZero(w - 1, x / 2);
    }
  }

  /** Masking with the complement of `2^k - 1` drops the remainder. */
  lemma {:induction false} AndHighMask(w: nat, k: nat, x: nat)
    requires k <= w && x < Pow2(w)
    ensures Pow2(k) <= Pow2(w)
    ensures And(w, x, Not(w, Pow2(k) - 1)) == x - x % Pow2(k)
    decreases w
  {
    if w == 0 {
    } else if k == 0 {
      AndOnes(w, x);
    } else {
      HalvesPow2(w, x);
      HalvesPow2(k, x);
      AndHighMask(w - 1, k - 1, x / 2);
      var mask := Not(w, Pow2(k) - 1);
      assert mask == 2 * (Pow2(w - 1) - Pow2(k - 1)) && mask / 2 == Not(w - 1, Pow2(k - 1) - 1);
    }
  }

  lemma {:induction false} AndOnes(w: nat, x: nat)
    requires x < Pow2(w)
    ensures And(w, x, Pow2(w) - 1) == x
  {
    if w > 0 {
      HalvesPow2(w, x);
      AndOnes(w - 1, x / 2);
      assert (Pow2(w) - 1) / 2 == Pow2(w - 1) - 1;
    }
  }

  lemma {:induction false} AndSelf(w: nat, x: nat)
    requires x < Pow2(w)
    ensures And(w, x, x) == x
  {
    if w > 0 {
      HalvesPow2(w, x);
      AndSelf(w - 1, x / 2);
    }
  }

  // ----- IsPowerOfTwo, IsPtrAligned, AlignVoidPtr -----

  const SIZE_BITS: nat := 64

  /** `IsPowerOfTwo` with words of `w` bits. */
  predicate IsPowerOfTwo(w: nat, n: nat)
    requires n != 0
  {
    And(w, n, n - 1) == 0
  }

  predicate IsPtrAligned(p: nat, alignment: nat)
    requires alignment != 0
  {
    And(SIZE_BITS, p, alignment - 1) == 0
  }

  function AlignVoidPtr(p: nat, alignment: nat): nat
    requires alignment != 0 && alignment - 1 < Pow2(SIZE_BITS)
  {
    And(SIZE_BITS, p + (alignment - 1), Not(SIZE_BITS, alignment - 1))
  }

  /** A number that passes the test is a power of two. */
  lemma {:induction false} TestedPower(w: nat, n: nat) returns (k: nat)
    requires 0 < n < Pow2(w) && IsPowerOfTwo(w, n)
    ensures n == Pow2(k)
  {
    HalvesPow2(w, n);
    if n % 2 == 1 {
      assert (n - 1) / 2 == n / 2;
      AndSelf(w - 1, n / 2);
      k := 0;
    } else {
      assert (n - 1) / 2 == n / 2 - 1;
      k := TestedPower(w - 1, n / 2);
      k := k + 1;
    }
  }

  lemma {:induction false} PowerTested(w: nat, k: nat)
    ensures IsPowerOfTwo(w, Pow2(k))
    decreases w
  {
    if w > 0 {
      if k == 0 {
        AndZero(w, 1);
      } else {
        assert Pow2(k) / 2 == Pow2(k - 1) && (Pow2(k) - 1) / 2 == Pow2(k - 1) - 1;
        PowerTested(w - 1, k - 1);
      }
    }
  }

  /** The test holds for exactly the powers of two. */
  lemma PowerOfTwoTest(w: nat, n: nat)
    requires 0 < n < Pow2(w)
    ensures IsPowerOfTwo(w, n) <==> exists k: nat :: n == Pow2(k)
  {
    if IsPowerOfTwo(w, n) {
      var k := TestedPower(w, n);
    }
    forall k: nat | n == Pow2(k) ensures IsPowerOfTwo(w, n) {
      PowerTested(w, k);
    }
  }

  /** The mask test is divisibility. */
  lemma PtrAlignedTest(p: nat, k: nat)
    requires k <= SIZE_BITS
    ensures IsPtrAligned(p, Pow2(k)) <==> p % Pow2(k) == 0
  {
    AndLowMask(SIZE_BITS, k, p);
  }

  /** Adding and masking rounds up, as long as the sum does not wrap around. */
  lemma AlignRoundsUp(p: nat, k: nat)
    requires k <= SIZE_BITS && p + (Pow2(k) - 1) < Pow2(SIZE_BITS)
    ensures AlignVoidPtr(p, Pow2(k)) == RoundUp(p, Pow2(k))
  {
    hide Pow2, And, Not;
    var a := Pow2(k);
    var x := p + (a - 1);
    AndHighMask(SIZE_BITS, k, x);
    assert x - x % a == a * (x / a) + 0;
    DivisionUnique(a, x / a, 0);
    RoundUpUnique(p, a, x - x % a);
  }
}
