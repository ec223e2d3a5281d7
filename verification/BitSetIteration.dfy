/** Iteration over the set bits of a bitset, src/common/BitSetIterator.h. A bitset is the number it
    encodes; words have 32 bits. */
module BitSetIteration {
  import opened BitMath

  const BITS_PER_WORD: nat := 32

  // ----- Bits of numbers -----

  predicate Bit(x: nat, k: nat) {
    if k == 0 then x % 2 == 1 else Bit(x / 2, k - 1)
  }

  /** `ScanForward`: the index of the lowest set bit. */
  function ScanForward(x: nat): nat
    requires x != 0
  {
    if x % 2 == 1 then 0 else 1 + ScanForward(x / 2)
  }

  /** The set bits in ascending order, `from` being the position of bit zero. */
  function Ones(x: nat, from: nat): seq<nat> {
    if x == 0 then [] else (if x % 2 == 1 then [from] else []) + Ones(x / 2, from + 1)
  }

  lemma {:induction false} ScanForwardIsLowest(x: nat)
    requires x != 0
    ensures Bit(x, ScanForward(x)) && forall k :: 0 <= k < ScanForward(x) ==> !Bit(x, k)
  {
    if x % 2 == 0 {
      ScanForwardIsLowest(x / 2);
      forall k | 0 <= k < ScanForward(x) ensures !Bit(x, k) {
        assert k > 0 ==> !Bit(x / 2, k - 1);
      }
    }
  }

  /** The list holds exactly the set bits, */
  lemma {:induction false} OnesAreTheSetBits(x: nat, from: nat)
    ensures forall p: nat :: p in Ones(x, from) <==> p >= from && Bit(x, p - from)
    decreases x
  {
    if x != 0 {
      OnesAreTheSetBits(x / 2, from + 1);
    }
    forall p: nat ensures p in Ones(x, from) <==> p >= from && Bit(x, p - from) {
      if x == 0 {
        if p >= from {
          NoBits(p - from);
        }
      } else {
        var first, rest := if x % 2 == 1 then [from] else [], Ones(x / 2, from + 1);
        assert p in Ones(x, from) <==> p in first || p in rest;
      }
    }
  }

  /** in ascending order. */
  lemma {:induction false} OnesAscend(x: nat, from: nat)
    ensures forall i :: 0 <= i < |Ones(x, from)| ==> Ones(x, from)[i] >= from
    ensures forall i, j :: 0 <= i < j < |Ones(x, from)| ==> Ones(x, from)[i] < Ones(x, from)[j]
    decreases x
  {
    if x != 0 {
      OnesAscend(x / 2, from + 1);
    }
  }

  lemma {:induction false} NoBits(k: nat)
    ensures !Bit(0, k)
  {
    if k > 0 {
      NoBits(k - 1);
    }
  }

  /** The list starts with the lowest bit, and clearing that bit removes it. */
  lemma {:induction false} OnesStart(x: nat, from: nat)
    requires x != 0
    ensures Pow2(ScanForward(x)) <= x
    ensures Ones(x, from) == [from + ScanForward(x)] + Ones(x - Pow2(ScanForward(x)), from)
    decreases x
  {
    if x % 2 == 1 {
      assert x / 2 == (x - 1) / 2;
      if x - 1 == 0 {
      } else {
        assert Ones(x - 1, from) == [] + Ones(x / 2, from + 1);
      }
    } else {
      OnesStart(x / 2, from + 1);
      var k := ScanForward(x / 2);
      var left := x / 2 - Pow2(k);
      assert Pow2(k + 1) == 2 * Pow2(k) && x - Pow2(k + 1) == 2 * left;
      assert [] + Ones(left, from + 1) == Ones(left, from + 1);
      assert Ones(2 * left, from) == Ones(left, from + 1);
      assert [] + Ones(x / 2, from + 1) == Ones(x / 2, from + 1);
    }
  }

  /** Shifting out zeros moves the start of the list. */
  lemma {:induction false} OnesShift(x: nat, from: nat, w: nat)
    requires x % Pow2(w) == 0
    ensures Ones(x, from) == Ones(x / Pow2(w), from + w)
    decreases w
  {
    if w > 0 {
      HalvesPow2(w, x);
      var h := x / 2;
      assert x % 2 == 0 && h % Pow2(w - 1) == 0;
      OnesShift(h, from + 1, w - 1);
      assert [] + Ones(h, from + 1) == Ones(h, from + 1);
      HalvesQuotient(x, w);
      if x == 0 {
        assert h == 0;
      }
    }
  }

  lemma HalvesQuotient(x: nat, w: nat)
    requires w > 0
    ensures x / Pow2(w) == x / 2 / Pow2(w - 1)
  {
    var p, h := Pow2(w - 1), x / 2;
    var q, r := h / p, h % p;
    assert h == p * q + r && x == 2 * h + x % 2;
    assert (2 * p) * q == 2 * (p * q);
    DivisionUnique(2 * p, q, 2 * r + x % 2);
  }

  lemma {:induction false} Pow2Monotone(a: nat, b: nat)
    requires a <= b
    ensures Pow2(a) <= Pow2(b)
  {
    if a < b {
      Pow2Monotone(a, b - 1);
    }
  }

  lemma {:induction false} Pow2Split(a: nat, b: nat)
    ensures Pow2(a + b) == Pow2(a) * Pow2(b)
  {
    if a > 0 {
      Pow2Split(a - 1, b);
      assert Pow2(a) * Pow2(b) == 2 * (Pow2(a - 1) * Pow2(b));
    }
  }

  lemma ShiftBound(x: nat, n: nat, w: nat)
    requires x < Pow2(n) && w <= n
    ensures x / Pow2(w) < Pow2(n - w)
  {
    hide Pow2;
    Pow2Split(w, n - w);
    var p, q := Pow2(w), x / Pow2(w);
    assert x == p * q + x % p;
    MulMonotone(p, Pow2(n - w), q);
  }

  lemma MulMonotone(a: nat, q: nat, q': nat)
    ensures q <= q' ==> a * q <= a * q'
  {
    MulStep(a, q, q');
  }

  // ----- The iterator -----

  /** The bits not yet passed, shifted by `offset`; the position of the lowest of them. */
  datatype Cursor = Cursor(bits: nat, currentBit: nat, offset: nat)

  /** The state after skipping empty words. */
  function GetNextBit(n: nat, bits: nat, offset: nat): Cursor
    decreases n - offset
  {
    hide Pow2, And;
    if offset >= n then Cursor(bits, 0, offset)
    else
      var wordBits := And(BITS_PER_WORD, bits, Pow2(BITS_PER_WORD) - 1);
      if wordBits != 0 then Cursor(bits, ScanForward(wordBits) + offset, offset)
      else GetNextBit(n, bits / Pow2(BITS_PER_WORD), offset + BITS_PER_WORD)
  }

  function Begin(n: nat, bits: nat): Cursor {
    if bits != 0 then GetNextBit(n, bits, 0) else Cursor(bits, 0, RoundUp(n, BITS_PER_WORD))
  }

  function End(n: nat): Cursor { Begin(n, 0) }

  /** `operator==` does not look at the current bit. */
  predicate Equal(a: Cursor, b: Cursor) {
    a.offset == b.offset && a.bits == b.bits
  }

  function Next(n: nat, c: Cursor): Cursor
    requires c.bits != 0 && c.offset <= c.currentBit && Pow2(c.currentBit - c.offset) <= c.bits
  {
    GetNextBit(n, c.bits - Pow2(c.currentBit - c.offset), c.offset)
  }

  /** The cursor is at its lowest bit, or where the end is. */
  predicate Sound(n: nat, c: Cursor) {
    && c.offset % BITS_PER_WORD == 0
    && if c.bits == 0 then c.offset == RoundUp(n, BITS_PER_WORD)
       else c.offset < n && c.bits < Pow2(n - c.offset) && c.currentBit == c.offset + ScanForward(c.bits)
  }

  lemma WordIsRemainder(bits: nat)
    ensures And(BITS_PER_WORD, bits, Pow2(BITS_PER_WORD) - 1) == bits % Pow2(BITS_PER_WORD)
  {
    AndLowMask(BITS_PER_WORD, BITS_PER_WORD, bits);
  }

  /** The low bits have the same lowest bit. */
  lemma {:induction false} ScanLowBits(x: nat, w: nat)
    requires x % Pow2(w) != 0
    ensures x != 0
    ensures ScanForward(x % Pow2(w)) == ScanForward(x)
    decreases w
  {
    NotWidthZero(x, w);
    HalvesLow(x, w);
    if x % 2 == 0 {
      ScanLowBits(x / 2, w - 1);
    }
  }

  lemma NotWidthZero(x: nat, w: nat)
    requires x % Pow2(w) != 0
    ensures w > 0
  {
    if w == 0 {
      ModOne(x);
    }
  }

  lemma ModOne(x: nat)
    ensures x % 1 == 0
  {
  }

  lemma HalvesLow(x: nat, w: nat)
    requires w > 0
    ensures x % Pow2(w) % 2 == x % 2 && x % Pow2(w) / 2 == x / 2 % Pow2(w - 1)
  {
    HalvesPow2(w, x);
    HalvesOfSum(x % 2, x / 2 % Pow2(w - 1));
  }

  lemma HalvesOfSum(bit: nat, h: nat)
    requires bit < 2
    ensures (bit + 2 * h) % 2 == bit && (bit + 2 * h) / 2 == h
  {
  }

  /** Skipping empty words keeps the list of set bits, and ends at the next bit or at the end. */
  lemma {:induction false} SkipsWords(n: nat, bits: nat, offset: nat)
    requires offset % BITS_PER_WORD == 0
    requires if offset < n then bits < Pow2(n - offset) else bits == 0 && offset == RoundUp(n, BITS_PER_WORD)
    ensures var c := GetNextBit(n, bits, offset);
            Sound(n, c) && Ones(c.bits, c.offset) == Ones(bits, offset)
    decreases n - offset
  {
    hide Pow2, And, RoundUp, Ones, ScanForward;
    if offset < n {
      WordIsRemainder(bits);
      if bits % Pow2(BITS_PER_WORD) != 0 {
        ScanLowBits(bits, BITS_PER_WORD);
      } else {
        OnesShift(bits, offset, BITS_PER_WORD);
        NextWord(n, bits, offset);
        SkipsWords(n, bits / Pow2(BITS_PER_WORD), offset + BITS_PER_WORD);
      }
    }
  }

  lemma NextWord(n: nat, bits: nat, offset: nat)
    requires offset % BITS_PER_WORD == 0 && offset < n && bits < Pow2(n - offset) && bits % Pow2(BITS_PER_WORD) == 0
    ensures var offset' := offset + BITS_PER_WORD;
            var bits' := bits / Pow2(BITS_PER_WORD);
            if offset' < n then bits' < Pow2(n - offset') else bits' == 0 && offset' == RoundUp(n, BITS_PER_WORD)
  {
    hide Pow2;
    var left := n - offset;
    if BITS_PER_WORD < left {
      ShiftBound(bits, left, BITS_PER_WORD);
    } else {
      Pow2Monotone(left, BITS_PER_WORD);
      DivisionUnique(Pow2(BITS_PER_WORD), 0, bits);
      RoundUpUnique(n, BITS_PER_WORD, offset + BITS_PER_WORD);
    }
  }

  lemma BeginIsSound(n: nat, bits: nat)
    requires bits < Pow2(n)
    ensures Sound(n, Begin(n, bits)) && Ones(Begin(n, bits).bits, Begin(n, bits).offset) == Ones(bits, 0)
  {
    if bits != 0 {
      assert n > 0;
      SkipsWords(n, bits, 0);
    }
  }

  /** A sound cursor equals the end exactly when no bit is left. */
  lemma AtEndExactly(n: nat, c: Cursor)
    requires Sound(n, c)
    ensures Equal(c, End(n)) <==> Ones(c.bits, c.offset) == []
  {
    if c.bits != 0 {
      OnesStart(c.bits, c.offset);
    }
  }

  /** Otherwise it is at the first of the bits left, and the next cursor is at the others. */
  lemma NextIsSound(n: nat, c: Cursor)
    requires Sound(n, c) && c.bits != 0
    ensures c.offset <= c.currentBit && Pow2(c.currentBit - c.offset) <= c.bits
    ensures var c' := Next(n, c);
            Sound(n, c') && Ones(c.bits, c.offset) == [c.currentBit] + Ones(c'.bits, c'.offset)
  {
    hide Pow2, Ones, GetNextBit, RoundUp;
    OnesStart(c.bits, c.offset);
    SkipsWords(n, c.bits - Pow2(c.currentBit - c.offset), c.offset);
  }

  /** The iterator as an object. */
  class Iterator {
    const n: nat
    var bits: nat
    var currentBit: nat
    var offset: nat

    function Value(): Cursor
      reads this
    {
      Cursor(bits, currentBit, offset)
    }

    predicate Valid()
      reads this
    {
      Sound(n, Value())
    }

    constructor (n: nat, bits: nat)
      requires bits < Pow2(n)
      ensures Valid() && this.n == n && Value() == Begin(n, bits)
    {
      this.n := n;
      this.bits := bits;
      currentBit := 0;
      offset := 0;
      new;
      BeginIsSound(n, bits);
      if bits != 0 {
        NextBit();
      } else {
        offset := RoundUp(n, BITS_PER_WORD);
      }
    }

    method NextBit()
      modifies this
      ensures Value() == GetNextBit(n, old(bits), old(offset))
    {
      hide Pow2, And;
      while offset < n
        invariant GetNextBit(n, bits, offset) == GetNextBit(n, old(bits), old(offset))
        decreases n - offset
      {
        var wordBits := And(BITS_PER_WORD, bits, Pow2(BITS_PER_WORD) - 1);
        if wordBits != 0 {
          currentBit := ScanForward(wordBits) + offset;
          return;
        }
        bits := bits / Pow2(BITS_PER_WORD);
        offset := offset + BITS_PER_WORD;
      }
      currentBit := 0;
    }

    method Advance()
      requires Valid() && bits != 0
      modifies this
      ensures Valid()
      ensures Ones(old(bits), old(offset)) == [old(currentBit)] + Ones(bits, offset)
    {
      NextIsSound(n, Value());
      bits := bits - Pow2(currentBit - offset);
      NextBit();
    }
  }

  /** A loop over a bitset visits exactly its set bits, each once, in ascending order. */
  method IterateBitSet(n: nat, bits: nat) returns (visited: seq<nat>)
    requires bits < Pow2(n)
    ensures forall p: nat :: p in visited <==> Bit(bits, p)
    ensures forall i, j :: 0 <= i < j < |visited| ==> visited[i] < visited[j]
  {
    BeginIsSound(n, bits);
    OnesAreTheSetBits(bits, 0);
    OnesAscend(bits, 0);
    var it := new Iterator(n, bits);
    visited := [];
    AtEndExactly(n, it.Value());
    while !Equal(it.Value(), End(n))
      invariant it.Valid() && it.n == n && fresh(it)
      invariant visited + Ones(it.bits, it.offset) == Ones(bits, 0)
      invariant Equal(it.Value(), End(n)) <==> Ones(it.bits, it.offset) == []
      decreases |Ones(it.bits, it.offset)|
    {
      visited := visited + [it.currentBit];
      it.Advance();
      AtEndExactly(n, it.Value());
    }
    assert visited == Ones(bits, 0);
  }
}
