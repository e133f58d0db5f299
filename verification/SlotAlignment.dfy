/** The allocator's address arithmetic in 64-bit words: padding a pointer to the slot size, and
    which slot sizes it really aligns to. */
module SlotAlignment {
  // Number of distinct 64-bit words.
  const WORDS := 0x1_0000_0000_0000_0000

  /** padPointer: the subtraction wraps around. */
  function PadPointer(p: nat, align: nat): (r: nat)
    requires align > 0 && p < WORDS && align < WORDS
    ensures r < align
  {
    ((align - p) % WORDS) % align
  }

  lemma ModShift(a: int, k: int, m: int)
    requires m > 0
    ensures (a + k * m) % m == a % m
  {
    DivModUnique(a + k * m, m, a / m + k, a % m);
  }

  lemma DivModUnique(a: int, m: int, q: int, r: int)
    requires m > 0 && a == q * m + r && 0 <= r < m
    ensures a % m == r && a / m == q
  {
    var q1, r1 := a / m, a % m;
    assert a == q1 * m + r1;
    assert (q - q1) * m == r1 - r;
    Multiple(q - q1, m);
  }

  lemma Multiple(x: int, m: int)
    requires m > 0
    ensures (x >= 1 ==> x * m >= m) && (x <= -1 ==> x * m <= -m)
  {
  }

  lemma Wrapped(p: nat, align: nat)
    requires align > 0 && p < WORDS && align < WORDS
    ensures (align - p) % WORDS == if p <= align then align - p else align - p + WORDS
  {
    if p > align { DivModUnique(align - p, WORDS, -1, align - p + WORDS); }
  }

  /** What the padded pointer is, modulo the slot size: nothing, or what wrapping left over. */
  lemma PaddedRemainder(p: nat, align: nat)
    requires align > 0 && p < WORDS && align < WORDS
    ensures (p + PadPointer(p, align)) % align == if p <= align then 0 else WORDS % align
  {
    Wrapped(p, align);
    var d := (align - p) % WORDS;
    assert d == (d / align) * align + d % align;
    assert p + PadPointer(p, align) == (p + d) + (-(d / align)) * align;
    ModShift(p + d, -(d / align), align);
    if p <= align { ModShift(0, 1, align); } else { ModShift(WORDS, 1, align); }
  }

  /** Padding aligns to the slot size exactly when no wrap-around happens or the slot size divides
      2^64. */
  lemma AlignedExactly(p: nat, align: nat)
    requires align > 0 && p < WORDS && align < WORDS
    ensures (p + PadPointer(p, align)) % align == 0 <==> p <= align || WORDS % align == 0
  {
    PaddedRemainder(p, align);
    if p == align { ModShift(0, 1, align); }
  }

  /** Slots that are multiples of 8 stay 8-aligned through the wrap-around. */
  lemma PaddingKeepsEight(p: nat, align: nat)
    requires align > 0 && align % 8 == 0 && p < WORDS && align < WORDS && p % 8 == 0
    ensures PadPointer(p, align) % 8 == 0 && PadPointer(p, align) <= align - 8
    ensures (p + PadPointer(p, align)) % 8 == 0
  {
    hide PadPointer;
    PadEight(p, align);
    BelowByEight(PadPointer(p, align), align);
    SumEight(p, PadPointer(p, align));
  }

  lemma PadEight(p: nat, align: nat)
    requires align > 0 && align % 8 == 0 && p < WORDS && align < WORDS && p % 8 == 0
    ensures PadPointer(p, align) % 8 == 0
  {
    var d := (align - p) % WORDS;
    Wrapped(p, align);
    SumEight(align, 0 - p);
    SumEight(align - p, WORDS);
    MultipleMod(d, align);
  }

  lemma SumEight(a: int, b: int)
    requires a % 8 == 0 && b % 8 == 0
    ensures (a + b) % 8 == 0
  {
  }

  lemma BelowByEight(r: nat, align: nat)
    requires r < align && r % 8 == 0 && align % 8 == 0
    ensures r <= align - 8
  {
  }

  lemma MultipleMod(d: nat, align: nat)
    requires align > 0 && align % 8 == 0 && d % 8 == 0
    ensures (d % align) % 8 == 0
  {
    var q, c := d / align, align / 8;
    assert d == q * align + d % align && align == 8 * c;
    assert q * align == (q * c) * 8;
    ModShift(d % align, q * c, 8);
  }

  // ---------- powers of two ----------

  predicate PowerOfTwo(n: nat) { n == 1 || (n > 1 && n % 2 == 0 && PowerOfTwo(n / 2)) }

  predicate Divides(d: nat, n: nat) { d > 0 && n % d == 0 }

  lemma DividesBy(d: nat, n: nat, q: int)
    requires d > 0 && n == q * d
    ensures Divides(d, n)
  {
    DivModUnique(n, d, q, 0);
  }

  lemma OddTimesOdd(q: nat, d: nat)
    requires q % 2 == 1 && d % 2 == 1
    ensures (q * d) % 2 == 1
  {
    var x, y := q / 2, d / 2;
    assert q == 2 * x + 1 && d == 2 * y + 1;
    assert q * d == 2 * (x * d + y) + 1;
  }

  lemma HalfQuotient(d: nat, n: nat, q: nat)
    requires n == q * d && d % 2 == 1 && n % 2 == 0
    ensures n / 2 == (q / 2) * d
  {
    if q % 2 == 1 { OddTimesOdd(q, d); }
    assert q == 2 * (q / 2);
    assert n == 2 * ((q / 2) * d);
  }

  lemma HalfDivisor(d: nat, n: nat, q: nat)
    requires n == q * d && d % 2 == 0
    ensures n / 2 == q * (d / 2)
  {
    assert d == 2 * (d / 2);
    assert n == 2 * (q * (d / 2));
  }

  /** The divisors of a power of two are the powers of two below it. */
  lemma {:induction false} DivisorIsPower(d: nat, n: nat)
    requires PowerOfTwo(n) && Divides(d, n)
    ensures PowerOfTwo(d)
    decreases n
  {
    var q := n / d;
    assert n == q * d;
    if n == 1 {
      assert d == 1 by { if d > 1 { DivModUnique(n, d, 0, n); } }
    } else if d % 2 == 0 {
      var e := d / 2;
      HalfDivisor(d, n, q);
      DividesBy(e, n / 2, q);
      DivisorIsPower(e, n / 2);
    } else {
      HalfQuotient(d, n, q);
      DividesBy(d, n / 2, q / 2);
      DivisorIsPower(d, n / 2);
    }
  }

  lemma {:induction false} PowerDivides(d: nat, n: nat)
    requires PowerOfTwo(d) && PowerOfTwo(n) && d <= n
    ensures Divides(d, n)
    decreases n
  {
    if d == 1 {
      DividesBy(1, n, n);
    } else {
      PowerDivides(d / 2, n / 2);
      var q := (n / 2) / (d / 2);
      assert n / 2 == q * (d / 2);
      assert n == q * d;
      DividesBy(d, n, q);
    }
  }

  lemma {:induction false} PowerTimes(m: nat, n: nat)
    requires PowerOfTwo(m) && PowerOfTwo(n)
    ensures PowerOfTwo(m * n)
    decreases m
  {
    if m > 1 {
      PowerTimes(m / 2, n);
      assert m * n == 2 * ((m / 2) * n);
    }
  }

  lemma WordsIsPower()
    ensures PowerOfTwo(WORDS)
  {
    assert PowerOfTwo(2) && PowerOfTwo(4) && PowerOfTwo(8) && PowerOfTwo(16);
    hide PowerOfTwo;
    PowerTimes(16, 16);
    PowerTimes(256, 256);
    PowerTimes(65536, 65536);
    PowerTimes(4294967296, 4294967296);
  }

  /** Every pointer past the slot size is padded to a multiple of it exactly for power-of-two slots. */
  lemma PowerOfTwoSlotsAlign(align: nat)
    requires 0 < align < WORDS - 1
    ensures (forall p: nat :: align < p < WORDS ==> (p + PadPointer(p, align)) % align == 0) <==> PowerOfTwo(align)
  {
    WordsIsPower();
    hide PowerOfTwo, PadPointer;
    if PowerOfTwo(align) { PowerDivides(align, WORDS); }
    if WORDS % align == 0 { DivisorIsPower(align, WORDS); }
    forall p: nat | align < p < WORDS
      ensures (p + PadPointer(p, align)) % align == 0 <==> PowerOfTwo(align)
    {
      AlignedExactly(p, align);
    }
    var p := align + 1;
    assert (p + PadPointer(p, align)) % align == 0 <==> PowerOfTwo(align);
  }
}
