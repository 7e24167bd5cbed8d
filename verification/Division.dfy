/** The 64-by-32-bit division of utils.c and the tick clock built on it. */
module Division {
  import opened Arithmetic
  import opened KernelTypes

  type Quad = n: int | 0 <= n < WORD_MOD * WORD_MOD

  const CYCLESPERTICK: Word := 109000

  /** `divl`: divides high:low by `base`. The quotient has to fit 32 bits or the processor faults. */
  method Divl(high: Word, low: Word, base: Word) returns (quotient: Word, rest: Word)
    requires base > 0 && (high * WORD_MOD + low) / base < WORD_MOD
    ensures quotient == (high * WORD_MOD + low) / base && rest == (high * WORD_MOD + low) % base
  {
    QuotientNonNegative(high * WORD_MOD + low, base);
    quotient := (high * WORD_MOD + low) / base;
    rest := (high * WORD_MOD + low) % base;
  }

  lemma QuotientNonNegative(n: nat, base: nat)
    requires base > 0
    ensures n / base >= 0 && 0 <= n % base < base
  {
  }

  /** With the high part already reduced, the second quotient fits 32 bits. */
  lemma SecondQuotientFits(upper: Word, low: Word, base: Word)
    requires upper < base
    ensures (upper * WORD_MOD + low) / base < WORD_MOD
  {
    var n := upper * WORD_MOD + low;
    var q := n / base;
    assert n == q * base + n % base;
    MulMonotone(upper + 1, base, WORD_MOD);
    if q >= WORD_MOD {
      MulMonotone(WORD_MOD, q, base);
    }
  }

  /** Two-step long division: reducing the high word first, then dividing what is left, gives the
      quotient in two words and the remainder. */
  lemma LongDivision(high: Word, low: Word, base: Word)
    requires base > 0
    ensures var q := (high % base * WORD_MOD + low) / base;
            && (high * WORD_MOD + low) / base == high / base * WORD_MOD + q
            && (high * WORD_MOD + low) % base == (high % base * WORD_MOD + low) % base
  {
    var n := high % base * WORD_MOD + low;
    assert high == high / base * base + high % base;
    assert n == n / base * base + n % base;
    QuotientNonNegative(n, base);
    assert (high / base * base) * WORD_MOD == (high / base * WORD_MOD) * base;
    assert (high / base * WORD_MOD + n / base) * base == (high / base * WORD_MOD) * base + n / base * base;
    DivUnique(high * WORD_MOD + low, base, high / base * WORD_MOD + n / base, n % base);
  }

  /** `do_div`: the new value of the dividend, and the remainder. */
  method DoDiv(n: Quad, base: Word) returns (quotient: Quad, rest: Word)
    requires base > 0
    ensures quotient == n / base && rest == n % base
  {
    var low: Word, high: Word := n % WORD_MOD, n / WORD_MOD;
    assert n == high * WORD_MOD + low;
    var upper := high;
    LongDivision(high, low, base);
    QuotientNonNegative(high, base);
    QuotientBelow(high, base);
    if high != 0 {
      upper := high % base;
      high := high / base;
    } else {
      DivUnique(0, base, 0, 0);
    }
    SecondQuotientFits(upper, low, base);
    low, rest := Divl(upper, low, base);
    quotient := high * WORD_MOD + low;
  }

  lemma QuotientBelow(n: nat, base: nat)
    requires base > 0
    ensures n / base <= n
  {
    var q := n / base;
    assert n == q * base + n % base;
    QuotientNonNegative(n, base);
    MulMonotone(1, base, q);
  }

  /** `get_ticks`, for a time stamp counter of `edx:eax`. */
  method GetTicks(eax: Word, edx: Word) returns (ticks: Word)
    ensures ticks == (edx * 0x1_0000_0000 + eax) / 109000 % 0x1_0000_0000
  {
    var q, _ := DoDiv(edx * WORD_MOD + eax, CYCLESPERTICK);
    ticks := q % WORD_MOD;
  }
}
