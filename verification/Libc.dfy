/** The decimal conversion of libc.c. */
module Libc {
  import opened KernelTypes

  const ZERO := 48 as Byte

  /** The digits of `a`, least significant first, as the first loop of `itoa` produces them. */
  function Backwards(a: nat): seq<Byte> {
    if a == 0 then [] else [Digit(a)] + Backwards(a / 10)
  }

  function Digit(a: nat): Byte {
    (a % 10) as Byte + ZERO
  }

  function Reverse(s: seq<Byte>): (r: seq<Byte>)
    ensures |r| == |s|
  {
    seq(|s|, i requires 0 <= i < |s| => s[|s| - 1 - i])
  }

  function DigitsOf(a: int): seq<Byte> {
    if a > 0 then Backwards(a) else []
  }

  /** What `itoa` leaves before the terminating zero. A negative number gives nothing. */
  function Decimal(a: int): seq<Byte> {
    if a == 0 then [ZERO] else Reverse(DigitsOf(a))
  }

  /** The number a string of digits stands for. */
  function Value(s: seq<Byte>): int {
    if s == [] then 0 else 10 * Value(s[..|s| - 1]) + (s[|s| - 1] as int - ZERO as int)
  }

  predicate IsDigit(b: Byte) {
    ZERO <= b <= ZERO + 9
  }

  lemma {:induction false} BackwardsDigits(a: nat)
    ensures forall i :: 0 <= i < |Backwards(a)| ==> IsDigit(Backwards(a)[i])
    ensures a > 0 ==> |Backwards(a)| > 0 && Backwards(a)[|Backwards(a)| - 1] != ZERO
    ensures Value(Reverse(Backwards(a))) == a
  {
    if a > 0 {
      BackwardsDigits(a / 10);
      var r := Reverse(Backwards(a));
      assert r[..|r| - 1] == Reverse(Backwards(a / 10));
      assert a == 10 * (a / 10) + a % 10;
      if a / 10 == 0 {
        assert Backwards(a) == [Digit(a)];
      }
    }
  }

  /** Round trip: the decimal string of a number parses back to it, is made of digits, and has no
      leading zero unless it is that of zero. */
  lemma DecimalRoundTrip(a: nat)
    ensures Value(Decimal(a)) == a
    ensures |Decimal(a)| > 0 && forall i :: 0 <= i < |Decimal(a)| ==> IsDigit(Decimal(a)[i])
    ensures Decimal(a)[0] == ZERO <==> a == 0
  {
    if a > 0 {
      BackwardsDigits(a);
    } else {
      assert Value([]) == 0;
    }
  }

  /** For which numbers there is a round trip: a negative one has no digits at all. */
  lemma RoundTripIsExact(a: int)
    ensures Value(Decimal(a)) == a <==> a >= 0
    ensures a < 0 ==> Decimal(a) == []
  {
    if a >= 0 {
      DecimalRoundTrip(a);
    }
  }

  lemma {:induction false} BackwardsLength(a: nat, n: nat)
    requires a < Pow10(n)
    ensures |Backwards(a)| <= n
  {
    if a > 0 {
      BackwardsLength(a / 10, n - 1);
    }
  }

  /** Ten characters are enough for the digits of an `int`. */
  lemma IntFitsTenDigits(a: int)
    requires a <= MAX_INT
    ensures |Decimal(a)| <= 10
  {
    if a > 0 {
      assert Pow10(5) == 100000;
      assert Pow10(10) == 100000 * Pow10(5);
      BackwardsLength(a, 10);
    }
  }

  function Pow10(n: nat): nat {
    if n == 0 then 1 else 10 * Pow10(n - 1)
  }

  lemma NextDigit(a: int, i: nat, left: int)
    requires left > 0 && i <= |DigitsOf(a)| && DigitsOf(left) == DigitsOf(a)[i..]
    ensures i < |DigitsOf(a)| && DigitsOf(a)[i] == Digit(left) && DigitsOf(left / 10) == DigitsOf(a)[i + 1..]
  {
    assert DigitsOf(left)[0] == Digit(left) && DigitsOf(left)[1..] == DigitsOf(left / 10);
  }

  /** The first loop of `itoa`: the digits, least significant first. A negative number has none. */
  method WriteBackwards(a: int, b: array<Byte>) returns (i: nat)
    requires |DigitsOf(a)| <= b.Length
    modifies b
    ensures i == |DigitsOf(a)| && b[..i] == DigitsOf(a)
    ensures forall j :: i <= j < b.Length ==> b[j] == old(b[j])
  {
    i := 0;
    var left := a;
    while left > 0
      invariant i <= |DigitsOf(a)| && DigitsOf(left) == DigitsOf(a)[i..]
      invariant forall j :: 0 <= j < i ==> b[j] == DigitsOf(a)[j]
      invariant forall j :: i <= j < b.Length ==> b[j] == old(b[j])
      decreases left
    {
      NextDigit(a, i, left);
      b[i] := Digit(left);
      left := left / 10;
      i := i + 1;
    }
  }

  /** `itoa`. */
  method Itoa(a: int, b: array<Byte>)
    requires |Decimal(a)| < b.Length && 2 <= b.Length
    modifies b
    ensures b[..|Decimal(a)|] == Decimal(a) && b[|Decimal(a)|] == 0
    ensures forall j :: |Decimal(a)| < j < b.Length ==> b[j] == old(b[j])
  {
    if a == 0 {
      b[0] := ZERO;
      b[1] := 0;
      return;
    }
    var i := WriteBackwards(a, b);
    ReverseInPlace(b, i);
    b[i] := 0;
  }

  /** The second loop of `itoa`: exchanges the two ends of the first `n` characters, working inwards. */
  method ReverseInPlace(b: array<Byte>, n: nat)
    requires n <= b.Length
    modifies b
    ensures b[..n] == Reverse(old(b[..n]))
    ensures forall j :: n <= j < b.Length ==> b[j] == old(b[j])
  {
    var k := 0;
    while k < n / 2
      invariant 0 <= k <= n / 2
      invariant forall j :: 0 <= j < k || n - k <= j < n ==> b[j] == old(b[n - 1 - j])
      invariant forall j :: k <= j < n - k || n <= j < b.Length ==> b[j] == old(b[j])
    {
      var c := b[k];
      b[k] := b[n - k - 1];
      b[n - k - 1] := c;
      k := k + 1;
    }
  }

  /** `strlen`: the index of the first zero. */
  method Strlen(a: array<Byte>) returns (i: nat)
    requires 0 in a[..]
    ensures i < a.Length && a[i] == 0 && forall j :: 0 <= j < i ==> a[j] != 0
  {
    i := 0;
    ghost var z :| 0 <= z < a.Length && a[z] == 0;
    while a[i] != 0
      invariant 0 <= i <= z
      invariant forall j :: 0 <= j < i ==> a[j] != 0
      decreases z - i
    {
      i := i + 1;
    }
  }

  /** The two together, as `perror` uses them: the length of what `itoa` wrote is its number of
      digits, and those digits are worth `a`. */
  method ItoaThenStrlen(a: nat, b: array<Byte>) returns (n: nat)
    requires |Decimal(a)| < b.Length && 2 <= b.Length
    modifies b
    ensures n == |Decimal(a)| && Value(b[..n]) == a
  {
    Itoa(a, b);
    DecimalRoundTrip(a);
    ghost var d := |Decimal(a)|;
    assert b[..][d] == 0;
    n := Strlen(b);
    assert forall j :: 0 <= j < d ==> b[j] == b[..d][j] && IsDigit(b[..d][j]);
  }
}
