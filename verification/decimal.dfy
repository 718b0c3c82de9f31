/**
 * Decimal rendering and parsing of Go integers: `strconv.Itoa` (and
 * `fmt.Sprintf("%d", n)`) and `strconv.Atoi`. Go's `int` is taken to be
 * 64 bits wide, as on every platform the program targets.
 */
module Decimal {
  import opened Wrappers
  import opened ByteStrings

  const MinInt64: int := -0x8000_0000_0000_0000
  const MaxInt64: int := 0x7fff_ffff_ffff_ffff
  const MinInt32: int := -0x8000_0000
  const MaxInt32: int := 0x7fff_ffff

  const Minus: byte := 45
  const Plus: byte := 43
  const Zero: byte := 48

  predicate IsDigit(b: byte) {
    Zero <= b <= Zero + 9
  }

  predicate AllDigits(s: Bytes) {
    forall i | 0 <= i < |s| :: IsDigit(s[i])
  }

  /** The decimal digits of `n`, most significant first, without leading zeros. */
  function Digits(n: nat): (r: Bytes)
    ensures |r| >= 1 && AllDigits(r)
    ensures n > 0 ==> r[0] != Zero
    ensures n == 0 ==> r == [Zero]
  {
    if n < 10 then [Zero + n] else Digits(n / 10) + [Zero + n % 10]
  }

  /**
   * `strconv.Itoa`: the canonical signed decimal text, with a leading '-'
   * for negative numbers only, no '+', and no leading zero.
   */
  function Itoa(n: int): (r: Bytes)
    ensures |r| >= 1
    ensures r[0] == Minus <==> n < 0
    ensures n >= 0 ==> AllDigits(r) && (|r| > 1 ==> r[0] != Zero)
    ensures n < 0 ==> |r| >= 2 && AllDigits(r[1..]) && r[1] != Zero
  {
    if n < 0 then [Minus] + Digits(-n) else Digits(n)
  }

  /** The number a string of decimal digits denotes. */
  function ValueOf(s: Bytes): nat
    requires AllDigits(s)
  {
    if |s| == 0 then 0 else ValueOf(s[..|s| - 1]) * 10 + (s[|s| - 1] - Zero)
  }

  /**
   * `strconv.Atoi`: an optional sign followed by at least one decimal digit,
   * nothing else, and a value that fits in 64 bits; anything else is an error.
   */
  function Atoi(s: Bytes): (r: Option<int>)
    ensures r.Some? ==> MinInt64 <= r.value <= MaxInt64
    ensures r.Some? ==> AllDigits(s) || (|s| >= 2 && (s[0] == Minus || s[0] == Plus) && AllDigits(s[1..]))
    ensures |s| >= 1 && AllDigits(s) ==>
              r == if ValueOf(s) <= MaxInt64 then Some(ValueOf(s) as int) else None
    ensures |s| >= 2 && s[0] == Plus && AllDigits(s[1..]) ==>
              r == if ValueOf(s[1..]) <= MaxInt64 then Some(ValueOf(s[1..]) as int) else None
    ensures |s| >= 2 && s[0] == Minus && AllDigits(s[1..]) ==>
              r == if ValueOf(s[1..]) <= -MinInt64 then Some(-(ValueOf(s[1..]) as int)) else None
  {
    var signed := |s| > 0 && (s[0] == Minus || s[0] == Plus);
    var body := if signed then s[1..] else s;
    if |body| == 0 || !AllDigits(body) then None
    else
      var v: int := if signed && s[0] == Minus then -(ValueOf(body) as int) else ValueOf(body);
      if MinInt64 <= v <= MaxInt64 then Some(v) else None
  }

  lemma {:induction false} ValueOfDigits(n: nat)
    ensures ValueOf(Digits(n)) == n
  {
    var d := Digits(n);
    if n >= 10 {
      ValueOfDigits(n / 10);
      assert d[..|d| - 1] == Digits(n / 10);
    }
  }

  /** Parsing what `Itoa` rendered gives the number back. */
  lemma ItoaAtoi(n: int)
    requires MinInt64 <= n <= MaxInt64
    ensures Atoi(Itoa(n)) == Some(n)
  {
    var s := Itoa(n);
    if n < 0 {
      ValueOfDigits(-n);
      assert s[1..] == Digits(-n);
    } else {
      ValueOfDigits(n);
    }
  }

  /** `Itoa` is injective: distinct numbers render differently. */
  lemma ItoaInjective(m: int, n: int)
    requires MinInt64 <= m <= MaxInt64 && MinInt64 <= n <= MaxInt64
    requires Itoa(m) == Itoa(n)
    ensures m == n
  {
    ItoaAtoi(m);
    ItoaAtoi(n);
  }
}
