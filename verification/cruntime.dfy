/** The few conversions of the C language and its library that the game relies on:
    `double` to `int` conversion, `round`, `atoi`, `itoa`, and writes into fixed arrays
    that the program does not bounds-check. */
module CRuntime {

  /** Conversion of a `double` to an `int` (an implicit argument conversion in C):
      the fraction is discarded, rounding toward zero. This is not `Floor` for negative values. */
  function TruncToInt(v: real): (n: int)
    ensures 0.0 <= v ==> n as real <= v < n as real + 1.0
    ensures v < 0.0 ==> n as real - 1.0 < v <= n as real
  {
    if v >= 0.0 then v.Floor else -((-v).Floor)
  }

  /** C's conversion and `Floor` disagree on negative fractions: -0.5 becomes 0, not -1. */
  lemma TruncIsNotFloor()
    ensures TruncToInt(-0.5) == 0 && (-0.5).Floor == -1
  {
  }

  /** `round` from math.h: the nearest integer, halfway cases rounded away from zero. */
  function Round(v: real): (n: int)
    ensures 0.0 <= v ==> n as real - 0.5 <= v < n as real + 0.5
    ensures v < 0.0 ==> n as real - 0.5 < v <= n as real + 0.5
  {
    if v >= 0.0 then (v + 0.5).Floor else -((0.5 - v).Floor)
  }

  predicate IsDigit(c: char) {
    '0' <= c <= '9'
  }

  function DigitValue(c: char): (d: nat)
    requires IsDigit(c)
    ensures d < 10
  {
    (c as int) - ('0' as int)
  }

  function DigitChar(d: nat): (c: char)
    requires d < 10
    ensures IsDigit(c) && DigitValue(c) == d
  {
    (('0' as int) + d) as char
  }

  predicate AllDigits(s: seq<char>) {
    forall i :: 0 <= i < |s| ==> IsDigit(s[i])
  }

  /** The number of leading decimal digits of `s`: where `atoi` stops reading. */
  function DigitRun(s: seq<char>): (k: nat)
    ensures k <= |s|
    ensures AllDigits(s[..k])
    ensures k < |s| ==> !IsDigit(s[k])
  {
    if |s| == 0 || !IsDigit(s[0]) then 0
    else
      var k := 1 + DigitRun(s[1..]);
      assert s[..k] == [s[0]] + s[1..][..k - 1];
      k
  }

  /** The value of a sequence of decimal digits, most significant first. */
  function DecimalValue(ds: seq<char>): nat
    requires AllDigits(ds)
  {
    if |ds| == 0 then 0
    else DecimalValue(ds[..|ds| - 1]) * 10 + DigitValue(ds[|ds| - 1])
  }

  function Pow10(k: nat): (p: nat)
    ensures p >= 1
  {
    if k == 0 then 1 else 10 * Pow10(k - 1)
  }

  /** The value of the leading digits of a buffer holding only digits and NUL characters, as
      an unbounded number: what `atoi` reads before its 16-bit arithmetic is applied. */
  function Atoi(s: seq<char>): (n: nat)
    ensures n < Pow10(DigitRun(s))
    ensures DigitRun(s) == 0 ==> n == 0
  {
    var k := DigitRun(s);
    DecimalValueBound(s[..k]);
    DecimalValue(s[..k])
  }

  lemma {:induction false} DecimalValueBound(ds: seq<char>)
    requires AllDigits(ds)
    ensures DecimalValue(ds) < Pow10(|ds|)
  {
    if |ds| > 0 {
      DecimalValueBound(ds[..|ds| - 1]);
    }
  }

  /** `atoi` on digits followed by anything that does not start with a digit reads the
      digits. */
  lemma AtoiOfDigits(s: seq<char>, rest: seq<char>)
    requires AllDigits(s) && (|rest| == 0 || !IsDigit(rest[0]))
    ensures Atoi(s + rest) == DecimalValue(s)
  {
    DigitRunOfDigits(s, rest);
    assert (s + rest)[..|s|] == s;
  }

  /** The smallest and largest `int` of the 8-bit target, where `int` has 16 bits. */
  const IntMin: int := -32768
  const IntMax: int := 32767

  /** A value stored in a 16-bit `int`: two's complement wrap-around modulo 65536. */
  function Int16(v: int): (r: int)
    ensures IntMin <= r <= IntMax
    ensures (v - r) % 65536 == 0
    ensures IntMin <= v <= IntMax ==> r == v
  {
    var m := v % 65536;
    if m > IntMax then m - 65536 else m
  }

  /** The wrap is the only `int` that differs from the value by a multiple of 65536; in
      particular a value within the range of `int` is kept. */
  lemma Int16Unique(v: int, r: int)
    requires IntMin <= r <= IntMax && (v - r) % 65536 == 0
    ensures Int16(v) == r
  {
    var w := Int16(v);
    assert v == (v / 65536) * 65536 + v % 65536;
    assert v - r == ((v - r) / 65536) * 65536;
    var j := (v - r) / 65536 - v / 65536;
    assert w - r == j * 65536 || w - r == j * 65536 - 65536;
    assert -65536 < w - r < 65536;
  }

  /** Wrapping after every step of `10 * n + d` gives what wrapping once at the end gives. */
  lemma Int16Step(v: int, d: int)
    ensures Int16(Int16(v) * 10 + d) == Int16(v * 10 + d)
  {
    var w := Int16(v);
    var r := Int16(w * 10 + d);
    var k := (v - w) / 65536;
    assert v - w == k * 65536;
    ShiftByMultiple(w * 10 + d - r, k * 10);
    assert v * 10 + d - r == (w * 10 + d - r) + (k * 10) * 65536;
    Int16Unique(v * 10 + d, r);
  }

  /** Adding a multiple of 65536 keeps the remainder modulo 65536. */
  lemma ShiftByMultiple(a: int, k: int)
    ensures (a + k * 65536) % 65536 == a % 65536
  {
    var q := a / 65536;
    assert a + k * 65536 == (q + k) * 65536 + a % 65536;
  }

  /** avr-libc's `atoi` loop on a run of digits: `n = 10 * n + digit`, computed in a 16-bit
      `int`, so every step wraps around. */
  function WrappedDecimal(ds: seq<char>): (n: int)
    requires AllDigits(ds)
    ensures IntMin <= n <= IntMax
  {
    if |ds| == 0 then 0
    else Int16(WrappedDecimal(ds[..|ds| - 1]) * 10 + DigitValue(ds[|ds| - 1]))
  }

  /** The loop's result is the digits' value wrapped once into an `int`. */
  lemma {:induction false} WrappedDecimalWraps(ds: seq<char>)
    requires AllDigits(ds)
    ensures WrappedDecimal(ds) == Int16(DecimalValue(ds))
  {
    if |ds| == 0 {
      Int16Unique(0, 0);
    } else {
      var ds' := ds[..|ds| - 1];
      assert AllDigits(ds');
      WrappedDecimalWraps(ds');
      Int16Step(DecimalValue(ds'), DigitValue(ds[|ds| - 1]));
    }
  }

  /** `atoi` as the target computes it: the value of the leading digits in a 16-bit `int`.
      Up to 32767 that is the value itself; 40000 reads as -25536 and 70000 as 4464. */
  function AtoiInt(s: seq<char>): (n: int)
    ensures IntMin <= n <= IntMax
    ensures n == Int16(Atoi(s))
    ensures Atoi(s) <= IntMax ==> n == Atoi(s)
  {
    var k := DigitRun(s);
    WrappedDecimalWraps(s[..k]);
    WrappedDecimal(s[..k])
  }

  /** The decimal digits of `n`, without leading zeros. */
  function Digits(n: nat): (s: string)
    ensures |s| >= 1 && AllDigits(s)
    ensures s[0] == '0' ==> n == 0
  {
    if n < 10 then [DigitChar(n)] else Digits(n / 10) + [DigitChar(n % 10)]
  }

  /** `itoa(n, buf, 10)`: decimal text of `n`, with a leading '-' when negative. */
  function Itoa(n: int): (s: string)
    ensures |s| >= 1
    ensures n >= 0 <==> s[0] != '-'
    ensures n >= 0 ==> AllDigits(s)
    ensures n < 0 ==> AllDigits(s[1..]) && |s| >= 2
  {
    if n >= 0 then Digits(n) else "-" + Digits(-n)
  }

  lemma {:induction false} DecimalValueOfDigits(n: nat)
    ensures DecimalValue(Digits(n)) == n
  {
    if n >= 10 {
      DecimalValueOfDigits(n / 10);
      var s := Digits(n / 10) + [DigitChar(n % 10)];
      assert s[..|s| - 1] == Digits(n / 10);
    }
  }

  /** `atoi` reads back what `itoa` wrote, also when the text is followed by its NUL terminator. */
  lemma AtoiItoa(n: nat)
    ensures Atoi(Itoa(n)) == n
    ensures Atoi(Itoa(n) + ['\0']) == n
  {
    var s := Itoa(n);
    assert DigitRun(s) == |s| by { DigitRunOfDigits(s, []); }
    assert DigitRun(s + ['\0']) == |s| by { DigitRunOfDigits(s, ['\0']); }
    assert (s + ['\0'])[..|s|] == s;
    assert s[..|s|] == s;
    DecimalValueOfDigits(n);
  }

  lemma {:induction false} DigitRunOfDigits(s: seq<char>, t: seq<char>)
    requires AllDigits(s)
    requires |t| == 0 || !IsDigit(t[0])
    ensures DigitRun(s + t) == |s|
  {
    if |s| > 0 {
      assert (s + t)[1..] == s[1..] + t;
      DigitRunOfDigits(s[1..], t);
    }
  }

  /** A store into element `k` of a C array that the program does not bounds-check. The array
      is modelled as a sequence that grows by one element when written one past its end. */
  function Put<T>(s: seq<T>, k: nat, v: T): (r: seq<T>)
    requires k <= |s|
    ensures |r| == if k == |s| then |s| + 1 else |s|
    ensures r[k] == v
    ensures forall i :: 0 <= i < |s| && i != k ==> r[i] == s[i]
  {
    if k == |s| then s + [v] else s[k := v]
  }
}
