// Helper routines shared by the drivers: range mapping, min/max, absolute
// value and the C-string routines used to render integers on the display.
module AuxFunctions {

  /** A signed 32-bit integer, the type of L2Str's argument. */
  type Int32 = x: int | -0x8000_0000 <= x < 0x8000_0000

  /** The one int32 value whose negation overflows. */
  const Int32Min: int := -0x8000_0000

  /** `r` lies between `a` and `b`, whichever of them is the larger. */
  predicate Between(r: real, a: real, b: real) {
    (a <= r <= b) || (b <= r <= a)
  }

  /**
   * Maps `value` from the range [inMin, inMax] to [outMin, outMax]. Values at
   * or above inMax give outMax; values at or below inMin give outMin; the
   * upper test is made first.
   */
  function Map(value: real, inMin: real, inMax: real, outMin: real, outMax: real): (r: real)
    ensures value >= inMax ==> r == outMax
    ensures value < inMax && value <= inMin ==> r == outMin
    ensures inMin < value < inMax ==>
      (r - outMin) * (inMax - inMin) == (value - inMin) * (outMax - outMin)
  {
    if value >= inMax then outMax
    else if value <= inMin then outMin
    else (value - inMin) * (outMax - outMin) / (inMax - inMin) + outMin
  }

  /** Inside the input range the mapped value stays inside the output range. */
  lemma MapBetween(value: real, inMin: real, inMax: real, outMin: real, outMax: real)
    requires inMin < inMax
    ensures Between(Map(value, inMin, inMax, outMin, outMax), outMin, outMax)
  {
    if inMin < value < inMax {
      var t := (value - inMin) / (inMax - inMin);
      RatioInUnit(value - inMin, inMax - inMin);
      var r := Map(value, inMin, inMax, outMin, outMax);
      assert r == t * (outMax - outMin) + outMin;
      if outMin <= outMax {
        ScaleBelow(t, outMax - outMin);
      } else {
        ScaleBelow(t, outMin - outMax);
        assert t * (outMax - outMin) == -(t * (outMin - outMax));
      }
    }
  }

  lemma RatioInUnit(a: real, d: real)
    requires 0.0 < a < d
    ensures 0.0 < a / d < 1.0
  {
    var t := a / d;
    assert t * d == a;
    assert (1.0 - t) * d == d - a;
    PositiveFactor(1.0 - t, d);
  }

  lemma PositiveFactor(x: real, d: real)
    requires d > 0.0 && x * d > 0.0
    ensures x > 0.0
  {
  }

  lemma ScaleBelow(t: real, d: real)
    requires 0.0 < t < 1.0 && 0.0 <= d
    ensures 0.0 <= t * d <= d
  {
    assert d - t * d == (1.0 - t) * d;
  }

  /** With increasing ranges, Map is monotone. */
  lemma MapMonotone(v1: real, v2: real, inMin: real, inMax: real, outMin: real, outMax: real)
    requires inMin < inMax && outMin <= outMax && v1 <= v2
    ensures Map(v1, inMin, inMax, outMin, outMax) <= Map(v2, inMin, inMax, outMin, outMax)
  {
    MapBetween(v1, inMin, inMax, outMin, outMax);
    MapBetween(v2, inMin, inMax, outMin, outMax);
    if inMin < v1 && v2 < inMax {
      var d := inMax - inMin;
      var t1 := (v1 - inMin) / d;
      var t2 := (v2 - inMin) / d;
      assert t1 <= t2;
      assert (t2 - t1) * (outMax - outMin) >= 0.0;
      assert t2 * (outMax - outMin) - t1 * (outMax - outMin) == (t2 - t1) * (outMax - outMin);
    }
  }

  /** The smaller of two values (the second when they compare equal). */
  function Min(a: real, b: real): (r: real)
    ensures r <= a && r <= b
    ensures r == a || r == b
  {
    if a < b then a else b
  }

  /** The larger of two values (the second when they compare equal). */
  function Max(a: real, b: real): (r: real)
    ensures r >= a && r >= b
    ensures r == a || r == b
  {
    if a > b then a else b
  }

  /** Absolute value. */
  function FastFabs(x: real): (r: real)
    ensures r >= 0.0
    ensures r == x || r == -x
  {
    if x < 0.0 then -x else x
  }

  // ---------------------------------------------------------------------
  // C strings

  /** Index of the terminating NUL of a zero-terminated string. */
  function CStringLength(s: seq<char>): (n: nat)
    requires '\0' in s
    ensures n < |s| && s[n] == '\0'
    ensures forall k :: 0 <= k < n ==> s[k] != '\0'
  {
    if s[0] == '\0' then 0 else 1 + CStringLength(s[1..])
  }

  /**
   * Copies the zero-terminated string in `source` to `destination`,
   * terminator included, and returns `destination`. The two arrays may be
   * the same array.
   */
  method Strcpy(destination: array<char>, source: array<char>) returns (r: array<char>)
    requires '\0' in source[..]
    requires CStringLength(source[..]) < destination.Length
    modifies destination
    ensures r == destination
    ensures var n := CStringLength(old(source[..]));
      r[..n] == old(source[..n]) && r[n] == '\0' &&
      forall k :: n < k < r.Length ==> r[k] == old(r[k])
  {
    ghost var s0 := source[..];
    ghost var n := CStringLength(s0);
    var i := 0;
    while source[i] != '\0'
      invariant 0 <= i <= n
      invariant forall k :: i <= k < source.Length ==> source[k] == s0[k]
      invariant forall k :: 0 <= k < i ==> destination[k] == s0[k]
      invariant forall k :: i <= k < destination.Length ==> destination[k] == old(destination[k])
      decreases n - i
    {
      destination[i] := source[i];
      i := i + 1;
    }
    destination[i] := '\0';
    r := destination;
  }

  /**
   * Reverses, in place, the characters from index `begin` to index `end`
   * inclusive; nothing happens unless begin < end.
   */
  method StrReverse(str: array<char>, begin: int, end: int)
    requires begin < end ==> 0 <= begin && end < str.Length
    modifies str
    ensures forall k :: 0 <= k < str.Length && begin <= k <= end ==> str[k] == old(str[begin + end - k])
    ensures forall k :: 0 <= k < str.Length && !(begin <= k <= end) ==> str[k] == old(str[k])
  {
    var b, e := begin, end;
    while b < e
      invariant begin <= b && e <= end && b - begin == end - e
      invariant begin < end || (b == begin && e == end)
      invariant begin < end ==> b <= e + 1
      invariant forall k :: 0 <= k < str.Length ==>
        str[k] == if begin <= k < b || e < k <= end then old(str[begin + end - k]) else old(str[k])
    {
      var c := str[b];
      str[b] := str[e];
      str[e] := c;
      b, e := b + 1, e - 1;
    }
    assert b + e == begin + end;
  }

  // ---------------------------------------------------------------------
  // Decimal text of an integer

  function DigitChar(d: nat): (c: char)
    requires d < 10
    ensures '0' <= c <= '9'
  {
    ('0' as int + d) as char
  }

  /** The decimal digits of `n`, most significant first, without leading zeros. */
  function Digits(n: nat): (s: seq<char>)
    ensures 1 <= |s| && '0' <= s[0] <= '9'
    ensures forall k :: 0 <= k < |s| ==> '0' <= s[k] <= '9'
  {
    if n < 10 then [DigitChar(n)] else Digits(n / 10) + [DigitChar(n % 10)]
  }

  /** The text L2Str writes for `x`: a '-' for negative values, then the digits of |x|. */
  function Decimal(x: int): (s: seq<char>)
    ensures 1 <= |s| && (s[0] == '-' <==> x < 0)
    ensures forall k :: 0 <= k < |s| ==> (k == 0 && x < 0) || '0' <= s[k] <= '9'
  {
    if x < 0 then ['-'] + Digits(-x) else Digits(x)
  }

  /** Reads a string of decimal digits, most significant first. */
  function DigitsValue(s: seq<char>): int {
    if s == [] then 0 else DigitsValue(s[..|s| - 1]) * 10 + (s[|s| - 1] as int - '0' as int)
  }

  /** Reads an optionally '-'-prefixed decimal string. */
  function DecimalValue(s: seq<char>): int {
    if |s| > 0 && s[0] == '-' then -DigitsValue(s[1..]) else DigitsValue(s)
  }

  lemma {:induction false} DigitsRoundTrip(n: nat)
    ensures DigitsValue(Digits(n)) == n
  {
    if n >= 10 {
      DigitsRoundTrip(n / 10);
      var s := Digits(n);
      assert s[..|s| - 1] == Digits(n / 10);
    }
  }

  /** L2Str's text reads back as the number it was made from. */
  lemma DecimalRoundTrip(x: int)
    ensures DecimalValue(Decimal(x)) == x
  {
    if x < 0 {
      DigitsRoundTrip(-x);
      assert Decimal(x)[1..] == Digits(-x);
    } else {
      DigitsRoundTrip(x);
    }
  }

  /** Only the number zero is written with a leading '0'. */
  lemma {:induction false} DigitsNoLeadingZero(n: nat)
    ensures Digits(n)[0] == '0' <==> n == 0
  {
    if n >= 10 {
      DigitsNoLeadingZero(n / 10);
    }
  }

  function Pow10(k: nat): nat {
    if k == 0 then 1 else 10 * Pow10(k - 1)
  }

  /** A number below 10^k has at most k digits. */
  lemma {:induction false} DigitsLength(n: nat, k: nat)
    requires 1 <= k && n < Pow10(k)
    ensures |Digits(n)| <= k
  {
    if n >= 10 {
      DigitsLength(n / 10, k - 1);
    }
  }

  /** A number of at least 10^k has more than k digits. */
  lemma {:induction false} DigitsLengthAtLeast(n: nat, k: nat)
    requires Pow10(k) <= n
    ensures |Digits(n)| > k
  {
    if k > 0 {
      DigitsLengthAtLeast(n / 10, k - 1);
    }
  }

  /** Every int32 except the minimum is written in at most 11 characters. */
  lemma DecimalLength(x: Int32)
    requires x != Int32Min
    ensures |Decimal(x)| <= 11
  {
    assert Pow10(10) == 10_000_000_000;
    if x < 0 { DigitsLength(-x, 10); } else { DigitsLength(x, 10); }
  }

  lemma {:induction false} DigitsSplit(n: nat)
    ensures Digits(n) == (if n < 10 then [] else Digits(n / 10)) + [DigitChar(n % 10)]
  {
  }

  /** One round of L2Str's digit loop keeps the written digits and the remaining number in step. */
  lemma {:induction false} ConversionStep(m: nat, num: nat, seg: seq<char>)
    requires Digits(m) == Digits(num) + Reversed(seg)
    ensures Digits(m) == (if num < 10 then [] else Digits(num / 10)) + Reversed(seg + [DigitChar(num % 10)])
  {
    var rest := if num < 10 then [] else Digits(num / 10);
    var d := DigitChar(num % 10);
    DigitsSplit(num);
    ReversedSnoc(seg, d);
    assert Digits(num) + Reversed(seg) == rest + Reversed(seg + [d]);
  }

  function Reversed(s: seq<char>): (r: seq<char>)
    ensures |r| == |s|
  {
    if s == [] then [] else Reversed(s[1..]) + [s[0]]
  }

  lemma {:induction false} ReversedAt(s: seq<char>, k: nat)
    requires k < |s|
    ensures Reversed(s)[k] == s[|s| - 1 - k]
  {
    if k < |s| - 1 {
      ReversedAt(s[1..], k);
    }
  }

  lemma {:induction false} ReversedSnoc(s: seq<char>, c: char)
    ensures Reversed(s + [c]) == [c] + Reversed(s)
  {
    if s != [] {
      assert (s + [c])[1..] == s[1..] + [c];
      ReversedSnoc(s[1..], c);
    }
  }

  /** Reversing the indices lo..hi-1 of a sequence in place reverses that slice. */
  lemma {:induction false} ReverseSegment(before: seq<char>, after: seq<char>, lo: nat, hi: nat)
    requires lo <= hi <= |before| == |after|
    requires forall k :: lo <= k < hi ==> after[k] == before[lo + hi - 1 - k]
    ensures after[lo..hi] == Reversed(before[lo..hi])
  {
    forall k | 0 <= k < hi - lo
      ensures after[lo..hi][k] == Reversed(before[lo..hi])[k]
    {
      ReversedAt(before[lo..hi], k);
    }
  }

  /** A '-' (for a negative number) followed by its digits is its decimal text. */
  lemma {:induction false} SignedText(number: int, text: seq<char>, start: nat, p: nat)
    requires start == (if number < 0 then 1 else 0) && start <= p <= |text|
    requires number < 0 ==> text[0] == '-'
    requires text[start..p] == Digits(if number < 0 then -number else number)
    ensures text[..p] == Decimal(number)
  {
    if number < 0 {
      assert text[..p] == [text[0]] + text[1..p];
    } else {
      assert text[..p] == text[0..p];
    }
  }

  /**
   * The do-while loop of L2Str: writes the digits of `num` from index
   * `start` on, least significant first, and returns the index after the
   * last one.
   */
  method WriteDigitsBackwards(str: array<char>, start: nat, num0: nat) returns (p: nat)
    requires start + |Digits(num0)| <= str.Length
    modifies str
    ensures p == start + |Digits(num0)|
    ensures Reversed(str[start..p]) == Digits(num0)
    ensures str[start] == DigitChar(num0 % 10)
    ensures forall k :: 0 <= k < str.Length && !(start <= k < p) ==> str[k] == old(str[k])
  {
    p := start;
    var num := num0;
    ghost var rest := Digits(num0);
    ghost var written: seq<char> := [];
    var more := true;
    while more
      invariant start <= p
      invariant p == start ==> num == num0 && more
      invariant p > start ==> str[start] == DigitChar(num0 % 10)
      invariant |Digits(num0)| == |rest| + (p - start)
      invariant more ==> rest == Digits(num)
      invariant !more ==> rest == []
      invariant Digits(num0) == rest + Reversed(written)
      invariant str[start..p] == written
      invariant forall k :: 0 <= k < str.Length && !(start <= k < p) ==> str[k] == old(str[k])
      decreases num, more
    {
      var digit := DigitChar(num % 10);
      ConversionStep(num0, num, written);
      rest := if num < 10 then [] else Digits(num / 10);
      written := written + [digit];
      str[p] := digit;
      p := p + 1;
      num := num / 10;
      more := num != 0;
    }
  }

  /**
   * Writes the decimal text of `number` and a terminating NUL into `str`,
   * and returns the number of characters written before the NUL. The text
   * is built least significant digit first and then reversed in place.
   */
  method L2Str(number: Int32, str: array<char>) returns (count: nat)
    requires number != Int32Min
    requires |Decimal(number)| < str.Length
    modifies str
    ensures count == |Decimal(number)|
    ensures str[..count] == Decimal(number) && str[count] == '\0'
    ensures forall k :: count < k < str.Length ==> str[k] == old(str[k])
  {
    var p := 0;
    var num: int := number;
    if num < 0 {
      str[p] := '-';
      p := p + 1;
      num := -num;
    }
    ghost var start := p;
    p := WriteDigitsBackwards(str, p, num);
    var begin := if str[0] == '-' then 1 else 0;
    assert begin == start;
    ghost var before := str[..];
    StrReverse(str, begin, p - 1);
    ghost var after := str[..];
    ReverseSegment(before, after, start, p);
    SignedText(number, after, start, p);
    str[p] := '\0';
    count := p;
    assert str[..count] == after[..p];
  }
}
