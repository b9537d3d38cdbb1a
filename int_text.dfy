/**
 * The integer <-> text conversions the code relies on: .NET's `int.Parse(string)` and
 * `int.ToString()` (claims carry user ids as decimal text) and JavaScript's
 * `parseInt(string)` with no radix (the client reads the id claim back).
 */
module IntText {
  import opened Wrappers

  const Int32Min: int := -0x8000_0000
  const Int32Max: int := 0x7FFF_FFFF

  /** The values of a C# `int`. */
  predicate IsInt32(n: int)
  {
    Int32Min <= n <= Int32Max
  }

  /**
   * The result of C#'s unchecked `int` arithmetic whose exact value is `n`: the 32-bit
   * value congruent to `n` modulo 2^32, so that `int.MaxValue + 1` is `int.MinValue`.
   */
  function WrapInt32(n: int): (r: int)
    ensures IsInt32(r)
    ensures IsInt32(n) ==> r == n
    ensures (n - r) % 0x1_0000_0000 == 0
  {
    (n - Int32Min) % 0x1_0000_0000 + Int32Min
  }

  /** Digit value of a character in any radix up to 36; 36 for a character that is no digit. */
  function CharValue(c: char): (v: nat)
    ensures v <= 36
    ensures v < 10 <==> '0' <= c <= '9'
  {
    if '0' <= c <= '9' then c as int - '0' as int
    else if 'a' <= c <= 'z' then c as int - 'a' as int + 10
    else if 'A' <= c <= 'Z' then c as int - 'A' as int + 10
    else 36
  }

  predicate IsDigitIn(c: char, radix: nat)
  {
    CharValue(c) < radix
  }

  predicate AllDigitsIn(s: string, radix: nat)
  {
    forall i :: 0 <= i < |s| ==> IsDigitIn(s[i], radix)
  }

  /** The number the digit string `s` denotes in base `radix`, most significant digit first. */
  function ValueIn(s: string, radix: nat): (v: nat)
    requires AllDigitsIn(s, radix)
  {
    if s == [] then 0
    else ValueIn(s[..|s| - 1], radix) * radix + CharValue(s[|s| - 1])
  }

  /** The number of leading characters of `s` that satisfy `keep`. */
  function PrefixCount(s: string, keep: char -> bool): (k: nat)
    ensures k <= |s|
    ensures forall i :: 0 <= i < k ==> keep(s[i])
    ensures k < |s| ==> !keep(s[k])
  {
    if s == [] || !keep(s[0]) then 0
    else 1 + PrefixCount(s[1..], keep)
  }

  /** The number of trailing characters of `s` that satisfy `keep`. */
  function SuffixCount(s: string, keep: char -> bool): (k: nat)
    ensures k <= |s|
    ensures forall i :: |s| - k <= i < |s| ==> keep(s[i])
    ensures k < |s| ==> !keep(s[|s| - 1 - k])
  {
    if s == [] || !keep(s[|s| - 1]) then 0
    else 1 + SuffixCount(s[..|s| - 1], keep)
  }

  // ------------------------------------------------------------------
  // .NET: int.Parse(string) under NumberStyles.Integer, int.ToString()
  // ------------------------------------------------------------------

  /** The white space NumberStyles.AllowLeadingWhite and AllowTrailingWhite skip: U+0009-U+000D and U+0020. */
  predicate IsNetWhite(c: char)
  {
    c == ' ' || '\t' <= c <= '\r'
  }

  predicate IsDecimalDigit(c: char)
  {
    IsDigitIn(c, 10)
  }

  /** `s` without its leading and trailing white space. */
  function TrimNetWhite(s: string): string
  {
    var rest := s[PrefixCount(s, IsNetWhite)..];
    rest[..|rest| - SuffixCount(rest, IsNetWhite)]
  }

  /**
   * `int.Parse(s)`: optional white space, an optional '+' or '-', one or more decimal
   * digits, optional white space, and a value that fits an `int`. `None` is the
   * FormatException or OverflowException the call throws.
   */
  function ParseInt32(s: string): (r: Option<int>)
    ensures r.Some? ==> IsInt32(r.value)
  {
    ParseSignedDecimal(TrimNetWhite(s))
  }

  /** What int.Parse makes of the text between the white space. */
  function ParseSignedDecimal(body: string): (r: Option<int>)
    ensures r.Some? ==> IsInt32(r.value)
  {
    var negative := |body| > 0 && body[0] == '-';
    var digits := if |body| > 0 && (body[0] == '-' || body[0] == '+') then body[1..] else body;
    if digits == [] || !AllDigitsIn(digits, 10) then None
    else
      var v: int := if negative then -(ValueIn(digits, 10) as int) else ValueIn(digits, 10);
      if IsInt32(v) then Some(v) else None
  }

  /** The decimal digits of `n`, without leading zeros. */
  function NatText(n: nat): (s: string)
    ensures |s| > 0 && AllDigitsIn(s, 10)
    ensures ValueIn(s, 10) == n
    ensures s[0] == '0' ==> n == 0
  {
    if n < 10 then ['0' + n as char]
    else
      var front := NatText(n / 10);
      var s := front + ['0' + (n % 10) as char];
      assert s[..|s| - 1] == front;
      s
  }

  /** `n.ToString()` in the invariant culture: a '-' before the digits of a negative number. */
  function DecimalText(n: int): (s: string)
    ensures |s| > 0
    ensures n >= 0 ==> s == NatText(n)
    ensures n < 0 ==> s == "-" + NatText(-n)
  {
    if n < 0 then "-" + NatText(-n) else NatText(n)
  }

  /** `int.Parse(n.ToString()) == n`: the id claim written at login reads back as the id. */
  lemma ParseDecimalText(n: int)
    requires IsInt32(n)
    ensures ParseInt32(DecimalText(n)) == Some(n)
  {
    var s := DecimalText(n);
    var digits := NatText(if n < 0 then -n else n);
    assert !IsNetWhite(s[0]);
    assert !IsNetWhite(s[|s| - 1]) by {
      assert s[|s| - 1] == digits[|digits| - 1];
    }
    var rest := s[PrefixCount(s, IsNetWhite)..];
    assert rest == s;
    assert rest[..|rest| - SuffixCount(rest, IsNetWhite)] == s;
    if n < 0 {
      assert s[1..] == digits;
    }
  }

  /** Surrounding white space does not change what int.Parse reads. */
  lemma ParseIgnoresWhite(w1: string, s: string, w2: string)
    requires forall i :: 0 <= i < |w1| ==> IsNetWhite(w1[i])
    requires forall i :: 0 <= i < |w2| ==> IsNetWhite(w2[i])
    requires |s| > 0 && !IsNetWhite(s[0]) && !IsNetWhite(s[|s| - 1])
    ensures ParseInt32(w1 + s + w2) == ParseInt32(s)
  {
    TrimAround(w1, s, w2);
    TrimAround([], s, []);
    assert [] + s + [] == s;
  }

  lemma TrimAround(w1: string, s: string, w2: string)
    requires forall i :: 0 <= i < |w1| ==> IsNetWhite(w1[i])
    requires forall i :: 0 <= i < |w2| ==> IsNetWhite(w2[i])
    requires |s| > 0 && !IsNetWhite(s[0]) && !IsNetWhite(s[|s| - 1])
    ensures TrimNetWhite(w1 + s + w2) == s
  {
    var t := w1 + s + w2;
    PrefixOfWhite(w1, s + w2);
    assert t == w1 + (s + w2);
    var rest := t[|w1|..];
    assert rest == s + w2;
    SuffixOfWhite(s, w2);
    assert rest[..|rest| - |w2|] == s;
  }

  lemma {:induction false} PrefixOfWhite(w: string, s: string)
    requires forall i :: 0 <= i < |w| ==> IsNetWhite(w[i])
    requires |s| > 0 && !IsNetWhite(s[0])
    ensures PrefixCount(w + s, IsNetWhite) == |w|
  {
    assert (w + s)[|w|] == s[0];
    assert forall i :: 0 <= i < |w| ==> (w + s)[i] == w[i];
  }

  lemma {:induction false} SuffixOfWhite(s: string, w: string)
    requires forall i :: 0 <= i < |w| ==> IsNetWhite(w[i])
    requires |s| > 0 && !IsNetWhite(s[|s| - 1])
    ensures SuffixCount(s + w, IsNetWhite) == |w|
  {
    var t := s + w;
    assert t[|s| - 1] == s[|s| - 1];
    assert forall i :: |s| <= i < |t| ==> t[i] == w[i - |s|];
  }

  // ------------------------------------------------------------------
  // JavaScript: parseInt(string) with no radix argument
  // ------------------------------------------------------------------

  /** StrWhiteSpaceChar of ECMAScript: white space (including category Zs) and line terminators. */
  predicate IsJsWhite(c: char)
  {
    || c == '\t' || c == '\n' || c == '\U{B}' || c == '\U{C}' || c == '\r' || c == ' '
    || c == '\U{A0}' || c == '\U{1680}' || '\U{2000}' <= c <= '\U{200A}'
    || c == '\U{2028}' || c == '\U{2029}' || c == '\U{202F}' || c == '\U{205F}' || c == '\U{3000}'
    || c == '\U{FEFF}'
  }

  /** The number that remains once the sign is read: the radix, and the text after any "0x"/"0X". */
  function RadixAndDigits(t: string): (string, nat)
  {
    if |t| >= 2 && t[0] == '0' && (t[1] == 'x' || t[1] == 'X') then (t[2..], 16) else (t, 10)
  }

  /**
   * `parseInt(s)`: skip leading white space, read an optional sign, take radix 16 after
   * "0x" or "0X" and radix 10 otherwise, then the longest run of digits of that radix.
   * `None` is NaN: no digit at all.
   */
  function JsParseInt(s: string): (r: Option<int>)
  {
    var t := s[PrefixCount(s, IsJsWhite)..];
    var negative := |t| > 0 && t[0] == '-';
    var unsigned := if |t| > 0 && (t[0] == '-' || t[0] == '+') then t[1..] else t;
    var (body, radix) := RadixAndDigits(unsigned);
    var k := PrefixCount(body, c => IsDigitIn(c, radix));
    if k == 0 then None
    else
      var v := ValueIn(body[..k], radix);
      Some(if negative then -(v as int) else v)
  }

  /** `parseInt(String(n)) == n` for every integer (leaving aside the precision of JS numbers). */
  lemma JsParseDecimalText(n: int)
    ensures JsParseInt(DecimalText(n)) == Some(n)
  {
    var s := DecimalText(n);
    var digits := NatText(if n < 0 then -n else n);
    assert !IsJsWhite(s[0]);
    assert s[PrefixCount(s, IsJsWhite)..] == s;
    var unsigned := if n < 0 then s[1..] else s;
    assert unsigned == digits;
    assert digits[0] == '0' ==> |digits| == 1;
    assert RadixAndDigits(unsigned) == (digits, 10);
    assert PrefixCount(digits, c => IsDigitIn(c, 10)) == |digits|;
    assert digits[..|digits|] == digits;
  }

  /** Text that starts with neither white space, a sign nor a digit parses to NaN. */
  lemma JsParseNoDigitIsNaN(s: string)
    requires |s| > 0 && !IsJsWhite(s[0]) && s[0] != '-' && s[0] != '+' && !IsDigitIn(s[0], 10)
    ensures JsParseInt(s).None?
  {
    assert PrefixCount(s, IsJsWhite) == 0;
    assert s[0..] == s;
    assert RadixAndDigits(s) == (s, 10);
  }

  /** parseInt reads the digits up to the first character that is not one. */
  lemma JsParseStopsAtNonDigit(d: string, rest: string)
    requires |d| > 0 && AllDigitsIn(d, 10) && d[0] != '0'
    requires rest == [] || !IsDigitIn(rest[0], 10)
    ensures JsParseInt(d + rest) == Some(ValueIn(d, 10))
  {
    var s := d + rest;
    assert s[0] == d[0];
    assert !IsJsWhite(s[0]);
    assert s[PrefixCount(s, IsJsWhite)..] == s;
    assert RadixAndDigits(s) == (s, 10);
    assert forall i :: 0 <= i < |d| ==> s[i] == d[i];
    assert |s| > |d| ==> s[|d|] == rest[0];
    assert PrefixCount(s, c => IsDigitIn(c, 10)) == |d|;
    assert s[..|d|] == d;
  }
}
