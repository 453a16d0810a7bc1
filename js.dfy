/** The parts of JavaScript's value and string semantics that the console's
    logic relies on: optional values, `||` on strings, `trim`, the `\s`
    character class, ASCII `toLowerCase`, `includes`, `startsWith`, decimal
    rendering and `parseInt`. */
module Js {

  datatype Option<T> = None | Some(value: T) {
    function GetOr(default: T): T {
      match this
      case Some(v) => v
      case None => default
    }
  }

  /** A string that may be absent is truthy when present and not empty. */
  predicate Truthy(x: Option<string>) {
    x.Some? && x.value != ""
  }

  /** `x || fallback` for a string that may be absent: the empty string is falsy. */
  function Or(x: Option<string>, fallback: string): (r: string)
    ensures x.Some? && x.value != "" ==> r == x.value
    ensures (x.None? || x.value == "") ==> r == fallback
  {
    if Truthy(x) then x.value else fallback
  }

  /** The characters matched by `\s` and removed by `String.prototype.trim`:
      WhiteSpace and LineTerminator of ECMAScript. */
  predicate IsSpace(c: char) {
    c == '\t' || c == '\n' || c == '\U{000B}' || c == '\U{000C}' || c == '\r' || c == ' ' ||
    c == '\U{00A0}' || c == '\U{1680}' || ('\U{2000}' <= c <= '\U{200A}') ||
    c == '\U{2028}' || c == '\U{2029}' || c == '\U{202F}' || c == '\U{205F}' ||
    c == '\U{3000}' || c == '\U{FEFF}'
  }

  /** The characters `.` refuses to match in a regular expression without the `s` flag. */
  predicate IsLineTerminator(c: char) {
    c == '\n' || c == '\r' || c == '\U{2028}' || c == '\U{2029}'
  }

  predicate AllSpace(s: string) {
    forall i :: 0 <= i < |s| ==> IsSpace(s[i])
  }

  function TrimStart(s: string): (r: string)
    ensures |r| <= |s| && r == s[|s| - |r|..]
    ensures AllSpace(s[..|s| - |r|])
    ensures r == [] || !IsSpace(r[0])
  {
    if s == [] || !IsSpace(s[0]) then s
    else
      var r := TrimStart(s[1..]);
      assert s[1..][..|s[1..]| - |r|] == s[1..|s| - |r|];
      r
  }

  function TrimEnd(s: string): (r: string)
    ensures |r| <= |s| && r == s[..|r|]
    ensures AllSpace(s[|r|..])
    ensures r == [] || !IsSpace(r[|r| - 1])
  {
    if s == [] || !IsSpace(s[|s| - 1]) then s
    else
      var r := TrimEnd(s[..|s| - 1]);
      assert s[..|s| - 1][|r|..] == s[|r|..|s| - 1];
      r
  }

  /** `s.trim()`: the slice of `s` left after removing spaces at both ends. */
  function Trim(s: string): (r: string)
    ensures exists i, j :: 0 <= i <= j <= |s| && r == s[i..j] && AllSpace(s[..i]) && AllSpace(s[j..])
    ensures r == [] || (!IsSpace(r[0]) && !IsSpace(r[|r| - 1]))
  {
    var a := TrimStart(s);
    var r := TrimEnd(a);
    var i := |s| - |a|;
    var j := i + |r|;
    assert r == s[i..j];
    assert s[j..] == a[|r|..];
    assert AllSpace(s[..i]) && AllSpace(s[j..]);
    r
  }

  /** A string is blank when trimming leaves nothing. */
  lemma {:induction false} TrimEmptyIffAllSpace(s: string)
    ensures Trim(s) == "" <==> AllSpace(s)
  {
  }

  /** Trimming is idempotent. */
  lemma {:induction false} TrimIdempotent(s: string)
    ensures Trim(Trim(s)) == Trim(s)
  {
    var r := Trim(s);
    if r != [] {
      assert TrimStart(r) == r;
      assert TrimEnd(r) == r;
    } else {
      assert TrimStart(r) == r;
    }
  }

  function LowerChar(c: char): (d: char)
    ensures 'A' <= c <= 'Z' ==> d != c && 'a' <= d <= 'z'
    ensures !('A' <= c <= 'Z') ==> d == c
  {
    if 'A' <= c <= 'Z' then (c as int - 'A' as int + 'a' as int) as char else c
  }

  /** `s.toLowerCase()` restricted to ASCII letters; other characters are kept. */
  function ToLowerAscii(s: string): (r: string)
    ensures |r| == |s| && forall i :: 0 <= i < |s| ==> r[i] == LowerChar(s[i])
  {
    if s == [] then [] else [LowerChar(s[0])] + ToLowerAscii(s[1..])
  }

  /** True when `sub` occurs in `s` starting at index `i`. */
  predicate OccursAt(s: string, sub: string, i: nat) {
    i + |sub| <= |s| && s[i..i + |sub|] == sub
  }

  /** `s.includes(sub)`, computed by trying every start position from `from` on. */
  function IncludesFrom(s: string, sub: string, from: nat): (b: bool)
    ensures b <==> exists i :: from <= i && OccursAt(s, sub, i)
    decreases |s| - from
  {
    if from + |sub| > |s| then false
    else if s[from..from + |sub|] == sub then assert OccursAt(s, sub, from); true
    else IncludesFrom(s, sub, from + 1)
  }

  function Includes(s: string, sub: string): (b: bool)
    ensures b <==> exists i :: 0 <= i && OccursAt(s, sub, i)
  {
    IncludesFrom(s, sub, 0)
  }

  /** A string lacking some character of `sub` cannot contain `sub`. */
  lemma {:induction false} MissingCharNotIncluded(s: string, sub: string, k: nat)
    requires k < |sub| && forall i :: 0 <= i < |s| ==> s[i] != sub[k]
    ensures !Includes(s, sub)
  {
    forall i: nat ensures !OccursAt(s, sub, i) {
      if i + |sub| <= |s| {
        assert s[i..i + |sub|][k] == s[i + k];
      }
    }
  }

  /** Whatever contains `p + q` contains `p`. */
  lemma {:induction false} IncludesPrefix(s: string, p: string, q: string)
    requires Includes(s, p + q)
    ensures Includes(s, p)
  {
    var i :| 0 <= i && OccursAt(s, p + q, i);
    assert s[i..i + |p|] == (p + q)[..|p|] == p;
    assert OccursAt(s, p, i);
  }

  /** `s.startsWith(p)`. */
  predicate StartsWith(s: string, p: string) {
    |p| <= |s| && s[..|p|] == p
  }

  lemma {:induction false} StartsWithIncludes(s: string, p: string)
    requires StartsWith(s, p)
    ensures Includes(s, p)
  {
    assert OccursAt(s, p, 0);
  }

  /** A character removed by `replace(/[-_\s]/g, '')`. */
  predicate IsSeparator(c: char) {
    c == '-' || c == '_' || IsSpace(c)
  }

  /** `s.replace(/[-_\s]/g, '')`: drops hyphens, underscores and spaces, keeping
      every other character in order. */
  function StripSeparators(s: string): (r: string)
    ensures |r| <= |s|
    ensures forall i :: 0 <= i < |r| ==> !IsSeparator(r[i])
    ensures (forall i :: 0 <= i < |s| ==> !IsSeparator(s[i])) ==> r == s
  {
    if s == [] then []
    else if IsSeparator(s[0]) then StripSeparators(s[1..])
    else [s[0]] + StripSeparators(s[1..])
  }

  /** Lower-case ASCII letters are never separators. */
  lemma {:induction false} StripSeparatorsOfLetters(s: string)
    requires forall i :: 0 <= i < |s| ==> 'a' <= s[i] <= 'z'
    ensures StripSeparators(s) == s
  {
    if s != [] {
      assert 'a' <= s[0] <= 'z';
      assert !IsSeparator(s[0]);
      StripSeparatorsOfLetters(s[1..]);
      assert s == [s[0]] + s[1..];
    }
  }

  lemma {:induction false} StripSeparatorsAppend(a: string, b: string)
    ensures StripSeparators(a + b) == StripSeparators(a) + StripSeparators(b)
  {
    if a != [] {
      assert (a + b)[1..] == a[1..] + b;
      StripSeparatorsAppend(a[1..], b);
    } else {
      assert a + b == b;
    }
  }

  /** Stripping twice is stripping once. */
  lemma StripSeparatorsIdempotent(s: string)
    ensures StripSeparators(StripSeparators(s)) == StripSeparators(s)
  {
  }

  // ----- decimal numbers -----

  predicate IsDigit(c: char) { '0' <= c <= '9' }

  predicate AllDigits(s: string) {
    forall i :: 0 <= i < |s| ==> IsDigit(s[i])
  }

  function DigitChar(d: nat): (c: char)
    requires d < 10
    ensures IsDigit(c) && c as int - '0' as int == d
  {
    ('0' as int + d) as char
  }

  /** `n.toString()` for a non-negative integer. */
  function NatToDecimal(n: nat): (s: string)
    ensures |s| >= 1 && AllDigits(s)
    ensures |s| > 1 ==> s[0] != '0'
    ensures n < 10 <==> |s| == 1
  {
    if n < 10 then [DigitChar(n)] else NatToDecimal(n / 10) + [DigitChar(n % 10)]
  }

  /** The value of `c` as a digit in radix 10 or 16 (hex letters in either case). */
  function DigitValue(c: char, radix: nat): (d: Option<nat>)
    ensures d.Some? ==> d.value < radix
    ensures radix == 10 ==> (d.Some? <==> IsDigit(c))
    ensures IsDigit(c) && radix >= 10 ==> d == Some(c as int - '0' as int)
  {
    if IsDigit(c) && c as int - '0' as int < radix then Some(c as int - '0' as int)
    else if radix == 16 && 'a' <= c <= 'f' then Some(c as int - 'a' as int + 10)
    else if radix == 16 && 'A' <= c <= 'F' then Some(c as int - 'A' as int + 10)
    else None
  }

  predicate AllRadixDigits(s: string, radix: nat) {
    forall i :: 0 <= i < |s| ==> DigitValue(s[i], radix).Some?
  }

  /** The value of a string of digits in the given radix. */
  function RadixValue(s: string, radix: nat): nat
    requires AllRadixDigits(s, radix)
  {
    if s == [] then 0
    else RadixValue(s[..|s| - 1], radix) * radix + DigitValue(s[|s| - 1], radix).value
  }

  lemma {:induction false} DecimalRoundTrip(n: nat)
    ensures AllRadixDigits(NatToDecimal(n), 10)
    ensures RadixValue(NatToDecimal(n), 10) == n
  {
    var s := NatToDecimal(n);
    if n >= 10 {
      assert s[..|s| - 1] == NatToDecimal(n / 10);
      DecimalRoundTrip(n / 10);
    }
  }

  /** Length of the longest prefix of `s` made of digits of the radix. */
  function DigitPrefixLength(s: string, radix: nat): (k: nat)
    ensures k <= |s| && AllRadixDigits(s[..k], radix)
    ensures k < |s| ==> DigitValue(s[k], radix).None?
  {
    if s == [] || DigitValue(s[0], radix).None? then 0
    else
      var k := 1 + DigitPrefixLength(s[1..], radix);
      assert s[..k] == [s[0]] + s[1..][..k - 1];
      k
  }

  /** A run of decimal digits ends at the first character that is not one. */
  lemma {:induction false} DigitPrefixBeforeStop(d: string, c: char)
    requires AllDigits(d) && !IsDigit(c)
    ensures DigitPrefixLength(d + [c], 10) == |d|
  {
    if d != [] {
      assert (d + [c])[1..] == d[1..] + [c];
      DigitPrefixBeforeStop(d[1..], c);
    }
  }

  /** `parseInt(s)` called without a radix; `None` stands for `NaN`. Leading
      spaces are skipped, one sign is read, a `0x`/`0X` prefix selects radix
      16, and the longest run of digits that follows is converted. */
  function ParseInt(s: string): Option<int>
  {
    var a := TrimStart(s);
    if a != [] && a[0] == '-' then Negate(ParseMagnitude(a[1..]))
    else if a != [] && a[0] == '+' then ParseMagnitude(a[1..])
    else ParseMagnitude(a)
  }

  function Negate(r: Option<int>): Option<int> {
    if r.Some? then Some(-r.value) else None
  }

  /** The unsigned part of `parseInt`: radix detection and the digit run. */
  function ParseMagnitude(b: string): Option<int>
  {
    var hex := |b| >= 2 && b[0] == '0' && (b[1] == 'x' || b[1] == 'X');
    var radix := if hex then 16 else 10;
    var c := if hex then b[2..] else b;
    var k := DigitPrefixLength(c, radix);
    if k == 0 then None else Some(RadixValue(c[..k], radix))
  }

  lemma {:induction false} ParseMagnitudeOfDigits(s: string)
    requires s != [] && AllDigits(s)
    ensures AllRadixDigits(s, 10)
    ensures ParseMagnitude(s) == Some(RadixValue(s, 10))
  {
    assert !(|s| >= 2 && (s[1] == 'x' || s[1] == 'X'));
    AllDigitsPrefix(s);
    assert s[..|s|] == s;
  }

  lemma DigitsUntrimmed(s: string)
    requires s != [] && !IsSpace(s[0])
    ensures TrimStart(s) == s
  {
  }

  /** Rendering a number in decimal and parsing it back gives the number. */
  lemma {:induction false} ParseIntOfDecimal(n: nat)
    ensures ParseInt(NatToDecimal(n)) == Some(n as int)
  {
    var s := NatToDecimal(n);
    DecimalRoundTrip(n);
    ParseMagnitudeOfDigits(s);
    DigitsUntrimmed(s);
  }

  /** A minus sign before the decimal rendering gives the negated number. */
  lemma {:induction false} ParseIntOfNegativeDecimal(n: nat)
    ensures ParseInt("-" + NatToDecimal(n)) == Some(-(n as int))
  {
    var s := NatToDecimal(n);
    DecimalRoundTrip(n);
    ParseMagnitudeOfDigits(s);
    DigitsUntrimmed("-" + s);
    assert ("-" + s)[1..] == s;
  }

  /** Any integer's decimal rendering parses back to it. */
  lemma {:induction false} IntToDecimalReadsBack(i: int)
    ensures ParseInt(IntToDecimal(i)) == Some(i)
  {
    if i >= 0 {
      ParseIntOfDecimal(i);
    } else {
      ParseIntOfNegativeDecimal(-i);
    }
  }

  /** A negative integer is rendered as a minus sign and the digits of its
      magnitude. */
  lemma {:induction false} NegativeDecimalDigits(i: int)
    requires i < 0
    ensures |IntToDecimal(i)| > 1 && IntToDecimal(i)[0] == '-'
    ensures AllRadixDigits(IntToDecimal(i)[1..], 10) && RadixValue(IntToDecimal(i)[1..], 10) == -i
  {
    var d := NatToDecimal(-i);
    DecimalRoundTrip(-i);
    assert IntToDecimal(i) == "-" + d;
    assert ("-" + d)[1..] == d;
  }

  lemma {:induction false} AllDigitsPrefix(s: string)
    requires AllDigits(s)
    ensures DigitPrefixLength(s, 10) == |s|
  {
    if s != [] {
      AllDigitsPrefix(s[1..]);
    }
  }

  /** Text with no digit at all (after the spaces and sign) is `NaN`. */
  lemma NoDigitIsNaN(s: string)
    requires s == [] || (!IsDigit(s[0]) && s[0] != '-' && s[0] != '+' && !IsSpace(s[0]))
    ensures ParseInt(s) == None
  {
    if s != [] {
      DigitsUntrimmed(s);
      assert DigitValue(s[0], 10).None?;
      assert DigitPrefixLength(s, 10) == 0;
    }
  }

  /** `i.toString()` for any integer (a minus sign before negative values). */
  function IntToDecimal(i: int): (s: string)
    ensures i >= 0 ==> s == NatToDecimal(i)
    ensures i < 0 ==> s == "-" + NatToDecimal(-i)
  {
    if i < 0 then "-" + NatToDecimal(-i) else NatToDecimal(i)
  }

  /** `s.padStart(width, '0')`. */
  function PadStartZero(s: string, width: nat): (r: string)
    ensures |s| >= width ==> r == s
    ensures |s| < width ==> |r| == width
    ensures |r| >= |s| && r[|r| - |s|..] == s
    ensures forall i :: 0 <= i < |r| - |s| ==> r[i] == '0'
  {
    if |s| >= width then s else seq(width - |s|, _ => '0') + s
  }
}
