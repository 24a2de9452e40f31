/**
 * The string operations the extractor and the summariser rely on, stated as
 * Python defines them: `str.strip()`, `str.isdigit()` and `int(...)` on a digit
 * text, `str(n)` on a non-negative int, and `sep.join(parts)`.
 */
module Text {

  /** The characters Python's `str.isspace` accepts, which `str.strip()` removes. */
  predicate IsSpace(c: char) {
    var n := c as int;
    (9 <= n <= 13) || (28 <= n <= 32) || n == 0x85 || n == 0xA0 || n == 0x1680
    || (0x2000 <= n <= 0x200A) || n == 0x2028 || n == 0x2029 || n == 0x202F
    || n == 0x205F || n == 0x3000
  }

  /** The text without its leading whitespace. */
  function TrimStart(s: string): (r: string)
    ensures |r| <= |s| && r == s[|s| - |r|..]
    ensures forall i :: 0 <= i < |s| - |r| ==> IsSpace(s[i])
    ensures r == [] || !IsSpace(r[0])
  {
    if s != [] && IsSpace(s[0]) then TrimStart(s[1..]) else s
  }

  /** The text without its trailing whitespace. */
  function TrimEnd(s: string): (r: string)
    ensures |r| <= |s| && r == s[..|r|]
    ensures forall i :: |r| <= i < |s| ==> IsSpace(s[i])
    ensures r == [] || !IsSpace(r[|r| - 1])
  {
    if s != [] && IsSpace(s[|s| - 1]) then TrimEnd(s[..|s| - 1]) else s
  }

  /** Whitespace only at the ends of `s` outside the slice `s[i..j]`. */
  ghost predicate SpaceOutside(s: string, i: nat, j: nat)
    requires i <= j <= |s|
  {
    (forall k :: 0 <= k < i ==> IsSpace(s[k])) && (forall k :: j <= k < |s| ==> IsSpace(s[k]))
  }

  /** Python's `str.strip()`. */
  function Strip(s: string): string {
    TrimEnd(TrimStart(s))
  }

  /**
   * Stripping keeps a slice of the text, drops only whitespace at either end,
   * and leaves a text that neither starts nor ends with whitespace.
   */
  lemma StripDropsOnlyEdgeSpace(s: string)
    ensures exists i, j :: 0 <= i <= j <= |s| && Strip(s) == s[i..j] && SpaceOutside(s, i, j)
    ensures Strip(s) == [] || (!IsSpace(Strip(s)[0]) && !IsSpace(Strip(s)[|Strip(s)| - 1]))
  {
    var t := TrimStart(s);
    var r := TrimEnd(t);
    assert r == s[|s| - |t|..|s| - |t| + |r|] && SpaceOutside(s, |s| - |t|, |s| - |t| + |r|);
  }

  /** Stripping is idempotent: a stripped label or value is unchanged by a second strip. */
  lemma StripIdempotent(s: string)
    ensures Strip(Strip(s)) == Strip(s)
  {
  }

  /** An ASCII decimal digit. */
  predicate IsAsciiDigit(c: char) {
    '0' <= c <= '9'
  }

  /** Every character is an ASCII digit (true of the empty text). */
  predicate AllDigits(s: string) {
    forall i :: 0 <= i < |s| ==> IsAsciiDigit(s[i])
  }

  /** Python's `str.isdigit()` restricted to ASCII digits: false on the empty text. */
  predicate IsDigitText(s: string) {
    |s| > 0 && AllDigits(s)
  }

  function Pow10(n: nat): (p: nat)
    ensures p >= 1
  {
    if n == 0 then 1 else 10 * Pow10(n - 1)
  }

  function DigitValue(c: char): (d: nat)
    requires IsAsciiDigit(c)
    ensures d < 10
  {
    (c as int) - ('0' as int)
  }

  /** Python's `int(s)` on a text of decimal digits, leading zeros allowed. */
  function DecimalValue(s: string): (n: nat)
    requires AllDigits(s)
    ensures n < Pow10(|s|)
  {
    if s == [] then 0
    else
      var p := s[..|s| - 1];
      var v := DecimalValue(p);
      assert v * 10 <= (Pow10(|p|) - 1) * 10;
      v * 10 + DigitValue(s[|s| - 1])
  }

  function DigitChar(d: nat): (c: char)
    requires d < 10
    ensures IsAsciiDigit(c) && DigitValue(c) == d
  {
    (('0' as int) + d) as char
  }

  /**
   * Python's `str(n)` for a non-negative int: at least one ASCII digit, and a
   * leading '0' only for zero itself, written as the single digit "0".
   */
  function NatToDecimal(n: nat): (s: string)
    ensures IsDigitText(s)
    ensures s[0] == '0' <==> n == 0
    ensures s[0] == '0' ==> |s| == 1
  {
    if n < 10 then [DigitChar(n)] else NatToDecimal(n / 10) + [DigitChar(n % 10)]
  }

  /** A digit text in the form `str(n)` produces: no superfluous leading zero. */
  predicate IsCanonicalDecimal(s: string) {
    IsDigitText(s) && (s[0] == '0' ==> |s| == 1)
  }

  /** Parsing undoes rendering: `int(str(n)) == n`. */
  lemma {:induction false} DecimalValueOfNatToDecimal(n: nat)
    ensures DecimalValue(NatToDecimal(n)) == n
  {
    var s := NatToDecimal(n);
    if n >= 10 {
      DecimalValueOfNatToDecimal(n / 10);
      assert s[..|s| - 1] == NatToDecimal(n / 10);
    } else {
      assert s[..|s| - 1] == [];
    }
  }

  /** A digit text that does not start with '0' has a positive value. */
  lemma {:induction false} LeadingNonZeroPositive(s: string)
    requires IsDigitText(s) && s[0] != '0'
    ensures DecimalValue(s) > 0
  {
    if |s| > 1 {
      LeadingNonZeroPositive(s[..|s| - 1]);
    }
  }

  /** Rendering undoes parsing on canonical digit texts: `str(int(s)) == s`. */
  lemma {:induction false} NatToDecimalOfDecimalValue(s: string)
    requires IsCanonicalDecimal(s)
    ensures NatToDecimal(DecimalValue(s)) == s
  {
    if |s| > 1 {
      var p := s[..|s| - 1];
      var d := DigitValue(s[|s| - 1]);
      LeadingNonZeroPositive(p);
      NatToDecimalOfDecimalValue(p);
      var v := DecimalValue(s);
      assert v == DecimalValue(p) * 10 + d;
      assert v / 10 == DecimalValue(p) && v % 10 == d;
      assert DigitChar(d) == s[|s| - 1];
      assert p + [s[|s| - 1]] == s;
    } else {
      assert s == [DigitChar(DigitValue(s[0]))];
    }
  }

  /** Python's `sep.join(parts)`; the text starts with the first part. */
  function Join(parts: seq<string>, sep: string): (r: string)
    ensures parts == [] ==> r == []
    ensures |parts| == 1 ==> r == parts[0]
    ensures parts != [] ==> |parts[0]| <= |r| && r[..|parts[0]|] == parts[0]
  {
    if |parts| == 0 then ""
    else if |parts| == 1 then parts[0]
    else parts[0] + sep + Join(parts[1..], sep)
  }

  /** Joining two non-empty lists puts one separator between their joins. */
  lemma {:induction false} JoinConcat(a: seq<string>, b: seq<string>, sep: string)
    requires a != [] && b != []
    ensures Join(a + b, sep) == Join(a, sep) + sep + Join(b, sep)
  {
    if |a| == 1 {
      assert (a + b)[1..] == b;
    } else {
      assert (a + b)[1..] == a[1..] + b;
      JoinConcat(a[1..], b, sep);
    }
  }

  /** Appending a part to a non-empty list appends the separator and that part. */
  lemma JoinAppend(parts: seq<string>, x: string, sep: string)
    requires parts != []
    ensures Join(parts + [x], sep) == Join(parts, sep) + sep + x
  {
    JoinConcat(parts, [x], sep);
  }

  /** `part` occurs in `text` starting at offset `o`. */
  predicate OccursAt(part: string, text: string, o: int) {
    0 <= o && o + |part| <= |text| && text[o..o + |part|] == part
  }

  /** Every part of a join occurs in the joined text. */
  lemma {:induction false} JoinContainsParts(parts: seq<string>, sep: string, i: nat)
    requires i < |parts|
    ensures exists o :: OccursAt(parts[i], Join(parts, sep), o)
  {
    var r := Join(parts, sep);
    if i == 0 {
      assert OccursAt(parts[0], r, 0);
    } else {
      var rest := parts[1..];
      assert rest[i - 1] == parts[i];
      JoinContainsParts(rest, sep, i - 1);
      var t := Join(rest, sep);
      var o :| OccursAt(parts[i], t, o);
      var d := |parts[0] + sep|;
      assert r == parts[0] + sep + t;
      assert r[d + o..d + o + |parts[i]|] == t[o..o + |parts[i]|];
      assert OccursAt(parts[i], r, d + o);
    }
  }
}
