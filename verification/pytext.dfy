/** The few Python text operations the service relies on, written out over
    `string` (a sequence of code points): `int(str)`, `str(int)`, `strip`,
    `rstrip`, `lower`, `", ".join` and the ordering of `str` values.
    Only ASCII whitespace, digits and letters are treated specially. */
module PyText {
  import opened Wrappers

  predicate IsDigit(c: char) { '0' <= c <= '9' }

  /** The ASCII characters `str.strip()` and `int()` skip as whitespace. */
  predicate IsSpace(c: char) {
    c == ' ' || 9 <= c as int <= 13 || 28 <= c as int <= 31
  }

  function StripLeft(s: string): (r: string)
    ensures r == [] || !IsSpace(r[0])
    ensures |r| <= |s| && r == s[|s| - |r|..]
    ensures forall i :: 0 <= i < |s| - |r| ==> IsSpace(s[i])
  {
    if s != [] && IsSpace(s[0]) then StripLeft(s[1..]) else s
  }

  function StripRight(s: string): (r: string)
    ensures r == [] || !IsSpace(r[|r| - 1])
    ensures r <= s
    ensures forall i :: |r| <= i < |s| ==> IsSpace(s[i])
  {
    if s != [] && IsSpace(s[|s| - 1]) then StripRight(s[..|s| - 1]) else s
  }

  /** `s.strip()` */
  function Strip(s: string): (r: string)
    ensures r == [] || (!IsSpace(r[0]) && !IsSpace(r[|r| - 1]))
  {
    StripRight(StripLeft(s))
  }

  /** `strip` removes whitespace and nothing else: its result is a slice of
      the text with only whitespace before and after it. */
  lemma StripRemovesOnlySpace(s: string)
    ensures exists a :: TrimmedAt(s, Strip(s), a)
  {
    var a := |s| - |StripLeft(s)|;
    assert TrimmedAt(s, Strip(s), a);
  }

  /** `r` is the slice of `s` starting at `a`, with only whitespace around it. */
  predicate TrimmedAt(s: string, r: string, a: int) {
    0 <= a && a + |r| <= |s| && r == s[a..a + |r|]
    && (forall i :: 0 <= i < a ==> IsSpace(s[i]))
    && (forall i :: a + |r| <= i < |s| ==> IsSpace(s[i]))
  }

  /** Text that neither starts nor ends with whitespace is left alone by `strip`. */
  lemma StripTrimmed(s: string)
    requires s != [] && !IsSpace(s[0]) && !IsSpace(s[|s| - 1])
    ensures Strip(s) == s
  {
  }

  /** The body `int()` accepts after an optional sign: ASCII digits, where an
      underscore may only stand between two digits. */
  predicate IsDigitBody(s: string) {
    |s| > 0 && IsDigit(s[0]) && IsDigit(s[|s| - 1])
    && (forall i :: 0 <= i < |s| ==> IsDigit(s[i]) || s[i] == '_')
    && (forall i :: 0 <= i < |s| - 1 && s[i] == '_' ==> IsDigit(s[i + 1]))
  }

  function DigitValue(c: char): nat
    requires IsDigit(c)
  {
    c as int - '0' as int
  }

  function DigitChar(d: nat): (c: char)
    requires d < 10
    ensures IsDigit(c) && DigitValue(c) == d
  {
    ('0' as int + d) as char
  }

  /** The number a digit body denotes; underscores carry no value. */
  function DigitsValue(s: string): nat
    requires forall i :: 0 <= i < |s| ==> IsDigit(s[i]) || s[i] == '_'
  {
    if s == [] then 0
    else if s[|s| - 1] == '_' then DigitsValue(s[..|s| - 1])
    else 10 * DigitsValue(s[..|s| - 1]) + DigitValue(s[|s| - 1])
  }

  /** Python's `int(s)` for a `str` in base 10: `None` where Python raises ValueError. */
  function ParseInt(s: string): Option<int> {
    var t := Strip(s);
    if t != [] && t[0] == '-' then
      match ParseDigits(t[1..])
      case Some(v) => Some(-v)
      case None => None
    else if t != [] && t[0] == '+' then ParseDigits(t[1..])
    else ParseDigits(t)
  }

  /** The value of an unsigned digit body, `None` for anything else. */
  function ParseDigits(t: string): Option<int> {
    if IsDigitBody(t) then Some(DigitsValue(t)) else None
  }

  /** `str(n)` for a natural number: its decimal digits, most significant first. */
  function NatToString(n: nat): (r: string)
    ensures |r| > 0 && forall i :: 0 <= i < |r| ==> IsDigit(r[i])
    ensures n > 0 ==> r[0] != '0'
  {
    if n < 10 then [DigitChar(n)] else NatToString(n / 10) + [DigitChar(n % 10)]
  }

  /** `str(n)` for any integer. */
  function IntToString(n: int): (r: string)
    ensures r != [] && IsDigit(r[|r| - 1])
    ensures n < 0 <==> r[0] == '-'
  {
    if n < 0 then "-" + NatToString(-n) else NatToString(n)
  }

  lemma {:induction false} NatToStringValue(n: nat)
    ensures DigitsValue(NatToString(n)) == n
    decreases n
  {
    var s := NatToString(n);
    if n < 10 {
      assert s[..|s| - 1] == [];
    } else {
      assert s[..|s| - 1] == NatToString(n / 10);
      NatToStringValue(n / 10);
    }
  }

  /** The decimal digits of `n` form a digit body denoting `n`. */
  lemma ParseDigitsOfNatToString(n: nat)
    ensures ParseDigits(NatToString(n)) == Some(n)
  {
    var s := NatToString(n);
    assert IsDigitBody(s);
    NatToStringValue(n);
  }

  /** `int(str(n)) == n` for every integer. */
  lemma {:induction false} ParseIntOfIntToString(n: int)
    ensures ParseInt(IntToString(n)) == Some(n)
  {
    var t := IntToString(n);
    StripTrimmed(t);
    if n < 0 {
      assert t[1..] == NatToString(-n);
      ParseDigitsOfNatToString(-n);
    } else {
      ParseDigitsOfNatToString(n);
    }
  }

  /** Text `int()` refuses: a word, a decimal fraction, doubled underscores. */
  lemma ParseIntRejects()
    ensures ParseInt("not_a_number") == None
    ensures ParseInt("12345.67") == None
    ensures ParseInt("1__0") == None
  {
    assert Strip("not_a_number") == "not_a_number";
    assert !IsDigit("not_a_number"[0]);
    assert Strip("12345.67") == "12345.67";
    assert "12345.67"[5] == '.';
    assert Strip("1__0") == "1__0";
    assert "1__0"[1] == '_' && "1__0"[2] == '_';
  }

  /** `int()` accepts a leading sign. */
  lemma ParseIntSigned()
    ensures ParseInt("-1") == Some(-1)
  {
    ParseIntOfIntToString(-1);
    assert IntToString(-1) == "-" + NatToString(1) == "-1";
  }

  /** `int()` ignores surrounding blanks. */
  lemma ParseIntBlanks()
    ensures ParseInt(" 42 ") == Some(42)
  {
    StripBlanks();
    DigitsFortyTwo();
  }

  lemma StripBlanks()
    ensures Strip(" 42 ") == "42"
  {
    assert StripLeft(" 42 ") == "42 " by {
      assert " 42 "[1..] == "42 ";
    }
    assert StripRight("42 ") == "42" by {
      assert "42 "[..2] == "42";
    }
  }

  lemma DigitsFortyTwo()
    ensures ParseDigits("42") == Some(42)
  {
    assert "42"[..1] == "4" && "4"[..0] == "";
  }

  /** `int()` accepts single underscores between digits. */
  lemma ParseIntUnderscores()
    ensures ParseInt("1_000") == Some(1000)
  {
    assert Strip("1_000") == "1_000";
    assert "1_000"[..4] == "1_00" && "1_00"[..3] == "1_0";
    assert "1_0"[..2] == "1_" && "1_"[..1] == "1" && "1"[..0] == "";
  }

  function LowerChar(c: char): char {
    if 'A' <= c <= 'Z' then (c as int + 32) as char else c
  }

  /** `s.lower()` for ASCII letters. */
  function Lower(s: string): (r: string)
    ensures |r| == |s| && forall i :: 0 <= i < |s| ==> r[i] == LowerChar(s[i])
  {
    seq(|s|, i requires 0 <= i < |s| => LowerChar(s[i]))
  }

  /** `lower` leaves no upper-case ASCII letter, changes nothing else, and so
      lowering twice is lowering once. */
  lemma LowerNormalises(s: string)
    ensures forall i :: 0 <= i < |s| ==> !('A' <= Lower(s)[i] <= 'Z')
    ensures forall i :: 0 <= i < |s| && !('A' <= s[i] <= 'Z') ==> Lower(s)[i] == s[i]
    ensures Lower(Lower(s)) == Lower(s)
  {
  }

  /** `s.rstrip(c)` for a single character `c`. */
  function RStrip(s: string, c: char): (r: string)
    ensures r <= s
    ensures r == [] || r[|r| - 1] != c
    ensures forall i :: |r| <= i < |s| ==> s[i] == c
  {
    if s != [] && s[|s| - 1] == c then RStrip(s[..|s| - 1], c) else s
  }

  /** `sep.join(items)` */
  function Join(sep: string, items: seq<string>): string {
    if items == [] then ""
    else if |items| == 1 then items[0]
    else items[0] + sep + Join(sep, items[1..])
  }

  /** Python's `a <= b` on `str`: lexicographic by code point, a prefix first. */
  predicate LessEq(a: string, b: string) {
    a == [] || (b != [] && (a[0] < b[0] || (a[0] == b[0] && LessEq(a[1..], b[1..]))))
  }

  lemma {:induction false} LessEqTotal(a: string, b: string)
    ensures LessEq(a, b) || LessEq(b, a)
  {
    if a != [] && b != [] && a[0] == b[0] {
      LessEqTotal(a[1..], b[1..]);
    }
  }

  lemma {:induction false} LessEqTransitive(a: string, b: string, c: string)
    requires LessEq(a, b) && LessEq(b, c)
    ensures LessEq(a, c)
  {
    if a != [] && a[0] == b[0] && b[0] == c[0] {
      LessEqTransitive(a[1..], b[1..], c[1..]);
    }
  }
}
