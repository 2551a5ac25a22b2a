/** Decimal and hexadecimal text: Python's `str(n)` for a non-negative integer,
    `f"{n:04X}"` for a 16-bit integer, and `float(s)` on plain decimal text. */
module Numbers {
  import opened Options
  import Text

  /** The 16-bit unsigned integers a DICOM tag is made of. */
  type uint16 = n: int | 0 <= n < 0x1_0000

  predicate IsDigit(c: char) {
    '0' <= c <= '9'
  }

  predicate AllDigits(s: string) {
    forall k :: 0 <= k < |s| ==> IsDigit(s[k])
  }

  function DigitValue(c: char): nat
    requires IsDigit(c)
  {
    (c as int - '0' as int) as nat
  }

  function DigitChar(d: nat): (c: char)
    requires d < 10
    ensures IsDigit(c) && DigitValue(c) == d
  {
    ('0' as int + d) as char
  }

  function Pow10(k: nat): (p: nat)
    ensures p >= 1
  {
    if k == 0 then 1 else 10 * Pow10(k - 1)
  }

  /** The number a string of decimal digits denotes (the empty string denotes 0). */
  function DigitsValue(s: string): nat
    requires AllDigits(s)
  {
    if s == [] then 0 else 10 * DigitsValue(s[..|s| - 1]) + DigitValue(s[|s| - 1])
  }

  /** `str(n)` for a non-negative integer: its decimal digits, without leading zeros,
      which read back as `n`. */
  function NatToString(n: nat): (s: string)
    ensures |s| >= 1 && AllDigits(s)
    ensures DigitsValue(s) == n
    ensures s[0] == '0' ==> n == 0
  {
    if n < 10 then [DigitChar(n)]
    else
      var s := NatToString(n / 10) + [DigitChar(n % 10)];
      assert s[..|s| - 1] == NatToString(n / 10);
      s
  }

  /** Distinct numbers print differently, so counters printed with `str` stay distinct. */
  lemma NatToStringInjective(m: nat, n: nat)
    requires NatToString(m) == NatToString(n)
    ensures m == n
  {
  }

  /** Distinct numbers print differently. */
  lemma NatToStringDistinct(m: nat, n: nat)
    requires m != n
    ensures NatToString(m) != NatToString(n)
  {
    if NatToString(m) == NatToString(n) {
      NatToStringInjective(m, n);
    }
  }

  // ---- the white space `float` ignores ----

  /** U+001C to U+001F, the ASCII information separators. `str.isspace()` and
      `strip()` count them as white space; `float()` does not. */
  predicate IsInformationSeparator(c: char) {
    '\U{1C}' <= c <= '\U{1F}'
  }

  predicate NoSeparators(s: string) {
    forall k :: 0 <= k < |s| ==> !IsInformationSeparator(s[k])
  }

  /** The white space `float()` ignores around a number: space, tab, line feed,
      vertical tab, form feed and carriage return, and the non-ASCII characters
      `str.isspace()` accepts. CPython leaves every ASCII character as it is and
      then trims only those six, so the information separators stay. */
  predicate IsFloatSpace(c: char) {
    Text.IsSpace(c) && !IsInformationSeparator(c)
  }

  predicate AllFloatSpace(s: string) {
    forall i :: 0 <= i < |s| ==> IsFloatSpace(s[i])
  }

  function TrimLeft(s: string): string {
    if s != [] && IsFloatSpace(s[0]) then TrimLeft(s[1..]) else s
  }

  function TrimRight(s: string): string {
    if s != [] && IsFloatSpace(s[|s| - 1]) then TrimRight(s[..|s| - 1]) else s
  }

  /** The text `float()` reads: `s` without the white space of `IsFloatSpace` at
      either end. */
  function Trim(s: string): string {
    TrimRight(TrimLeft(s))
  }

  /** Trimming on the left keeps a suffix and removes only white space before it. */
  lemma {:induction false} TrimLeftShape(s: string)
    ensures var r := TrimLeft(s);
      |r| <= |s| && r == s[|s| - |r|..] && AllFloatSpace(s[..|s| - |r|]) && (r == [] || !IsFloatSpace(r[0]))
  {
    if s != [] && IsFloatSpace(s[0]) {
      TrimLeftShape(s[1..]);
      var r := TrimLeft(s);
      forall i | 0 <= i < |s| - |r|
        ensures IsFloatSpace(s[i])
      {
        if i > 0 {
          assert s[..|s| - |r|][i] == s[1..][..|s| - 1 - |r|][i - 1];
        }
      }
    }
  }

  /** Trimming on the right keeps a prefix and removes only white space after it. */
  lemma {:induction false} TrimRightShape(s: string)
    ensures var r := TrimRight(s);
      |r| <= |s| && r == s[..|r|] && AllFloatSpace(s[|r|..]) && (r == [] || !IsFloatSpace(r[|r| - 1]))
  {
    if s != [] && IsFloatSpace(s[|s| - 1]) {
      var t := s[..|s| - 1];
      TrimRightShape(t);
      var r := TrimRight(s);
      assert r == TrimRight(t);
      assert r == s[..|r|] by { assert t[..|r|] == s[..|r|]; }
      forall i | |r| <= i < |s|
        ensures IsFloatSpace(s[i])
      {
        if i < |s| - 1 {
          assert s[|r|..][i - |r|] == t[|r|..][i - |r|];
        }
      }
    }
  }

  /** `r` is `s[i..i + |r|]`, with only `float` white space around it. */
  predicate TrimmedFrom(s: string, r: string, i: int) {
    0 <= i && i + |r| <= |s| && s[i..i + |r|] == r && AllFloatSpace(s[..i]) && AllFloatSpace(s[i + |r|..])
  }

  /** What `float()` reads is a slice of the text with only white space around it,
      and it starts and ends with something other than white space. */
  lemma TrimShape(s: string)
    ensures Trim(s) == [] || (!IsFloatSpace(Trim(s)[0]) && !IsFloatSpace(Trim(s)[|Trim(s)| - 1]))
    ensures TrimmedFrom(s, Trim(s), |s| - |TrimLeft(s)|)
  {
    var l := TrimLeft(s);
    var r := TrimRight(l);
    TrimLeftShape(s);
    TrimRightShape(l);
    assert s[|s| - |l|..][..|r|] == r;
    assert s[|s| - |l| + |r|..] == l[|r|..];
  }

  lemma TrimmedIsFixed(s: string)
    requires s == [] || (!IsFloatSpace(s[0]) && !IsFloatSpace(s[|s| - 1]))
    ensures Trim(s) == s
  {
    assert TrimLeft(s) == s;
    assert TrimRight(s) == s;
  }

  /** Trimming only removes characters. */
  lemma TrimKeepsOnlyOwnChars(s: string, c: char)
    requires c in Trim(s)
    ensures c in s
  {
    var r := Trim(s);
    TrimShape(s);
    var i := |s| - |TrimLeft(s)|;
    var j :| 0 <= j < |r| && r[j] == c;
    assert s[i..i + |r|][j] == s[i + j];
  }

  /** Trimming keeps every character that is not `float` white space. */
  lemma TrimKeepsNonSpace(s: string, c: char)
    requires c in s && !IsFloatSpace(c)
    ensures c in Trim(s)
  {
    var r := Trim(s);
    TrimShape(s);
    var i := |s| - |TrimLeft(s)|;
    var k :| 0 <= k < |s| && s[k] == c;
    assert forall j :: 0 <= j < i ==> s[..i][j] == s[j];
    assert forall j :: i + |r| <= j < |s| ==> s[i + |r|..][j - i - |r|] == s[j];
    assert s[i..i + |r|][k - i] == c;
  }

  lemma {:induction false} TrimLeftIsStripLeft(s: string)
    requires NoSeparators(s)
    ensures TrimLeft(s) == Text.StripLeft(s)
  {
    if s != [] {
      assert NoSeparators(s[1..]) by {
        forall k | 0 <= k < |s[1..]|
          ensures !IsInformationSeparator(s[1..][k])
        {
          assert s[1..][k] == s[k + 1];
        }
      }
      TrimLeftIsStripLeft(s[1..]);
    }
  }

  lemma {:induction false} TrimRightIsStripRight(s: string)
    requires NoSeparators(s)
    ensures TrimRight(s) == Text.StripRight(s)
  {
    if s != [] {
      var t := s[..|s| - 1];
      assert NoSeparators(t) by {
        forall k | 0 <= k < |t|
          ensures !IsInformationSeparator(t[k])
        {
          assert t[k] == s[k];
        }
      }
      TrimRightIsStripRight(t);
    }
  }

  /** Without information separators, `float()` and `strip()` remove the same white
      space. */
  lemma TrimIsStrip(s: string)
    requires NoSeparators(s)
    ensures Trim(s) == Text.Strip(s)
  {
    var l := TrimLeft(s);
    TrimLeftIsStripLeft(s);
    TrimLeftShape(s);
    assert NoSeparators(l) by {
      forall k | 0 <= k < |l|
        ensures !IsInformationSeparator(l[k])
      {
        assert l[k] == s[|s| - |l| + k];
      }
    }
    TrimRightIsStripRight(l);
  }

  // ---- float ----

  /** `float(s)` on the decimal forms this model covers: white space as `float`
      knows it is ignored at either end, then an optional sign and digits with at
      most one decimal point, at least one digit in all. Any other text is refused
      (`None`, where Python raises). A number needs a digit, so empty or blank text
      never parses, and a part that still holds a DICOM value separator never
      parses either. */
  function ParseReal(s: string): Option<real> {
    ParseSigned(Trim(s))
  }

  /** An optional sign, then an unsigned decimal number. */
  function ParseSigned(t: string): Option<real> {
    if t != [] && (t[0] == '+' || t[0] == '-') then
      match ParseUnsigned(t[1..])
      case Some(v) => Some(if t[0] == '-' then -v else v)
      case None => None
    else ParseUnsigned(t)
  }

  /** A number needs a digit: empty or blank text never parses, which is why
      the strict coordinate reader drops empty parts before parsing. */
  lemma ParseNeedsDigit(s: string)
    requires ParseReal(s).Some?
    ensures exists c :: c in s && IsDigit(c)
  {
    var t := Trim(s);
    var u := if t != [] && (t[0] == '+' || t[0] == '-') then t[1..] else t;
    assert ParseUnsigned(u).Some?;
    ParseUnsignedShape(u);
    var k :| 0 <= k < |u| && IsDigit(u[k]);
    assert u[k] in t;
    TrimKeepsOnlyOwnChars(s, u[k]);
  }

  /** Reading `s.strip()` instead of `s` changes nothing when `float(s)` succeeds,
      nor when `s` holds no information separator: the retry after `strip()`
      matters only for text that `float` refuses because of U+001C to U+001F. */
  lemma ParseStripped(s: string)
    ensures ParseReal(s).Some? ==> ParseReal(Text.Strip(s)) == ParseReal(s)
    ensures NoSeparators(s) ==> ParseReal(Text.Strip(s)) == ParseReal(s)
  {
    if ParseReal(s).Some? {
      var t := Trim(s);
      var i := |s| - |TrimLeft(s)|;
      TrimShape(s);
      ParseSignedEnds(t);
      var a, b := s[..i], s[i + |t|..];
      assert s == a + t + b;
      assert Text.AllSpace(a) && Text.AllSpace(b);
      Text.StripAround(a, t, b);
      TrimmedIsFixed(t);
    }
    if NoSeparators(s) {
      var r := Text.Strip(s);
      TrimIsStrip(s);
      assert NoSeparators(r) by {
        forall k | 0 <= k < |r|
          ensures !IsInformationSeparator(r[k])
        {
          Text.StripKeepsOnlyOwnChars(s, r[k]);
        }
      }
      TrimIsStrip(r);
      Text.StripIdempotent(s);
    }
  }

  /** The retry after `strip()` does matter: `float` refuses U+001C before a digit,
      and `strip()` removes it. */
  lemma StripRetryMatters()
    ensures ParseReal("\U{1C}1").None?
    ensures ParseReal(Text.Strip("\U{1C}1")) == Some(1.0)
  {
    var s := "\U{1C}1";
    assert !IsFloatSpace(s[0]) && !IsFloatSpace(s[1]);
    TrimmedIsFixed(s);
    assert !IsDigit(s[0]);
    assert Text.StripLeft(s) == "1" by {
      assert s[1..] == "1";
    }
    assert Text.Strip(s) == "1";
    ParseDigits("1");
  }

  /** What `float` reads starts and ends with a sign, a digit or a point, never
      with white space. */
  lemma ParseSignedEnds(t: string)
    requires ParseSigned(t).Some?
    ensures t != [] && !Text.IsSpace(t[0]) && !Text.IsSpace(t[|t| - 1])
  {
    if t != [] && (t[0] == '+' || t[0] == '-') {
      ParseUnsignedChars(t[1..]);
      assert t[|t| - 1] == t[1..][|t| - 2];
    } else {
      ParseUnsignedChars(t);
    }
  }

  lemma ParseUnsignedChars(t: string)
    requires ParseUnsigned(t).Some?
    ensures t != []
    ensures forall k :: 0 <= k < |t| ==> IsDigit(t[k]) || t[k] == '.'
  {
    if '.' in t {
      var i := IndexOf(t, '.');
      forall k | 0 <= k < |t|
        ensures IsDigit(t[k]) || t[k] == '.'
      {
        if k < i {
          assert t[..i][k] == t[k];
        } else if k > i {
          assert t[i + 1..][k - i - 1] == t[k];
        }
      }
    }
  }

  /** Text that still holds a DICOM value separator never parses. */
  lemma ParseRefusesSeparator(s: string)
    requires '\\' in s
    ensures ParseReal(s).None?
  {
    var t := Trim(s);
    assert !IsFloatSpace('\\');
    TrimKeepsNonSpace(s, '\\');
    if t != [] && (t[0] == '+' || t[0] == '-') {
      assert '\\' in t[1..] by {
        var k :| 0 <= k < |t| && t[k] == '\\';
        assert k > 0 && t[1..][k - 1] == t[k];
      }
      if ParseUnsigned(t[1..]).Some? {
        ParseUnsignedShape(t[1..]);
      }
    } else if ParseUnsigned(t).Some? {
      ParseUnsignedShape(t);
    }
  }

  /** Digits, optionally split by one decimal point, with at least one digit. */
  function ParseUnsigned(t: string): Option<real> {
    if '.' in t then
      var i := IndexOf(t, '.');
      var whole, fraction := t[..i], t[i + 1..];
      if AllDigits(whole) && AllDigits(fraction) && |whole| + |fraction| >= 1 then
        Some(DecimalValue(whole, fraction))
      else None
    else if t != [] && AllDigits(t) then
      Some(DigitsValue(t) as real)
    else None
  }

  /** What `ParseUnsigned` accepts holds a digit and no value separator. */
  lemma ParseUnsignedShape(t: string)
    requires ParseUnsigned(t).Some?
    ensures exists k :: 0 <= k < |t| && IsDigit(t[k])
    ensures '\\' !in t
  {
    if '.' in t {
      SplitAtPoint(t, IndexOf(t, '.'));
    } else {
      assert IsDigit(t[0]);
    }
  }

  lemma SplitAtPoint(t: string, i: nat)
    requires i < |t| && t[i] == '.'
    requires AllDigits(t[..i]) && AllDigits(t[i + 1..]) && |t| >= 2
    ensures exists k :: 0 <= k < |t| && IsDigit(t[k])
    ensures '\\' !in t
  {
    if i > 0 {
      assert t[..i][0] == t[0];
    } else {
      assert t[i + 1..][0] == t[i + 1];
    }
    forall k | 0 <= k < |t|
      ensures t[k] != '\\'
    {
      if k < i {
        assert t[..i][k] == t[k];
      } else if k > i {
        assert t[i + 1..][k - i - 1] == t[k];
      }
    }
  }

  /** The value of `whole.fraction`. */
  function DecimalValue(whole: string, fraction: string): real
    requires AllDigits(whole) && AllDigits(fraction)
  {
    DigitsValue(whole) as real + DigitsValue(fraction) as real / Pow10(|fraction|) as real
  }

  /** The first index of `c` in `s`. */
  function IndexOf(s: string, c: char): (i: nat)
    requires c in s
    ensures i < |s| && s[i] == c && c !in s[..i]
  {
    if s[0] == c then 0 else 1 + IndexOf(s[1..], c)
  }

  /** Printing a non-negative integer and parsing it back as a float gives the integer. */
  lemma ParseNatToString(n: nat)
    ensures ParseReal(NatToString(n)) == Some(n as real)
  {
    var s := NatToString(n);
    TrimmedIsFixed(s);
  }

  /** Digits, a decimal point and digits parse to the decimal value they denote. */
  lemma ParseDecimal(whole: string, fraction: string)
    requires AllDigits(whole) && AllDigits(fraction) && whole != [] && fraction != []
    ensures ParseReal(whole + "." + fraction) == Some(DecimalValue(whole, fraction))
  {
    var s := whole + "." + fraction;
    assert s[0] == whole[0] && s[|s| - 1] == fraction[|fraction| - 1];
    ParseUnsignedText(s);
    PointIndex(whole, fraction);
    UnsignedDecimal(whole, fraction);
  }

  lemma ParseUnsignedText(s: string)
    requires s != [] && IsDigit(s[0]) && IsDigit(s[|s| - 1])
    ensures ParseReal(s) == ParseUnsigned(s)
  {
    TrimmedIsFixed(s);
  }

  lemma UnsignedDecimal(whole: string, fraction: string)
    requires AllDigits(whole) && AllDigits(fraction) && whole != []
    requires '.' in whole + "." + fraction
    requires IndexOf(whole + "." + fraction, '.') == |whole|
    requires (whole + "." + fraction)[..|whole|] == whole
    requires (whole + "." + fraction)[|whole| + 1..] == fraction
    ensures ParseUnsigned(whole + "." + fraction) == Some(DecimalValue(whole, fraction))
  {
  }

  lemma PointIndex(whole: string, fraction: string)
    requires AllDigits(whole) && AllDigits(fraction)
    ensures '.' in whole + "." + fraction
    ensures IndexOf(whole + "." + fraction, '.') == |whole|
    ensures (whole + "." + fraction)[..|whole|] == whole
    ensures (whole + "." + fraction)[|whole| + 1..] == fraction
  {
    var s := whole + "." + fraction;
    assert s[|whole|] == '.';
    assert s[..|whole|] == whole;
    assert '.' !in s[..|whole|];
    assert s[|whole| + 1..] == fraction;
  }

  /** Digits alone parse to the integer they denote. */
  lemma ParseDigits(digits: string)
    requires AllDigits(digits) && digits != []
    ensures ParseReal(digits) == Some(DigitsValue(digits) as real)
  {
    assert digits[0] == digits[0] && digits[|digits| - 1] == digits[|digits| - 1];
    TrimmedIsFixed(digits);
  }

  // ---- hexadecimal ----

  /** An upper-case hexadecimal digit. */
  function HexDigit(d: nat): (c: char)
    requires d < 16
    ensures IsHexDigit(c)
  {
    if d < 10 then DigitChar(d) else ('A' as int + (d - 10)) as char
  }

  predicate IsHexDigit(c: char) {
    IsDigit(c) || 'A' <= c <= 'F'
  }

  function HexValue(c: char): nat
    requires IsHexDigit(c)
  {
    if IsDigit(c) then DigitValue(c) else (c as int - 'A' as int + 10) as nat
  }

  /** `f"{n:04X}"` for a 16-bit number: exactly four upper-case hexadecimal digits. */
  function Hex4(n: uint16): (s: string)
    ensures |s| == 4 && forall k :: 0 <= k < 4 ==> IsHexDigit(s[k])
  {
    var q1 := n / 16;
    var q2 := q1 / 16;
    var q3 := q2 / 16;
    [HexDigit(q3), HexDigit(q2 % 16), HexDigit(q1 % 16), HexDigit(n % 16)]
  }

  /** Reads four hexadecimal digits back as a number. */
  function ParseHex4(s: string): (n: uint16)
    requires |s| == 4 && forall k :: 0 <= k < 4 ==> IsHexDigit(s[k])
  {
    var n := HexValue(s[0]) * 0x1000 + HexValue(s[1]) * 0x100 + HexValue(s[2]) * 0x10 + HexValue(s[3]);
    assert HexValue(s[0]) < 16 && HexValue(s[1]) < 16 && HexValue(s[2]) < 16 && HexValue(s[3]) < 16;
    n
  }

  lemma HexDigitValue(d: nat)
    requires d < 16
    ensures HexValue(HexDigit(d)) == d
  {
  }

  /** Four hexadecimal digits determine the 16-bit number they were printed from. */
  lemma Hex4RoundTrip(n: uint16)
    ensures ParseHex4(Hex4(n)) == n
  {
    var q1 := n / 16;
    var q2 := q1 / 16;
    var q3 := q2 / 16;
    HexDigitValue(q3);
    HexDigitValue(q2 % 16);
    HexDigitValue(q1 % 16);
    HexDigitValue(n % 16);
    assert n == 16 * q1 + n % 16;
    assert q1 == 16 * q2 + q1 % 16;
    assert q2 == 16 * q3 + q2 % 16;
  }
}
