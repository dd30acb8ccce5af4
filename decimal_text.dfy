/**
 * Text helpers shared by every parser of the tool: the white-space rule of
 * `String.Trim`, the decimal integer rule of `int.TryParse` (invariant culture,
 * `NumberStyles.Integer`) and the inverse direction, decimal formatting.
 */
module DecimalText {
  import opened Results

  const MIN_INT32: int := -0x8000_0000
  const MAX_INT32: int := 0x7FFF_FFFF

  /** The white space `int.TryParse` allows around a number: space, and tab to carriage return. */
  predicate IsWhite(c: char)
  {
    c == ' ' || ('\t' <= c <= '\r')
  }

  /**
   * `Char.IsWhiteSpace`, the white space `String.Trim` removes: the ASCII
   * white space, next line, the space separators (no-break space, ogham
   * space, the general-punctuation spaces, narrow no-break space, medium
   * mathematical space, ideographic space) and the line and paragraph separators.
   */
  predicate IsWhiteSpace(c: char)
  {
    || IsWhite(c) || c == '\U{0085}' || c == '\U{00A0}' || c == '\U{1680}'
    || ('\U{2000}' <= c <= '\U{200A}') || c == '\U{2028}' || c == '\U{2029}'
    || c == '\U{202F}' || c == '\U{205F}' || c == '\U{3000}'
  }

  /** Which white space a trim removes: that of `int.TryParse`, or that of `String.Trim`. */
  datatype Space = NumberSpace | TextSpace

  predicate IsSpace(k: Space, c: char)
  {
    if k == NumberSpace then IsWhite(c) else IsWhiteSpace(c)
  }

  predicate IsDigit(c: char)
  {
    '0' <= c <= '9'
  }

  /** Every character of `s` is a decimal digit (stated from the last one backwards, as `DigitsValue` reads). */
  predicate AllDigits(s: string)
  {
    s == [] || (AllDigits(s[..|s| - 1]) && IsDigit(s[|s| - 1]))
  }

  lemma {:induction false} AllDigitsEach(s: string)
    ensures AllDigits(s) <==> forall i :: 0 <= i < |s| ==> IsDigit(s[i])
  {
    if s != [] {
      var init := s[..|s| - 1];
      AllDigitsEach(init);
      assert forall i :: 0 <= i < |init| ==> init[i] == s[i];
    }
  }

  lemma AllDigitsSlice(s: string, i: int, j: int)
    requires AllDigits(s) && 0 <= i <= j <= |s|
    ensures AllDigits(s[i..j])
  {
    AllDigitsEach(s);
    AllDigitsEach(s[i..j]);
    assert forall k :: 0 <= k < j - i ==> s[i..j][k] == s[i + k];
  }

  lemma AllDigitsConcat(a: string, b: string)
    requires AllDigits(a) && AllDigits(b)
    ensures AllDigits(a + b)
  {
    AllDigitsEach(a);
    AllDigitsEach(b);
    AllDigitsEach(a + b);
    assert forall k :: 0 <= k < |a| ==> (a + b)[k] == a[k];
    assert forall k :: |a| <= k < |a| + |b| ==> (a + b)[k] == b[k - |a|];
  }

  /** How many white-space characters `s` starts with. */
  function LeadingSpace(k: Space, s: string): (n: nat)
    ensures n <= |s|
    ensures n < |s| ==> !IsSpace(k, s[n])
    ensures forall i :: 0 <= i < n ==> IsSpace(k, s[i])
  {
    if s != [] && IsSpace(k, s[0]) then 1 + LeadingSpace(k, s[1..]) else 0
  }

  /** How many white-space characters `s` ends with. */
  function TrailingSpace(k: Space, s: string): (n: nat)
    ensures n <= |s|
    ensures n < |s| ==> !IsSpace(k, s[|s| - 1 - n])
    ensures forall i :: |s| - n <= i < |s| ==> IsSpace(k, s[i])
  {
    if s != [] && IsSpace(k, s[|s| - 1]) then 1 + TrailingSpace(k, s[..|s| - 1]) else 0
  }

  /**
   * The text between the leading and the trailing white space of kind `k`:
   * a slice of `s` with only white space outside it, which is empty or starts
   * and ends with a character that is not white space.
   */
  function Strip(k: Space, s: string): (r: string)
    ensures |r| <= |s|
    ensures r == [] || (!IsSpace(k, r[0]) && !IsSpace(k, r[|r| - 1]))
    ensures exists a, b :: && 0 <= a <= b <= |s| && r == s[a..b]
                           && (forall i :: 0 <= i < a ==> IsSpace(k, s[i]))
                           && (forall i :: b <= i < |s| ==> IsSpace(k, s[i]))
  {
    var a := LeadingSpace(k, s);
    var b := |s| - TrailingSpace(k, s[a..]);
    assert forall i :: b <= i < |s| ==> s[i] == s[a..][i - a];
    assert a < b ==> s[a..b][0] == s[a] && s[a..b][b - a - 1] == s[a..][b - a - 1];
    assert forall i :: b <= i < |s| ==> IsSpace(k, s[i]);
    s[a..b]
  }

  /** `String.Trim`: the text without its leading and trailing `Char.IsWhiteSpace` characters. */
  function Trim(s: string): (r: string)
    ensures r == [] || (!IsWhiteSpace(r[0]) && !IsWhiteSpace(r[|r| - 1]))
    ensures exists a, b :: && 0 <= a <= b <= |s| && r == s[a..b]
                           && (forall i :: 0 <= i < a ==> IsWhiteSpace(s[i]))
                           && (forall i :: b <= i < |s| ==> IsWhiteSpace(s[i]))
  {
    Strip(TextSpace, s)
  }

  /** The text `int.TryParse` reads a number from: `s` without the white space it allows around one. */
  function NumberTrim(s: string): string
  {
    Strip(NumberSpace, s)
  }

  /** Trimming, of either kind, leaves text that already starts and ends with a visible character alone. */
  lemma TrimVisible(s: string)
    requires s != [] && !IsWhiteSpace(s[0]) && !IsWhiteSpace(s[|s| - 1])
    ensures Trim(s) == s && NumberTrim(s) == s
  {
  }

  /** The slice `Strip` keeps is the only one with white space outside it and visible ends. */
  lemma StripUnique(k: Space, s: string, a: int, b: int)
    requires 0 <= a <= b <= |s|
    requires forall i :: 0 <= i < a ==> IsSpace(k, s[i])
    requires forall i :: b <= i < |s| ==> IsSpace(k, s[i])
    requires a < b ==> !IsSpace(k, s[a]) && !IsSpace(k, s[b - 1])
    requires a == b ==> forall i :: 0 <= i < |s| ==> IsSpace(k, s[i])
    ensures Strip(k, s) == s[a..b]
  {
    var r := Strip(k, s);
    var a', b' :| && 0 <= a' <= b' <= |s| && r == s[a'..b']
                  && (forall i :: 0 <= i < a' ==> IsSpace(k, s[i]))
                  && (forall i :: b' <= i < |s| ==> IsSpace(k, s[i]));
    if a < b {
      assert a' <= a && b' >= b;
      assert r != [];
      assert r[0] == s[a'] && r[|r| - 1] == s[b' - 1];
    }
  }

  /**
   * `String.Trim` removes Unicode white space that `int.TryParse` does not
   * allow: a visible text followed by a no-break space trims to the text.
   */
  lemma TrimNoBreakSpace(t: string)
    requires t != [] && !IsWhiteSpace(t[0]) && !IsWhiteSpace(t[|t| - 1])
    ensures Trim(t + "\U{00A0}") == t
    ensures NumberTrim(t + "\U{00A0}") == t + "\U{00A0}"
  {
    var s := t + "\U{00A0}";
    assert s[|s| - 1] == '\U{00A0}' && s[0] == t[0] && s[|t| - 1] == t[|t| - 1];
    assert forall i :: |t| <= i < |s| ==> s[i] == '\U{00A0}';
    StripUnique(TextSpace, s, 0, |t|);
    assert s[0..|t|] == t;
    assert !IsWhite('\U{00A0}');
    StripUnique(NumberSpace, s, 0, |s|);
    assert s[0..|s|] == s;
  }

  function DigitValue(c: char): (d: nat)
    requires IsDigit(c)
    ensures d < 10
  {
    c as int - '0' as int
  }

  function DigitChar(d: nat): (c: char)
    requires d < 10
    ensures IsDigit(c) && DigitValue(c) == d
  {
    ('0' as int + d) as char
  }

  /** The value of a string of decimal digits, most significant first. */
  function DigitsValue(s: string): nat
    requires AllDigits(s)
  {
    if s == [] then 0 else DigitsValue(s[..|s| - 1]) * 10 + DigitValue(s[|s| - 1])
  }

  /** The value of a sign and a string of digits: negative after '-', positive otherwise. */
  function SignedValue(sign: string, d: string): int
    requires AllDigits(d)
  {
    if sign == "-" then -(DigitsValue(d) as int) else DigitsValue(d)
  }

  /** The signs `int.TryParse` accepts before the digits. */
  predicate IsSign(sign: string)
  {
    sign == "" || sign == "+" || sign == "-"
  }

  /**
   * `int.TryParse(s, out v)`: optional white space, an optional sign, at least
   * one digit, optional white space, and a value that fits in 32 bits.
   */
  function ParseInt32(s: string): (r: Option<int>)
    ensures r.Some? ==> MIN_INT32 <= r.value <= MAX_INT32
  {
    var t := NumberTrim(s);
    var signed := |t| > 0 && (t[0] == '-' || t[0] == '+');
    var digits := if signed then t[1..] else t;
    if digits == [] || !AllDigits(digits) then None
    else
      var v: int := if signed && t[0] == '-' then -(DigitsValue(digits) as int) else DigitsValue(digits);
      if MIN_INT32 <= v <= MAX_INT32 then Some(v) else None
  }

  /**
   * Text that is, inside its white space, a sign and one or more digits
   * parses to their signed value exactly when that value fits in 32 bits.
   */
  lemma ParseInt32Form(s: string, sign: string, d: string)
    requires IsSign(sign) && d != [] && AllDigits(d) && NumberTrim(s) == sign + d
    ensures MIN_INT32 <= SignedValue(sign, d) <= MAX_INT32 ==> ParseInt32(s) == Some(SignedValue(sign, d))
    ensures !(MIN_INT32 <= SignedValue(sign, d) <= MAX_INT32) ==> ParseInt32(s) == None
  {
    var t := NumberTrim(s);
    AllDigitsEach(d);
    if sign == "" {
      assert t == d;
      assert t[0] == d[0] && IsDigit(d[0]);
    } else {
      assert t[0] == sign[0] && t[1..] == d;
    }
  }

  /** Conversely, every text that parses is, inside its white space, a sign and digits, and its value is theirs. */
  lemma ParseInt32Shape(s: string)
    requires ParseInt32(s).Some?
    ensures exists sign, d :: && IsSign(sign) && d != [] && AllDigits(d) && NumberTrim(s) == sign + d
                              && ParseInt32(s).value == SignedValue(sign, d)
  {
    var t := NumberTrim(s);
    var signed := |t| > 0 && (t[0] == '-' || t[0] == '+');
    var sign := if signed then t[..1] else "";
    var d := if signed then t[1..] else t;
    assert t == sign + d;
    assert IsSign(sign) && d != [] && AllDigits(d);
    assert ParseInt32(s).value == SignedValue(sign, d);
  }

  /** Text without any digit never parses; in particular the empty string does not. */
  lemma ParseInt32NeedsDigit(s: string)
    requires forall i :: 0 <= i < |s| ==> !IsDigit(s[i])
    ensures ParseInt32(s) == None
  {
    var t := NumberTrim(s);
    var a := LeadingSpace(NumberSpace, s);
    if |t| > 0 && (t[0] == '-' || t[0] == '+') && |t| > 1 {
      AllDigitsEach(t[1..]);
      assert t[1..][0] == s[a + 1] && !IsDigit(t[1..][0]);
    } else if |t| > 0 {
      AllDigitsEach(t);
      assert t[0] == s[a] && !IsDigit(t[0]);
    }
  }

  /** Decimal digits of `n` without leading zeros. */
  function Decimal(n: nat): (s: string)
    ensures s != [] && AllDigits(s) && IsDigit(s[0])
  {
    if n < 10 then [DigitChar(n)] else Decimal(n / 10) + [DigitChar(n % 10)]
  }

  /** `n.ToString()` in the invariant culture. */
  function SignedDecimal(n: int): (s: string)
    ensures s != [] && !IsWhiteSpace(s[0]) && !IsWhiteSpace(s[|s| - 1])
  {
    if n < 0 then "-" + Decimal(-n) else Decimal(n)
  }

  function Pow10(k: nat): (p: nat)
    ensures p >= 1
  {
    if k == 0 then 1 else 10 * Pow10(k - 1)
  }

  /** The digits of `n` left-padded with zeros to `width` characters. */
  function ZeroPad(s: string, width: nat): (r: string)
    requires |s| <= width
    ensures |r| == width && r[width - |s|..] == s
    ensures forall i :: 0 <= i < width - |s| ==> r[i] == '0'
  {
    seq(width - |s|, _ => '0') + s
  }

  /** Formatting then parsing the digits gives the number back. */
  lemma {:induction false} DecimalValue(n: nat)
    ensures DigitsValue(Decimal(n)) == n
  {
    if n >= 10 {
      var s := Decimal(n);
      assert s[..|s| - 1] == Decimal(n / 10);
      DecimalValue(n / 10);
    }
  }

  /** A number below `10^width` needs at most `width` digits. */
  lemma {:induction false} DecimalLength(n: nat, width: nat)
    requires 1 <= width && n < Pow10(width)
    ensures |Decimal(n)| <= width
  {
    if n >= 10 {
      assert width >= 2;
      assert n / 10 < Pow10(width - 1);
      DecimalLength(n / 10, width - 1);
    }
  }

  /** Leading zeros do not change the value of a digit string. */
  lemma {:induction false} LeadingZerosValue(s: string, width: nat)
    requires |s| <= width && AllDigits(s)
    ensures AllDigits(ZeroPad(s, width)) && DigitsValue(ZeroPad(s, width)) == DigitsValue(s)
  {
    var r := ZeroPad(s, width);
    if s == [] {
      assert r == seq(width, _ => '0');
      ZerosValue(width);
    } else {
      assert r[..|r| - 1] == ZeroPad(s[..|s| - 1], width - 1);
      LeadingZerosValue(s[..|s| - 1], width - 1);
    }
  }

  lemma {:induction false} ZerosValue(k: nat)
    ensures AllDigits(seq(k, _ => '0')) && DigitsValue(seq(k, _ => '0')) == 0
  {
    if k > 0 {
      assert seq(k, _ => '0')[..k - 1] == seq(k - 1, _ => '0');
      ZerosValue(k - 1);
    }
  }

  /** Digit strings without sign or white space parse to their value when it fits. */
  lemma ParseDigits(s: string)
    requires s != [] && AllDigits(s) && DigitsValue(s) <= MAX_INT32
    ensures ParseInt32(s) == Some(DigitsValue(s))
  {
    AllDigitsEach(s);
    TrimVisible(s);
  }

  /** Every 32-bit integer survives a trip through its decimal text: ParseInt32 inverts SignedDecimal. */
  lemma ParseSignedDecimal(n: int)
    requires MIN_INT32 <= n <= MAX_INT32
    ensures ParseInt32(SignedDecimal(n)) == Some(n)
  {
    var s := SignedDecimal(n);
    TrimVisible(s);
    var m: nat := if n < 0 then -n else n;
    var sign := if n < 0 then "-" else "";
    assert s == sign + Decimal(m);
    DecimalValue(m);
    assert SignedValue(sign, Decimal(m)) == n;
    ParseInt32Form(s, sign, Decimal(m));
  }

  lemma Pow10Values()
    ensures Pow10(2) == 100 && Pow10(4) == 10000 && Pow10(7) == 10000000
  {
    assert Pow10(1) == 10;
    assert Pow10(2) == 100;
    assert Pow10(3) == 1000;
    assert Pow10(4) == 10000;
    assert Pow10(5) == 100000;
    assert Pow10(6) == 1000000;
  }

  /** A number written with exactly `width` digits, zero-padded, parses back to itself. */
  lemma ParseZeroPadded(n: nat, width: nat)
    requires 1 <= width && n < Pow10(width) && n <= MAX_INT32
    ensures |Decimal(n)| <= width
    ensures AllDigits(ZeroPad(Decimal(n), width)) && DigitsValue(ZeroPad(Decimal(n), width)) == n
    ensures ParseInt32(ZeroPad(Decimal(n), width)) == Some(n)
  {
    DecimalLength(n, width);
    LeadingZerosValue(Decimal(n), width);
    DecimalValue(n);
    ParseDigits(ZeroPad(Decimal(n), width));
  }
}
