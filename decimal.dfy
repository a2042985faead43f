/** Python's `float(str)` on decimal literals and the `'.2f'` format, over exact reals. */
module Decimal {
  import opened Wrappers
  import opened Strings

  function Abs(x: real): real {
    if x < 0.0 then -x else x
  }

  /** `v * 10^e`, one power of ten at a time. */
  function Scale(v: real, e: int): real
    decreases if e >= 0 then e else -e
  {
    if e == 0 then v else if e > 0 then Scale(v * 10.0, e - 1) else Scale(v / 10.0, e + 1)
  }

  // ---------------------------------------------------------------- parsing

  /** The exponent after `e` or `E`: an optional sign, then at least one digit. */
  function ParseExponent(s: string): Option<int> {
    var signed := |s| > 0 && (s[0] == '+' || s[0] == '-');
    var digits := if signed then s[1..] else s;
    if |digits| > 0 && AllDigits(digits) then
      Some(if signed && s[0] == '-' then -(DigitsValue(digits) as int) else DigitsValue(digits))
    else None
  }

  /** The parts of a decimal literal: sign, the digits before and after the
      point, and the exponent. */
  datatype Literal = Literal(negative: bool, whole: string, frac: string, exponent: int)

  predicate WellFormed(l: Literal) {
    AllDigits(l.whole) && AllDigits(l.frac)
  }

  /** The value of the digits after a decimal point: `0.frac`. */
  function FracValue(frac: string): real
    requires AllDigits(frac)
    decreases |frac|
  {
    if |frac| == 0 then 0.0 else (DigitValue(frac[0]) as real + FracValue(frac[1..])) / 10.0
  }

  /** The value of the literal `whole.frac`. */
  function DecimalValue(whole: string, frac: string): real
    requires AllDigits(whole) && AllDigits(frac)
  {
    DigitsValue(whole) as real + FracValue(frac)
  }

  function LiteralValue(l: Literal): real
    requires WellFormed(l)
  {
    var v := Scale(DecimalValue(l.whole, l.frac), l.exponent);
    if l.negative then -v else v
  }

  /** Digits around at most one `.`, with at least one digit in all. */
  function ParseMantissa(m: string): (r: Option<(string, string)>)
    ensures r.Some? ==> AllDigits(r.value.0) && AllDigits(r.value.1)
  {
    var d := IndexOfAny(m, {'.'});
    var whole := m[..d];
    var frac := if d < |m| then m[d + 1..] else "";
    if AllDigits(whole) && AllDigits(frac) && |whole| + |frac| > 0 then Some((whole, frac)) else None
  }

  /** A literal without sign: a mantissa, then optionally `e` or `E` and an exponent. */
  function ParseUnsigned(body: string): (r: Option<Literal>)
    ensures r.Some? ==> WellFormed(r.value) && !r.value.negative
  {
    var e := IndexOfAny(body, {'e', 'E'});
    var mantissa := ParseMantissa(body[..e]);
    var exponent := if e == |body| then Some(0) else ParseExponent(body[e + 1..]);
    if mantissa.None? || exponent.None? then None
    else Some(Literal(false, mantissa.value.0, mantissa.value.1, exponent.value))
  }

  /** A literal with an optional leading `+` or `-`. */
  function ParseSigned(t: string): (r: Option<Literal>)
    ensures r.Some? ==> WellFormed(r.value)
  {
    if |t| > 0 && (t[0] == '+' || t[0] == '-') then
      match ParseUnsigned(t[1..])
      case None => None
      case Some(l) => Some(l.(negative := t[0] == '-'))
    else ParseUnsigned(t)
  }

  predicate IsAscii(s: string) {
    forall k :: 0 <= k < |s| ==> s[k] < '\U{80}'
  }

  /** The whitespace `float` drops around a literal. Each character above
      U+007F for which `isspace()` holds is first made a space, the characters
      below are left as they are, and then only the ASCII whitespace is
      dropped: the separators U+001C to U+001F stay and make it fail. */
  predicate FloatSpace(c: char) {
    IsAsciiSpace(c) || ('\U{7f}' < c && IsSpace(c))
  }

  function FloatStrip(s: string): string {
    StripOf(s, FloatSpace)
  }

  /** A string without whitespace at either end is left as it is. */
  lemma FloatStripUnchanged(s: string)
    requires |s| > 0 ==> !IsSpace(s[0]) && !IsSpace(s[|s| - 1])
    ensures FloatStrip(s) == s
  {
    if |s| > 0 {
      assert !FloatSpace(s[0]) && !FloatSpace(s[|s| - 1]);
    }
    StripOfUnchanged(s, FloatSpace);
  }

  /** Python's `float(s)` for decimal literals: surrounding whitespace is
      dropped, then an optional sign, a mantissa and an optional exponent;
      anything else is a `ValueError`, here `None`. */
  function ParseFloat(s: string): Option<real> {
    match ParseSigned(FloatStrip(s))
    case None => None
    case Some(l) => Some(LiteralValue(l))
  }

  /** The characters of a decimal literal itself. */
  predicate LiteralChar(c: char) {
    IsDigit(c) || c == '.' || c == '+' || c == '-' || c == 'e' || c == 'E'
  }

  /** The characters a string `float` accepts may contain. */
  predicate FloatChar(c: char) {
    LiteralChar(c) || IsSpace(c)
  }

  lemma MantissaAlphabet(m: string)
    requires ParseMantissa(m).Some?
    ensures forall k :: 0 <= k < |m| ==> IsDigit(m[k]) || m[k] == '.'
  {
    var d := IndexOfAny(m, {'.'});
    forall k | 0 <= k < |m|
      ensures IsDigit(m[k]) || m[k] == '.'
    {
      if k < d {
        assert m[k] == m[..d][k];
      } else if k > d {
        assert m[k] == m[d + 1..][k - d - 1];
      }
    }
  }

  lemma ExponentAlphabet(x: string)
    requires ParseExponent(x).Some?
    ensures forall k :: 0 <= k < |x| ==> IsDigit(x[k]) || x[k] == '+' || x[k] == '-'
  {
    var signed := |x| > 0 && (x[0] == '+' || x[0] == '-');
    forall k | 0 <= k < |x|
      ensures IsDigit(x[k]) || x[k] == '+' || x[k] == '-'
    {
      if signed && k > 0 {
        assert x[k] == x[1..][k - 1];
      }
    }
  }

  lemma UnsignedAlphabet(body: string)
    requires ParseUnsigned(body).Some?
    ensures forall j :: 0 <= j < |body| ==> LiteralChar(body[j])
  {
    var e := IndexOfAny(body, {'e', 'E'});
    assert ParseMantissa(body[..e]).Some?;
    MantissaAlphabet(body[..e]);
    if e < |body| {
      assert ParseExponent(body[e + 1..]).Some?;
      ExponentAlphabet(body[e + 1..]);
    }
    ExponentJoined(body, e, body[..e], if e < |body| then body[e + 1..] else "");
  }

  /** A mantissa, then an exponent letter and an exponent. */
  lemma ExponentJoined(body: string, e: nat, m: string, x: string)
    requires e <= |body| && m == body[..e]
    requires e < |body| ==> (body[e] == 'e' || body[e] == 'E') && x == body[e + 1..]
    requires forall k :: 0 <= k < |m| ==> IsDigit(m[k]) || m[k] == '.'
    requires forall k :: 0 <= k < |x| ==> IsDigit(x[k]) || x[k] == '+' || x[k] == '-'
    ensures forall j :: 0 <= j < |body| ==> LiteralChar(body[j])
  {
    forall j | 0 <= j < |body|
      ensures LiteralChar(body[j])
    {
      if j < e {
        assert body[j] == m[j];
      } else if j > e {
        assert body[j] == x[j - e - 1];
      }
    }
  }

  lemma SignedAlphabet(t: string)
    requires ParseSigned(t).Some?
    ensures forall j :: 0 <= j < |t| ==> LiteralChar(t[j])
  {
    if |t| > 0 && (t[0] == '+' || t[0] == '-') {
      assert ParseUnsigned(t[1..]).Some?;
      UnsignedAlphabet(t[1..]);
      SignAlphabet(t);
    } else {
      assert ParseUnsigned(t).Some?;
      UnsignedAlphabet(t);
    }
  }

  /** A sign in front of literal characters. */
  lemma SignAlphabet(t: string)
    requires |t| > 0 && (t[0] == '+' || t[0] == '-')
    requires forall j :: 0 <= j < |t[1..]| ==> LiteralChar(t[1..][j])
    ensures forall j :: 0 <= j < |t| ==> LiteralChar(t[j])
  {
    forall j | 0 < j < |t|
      ensures LiteralChar(t[j])
    {
      assert t[j] == t[1..][j - 1];
    }
  }

  /** Whatever `float` accepts is made of digits, signs, `.`, `e`, `E` and
      the whitespace it drops, which in a string of ASCII characters is the
      ASCII whitespace only: one other character anywhere makes it fail. */
  lemma FloatAlphabet(s: string)
    requires ParseFloat(s).Some?
    ensures forall k :: 0 <= k < |s| ==> LiteralChar(s[k]) || FloatSpace(s[k])
    ensures IsAscii(s) ==> forall k :: 0 <= k < |s| ==> LiteralChar(s[k]) || IsAsciiSpace(s[k])
    ensures forall k :: 0 <= k < |s| ==> FloatChar(s[k])
  {
    StrippedAlphabet(s, FloatSpace);
    forall k | 0 <= k < |s|
      ensures FloatChar(s[k])
    {
      assert FloatSpace(s[k]) ==> IsSpace(s[k]);
    }
  }

  /** Stripping a signed literal leaves the literal: every character is a
      literal character or a stripped one. */
  lemma StrippedAlphabet(s: string, space: char -> bool)
    requires ParseSigned(StripOf(s, space)).Some?
    ensures forall k :: 0 <= k < |s| ==> LiteralChar(s[k]) || space(s[k])
  {
    var t := StripOf(s, space);
    var off := StripOfBounds(s, space);
    SignedAlphabet(t);
    forall k | off <= k < off + |t|
      ensures LiteralChar(s[k])
    {
      assert s[k] == t[k - off];
    }
  }

  /** `u` with a leading minus sign when `negative`. */
  function WithSign(negative: bool, u: string): string {
    if negative then "-" + u else u
  }

  /** A literal `a.b` of digits reads as `a + 0.b`. */
  lemma ParseDigitsDotDigits(a: string, b: string)
    requires AllDigits(a) && AllDigits(b) && |a| + |b| > 0
    ensures ParseFloat(a + "." + b) == Some(DecimalValue(a, b))
  {
    PlainValue(a, b);
    DigitsReadBack(false, a, b, DecimalValue(a, b));
  }

  /** The signed literal `[-]a.b` reads back as the value of its literal. */
  lemma DigitsReadBack(negative: bool, a: string, b: string, v: real)
    requires AllDigits(a) && AllDigits(b) && |a| + |b| > 0
    requires LiteralValue(Literal(negative, a, b, 0)) == v
    ensures ParseFloat(WithSign(negative, a + "." + b)) == Some(v)
  {
    SignedDigits(negative, a, b);
    FloatOfLiteral(WithSign(negative, a + "." + b), Literal(negative, a, b, 0), v);
  }

  lemma FloatOfLiteral(t: string, l: Literal, v: real)
    requires FloatStrip(t) == t && WellFormed(l)
    requires ParseSigned(t) == Some(l) && LiteralValue(l) == v
    ensures ParseFloat(t) == Some(v)
  {
  }

  lemma PlainValue(a: string, b: string)
    requires AllDigits(a) && AllDigits(b)
    ensures LiteralValue(Literal(false, a, b, 0)) == DecimalValue(a, b)
  {
  }

  /** `[-]a.b` is stripped and parses to the literal it spells. */
  lemma SignedDigits(negative: bool, a: string, b: string)
    requires AllDigits(a) && AllDigits(b) && |a| + |b| > 0
    ensures FloatStrip(WithSign(negative, a + "." + b)) == WithSign(negative, a + "." + b)
    ensures ParseSigned(WithSign(negative, a + "." + b)) == Some(Literal(negative, a, b, 0))
  {
    var u := a + "." + b;
    UnsignedOf(a, b);
    NoEdgeSpace(a, b);
    SignedUnstripped(negative, u);
    if negative {
      assert ("-" + u)[1..] == u;
    }
  }

  /** A sign in front of a text without whitespace at its ends leaves
      nothing to strip. */
  lemma SignedUnstripped(negative: bool, u: string)
    requires |u| > 0 && !IsSpace(u[0]) && !IsSpace(u[|u| - 1])
    ensures FloatStrip(WithSign(negative, u)) == WithSign(negative, u)
  {
    var t := WithSign(negative, u);
    if negative {
      assert t == "-" + u;
      assert t[0] == '-' && t[|t| - 1] == u[|u| - 1];
    }
    FloatStripUnchanged(t);
  }

  lemma NoEdgeSpace(a: string, b: string)
    ensures !IsSpace((a + "." + b)[0]) && !IsSpace((a + "." + b)[|a + "." + b| - 1])
    ensures (a + "." + b)[0] != '+' && (a + "." + b)[0] != '-'
    requires AllDigits(a) && AllDigits(b)
  {
    var u := a + "." + b;
    assert u[0] == '.' || u[0] == a[0];
    assert u[|u| - 1] == '.' || u[|u| - 1] == b[|b| - 1];
  }

  lemma UnsignedOf(a: string, b: string)
    requires AllDigits(a) && AllDigits(b) && |a| + |b| > 0
    ensures ParseUnsigned(a + "." + b) == Some(Literal(false, a, b, 0))
  {
    var u := a + "." + b;
    forall k | 0 <= k < |u|
      ensures IsDigit(u[k]) || u[k] == '.'
    {
      if k < |a| { assert u[k] == a[k]; } else if k > |a| { assert u[k] == b[k - |a| - 1]; }
    }
    assert IndexOfAny(u, {'e', 'E'}) == |u|;
    assert u[..|u|] == u;
    MantissaOf(a, b);
  }

  lemma MantissaOf(a: string, b: string)
    requires AllDigits(a) && AllDigits(b) && |a| + |b| > 0
    ensures ParseMantissa(a + "." + b) == Some((a, b))
  {
    var u := a + "." + b;
    var d := IndexOfAny(u, {'.'});
    assert u[|a|] == '.';
    assert forall j :: 0 <= j < |a| ==> u[j] == a[j];
    assert d == |a|;
    assert u[..d] == a;
    assert u[d + 1..] == b;
  }

  // ---------------------------------------------------------------- formatting

  /** `a` in hundredths, rounded half to even. */
  function Hundredths(a: real): (c: nat)
    requires a >= 0.0
    ensures c as real - 0.5 <= a * 100.0 <= c as real + 0.5
  {
    var f := (a * 100.0).Floor;
    var rest := a * 100.0 - f as real;
    if rest > 0.5 || (rest == 0.5 && f % 2 == 1) then f + 1 else f
  }

  /** An amount of `c` hundredths, negative or not. */
  function Amount(negative: bool, c: nat): real {
    if negative then -(c as real / 100.0) else c as real / 100.0
  }

  /** The text of an amount of `c` hundredths: a sign when negative, the whole
      part without leading zeros, a point and exactly two decimals. */
  function Shown(negative: bool, c: nat): string {
    WithSign(negative, NatToString(c / 100) + "." + TwoDigits(c % 100))
  }

  /** The value Python's `'.2f'` shows for `x`: never more than half a
      hundredth away from `x`. */
  function Rounded2(x: real): (r: real)
    ensures -0.005 <= r - x <= 0.005
  {
    Amount(x < 0.0, Hundredths(Abs(x)))
  }

  /** Python's `format(x, '.2f')`. */
  function Fmt2(x: real): string {
    Shown(x < 0.0, Hundredths(Abs(x)))
  }

  /** A formatted amount holds digits, `.` and `-` only (so never a line break). */
  lemma Fmt2Alphabet(x: real)
    ensures forall k :: 0 <= k < |Fmt2(x)| ==> IsDigit(Fmt2(x)[k]) || Fmt2(x)[k] == '.' || Fmt2(x)[k] == '-'
  {
    ShownAlphabet(x < 0.0, Hundredths(Abs(x)));
  }

  lemma ShownAlphabet(negative: bool, c: nat)
    ensures forall k :: 0 <= k < |Shown(negative, c)| ==>
      IsDigit(Shown(negative, c)[k]) || Shown(negative, c)[k] == '.' || Shown(negative, c)[k] == '-'
  {
    var sign, a, b := (if negative then "-" else ""), NatToString(c / 100), TwoDigits(c % 100);
    var s := Shown(negative, c);
    assert s == sign + a + "." + b;
    forall k | 0 <= k < |s|
      ensures IsDigit(s[k]) || s[k] == '.' || s[k] == '-'
    {
      if k < |sign| {
      } else if k < |sign| + |a| {
        assert s[k] == a[k - |sign|];
      } else if k > |sign| + |a| {
        assert s[k] == b[k - |sign| - |a| - 1];
      }
    }
  }

  /** Reading a formatted amount back gives the rounded amount. */
  lemma Fmt2RoundTrip(x: real)
    ensures ParseFloat(Fmt2(x)) == Some(Rounded2(x))
  {
    ShownRoundTrip(x < 0.0, Hundredths(Abs(x)));
  }

  lemma ShownRoundTrip(negative: bool, c: nat)
    ensures ParseFloat(Shown(negative, c)) == Some(Amount(negative, c))
  {
    var a, b := NatToString(c / 100), TwoDigits(c % 100);
    LiteralAmount(negative, c);
    DigitsReadBack(negative, a, b, Amount(negative, c));
  }

  lemma LiteralAmount(negative: bool, c: nat)
    ensures LiteralValue(Literal(negative, NatToString(c / 100), TwoDigits(c % 100), 0)) == Amount(negative, c)
  {
    HundredthsValue(c);
  }

  lemma HundredthsValue(c: nat)
    ensures DecimalValue(NatToString(c / 100), TwoDigits(c % 100)) == c as real / 100.0
  {
    var a, b := NatToString(c / 100), TwoDigits(c % 100);
    assert b[1..][1..] == [];
    assert FracValue(b) == (c % 100) as real / 100.0;
    assert c == (c / 100) * 100 + c % 100;
  }
}
