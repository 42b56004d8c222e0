/**
 * Deposit and withdrawal amounts. The parser strips thousands separators and
 * reads a decimal number from the front of the token; a token that does not
 * start with a number is worth zero. Amounts are exact decimals here, not
 * binary floating point.
 */
module Amounts {
  import opened Wrappers
  import opened Text
  import opened Numerals

  /** The amount `units / 10^scale`. */
  datatype Decimal = Decimal(units: int, scale: nat)

  const Zero := Decimal(0, 0)

  /** A JavaScript number is falsy exactly when it is zero (NaN never reaches here). */
  predicate IsZero(d: Decimal) {
    d.units == 0
  }

  /** `a` and `b` denote the same number. */
  predicate SameValue(a: Decimal, b: Decimal) {
    Shift(a.units, b.scale) == Shift(b.units, a.scale)
  }

  /** `token.replace(/,/g, '')`. */
  function StripCommas(token: string): (r: string)
    ensures |r| <= |token|
  {
    if |token| == 0 then ""
    else if token[0] == ',' then StripCommas(token[1..])
    else [token[0]] + StripCommas(token[1..])
  }

  /** No comma is left, and every other character of the token is kept. */
  lemma {:induction false} StripCommasSpec(token: string)
    ensures ',' !in StripCommas(token)
    ensures forall c :: c in StripCommas(token) <==> c in token && c != ','
  {
    if |token| > 0 {
      StripCommasSpec(token[1..]);
      assert token == [token[0]] + token[1..];
    }
  }

  /** A token without commas is left as it is. */
  lemma {:induction false} StripCommasUnchanged(token: string)
    requires ',' !in token
    ensures StripCommas(token) == token
  {
    if |token| > 0 {
      assert token[0] != ',';
      assert ',' !in token[1..];
      StripCommasUnchanged(token[1..]);
      assert token == [token[0]] + token[1..];
    }
  }

  /** Stripping distributes over concatenation. */
  lemma {:induction false} StripCommasAppend(a: string, b: string)
    ensures StripCommas(a + b) == StripCommas(a) + StripCommas(b)
  {
    if |a| > 0 {
      assert (a + b)[0] == a[0];
      assert (a + b)[1..] == a[1..] + b;
      StripCommasAppend(a[1..], b);
    } else {
      assert a + b == b;
    }
  }

  /** The length of the run of digits that starts `s`. */
  function LeadingDigits(s: string): (n: nat)
    ensures n <= |s|
    ensures n < |s| ==> !IsDigit(s[n])
  {
    if |s| == 0 then 0
    else if !IsDigit(s[0]) then 0
    else 1 + LeadingDigits(s[1..])
  }

  /** The run is made of digits. */
  lemma {:induction false} LeadingDigitsSpec(s: string)
    ensures AllDigits(s[..LeadingDigits(s)])
  {
    if |s| > 0 && IsDigit(s[0]) {
      LeadingDigitsSpec(s[1..]);
      var n := LeadingDigits(s);
      assert s[..n] == [s[0]] + s[1..][..n - 1];
    }
  }

  /** The digit run at the front of a digit string followed by a non-digit is that string. */
  lemma {:induction false} LeadingDigitsAppend(a: string, b: string)
    requires AllDigits(a)
    requires b == "" || !IsDigit(b[0])
    ensures LeadingDigits(a + b) == |a|
  {
    if |a| > 0 {
      assert (a + b)[0] == a[0];
      assert (a + b)[1..] == a[1..] + b;
      LeadingDigitsAppend(a[1..], b);
    } else {
      assert a + b == b;
    }
  }

  /** The number of sign characters at the front of `t` (0 or 1). */
  function SignLength(t: string): (n: nat)
    ensures n <= |t|
  {
    if |t| > 0 && (t[0] == '+' || t[0] == '-') then 1 else 0
  }

  /**
   * `t` begins with a decimal number: after an optional sign, a digit, or a
   * point followed by a digit.
   */
  predicate StartsNumber(t: string) {
    var b := t[SignLength(t)..];
    (|b| > 0 && IsDigit(b[0])) || (|b| > 1 && b[0] == '.' && IsDigit(b[1]))
  }

  /** The digits after a leading point of `s`, or none when `s` does not start with a point. */
  function FractionDigits(s: string): (f: string)
    ensures |f| > 0 ==> |s| > 1 && s[0] == '.' && IsDigit(s[1])
  {
    if |s| > 0 && s[0] == '.' then s[1..][..LeadingDigits(s[1..])] else ""
  }

  /** The fraction digits are digits. */
  lemma FractionDigitsSpec(s: string)
    ensures AllDigits(FractionDigits(s))
  {
    if |s| > 0 && s[0] == '.' {
      LeadingDigitsSpec(s[1..]);
    }
  }

  /**
   * The unsigned part of a number at the front of `body`: the whole digits and
   * the fraction digits, as a magnitude and a scale; `None` when there is no
   * digit.
   */
  function ReadUnsigned(body: string): (r: Option<Decimal>)
    ensures r.None? <==> !((|body| > 0 && IsDigit(body[0])) || (|body| > 1 && body[0] == '.' && IsDigit(body[1])))
  {
    var whole := body[..LeadingDigits(body)];
    var frac := FractionDigits(body[|whole|..]);
    if |whole| + |frac| == 0 then None
    else
      LeadingDigitsSpec(body);
      FractionDigitsSpec(body[|whole|..]);
      AllDigitsAppend(whole, frac);
      Some(Decimal(DigitsValue(whole + frac), |frac|))
  }

  /**
   * `parseFloat` restricted to plain decimals: the longest prefix of the form
   * sign? digits ('.' digits)? with at least one digit is read, the rest of
   * the token is ignored; `None` stands for NaN.
   */
  function ParseDecimal(t: string): (r: Option<Decimal>)
    ensures r.None? <==> !StartsNumber(t)
  {
    var unsigned := ReadUnsigned(t[SignLength(t)..]);
    if unsigned.None? then None
    else if SignLength(t) == 1 && t[0] == '-' then Some(Decimal(-unsigned.value.units, unsigned.value.scale))
    else unsigned
  }

  /**
   * The amount a statement token stands for: commas removed, then read as a
   * number, with zero in place of NaN. Every token has an amount.
   */
  function AmountOf(token: string): (r: Decimal)
    ensures !StartsNumber(StripCommas(token)) ==> r == Zero
    ensures StartsNumber(StripCommas(token)) ==> ParseDecimal(StripCommas(token)) == Some(r)
  {
    ParseDecimal(StripCommas(token)).GetOr(Zero)
  }

  /** A word is not a number, so it is worth zero. */
  lemma WordAmountExample(token: string)
    requires token == "Store"
    ensures AmountOf(token) == Zero
  {
    StripCommasUnchanged(token);
  }

  /** A grouped amount reads as its digits, with the thousands separator dropped. */
  lemma GroupedAmountExample(token: string)
    requires token == "1,200.50"
    ensures AmountOf(token) == Decimal(120050, 2)
  {
    var whole, rest := "1", "200.50";
    assert token == whole + "," + rest;
    AmountIgnoresCommas(whole, rest);
    PlainAmountExample(whole + rest);
  }

  lemma PlainAmountExample(body: string)
    requires body == "1" + "200.50"
    ensures AmountOf(body) == Decimal(120050, 2)
  {
    PlainAmountText(body);
    StripCommasUnchanged(body);
    ReadPlainAmount(body);
    assert body[0..] == body;
  }

  lemma PlainAmountText(body: string)
    requires body == "1" + "200.50"
    ensures body == UnsignedText("1200", "50") + ""
    ensures ',' !in body && SignLength(body) == 0
  {
    assert body == "1200.50";
  }

  lemma ReadPlainAmount(body: string)
    requires body == UnsignedText("1200", "50") + ""
    ensures ReadUnsigned(body) == Some(Decimal(120050, 2))
  {
    var whole, frac := "1200", "50";
    ReadUnsignedDigits(whole, frac, "");
    assert whole + frac == "120050";
    DigitsValueExample();
  }

  lemma DigitsValueExample()
    ensures DigitsValue("120050") == 120050
  {
    var s1, s2, s3, s4, s5, s6 := "1", "12", "120", "1200", "12005", "120050";
    assert s1[..0] == "" && s2[..1] == s1 && s3[..2] == s2;
    assert s4[..3] == s3 && s5[..4] == s4 && s6[..5] == s5;
    assert DigitsValue(s1) == 1;
    assert DigitsValue(s2) == 12;
    assert DigitsValue(s3) == 120;
    assert DigitsValue(s4) == 1200;
    assert DigitsValue(s5) == 12005;
  }

  /** Thousands separators do not affect the amount. */
  lemma AmountIgnoresCommas(a: string, b: string)
    ensures AmountOf(a + "," + b) == AmountOf(a + b)
  {
    assert a + "," + b == a + ("," + b);
    StripCommasAppend(a, "," + b);
    StripCommasAppend(",", b);
    StripCommasAppend(a, b);
    assert StripCommas(",") == "";
  }

  /** The digits of `|d.units|`, padded with zeros to more than `d.scale` digits. */
  function PaddedDigits(d: Decimal): (p: string)
    ensures |p| > d.scale
  {
    var magnitude := if d.units < 0 then -d.units else d.units;
    var digits := NatToString(magnitude);
    if |digits| <= d.scale then Zeros(d.scale + 1 - |digits|) + digits
    else digits
  }

  /** The padded digits are digits, and denote the magnitude of the units. */
  lemma PaddedDigitsValue(d: Decimal)
    ensures AllDigits(PaddedDigits(d))
    ensures DigitsValue(PaddedDigits(d)) == if d.units < 0 then -d.units else d.units
  {
    var magnitude := if d.units < 0 then -d.units else d.units;
    var digits := NatToString(magnitude);
    NatToStringValue(magnitude);
    if |digits| <= d.scale {
      LeadingZerosValue(d.scale + 1 - |digits|, digits);
    }
  }

  /** Whole digits, then a point and the fraction digits when there are any. */
  function UnsignedText(whole: string, frac: string): string {
    whole + (if frac == "" then "" else "." + frac)
  }

  /** The plain decimal writing of `d`: sign, whole digits, and `d.scale` fraction digits. */
  function Render(d: Decimal): (s: string)
  {
    var p := PaddedDigits(d);
    var cut := |p| - d.scale;
    (if d.units < 0 then "-" else "") + UnsignedText(p[..cut], p[cut..])
  }

  /**
   * Regrouping a concatenation. Called rather than asserted in the proofs
   * below, so that the solver meets the regrouped term without searching for it.
   */
  lemma AppendAssociative(a: string, b: string, c: string)
    ensures (a + b) + c == a + (b + c)
  {
  }

  /** What `ReadUnsigned` reads, given where the whole digits end and what the fraction digits are. */
  lemma ReadUnsignedParts(body: string, whole: string, frac: string)
    requires |whole| <= |body| && body[..|whole|] == whole && LeadingDigits(body) == |whole|
    requires FractionDigits(body[|whole|..]) == frac
    requires |whole| + |frac| > 0
    ensures AllDigits(whole + frac)
    ensures ReadUnsigned(body) == Some(Decimal(DigitsValue(whole + frac), |frac|))
  {
    LeadingDigitsSpec(body);
    FractionDigitsSpec(body[|whole|..]);
    AllDigitsAppend(whole, frac);
  }

  /** The fraction digits of a point, digits and then a non-digit. */
  lemma FractionDigitsOf(fracPart: string, rest: string)
    requires AllDigits(fracPart)
    requires rest == "" || (!IsDigit(rest[0]) && rest[0] != '.')
    ensures FractionDigits((if fracPart == "" then "" else "." + fracPart) + rest) == fracPart
  {
    var tail := (if fracPart == "" then "" else "." + fracPart) + rest;
    if fracPart != "" {
      assert tail[1..] == fracPart + rest;
      LeadingDigitsAppend(fracPart, rest);
      assert (fracPart + rest)[..|fracPart|] == fracPart;
    } else {
      assert tail == rest;
    }
  }

  /** Reading whole digits, then fraction digits after a point, then a non-number. */
  lemma ReadUnsignedDigits(whole: string, fracPart: string, rest: string)
    requires |whole| > 0 && AllDigits(whole) && AllDigits(fracPart)
    requires rest == "" || (!IsDigit(rest[0]) && rest[0] != '.')
    ensures AllDigits(whole + fracPart)
    ensures ReadUnsigned(UnsignedText(whole, fracPart) + rest)
         == Some(Decimal(DigitsValue(whole + fracPart), |fracPart|))
  {
    var point := if fracPart == "" then "" else "." + fracPart;
    var tail := point + rest;
    var body := UnsignedText(whole, fracPart) + rest;
    assert body == (whole + point) + rest;
    AppendAssociative(whole, point, rest);
    LeadingDigitsAppend(whole, tail);
    assert body[..|whole|] == whole;
    assert body[|whole|..] == tail;
    FractionDigitsOf(fracPart, rest);
    ReadUnsignedParts(body, whole, fracPart);
  }

  /**
   * Reading the writing of `d`, followed by anything that does not continue a
   * number, gives `d` back.
   */
  lemma RenderParses(d: Decimal, rest: string)
    requires rest == "" || (!IsDigit(rest[0]) && rest[0] != '.')
    ensures ParseDecimal(Render(d) + rest) == Some(d)
  {
    var p := PaddedDigits(d);
    PaddedDigitsValue(d);
    var cut := |p| - d.scale;
    var whole, fracPart := p[..cut], p[cut..];
    assert whole + fracPart == p;
    var unsigned := UnsignedText(whole, fracPart) + rest;
    ReadUnsignedDigits(whole, fracPart, rest);
    var magnitude := DigitsValue(p);
    assert ReadUnsigned(unsigned) == Some(Decimal(magnitude, d.scale));
    assert unsigned[0] == whole[0];
    var sign := if d.units < 0 then "-" else "";
    AppendAssociative(sign, UnsignedText(whole, fracPart), rest);
    ParseSigned(sign + unsigned, d.units < 0, unsigned, magnitude, d.scale);
  }

  /** A number read after an optional minus sign. */
  lemma ParseSigned(t: string, negative: bool, unsigned: string, magnitude: nat, scale: nat)
    requires |unsigned| > 0 && IsDigit(unsigned[0])
    requires t == (if negative then "-" else "") + unsigned
    requires ReadUnsigned(unsigned) == Some(Decimal(magnitude, scale))
    ensures ParseDecimal(t) == Some(Decimal(if negative then -(magnitude as int) else magnitude, scale))
  {
    if negative {
      assert t[0] == '-' && SignLength(t) == 1;
      assert t[SignLength(t)..] == unsigned;
    } else {
      assert t == unsigned;
      assert t[0] != '+' && t[0] != '-';
      assert SignLength(t) == 0;
      assert t[SignLength(t)..] == unsigned;
    }
  }

  /** A token written by `Render` (which holds no comma) is worth the amount it was written from. */
  lemma AmountOfRender(d: Decimal)
    ensures AmountOf(Render(d)) == d
  {
    RenderParses(d, "");
    assert Render(d) + "" == Render(d);
    RenderHasNoComma(d);
    StripCommasUnchanged(Render(d));
  }

  lemma RenderHasNoComma(d: Decimal)
    ensures ',' !in Render(d)
  {
    var p := PaddedDigits(d);
    PaddedDigitsValue(d);
    var cut := |p| - d.scale;
    assert forall k :: 0 <= k < |p| ==> p[k] != ',';
    assert ',' !in p[..cut] && ',' !in p[cut..];
  }

  /** `d` with the trailing zeros of its fraction removed, as `Number.prototype.toString` writes it. */
  function Normalize(d: Decimal): (n: Decimal)
    ensures n.scale <= d.scale
    decreases d.scale
  {
    if d.scale > 0 && d.units % 10 == 0 then Normalize(Decimal(d.units / 10, d.scale - 1))
    else d
  }

  /**
   * Normalizing keeps the value, the zeroness and the sign, and leaves no
   * trailing zero in the fraction.
   */
  lemma {:induction false} NormalizeSpec(d: Decimal)
    ensures SameValue(Normalize(d), d)
    ensures Normalize(d).scale == 0 || Normalize(d).units % 10 != 0
    ensures IsZero(Normalize(d)) <==> IsZero(d)
    ensures Normalize(d).units < 0 <==> d.units < 0
    decreases d.scale
  {
    if d.scale > 0 && d.units % 10 == 0 {
      var e := Decimal(d.units / 10, d.scale - 1);
      NormalizeSpec(e);
      ScaleByTen(Normalize(e), d);
    }
  }

  lemma ScaleByTen(n: Decimal, d: Decimal)
    requires d.scale > 0 && d.units % 10 == 0
    requires SameValue(n, Decimal(d.units / 10, d.scale - 1))
    ensures SameValue(n, d)
  {
    var u := d.units / 10;
    assert d.units == 10 * u;
    ShiftTimesTen(u, n.scale);
  }

  /** The text `Number.prototype.toString` gives for an amount. */
  function NumberToString(d: Decimal): string {
    Render(Normalize(d))
  }

  /** The amount text reads back as an amount of the same value. */
  lemma NumberToStringParses(d: Decimal)
    ensures ParseDecimal(NumberToString(d)) == Some(Normalize(d))
    ensures SameValue(Normalize(d), d)
    ensures IsZero(Normalize(d)) <==> IsZero(d)
  {
    RenderParses(Normalize(d), "");
    NormalizeSpec(d);
    assert NumberToString(d) + "" == NumberToString(d);
  }

  /** The writing of an amount starts with a minus sign exactly when the amount is negative, and with a digit otherwise. */
  lemma RenderStart(d: Decimal)
    ensures |Render(d)| > 0
    ensures d.units < 0 ==> Render(d)[0] == '-'
    ensures d.units >= 0 ==> IsDigit(Render(d)[0])
  {
    var p := PaddedDigits(d);
    PaddedDigitsValue(d);
    var cut := |p| - d.scale;
    assert p[..cut][0] == p[0];
  }

  /**
   * `-${x}` for an amount `x`: the text with a minus sign in front. For an
   * amount that is not negative it reads back as the opposite amount; a
   * negative amount already starts with a minus, and the doubled sign reads as
   * NaN.
   */
  lemma NegatedTextParses(d: Decimal)
    ensures d.units >= 0 ==>
              ParseDecimal("-" + NumberToString(d)) == Some(Decimal(-Normalize(d).units, Normalize(d).scale))
    ensures d.units < 0 ==> ParseDecimal("-" + NumberToString(d)) == None
  {
    var n := Normalize(d);
    NormalizeSpec(d);
    var text := Render(n);
    RenderStart(n);
    var t := "-" + text;
    assert t[0] == '-' && SignLength(t) == 1;
    assert t[1..] == text;
    if d.units >= 0 {
      RenderParses(n, "");
      assert text + "" == text;
      assert text[0] != '+' && text[0] != '-';
      assert SignLength(text) == 0;
      assert text[SignLength(text)..] == text;
      ParseSigned(t, true, text, n.units, n.scale);
    }
  }
}
