/**
 * Coercion of a Debit or Credit cell to a number, as done by
 * `pd.to_numeric(df[col].astype(str).str.replace(",", "").str.strip(),
 * errors="coerce").fillna(0)`: every comma is deleted, surrounding
 * whitespace is stripped, the rest is read as a plain signed decimal, and
 * anything that does not read (or a missing cell) becomes 0.
 */
module Amounts {
  import opened Wrappers
  import opened Text

  /** A table cell as extracted from a page: text, or missing. */
  type Cell = Option<string>

  /** `astype(str)`: a missing cell turns into the text "None". */
  function CellText(c: Cell): string {
    match c
    case Some(t) => t
    case None => "None"
  }

  predicate IsDigit(c: char) {
    '0' <= c <= '9'
  }

  predicate AllDigits(s: string) {
    forall k :: 0 <= k < |s| ==> IsDigit(s[k])
  }

  function Pow10(k: nat): (r: nat)
    ensures r >= 1
  {
    if k == 0 then 1 else 10 * Pow10(k - 1)
  }

  /** Division and remainder of naturals, kept apart so that the solver
      sees their bounds without nonlinear reasoning. */
  function Quot(a: nat, d: nat): nat
    requires d >= 1
  {
    a / d
  }

  function Rem(a: nat, d: nat): (r: nat)
    requires d >= 1
    ensures r < d
  {
    a % d
  }

  lemma {:induction false} QuotRem(a: nat, d: nat)
    requires d >= 1
    ensures a == Quot(a, d) * d + Rem(a, d)
  {
  }

  function Abs(x: int): nat {
    if x < 0 then -x else x
  }

  /** The number a string of decimal digits denotes. */
  function DigitsValue(ds: string): nat
    requires AllDigits(ds)
  {
    if ds == [] then 0
    else DigitsValue(ds[..|ds| - 1]) * 10 + (ds[|ds| - 1] as int - '0' as int)
  }

  /** `n / 10^places`: a count of hundredths, thousandths, ... as a number. */
  function Scaled(n: nat, places: nat): real {
    n as real / Pow10(places) as real
  }

  /** An unsigned decimal: digits, optionally a point and more digits, with
      at least one digit in all; the digits on both sides of the point,
      read as one number, over ten to the number of digits after it. */
  function ParseUnsigned(s: string): Option<real> {
    match FindFirst(s, ".")
    case None =>
      if s != [] && AllDigits(s) then Some(DigitsValue(s) as real) else None
    case Some(p) =>
      var whole, frac := s[..p], s[p + 1..];
      if |whole| + |frac| >= 1 && AllDigits(whole + frac)
      then Some(Scaled(DigitsValue(whole + frac), |frac|))
      else None
  }

  /** A plain signed decimal, with an optional leading `+` or `-`. */
  function ParseDecimal(s: string): Option<real> {
    if s != [] && s[0] == '-' then
      match ParseUnsigned(s[1..])
      case Some(v) => Some(-v)
      case None => None
    else if s != [] && s[0] == '+' then ParseUnsigned(s[1..])
    else ParseUnsigned(s)
  }

  /** The coerced value of one Debit or Credit cell. */
  function CoerceAmount(c: Cell): real {
    ParseDecimal(Strip(RemoveAll(CellText(c), ','))).GetOr(0.0)
  }

  // ---------------------------------------------------------------------
  // A fixed-point renderer, the partner of the parser.

  function Zeros(k: nat): (r: string)
    ensures |r| == k && AllDigits(r)
  {
    if k == 0 then [] else Zeros(k - 1) + ['0']
  }

  /** `mag / 10^places` written out: the whole part, and when `places > 0`
      a point followed by exactly `places` digits. */
  function FormatUnsigned(mag: nat, places: nat): string {
    var whole := NatToString(Quot(mag, Pow10(places)));
    if places == 0 then whole
    else whole + "." + PaddedDigits(Rem(mag, Pow10(places)), places)
  }

  /** The digits of `n`, padded on the left with zeros to `width` places. */
  function PaddedDigits(n: nat, width: nat): string {
    var digits := NatToString(n);
    var pad := if |digits| <= width then width - |digits| else 0;
    Zeros(pad) + digits
  }

  /** `units / 10^places` written out, with a leading `-` when negative. */
  function FormatFixed(units: int, places: nat): string {
    (if units < 0 then "-" else "") + FormatUnsigned(Abs(units), places)
  }

  lemma {:induction false} DigitsValueAppend(a: string, b: string)
    requires AllDigits(a) && AllDigits(b)
    ensures AllDigits(a + b)
    ensures DigitsValue(a + b) == DigitsValue(a) * Pow10(|b|) + DigitsValue(b)
    decreases |b|
  {
    assert AllDigits(a + b);
    if b == [] {
      assert a + b == a;
    } else {
      var b' := b[..|b| - 1];
      var d := b[|b| - 1] as int - '0' as int;
      assert (a + b)[..|a + b| - 1] == a + b';
      assert (a + b)[|a + b| - 1] == b[|b| - 1];
      DigitsValueAppend(a, b');
      var x, y, p := DigitsValue(a), DigitsValue(b'), Pow10(|b'|);
      assert DigitsValue(a + b) == (x * p + y) * 10 + d;
      assert DigitsValue(b) == y * 10 + d;
      assert Pow10(|b|) == p * 10;
      Shift10(x, p, y, d);
    }
  }

  lemma Shift10(x: int, p: int, y: int, d: int)
    ensures (x * p + y) * 10 + d == x * (p * 10) + (y * 10 + d)
  {
  }

  lemma {:induction false} ZerosValue(k: nat)
    ensures DigitsValue(Zeros(k)) == 0
  {
    if k > 0 {
      ZerosValue(k - 1);
      assert Zeros(k)[..k - 1] == Zeros(k - 1);
    }
  }

  lemma {:induction false} NatToStringValue(n: nat)
    ensures AllDigits(NatToString(n)) && DigitsValue(NatToString(n)) == n
  {
    if n >= 10 {
      NatToStringValue(n / 10);
      var r := NatToString(n);
      assert r[..|r| - 1] == NatToString(n / 10);
    }
  }

  lemma {:induction false} NatToStringLength(n: nat, k: nat)
    requires n < Pow10(k) && k >= 1
    ensures |NatToString(n)| <= k
  {
    if n >= 10 {
      NatToStringLength(n / 10, k - 1);
    }
  }

  /** A string with no point has no occurrence of ".". */
  lemma {:induction false} NoPointFound(s: string)
    requires '.' !in s
    ensures FindFirst(s, ".") == None
  {
    forall k: nat | k + 1 <= |s| ensures !OccursAt(s, ".", k) {
      assert s[k..k + 1] == [s[k]];
    }
  }

  /** In a string without a point followed by a point, the first point is there. */
  lemma {:induction false} FirstPoint(a: string, b: string)
    requires '.' !in a
    ensures FindFirst(a + "." + b, ".") == Some(|a|)
  {
    var s := a + "." + b;
    assert s[|a|..|a| + 1] == ".";
    assert OccursAt(s, ".", |a|);
    forall k: nat | k < |a| ensures !OccursAt(s, ".", k) {
      assert s[k..k + 1] == [a[k]];
    }
  }

  lemma {:induction false} NoPointInDigits(w: string)
    requires AllDigits(w)
    ensures '.' !in w
  {
    forall k | 0 <= k < |w| ensures w[k] != '.' {
      assert IsDigit(w[k]);
    }
  }

  /** Digits `w` and `f` around a point read back as `wf / 10^|f|`. */
  lemma {:induction false} ParseWholeAndFraction(w: string, f: string)
    requires w != [] && AllDigits(w) && AllDigits(f)
    ensures AllDigits(w + f)
    ensures ParseUnsigned(w + "." + f) == Some(Scaled(DigitsValue(w + f), |f|))
  {
    NoPointInDigits(w);
    FirstPoint(w, f);
    var s := w + "." + f;
    assert s[..|w|] == w;
    assert s[|w| + 1..] == f;
    assert AllDigits(w + f) by {
      forall k | 0 <= k < |w + f| ensures IsDigit((w + f)[k]) {
        assert k < |w| ==> (w + f)[k] == w[k];
        assert k >= |w| ==> (w + f)[k] == f[k - |w|];
      }
    }
  }

  lemma {:induction false} ParseAllDigits(w: string)
    requires w != [] && AllDigits(w)
    ensures ParseUnsigned(w) == Some(DigitsValue(w) as real)
  {
    NoPointInDigits(w);
    NoPointFound(w);
  }

  lemma {:induction false} PaddedDigitsValue(n: nat, width: nat)
    requires width >= 1 && n < Pow10(width)
    ensures var p := PaddedDigits(n, width);
      |p| == width && AllDigits(p) && DigitsValue(p) == n
  {
    var digits := NatToString(n);
    NatToStringValue(n);
    NatToStringLength(n, width);
    var zeros := Zeros(width - |digits|);
    assert PaddedDigits(n, width) == zeros + digits;
    ZerosValue(width - |digits|);
    DigitsValueAppend(zeros, digits);
    ZeroTimes(DigitsValue(zeros), Pow10(|digits|));
  }

  lemma ZeroTimes(x: int, y: int)
    requires x == 0
    ensures x * y == 0
  {
  }

  lemma {:induction false} ParseFormatUnsigned(mag: nat, places: nat)
    ensures ParseUnsigned(FormatUnsigned(mag, places)) == Some(Scaled(mag, places))
  {
    if places == 0 {
      var whole := NatToString(mag);
      NatToStringValue(mag);
      assert FormatUnsigned(mag, places) == whole;
      ParseAllDigits(whole);
      assert Scaled(mag, 0) == mag as real;
    } else {
      ParseFormatFraction(mag, places);
    }
  }

  lemma {:induction false} ParseFormatFraction(mag: nat, places: nat)
    requires places >= 1
    ensures ParseUnsigned(FormatUnsigned(mag, places)) == Some(Scaled(mag, places))
  {
    var P := Pow10(places);
    var q, r := Quot(mag, P), Rem(mag, P);
    assert FormatUnsigned(mag, places) == NatToString(q) + "." + PaddedDigits(r, places);
    FractionParses(q, r, places);
    QuotRem(mag, P);
  }

  lemma {:induction false} FractionParses(q: nat, r: nat, places: nat)
    requires places >= 1 && r < Pow10(places)
    ensures ParseUnsigned(NatToString(q) + "." + PaddedDigits(r, places)) ==
            Some(Scaled(q * Pow10(places) + r, places))
  {
    var whole, frac := NatToString(q), PaddedDigits(r, places);
    FixedDigits(q, r, places);
    ParsePieces(whole, frac, q * Pow10(places) + r, places);
  }

  /** The digits of the whole part and of the padded fraction, side by side,
      read as `q * 10^places + r`. */
  lemma {:induction false} FixedDigits(q: nat, r: nat, places: nat)
    requires places >= 1 && r < Pow10(places)
    ensures var whole, frac := NatToString(q), PaddedDigits(r, places);
      whole != [] && AllDigits(whole) && AllDigits(frac) && |frac| == places &&
      AllDigits(whole + frac) && DigitsValue(whole + frac) == q * Pow10(places) + r
  {
    var whole, frac := NatToString(q), PaddedDigits(r, places);
    NatToStringValue(q);
    PaddedDigitsValue(r, places);
    DigitsValueAppend(whole, frac);
    SameProduct(DigitsValue(whole), q, Pow10(|frac|), Pow10(places));
  }

  /** A point between digits: the digits read as one number, scaled. */
  lemma {:induction false} ParsePieces(whole: string, frac: string, n: nat, places: nat)
    requires whole != [] && AllDigits(whole) && AllDigits(frac) && |frac| == places
    requires AllDigits(whole + frac) && DigitsValue(whole + frac) == n
    ensures ParseUnsigned(whole + "." + frac) == Some(Scaled(n, places))
  {
    ParseWholeAndFraction(whole, frac);
  }

  lemma SameProduct(a: int, b: int, c: int, d: int)
    requires a == b && c == d
    ensures a * c == b * d
  {
  }

  lemma {:induction false} FormatUnsignedStartsWithDigit(mag: nat, places: nat)
    ensures |FormatUnsigned(mag, places)| > 0 && IsDigit(FormatUnsigned(mag, places)[0])
  {
    var whole := NatToString(Quot(mag, Pow10(places)));
    assert FormatUnsigned(mag, places)[0] == whole[0];
  }

  lemma {:induction false} NegatedQuotient(u: int, places: nat)
    requires u < 0
    ensures -Scaled(Abs(u), places) == u as real / Pow10(places) as real
  {
    assert Abs(u) as real == -(u as real);
  }

  lemma {:induction false} NegativeParse(u: string, v: real)
    requires ParseUnsigned(u) == Some(v)
    ensures ParseDecimal("-" + u) == Some(-v)
  {
    var s := "-" + u;
    assert s[0] == '-' && s[1..] == u;
  }

  lemma {:induction false} UnsignedParse(u: string)
    requires u != [] && IsDigit(u[0])
    ensures ParseDecimal(u) == ParseUnsigned(u)
  {
    assert u[0] != '-' && u[0] != '+';
  }

  /** Round trip: the rendering of `units / 10^places` reads back as that number. */
  lemma {:induction false} ParseFormatFixed(units: int, places: nat)
    ensures ParseDecimal(FormatFixed(units, places)) == Some(units as real / Pow10(places) as real)
  {
    if units < 0 {
      ParseFormatNegative(units, places);
    } else {
      var u := FormatUnsigned(units, places);
      assert FormatFixed(units, places) == u;
      ParseFormatUnsigned(units, places);
      FormatUnsignedStartsWithDigit(units, places);
      UnsignedParse(u);
      assert Scaled(units, places) == units as real / Pow10(places) as real;
    }
  }

  lemma {:induction false} ParseFormatNegative(units: int, places: nat)
    requires units < 0
    ensures ParseDecimal(FormatFixed(units, places)) == Some(units as real / Pow10(places) as real)
  {
    var u := FormatUnsigned(Abs(units), places);
    assert FormatFixed(units, places) == "-" + u;
    ParseFormatUnsigned(Abs(units), places);
    NegativeParse(u, Scaled(Abs(units), places));
    NegatedQuotient(units, places);
  }

  lemma {:induction false} TrimStartSpaces(a: string, y: string)
    requires forall k :: 0 <= k < |a| ==> IsSpace(a[k])
    ensures TrimStart(a + y) == TrimStart(y)
    decreases |a|
  {
    if a != [] {
      assert (a + y)[1..] == a[1..] + y;
      TrimStartSpaces(a[1..], y);
    } else {
      assert a + y == y;
    }
  }

  lemma {:induction false} TrimEndSpaces(y: string, b: string)
    requires forall k :: 0 <= k < |b| ==> IsSpace(b[k])
    ensures TrimEnd(y + b) == TrimEnd(y)
    decreases |b|
  {
    if b != [] {
      assert (y + b)[..|y + b| - 1] == y + b[..|b| - 1];
      TrimEndSpaces(y, b[..|b| - 1]);
    } else {
      assert y + b == y;
    }
  }

  /** Stripping a text padded with whitespace gives the text back. */
  lemma {:induction false} StripPadded(a: string, x: string, b: string)
    requires forall k :: 0 <= k < |a| ==> IsSpace(a[k])
    requires forall k :: 0 <= k < |b| ==> IsSpace(b[k])
    requires x != [] && !IsSpace(x[0]) && !IsSpace(x[|x| - 1])
    ensures Strip(a + x + b) == x
  {
    assert a + x + b == a + (x + b);
    TrimStartSpaces(a, x + b);
    assert (x + b)[0] == x[0];
    TrimEndSpaces(x, b);
  }

  /** Only digits, points and minus signs. */
  predicate NumeralChars(s: string) {
    forall k :: 0 <= k < |s| ==> s[k] == '-' || s[k] == '.' || IsDigit(s[k])
  }

  lemma {:induction false} NumeralCharsAppend(a: string, b: string)
    requires NumeralChars(a) && NumeralChars(b)
    ensures NumeralChars(a + b)
  {
    forall k | 0 <= k < |a + b|
      ensures (a + b)[k] == '-' || (a + b)[k] == '.' || IsDigit((a + b)[k])
    {
      if k < |a| { assert (a + b)[k] == a[k]; } else { assert (a + b)[k] == b[k - |a|]; }
    }
  }

  lemma {:induction false} UnsignedShape(mag: nat, places: nat)
    ensures var u := FormatUnsigned(mag, places);
      u != [] && NumeralChars(u) && IsDigit(u[|u| - 1])
  {
    var P := Pow10(places);
    var whole := NatToString(Quot(mag, P));
    assert NumeralChars(whole);
    if places > 0 {
      var frac := PaddedDigits(Rem(mag, P), places);
      PaddedDigitsValue(Rem(mag, P), places);
      assert NumeralChars(frac);
      NumeralCharsAppend(whole, ".");
      NumeralCharsAppend(whole + ".", frac);
      var u := whole + "." + frac;
      assert u[|u| - 1] == frac[|frac| - 1];
    }
  }

  lemma {:induction false} FormatShape(units: int, places: nat)
    ensures var x := FormatFixed(units, places);
      ',' !in x && x != [] && !IsSpace(x[0]) && !IsSpace(x[|x| - 1])
  {
    var u := FormatUnsigned(Abs(units), places);
    var sign := if units < 0 then "-" else "";
    UnsignedShape(Abs(units), places);
    assert NumeralChars(sign);
    NumeralCharsAppend(sign, u);
    var x := sign + u;
    assert x[|x| - 1] == u[|u| - 1];
    assert x[0] == '-' || x[0] == '.' || IsDigit(x[0]);
    forall k | 0 <= k < |x| ensures x[k] != ',' {
      assert x[k] == '-' || x[k] == '.' || IsDigit(x[k]);
    }
  }

  /** A cell holding a rendered amount, padded with whitespace on both sides,
      coerces to exactly that amount. */
  lemma {:induction false} CoerceFormatted(a: string, units: int, places: nat, b: string)
    requires forall k :: 0 <= k < |a| ==> IsSpace(a[k])
    requires forall k :: 0 <= k < |b| ==> IsSpace(b[k])
    ensures CoerceAmount(Some(a + FormatFixed(units, places) + b)) == units as real / Pow10(places) as real
  {
    var x := FormatFixed(units, places);
    FormatShape(units, places);
    assert ',' !in a + x + b by {
      assert forall k :: 0 <= k < |a| ==> a[k] != ',';
      assert forall k :: 0 <= k < |b| ==> b[k] != ',';
    }
    StripPadded(a, x, b);
    ParseFormatFixed(units, places);
  }

  lemma {:induction false} DigitsValueSnoc(ds: string, c: char)
    requires AllDigits(ds) && IsDigit(c)
    ensures AllDigits(ds + [c])
    ensures DigitsValue(ds + [c]) == DigitsValue(ds) * 10 + (c as int - '0' as int)
  {
    assert (ds + [c])[..|ds|] == ds;
  }

  lemma {:induction false} DigitsOfExample()
    ensures AllDigits("1200") && DigitsValue("1200") == 1200
    ensures AllDigits("50") && DigitsValue("50") == 50
  {
    DigitsValueSnoc("", '1');
    assert "" + ['1'] == "1";
    DigitsValueSnoc("1", '2');
    assert "1" + ['2'] == "12";
    DigitsValueSnoc("12", '0');
    assert "12" + ['0'] == "120";
    DigitsValueSnoc("120", '0');
    assert "120" + ['0'] == "1200";
    DigitsValueSnoc("", '5');
    assert "" + ['5'] == "5";
    DigitsValueSnoc("5", '0');
    assert "5" + ['0'] == "50";
  }

  /** "1200.50" reads as 1200.5. */
  lemma {:induction false} ParseExample(s: string)
    requires s == "1200.50"
    ensures ParseDecimal(s) == Some(1200.5)
  {
    var w, f := "1200", "50";
    assert w + "." + f == s;
    DigitsOfExample();
    ParseWholeAndFraction(w, f);
    DigitsValueAppend(w, f);
    assert Pow10(|f|) == 100;
    assert Scaled(120050, 2) == 1200.5;
    assert s[0] == '1';
    UnsignedParse(s);
  }

  lemma {:induction false} NumeralsHaveNoSpace(s: string)
    requires NumeralChars(s)
    ensures forall k :: 0 <= k < |s| ==> !IsSpace(s[k])
  {
  }

  /** A cell whose commas come out to leave a numeral reads as that numeral. */
  lemma {:induction false} CoerceNumeral(raw: string, clean: string)
    requires RemoveAll(raw, ',') == clean && NumeralChars(clean)
    ensures CoerceAmount(Some(raw)) == ParseDecimal(clean).GetOr(0.0)
  {
    NumeralsHaveNoSpace(clean);
  }

  /** A comma anywhere in a cell does not change the amount it reads as,
      so neither does any number of them: every one is removed. */
  lemma {:induction false} CommaIgnored(a: string, b: string)
    ensures CoerceAmount(Some(a + [','] + b)) == CoerceAmount(Some(a + b))
  {
    RemoveAllDrops(a, b, ',');
  }

  /** The amount in the statement's worked example. */
  lemma {:induction false} CoerceThousands(raw: string)
    requires raw == "1,200.50"
    ensures CoerceAmount(Some(raw)) == 1200.5
  {
    var whole, rest := "1", "200.50";
    assert CoerceAmount(Some(raw)) == CoerceAmount(Some(whole + rest)) by {
      assert raw == whole + [','] + rest;
      CommaIgnored(whole, rest);
    }
    CleanExample(whole, rest);
  }

  lemma {:induction false} CleanExample(whole: string, rest: string)
    requires whole == "1" && rest == "200.50"
    ensures CoerceAmount(Some(whole + rest)) == 1200.5
  {
    var clean := whole + rest;
    assert clean == "1200.50";
    assert NumeralChars(clean) by {
      assert IsDigit(clean[0]) && IsDigit(clean[1]) && IsDigit(clean[2]) && IsDigit(clean[3]);
      assert clean[4] == '.' && IsDigit(clean[5]) && IsDigit(clean[6]);
    }
    assert ',' !in clean;
    CoerceNumeral(clean, clean);
    ParseExample(clean);
  }

  /** Text that starts with a letter other than a sign reads as no number. */
  lemma {:induction false} NotANumber(s: string)
    requires s != [] && !IsDigit(s[0]) && s[0] != '.' && s[0] != '-' && s[0] != '+'
    requires '.' !in s && ',' !in s
    requires forall k :: 0 <= k < |s| ==> !IsSpace(s[k])
    ensures CoerceAmount(Some(s)) == 0.0
  {
    NoPointFound(s);
  }

  /** A missing cell reads as the text "None", which is no number: 0. */
  lemma {:induction false} CoerceMissing()
    ensures CoerceAmount(None) == 0.0
  {
    NotANumber("None");
  }

  /** An empty cell gives 0. */
  lemma {:induction false} CoerceEmpty()
    ensures CoerceAmount(Some("")) == 0.0
  {
    NoPointFound("");
  }
}
