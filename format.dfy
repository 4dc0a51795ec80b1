/**
 * The text formatting that ToMap applies to leaf values: strconv.FormatBool,
 * strconv.FormatInt / FormatUint / Itoa in base 10, strconv.FormatFloat with
 * format 'f' and precision 6, and strings.TrimRight with a one-character cutset.
 *
 * Every formatter comes with a parser that is its partner: the lemmas show that
 * parsing the formatted text gives back the value, so that no formatter loses
 * information, and that the trimming of a float's trailing zeros keeps its value.
 */
module Format {
  import opened Wrappers

  predicate IsDigit(c: char) { '0' <= c <= '9' }

  predicate AllDigits(s: string) { forall i :: 0 <= i < |s| ==> IsDigit(s[i]) }

  function DigitChar(d: nat): (c: char)
    requires d < 10
    ensures IsDigit(c) && DigitValue(c) == d
  {
    ('0' as int + d) as char
  }

  function DigitValue(c: char): nat
    requires IsDigit(c)
  {
    c as int - '0' as int
  }

  function Pow10(k: nat): (p: nat)
    ensures p >= 1
  {
    if k == 0 then 1 else 10 * Pow10(k - 1)
  }

  // ---------------------------------------------------------------------------
  // Booleans: strconv.FormatBool
  // ---------------------------------------------------------------------------

  /** strconv.FormatBool: the text reads back as the same bool. */
  function FormatBool(b: bool): (r: string)
    ensures ParseBool(r) == Some(b)
  {
    assert "true" != "false" by { assert "true"[0] != "false"[0]; }
    if b then "true" else "false"
  }

  /** strconv.ParseBool restricted to the two spellings FormatBool produces. */
  function ParseBool(s: string): Option<bool>
  {
    if s == "true" then Some(true) else if s == "false" then Some(false) else None
  }

  lemma ParseFormatBool(b: bool)
    ensures ParseBool(FormatBool(b)) == Some(b)
    ensures FormatBool(b) == "true" || FormatBool(b) == "false"
  {
    assert "true" != "false" by { assert "true"[0] != "false"[0]; }
  }

  // ---------------------------------------------------------------------------
  // Integers in base 10: strconv.FormatUint, strconv.FormatInt, strconv.Itoa
  // ---------------------------------------------------------------------------

  /** Decimal digits of n, most significant first, without leading zeros. */
  function FormatNat(n: nat): (s: string)
    ensures |s| > 0 && AllDigits(s)
    ensures s[0] == '0' ==> n == 0 && s == "0"
    decreases n
  {
    if n < 10 then [DigitChar(n)] else FormatNat(n / 10) + [DigitChar(n % 10)]
  }

  /** Value of a string of decimal digits (the empty string is 0). */
  function ParseNat(s: string): nat
    requires AllDigits(s)
  {
    if s == [] then 0 else ParseNat(s[..|s| - 1]) * 10 + DigitValue(s[|s| - 1])
  }

  /** The canonical decimal form: digits only, no leading zero unless it is "0". */
  predicate Canonical(s: string)
  {
    |s| > 0 && AllDigits(s) && (s[0] == '0' ==> |s| == 1)
  }

  lemma {:induction false} ParseFormatNat(n: nat)
    ensures ParseNat(FormatNat(n)) == n
    decreases n
  {
    if n >= 10 {
      var s := FormatNat(n);
      assert s[..|s| - 1] == FormatNat(n / 10);
      ParseFormatNat(n / 10);
    }
  }

  lemma FormatNatInjective(a: nat, b: nat)
    ensures FormatNat(a) == FormatNat(b) ==> a == b
  {
    ParseFormatNat(a);
    ParseFormatNat(b);
  }

  /** A canonical digit string with a non-zero first digit has a positive value. */
  lemma {:induction false} ParseNatPositive(s: string)
    requires AllDigits(s) && |s| > 0 && s[0] != '0'
    ensures ParseNat(s) > 0
    decreases |s|
  {
    if |s| > 1 {
      ParseNatPositive(s[..|s| - 1]);
    }
  }

  /** FormatNat produces every canonical digit string, so its image is exactly the canonical strings. */
  lemma {:induction false} FormatParseNat(s: string)
    requires Canonical(s)
    ensures FormatNat(ParseNat(s)) == s
    decreases |s|
  {
    if |s| > 1 {
      var init := s[..|s| - 1];
      ParseNatPositive(init);
      FormatParseNat(init);
      var n := ParseNat(s);
      assert n / 10 == ParseNat(init) && n % 10 == DigitValue(s[|s| - 1]);
      assert DigitChar(n % 10) == s[|s| - 1];
      assert s == init + [s[|s| - 1]];
    }
  }

  /** strconv.FormatInt(i, 10): a minus sign only for negative values. */
  function FormatInt(i: int): (s: string)
    ensures |s| > 0
    ensures s[0] == '-' <==> i < 0
  {
    if i < 0 then "-" + FormatNat(-i) else FormatNat(i)
  }

  function ParseInt(s: string): Option<int>
  {
    if |s| > 1 && s[0] == '-' && Canonical(s[1..]) && s[1..] != "0" then Some(0 - ParseNat(s[1..]) as int)
    else if Canonical(s) then Some(ParseNat(s))
    else None
  }

  lemma ParseFormatInt(i: int)
    ensures ParseInt(FormatInt(i)) == Some(i)
  {
    if i < 0 {
      var s := FormatInt(i);
      assert s[1..] == FormatNat(-i);
      ParseFormatNat(-i);
      assert FormatNat(-i) != "0";
    } else {
      ParseFormatNat(i);
    }
  }

  // ---------------------------------------------------------------------------
  // strings.TrimRight(s, cutset) with a one-character cutset
  // ---------------------------------------------------------------------------

  /** The longest prefix of s that does not end in c. */
  function TrimRight(s: string, c: char): (r: string)
    ensures r <= s
    ensures r == [] || r[|r| - 1] != c
    ensures forall i :: |r| <= i < |s| ==> s[i] == c
    decreases |s|
  {
    if s != [] && s[|s| - 1] == c then TrimRight(s[..|s| - 1], c) else s
  }

  predicate AllChar(t: string, c: char) { forall i :: 0 <= i < |t| ==> t[i] == c }

  /** The three ensures of TrimRight determine its result: any such prefix is the trimmed string. */
  lemma TrimRightUnique(s: string, c: char, r: string)
    requires r <= s && (r == [] || r[|r| - 1] != c) && AllChar(s[|r|..], c)
    ensures r == TrimRight(s, c)
  {
  }

  /** Trimming looks through a suffix that is not all c's: the part before it is kept. */
  lemma TrimRightAppend(a: string, b: string, c: char)
    requires !AllChar(b, c)
    ensures TrimRight(a + b, c) == a + TrimRight(b, c)
  {
    var t := TrimRight(b, c);
    assert (a + b)[|a + t|..] == b[|t|..];
    TrimRightUnique(a + b, c, a + t);
  }

  /** A suffix made only of c's is removed entirely. */
  lemma TrimRightAllChar(a: string, b: string, c: char)
    requires AllChar(b, c)
    ensures TrimRight(a + b, c) == TrimRight(a, c)
  {
    var t := TrimRight(a, c);
    assert (a + b)[|t|..] == a[|t|..] + b;
    TrimRightUnique(a + b, c, t);
  }

  // ---------------------------------------------------------------------------
  // Floats: strconv.FormatFloat(x, 'f', 6, 64), then the trim of mapconv.go
  // ---------------------------------------------------------------------------

  /**
   * A float64 as strconv.FormatFloat sees it with format 'f' and precision 6:
   * a sign bit and the magnitude rounded to a whole number of millionths, or
   * one of the non-finite values. The binary-to-decimal rounding is not modelled;
   * the value arrives already rounded.
   */
  datatype Float64 = Finite(negative: bool, micros: nat) | PosInf | NegInf | NaN

  const Places: nat := 6
  const Scale: nat := 1000000

  /** The low `width` decimal digits of n, zero-padded on the left. */
  function Pad(n: nat, width: nat): (s: string)
    ensures |s| == width && AllDigits(s)
  {
    if width == 0 then [] else Pad(n / 10, width - 1) + [DigitChar(n % 10)]
  }

  lemma {:induction false} ParsePad(n: nat, width: nat)
    ensures ParseNat(Pad(n, width)) == n % Pow10(width)
  {
    if width > 0 {
      var s := Pad(n, width);
      assert s[..|s| - 1] == Pad(n / 10, width - 1);
      ParsePad(n / 10, width - 1);
      DivModPow10(n, width - 1);
    }
  }

  lemma DivModPow10(n: nat, k: nat)
    ensures (n / 10) % Pow10(k) * 10 + n % 10 == n % (10 * Pow10(k))
  {
    var p := Pow10(k);
    var a, b := n / 10, n % 10;
    var q, m := a / p, a % p;
    assert a == q * p + m;
    assert n == 10 * a + b;
    Regroup(q, p, m, b);
    DigitAppendBound(p, m, b);
    ModUnique(n, 10 * p, q, m * 10 + b);
  }

  lemma Regroup(q: nat, p: nat, m: nat, b: nat)
    ensures 10 * (q * p + m) + b == q * (10 * p) + (m * 10 + b)
  {
    assert 10 * (q * p) == q * (10 * p);
  }

  lemma DigitAppendBound(p: nat, m: nat, b: nat)
    requires m < p && b < 10
    ensures m * 10 + b < 10 * p
  {
    assert m * 10 <= (p - 1) * 10;
  }

  lemma ModUnique(n: nat, d: nat, q: nat, r: nat)
    requires d > 0 && r < d && n == q * d + r
    ensures n % d == r && n / d == q
  {
    var q', r' := n / d, n % d;
    assert q' * d + r' == q * d + r;
    assert (q' - q) * d == r - r' by { assert (q' - q) * d == q' * d - q * d; }
    if q' > q {
      MulAtLeast(q' - q, d);
    } else if q' < q {
      MulAtLeast(q - q', d);
    }
  }

  lemma MulAtLeast(a: int, d: int)
    requires a >= 1 && d > 0
    ensures a * d >= d
  {
  }

  function Sign(negative: bool): string { if negative then "-" else "" }

  /** strconv.FormatFloat(x, 'f', 6, 64): fixed-point, exactly six digits after the point. */
  function FormatFixed(f: Float64): (r: string)
    ensures f.Finite? ==> |r| >= 8 && r[|r| - 7] == '.' && AllDigits(r[|r| - 6..])
    ensures f.Finite? ==> (r[0] == '-' <==> f.negative)
  {
    match f
    case Finite(neg, u) => Sign(neg) + FormatNat(u / Scale) + "." + Pad(u % Scale, Places)
    case PosInf => "+Inf"
    case NegInf => "-Inf"
    case NaN => "NaN"
  }

  /** mapconv.go:25: trailing '0's are trimmed, then a trailing '.'. */
  function FormatFloat(f: Float64): (r: string)
    ensures r <= FormatFixed(f)
    ensures r != [] && r[|r| - 1] != '.'
  {
    TrimRight(TrimRight(FormatFixed(f), '0'), '.')
  }

  /** The fraction digits that survive trimming: none when the fraction is zero. */
  function FracText(r: nat): string
  {
    if r == 0 then "" else "." + TrimRight(Pad(r, Places), '0')
  }

  lemma PadZero(width: nat)
    ensures AllChar(Pad(0, width), '0')
  {
    if width > 0 { PadZero(width - 1); }
  }

  lemma PadNonZero(n: nat, width: nat)
    requires 0 < n < Pow10(width)
    ensures !AllChar(Pad(n, width), '0')
  {
    ParsePad(n, width);
    ModUnique(n, Pow10(width), 0, n);
    assert ParseNat(Pad(n, width)) != 0;
    AllZeroParseContra(Pad(n, width));
  }

  lemma AllZeroParseContra(s: string)
    requires AllDigits(s) && ParseNat(s) != 0
    ensures !AllChar(s, '0')
  {
    if AllChar(s, '0') {
      AllZeroParse(s);
    }
  }

  lemma {:induction false} AllZeroParse(s: string)
    requires AllChar(s, '0')
    ensures AllDigits(s) && ParseNat(s) == 0
    decreases |s|
  {
    if s != [] { AllZeroParse(s[..|s| - 1]); }
  }

  /** The two trims applied to "head.pad", where head ends in a digit. */
  lemma TrimFixed(head: string, pad: string)
    requires head != [] && IsDigit(head[|head| - 1]) && AllDigits(pad)
    ensures AllChar(pad, '0') ==> TrimRight(TrimRight(head + "." + pad, '0'), '.') == head
    ensures !AllChar(pad, '0') ==>
      TrimRight(TrimRight(head + "." + pad, '0'), '.') == head + "." + TrimRight(pad, '0')
  {
    var hd := head + ".";
    assert head + "." + pad == hd + pad;
    if AllChar(pad, '0') {
      TrimRightAllChar(hd, pad, '0');
      assert TrimRight(hd, '0') == hd;
      TrimRightAllChar(head, ".", '.');
      assert TrimRight(head, '.') == head;
    } else {
      TrimRightAppend(hd, pad, '0');
      var t := TrimRight(pad, '0');
      assert IsDigit(t[|t| - 1]);
      var w := hd + t;
      assert w[|w| - 1] == t[|t| - 1];
      assert TrimRight(w, '.') == w;
    }
  }

  /**
   * The shape of a formatted finite float: the sign, every digit of the integer
   * part, and the point only when some fraction digit is non-zero.
   */
  lemma FormatFloatFinite(neg: bool, u: nat)
    ensures FormatFloat(Finite(neg, u)) == Sign(neg) + FormatNat(u / Scale) + FracText(u % Scale)
  {
    var d := FormatNat(u / Scale);
    var head := Sign(neg) + d;
    var pad := Pad(u % Scale, Places);
    assert FormatFixed(Finite(neg, u)) == head + "." + pad;
    assert head[|head| - 1] == d[|d| - 1];
    TrimFixed(head, pad);
    TrimmedPad(head, u % Scale);
  }

  /** What the two trims leave of "head.pad" in terms of FracText. */
  lemma TrimmedPad(head: string, r: nat)
    requires r < Scale
    ensures AllChar(Pad(r, Places), '0') ==> head == head + FracText(r)
    ensures !AllChar(Pad(r, Places), '0') ==> head + "." + TrimRight(Pad(r, Places), '0') == head + FracText(r)
  {
    if r == 0 {
      assert head + FracText(r) == head;
    } else {
      assert Pow10(Places) == Scale;
      PadNonZero(r, Places);
      assert head + "." + TrimRight(Pad(r, Places), '0') == head + FracText(r);
    }
  }

  /** A whole number keeps all of its digits and loses the point: 4.0 becomes "4", 100.0 becomes "100". */
  lemma FormatFloatWholeNumber(neg: bool, q: nat)
    ensures FormatFloat(Finite(neg, q * Scale)) == Sign(neg) + FormatNat(q)
  {
    ModUnique(q * Scale, Scale, q, 0);
    FormatFloatFinite(neg, q * Scale);
  }

  /** float64(4.2) as FormatFloat rounds it to six places. */
  const FourPointTwo: Float64 := Finite(false, 4200000)

  /** The float rows of the test table: 4.2 is rendered "4.2". */
  lemma FormatFloatFourPointTwo()
    ensures FormatFloat(FourPointTwo) == "4.2"
  {
    FormatFloatFinite(false, 4200000);
    FourPointTwoParts();
  }

  lemma FourPointTwoParts()
    ensures Sign(false) + FormatNat(4200000 / Scale) + FracText(4200000 % Scale) == "4.2"
  {
    assert 4200000 / Scale == 4 && 4200000 % Scale == 200000;
    assert FormatNat(4) == "4";
    assert FracText(200000) == ".2" by {
      var pad := Pad(200000, Places);
      assert pad == "2" + "00000";
      TrimRightAllChar("2", "00000", '0');
    }
  }

  /** Non-finite values pass through the trim unchanged. */
  lemma FormatFloatNonFinite()
    ensures FormatFloat(PosInf) == "+Inf" && FormatFloat(NegInf) == "-Inf" && FormatFloat(NaN) == "NaN"
  {
  }

  /** A ParseFloat for the texts FormatFloat produces: sign, integer digits, up to six fraction digits. */
  function ParseFloat(t: string): Option<Float64>
  {
    if t == "+Inf" then Some(PosInf)
    else if t == "-Inf" then Some(NegInf)
    else if t == "NaN" then Some(NaN)
    else if |t| > 0 && t[0] == '-' then ParseUnsigned(true, t[1..])
    else ParseUnsigned(false, t)
  }

  /** The digits of a finite value after its sign: "123" or "123.45". */
  function ParseUnsigned(neg: bool, body: string): Option<Float64>
  {
    match IndexOf(body, '.')
    case None =>
      if Canonical(body) then Some(Finite(neg, ParseNat(body) * Scale)) else None
    case Some(k) =>
      var whole, frac := body[..k], body[k + 1..];
      if Canonical(whole) && AllDigits(frac) && 0 < |frac| <= Places
      then Some(Finite(neg, ParseNat(whole) * Scale + ParseNat(frac) * Pow10(Places - |frac|)))
      else None
  }

  function IndexOf(s: string, c: char): (r: Option<nat>)
    ensures r.Some? ==> r.value < |s| && s[r.value] == c && c !in s[..r.value]
    ensures r.None? ==> c !in s
  {
    if s == [] then None
    else if s[0] == c then Some(0)
    else match IndexOf(s[1..], c)
      case None => None
      case Some(k) => Some(k + 1)
  }

  lemma {:induction false} IndexOfDigits(d: string, rest: string, c: char)
    requires AllDigits(d) && !IsDigit(c)
    ensures IndexOf(d + [c] + rest, c) == Some(|d|)
    decreases |d|
  {
    if d != [] {
      assert (d + [c] + rest)[1..] == d[1..] + [c] + rest;
      IndexOfDigits(d[1..], rest, c);
    }
  }

  /** Value of digits followed by k zeros. */
  lemma {:induction false} ParseNatZeros(a: string, z: string)
    requires AllDigits(a) && AllChar(z, '0')
    ensures AllDigits(a + z) && ParseNat(a + z) == ParseNat(a) * Pow10(|z|)
    decreases |z|
  {
    if z != [] {
      var z' := z[..|z| - 1];
      assert (a + z)[..|a + z| - 1] == a + z';
      ParseNatZeros(a, z');
    } else {
      assert a + z == a;
    }
  }

  lemma ParseSigned(neg: bool, body: string)
    requires body != [] && IsDigit(body[0])
    ensures ParseFloat(Sign(neg) + body) == ParseUnsigned(neg, body)
  {
    var t := Sign(neg) + body;
    if neg {
      assert t[0] == '-' && t[1..] == body && t[1] == body[0];
    } else {
      assert t == body;
    }
    assert t != "+Inf" && t != "-Inf" && t != "NaN" by {
      if neg { assert t[1] == body[0]; } else { assert t[0] == body[0]; }
    }
  }

  lemma ParseUnsignedWhole(neg: bool, whole: string)
    requires Canonical(whole)
    ensures ParseUnsigned(neg, whole) == Some(Finite(neg, ParseNat(whole) * Scale))
  {
  }

  lemma ParseUnsignedFrac(neg: bool, whole: string, frac: string, body: string)
    requires Canonical(whole) && AllDigits(frac) && 0 < |frac| <= Places
    requires body == whole + "." + frac
    ensures ParseUnsigned(neg, body)
         == Some(Finite(neg, ParseNat(whole) * Scale + ParseNat(frac) * Pow10(Places - |frac|)))
  {
    IndexOfDigits(whole, frac, '.');
    assert body[..|whole|] == whole && body[|whole| + 1..] == frac;
    ParseUnsignedAt(neg, body, |whole|);
  }

  lemma ParseUnsignedAt(neg: bool, body: string, k: nat)
    requires IndexOf(body, '.') == Some(k)
    requires Canonical(body[..k]) && AllDigits(body[k + 1..]) && 0 < |body[k + 1..]| <= Places
    ensures ParseUnsigned(neg, body)
         == Some(Finite(neg, ParseNat(body[..k]) * Scale + ParseNat(body[k + 1..]) * Pow10(Places - |body[k + 1..]|)))
  {
  }

  /** Trimming the zeros off a six-digit fraction and scaling back gives the fraction's value. */
  lemma TrimmedFracValue(r: nat)
    requires 0 < r < Scale
    ensures var t := TrimRight(Pad(r, Places), '0');
      AllDigits(t) && 0 < |t| <= Places && ParseNat(t) * Pow10(Places - |t|) == r
  {
    var pad := Pad(r, Places);
    var t := TrimRight(pad, '0');
    assert Pow10(Places) == Scale;
    PadNonZero(r, Places);
    assert AllDigits(t) by { forall i | 0 <= i < |t| ensures IsDigit(t[i]) { assert t[i] == pad[i]; } }
    assert pad == t + pad[|t|..];
    ParseNatZeros(t, pad[|t|..]);
    ParsePad(r, Places);
    ModUnique(r, Scale, 0, r);
  }

  /** Round trip: the trimmed text still denotes exactly the fixed-point value that was formatted. */
  lemma ParseFormatFloat(f: Float64)
    ensures ParseFloat(FormatFloat(f)) == Some(f)
  {
    var t := FormatFloat(f);
    if f.Finite? {
      ParseFormatFinite(f.negative, f.micros, t);
    } else {
      FormatFloatNonFinite();
    }
  }

  lemma ParseFormatFinite(neg: bool, u: nat, t: string)
    requires t == FormatFloat(Finite(neg, u))
    ensures ParseFloat(t) == Some(Finite(neg, u))
  {
    FormatFloatFinite(neg, u);
    ParseFixedText(neg, u, t);
  }

  lemma ParseFixedText(neg: bool, u: nat, t: string)
    requires t == Sign(neg) + FormatNat(u / Scale) + FracText(u % Scale)
    ensures ParseFloat(t) == Some(Finite(neg, u))
  {
    var whole := FormatNat(u / Scale);
    FormatNatCanonical(u / Scale);
    var body := whole + FracText(u % Scale);
    SplitSign(Sign(neg), whole, FracText(u % Scale), t);
    ParseBody(neg, whole, u, body);
    SignedFromUnsigned(neg, body, t, Finite(neg, u));
  }

  lemma FormatNatCanonical(n: nat)
    ensures Canonical(FormatNat(n)) && ParseNat(FormatNat(n)) == n
  {
    ParseFormatNat(n);
  }

  lemma SplitSign(sign: string, whole: string, frac: string, t: string)
    requires t == sign + whole + frac
    ensures t == sign + (whole + frac)
  {
  }

  /** The text after the sign parses back to the value. */
  lemma ParseBody(neg: bool, whole: string, u: nat, body: string)
    requires Canonical(whole) && ParseNat(whole) == u / Scale
    requires body == whole + FracText(u % Scale)
    ensures body != [] && IsDigit(body[0])
    ensures ParseUnsigned(neg, body) == Some(Finite(neg, u))
  {
    assert body[0] == whole[0];
    if u % Scale == 0 {
      assert body == whole;
      ParseUnsignedWholeValue(neg, whole, u);
    } else {
      ParseUnsignedFracText(neg, whole, u, body);
    }
  }

  lemma SignedFromUnsigned(neg: bool, body: string, t: string, f: Float64)
    requires body != [] && IsDigit(body[0]) && t == Sign(neg) + body
    requires ParseUnsigned(neg, body) == Some(f)
    ensures ParseFloat(t) == Some(f)
  {
    ParseSigned(neg, body);
  }

  lemma ParseUnsignedWholeValue(neg: bool, whole: string, u: nat)
    requires Canonical(whole) && ParseNat(whole) == u / Scale && u % Scale == 0
    ensures ParseUnsigned(neg, whole) == Some(Finite(neg, u))
  {
    ParseUnsignedWhole(neg, whole);
  }

  lemma ParseUnsignedFracText(neg: bool, whole: string, u: nat, body: string)
    requires Canonical(whole) && ParseNat(whole) == u / Scale && u % Scale != 0
    requires body == whole + FracText(u % Scale)
    ensures ParseUnsigned(neg, body) == Some(Finite(neg, u))
  {
    var r := u % Scale;
    var frac := TrimRight(Pad(r, Places), '0');
    TrimmedFracValue(r);
    assert body == whole + "." + frac;
    ParseUnsignedScaled(neg, whole, frac, body, u);
  }

  lemma ParseUnsignedScaled(neg: bool, whole: string, frac: string, body: string, u: nat)
    requires Canonical(whole) && AllDigits(frac) && 0 < |frac| <= Places && body == whole + "." + frac
    requires ParseNat(whole) == u / Scale && ParseNat(frac) * Pow10(Places - |frac|) == u % Scale
    ensures ParseUnsigned(neg, body) == Some(Finite(neg, u))
  {
    ParseUnsignedFrac(neg, whole, frac, body);
  }

  /** Formatted floats never use exponent notation. */
  lemma FormatFloatNoExponent(f: Float64)
    ensures 'e' !in FormatFloat(f) && 'E' !in FormatFloat(f)
  {
    var t := FormatFloat(f);
    var s := FormatFixed(f);
    FixedNoExponent(f);
    assert forall i :: 0 <= i < |t| ==> t[i] == s[i];
  }

  /** The fixed-point text is made of a sign, digits and a point, or is a non-finite name. */
  lemma FixedNoExponent(f: Float64)
    ensures forall i :: 0 <= i < |FormatFixed(f)| ==> FormatFixed(f)[i] != 'e' && FormatFixed(f)[i] != 'E'
  {
    if f.Finite? {
      var s := FormatFixed(f);
      var d := FormatNat(f.micros / Scale);
      var p := Pad(f.micros % Scale, Places);
      assert s == Sign(f.negative) + d + "." + p;
      forall i | 0 <= i < |s| ensures s[i] != 'e' && s[i] != 'E' {
        if i < |Sign(f.negative)| {
        } else if i < |Sign(f.negative)| + |d| {
          assert s[i] == d[i - |Sign(f.negative)|];
        } else if i > |Sign(f.negative)| + |d| {
          assert s[i] == p[i - |Sign(f.negative)| - |d| - 1];
        }
      }
    }
  }
}
