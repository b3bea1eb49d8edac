/** The f64 numbers of the value tree.

    A Number token holds only the bytes `-`, `.` and decimal digits, so the
    doubles the parser can produce are those written as plain decimal
    literals. They are modelled exactly: `Num(negative, mantissa, scale)`
    stands for (-1)^negative * mantissa / 10^scale. The sign is kept for zero
    because Rust renders -0.0 as "-0" while `-0.0 == 0.0`. */
module Numbers {
  import opened Wrappers

  datatype Num = Num(negative: bool, mantissa: nat, scale: nat)

  /** The canonical form: no trailing zero digit after the decimal point. */
  ghost predicate Normal(n: Num) {
    n.scale > 0 ==> n.mantissa % 10 != 0
  }

  function Pow10(e: nat): (r: nat)
    ensures r >= 1
  {
    if e == 0 then 1 else 10 * Pow10(e - 1)
  }

  predicate IsDigit(c: char) {
    '0' <= c <= '9'
  }

  predicate AllDigits(s: string) {
    forall k | 0 <= k < |s| :: IsDigit(s[k])
  }

  function DigitChar(d: nat): (c: char)
    requires d < 10
    ensures IsDigit(c)
  {
    ('0' as int + d) as char
  }

  /** The value of a run of decimal digits, most significant first. */
  function DigitsValue(s: string): nat
    requires AllDigits(s)
  {
    if s == [] then 0
    else 10 * DigitsValue(s[..|s| - 1]) + (s[|s| - 1] as int - '0' as int)
  }

  /** Shortest decimal digits of a natural number. */
  function NatDigits(n: nat): (s: string)
    ensures |s| >= 1 && AllDigits(s)
  {
    if n < 10 then [DigitChar(n)] else NatDigits(n / 10) + [DigitChar(n % 10)]
  }

  /** Strips trailing zero digits from the fractional part. */
  function Normalize(negative: bool, mantissa: nat, scale: nat): (n: Num)
    ensures Normal(n) && n.negative == negative && n.scale <= scale
    ensures n.mantissa * Pow10(scale - n.scale) == mantissa
  {
    if scale > 0 && mantissa % 10 == 0 then
      var n := Normalize(negative, mantissa / 10, scale - 1);
      assert Pow10(scale - n.scale) == 10 * Pow10(scale - 1 - n.scale);
      n
    else Num(negative, mantissa, scale)
  }

  function IndexOfDot(s: string): (r: nat)
    ensures r <= |s|
    ensures forall k | 0 <= k < r :: s[k] != '.'
    ensures r < |s| ==> s[r] == '.'
  {
    if s == [] then 0 else if s[0] == '.' then 0 else 1 + IndexOfDot(s[1..])
  }

  /** `str::parse::<f64>` restricted to the text of a Number token: an optional
      leading `-`, then digits with at most one `.`, and at least one digit. */
  function ParseNum(t: string): (r: Option<Num>)
    ensures r.Some? ==> Normal(r.value)
  {
    var negative := |t| > 0 && t[0] == '-';
    ParseUnsigned(negative, if negative then t[1..] else t)
  }

  function ParseUnsigned(negative: bool, body: string): (r: Option<Num>)
    ensures r.Some? ==> Normal(r.value)
  {
    var dot := IndexOfDot(body);
    var intPart := body[..dot];
    var fracPart := if dot < |body| then body[dot + 1..] else [];
    if AllDigits(intPart) && AllDigits(fracPart) && |intPart| + |fracPart| > 0 then
      Some(Normalize(negative, DigitsValue(intPart + fracPart), |fracPart|))
    else None
  }

  /** f64 `==`: the same value, where 0 and -0 are equal. This agrees with
      f64 `==` only on Normal values (1.5 and 1.50 are one double but two
      `Num`s); parsing yields Normal values only, so those are the only ones
      the diff compares. */
  predicate NumEq(a: Num, b: Num) {
    (a.mantissa == 0 && b.mantissa == 0) || a == b
  }

  function Zeros(k: nat): (s: string)
    ensures |s| == k && AllDigits(s)
  {
    if k == 0 then [] else Zeros(k - 1) + ['0']
  }

  /** f64 `to_string` (Display): sign, integer digits and, when the value is
      not whole, a point and exactly `scale` fractional digits; never an exponent. */
  function RenderNum(n: Num): string
  {
    var sign := if n.negative then "-" else "";
    if n.scale == 0 then sign + NatDigits(n.mantissa)
    else sign + NatDigits(Quotient(n.mantissa, n.scale)) + "." + FractionText(Remainder(n.mantissa, n.scale), n.scale)
  }

  /** The whole part and the fractional digits of mantissa / 10^scale. */
  function Quotient(m: nat, scale: nat): nat {
    var p := Pow10(scale);
    DivNonNegative(m, p);
    m / p
  }

  lemma DivNonNegative(m: nat, p: nat)
    requires p >= 1
    ensures m / p >= 0
  {
  }

  function Remainder(m: nat, scale: nat): (r: nat)
    ensures r < Pow10(scale)
    ensures m == Quotient(m, scale) * Pow10(scale) + r
  {
    m % Pow10(scale)
  }

  /** `rm` written with exactly `scale` digits, padded with leading zeros. */
  function FractionText(rm: nat, scale: nat): string
  {
    var f := NatDigits(rm);
    if |f| < scale then Zeros(scale - |f|) + f else f
  }

  lemma ScaleSum(x: int, p: int, v: int, d: int)
    ensures 10 * (x * p + v) + d == x * (10 * p) + (10 * v + d)
  {
  }

  lemma {:induction false} DigitsValueConcat(a: string, b: string)
    requires AllDigits(a) && AllDigits(b)
    ensures AllDigits(a + b)
    ensures DigitsValue(a + b) == DigitsValue(a) * Pow10(|b|) + DigitsValue(b)
    decreases |b|
  {
    if b == [] {
      assert a + b == a;
    } else {
      var b' := b[..|b| - 1];
      assert (a + b)[..|a + b| - 1] == a + b';
      DigitsValueConcat(a, b');
      var x, p, v, d := DigitsValue(a), Pow10(|b'|), DigitsValue(b'), b[|b| - 1] as int - '0' as int;
      assert (a + b)[|a + b| - 1] == b[|b| - 1];
      assert DigitsValue(a + b) == 10 * DigitsValue(a + b') + d;
      assert DigitsValue(b) == 10 * v + d;
      assert Pow10(|b|) == 10 * p;
      ScaleSum(x, p, v, d);
    }
  }

  lemma {:induction false} DigitsValueZeros(k: nat)
    ensures DigitsValue(Zeros(k)) == 0
  {
    if k > 0 {
      DigitsValueZeros(k - 1);
      assert Zeros(k)[..k - 1] == Zeros(k - 1);
    }
  }

  lemma {:induction false} NatDigitsValue(n: nat)
    ensures DigitsValue(NatDigits(n)) == n
  {
    if n >= 10 {
      NatDigitsValue(n / 10);
      var s := NatDigits(n);
      assert s[..|s| - 1] == NatDigits(n / 10);
    }
  }

  lemma {:induction false} NatDigitsLength(n: nat, k: nat)
    requires k >= 1 && n < Pow10(k)
    ensures |NatDigits(n)| <= k
  {
    if n >= 10 {
      assert k >= 2;
      assert n / 10 < Pow10(k - 1);
      NatDigitsLength(n / 10, k - 1);
    }
  }

  lemma {:induction false} IndexOfDotAfter(a: string, b: string)
    requires forall k | 0 <= k < |a| :: a[k] != '.'
    ensures IndexOfDot(a + b) == |a| + IndexOfDot(b)
  {
    if a != [] {
      assert (a + b)[1..] == a[1..] + b;
      IndexOfDotAfter(a[1..], b);
    } else {
      assert a + b == b;
    }
  }

  lemma ParseSign(negative: bool, body: string)
    requires body != [] && IsDigit(body[0])
    ensures ParseNum((if negative then "-" else "") + body) == ParseUnsigned(negative, body)
  {
    if negative {
      var t := "-" + body;
      assert t[0] == '-' && t[1..] == body;
    } else {
      assert "" + body == body;
      assert body[0] != '-';
    }
  }

  lemma ParseWhole(negative: bool, d: string)
    requires d != [] && AllDigits(d)
    ensures ParseUnsigned(negative, d) == Some(Normalize(negative, DigitsValue(d), 0))
  {
    IndexOfDotAfter(d, []);
    assert d + [] == d;
    assert d[..|d|] == d;
  }

  lemma ParseFraction(negative: bool, d: string, f: string)
    requires d != [] && AllDigits(d) && AllDigits(f)
    ensures ParseUnsigned(negative, d + "." + f) == Some(Normalize(negative, DigitsValue(d + f), |f|))
  {
    var body := d + "." + f;
    IndexOfDotAfter(d, "." + f);
    assert body == d + ("." + f);
    assert body[..|d|] == d;
    assert body[|d| + 1..] == f;
  }

  /** The fractional digits of a rendering: exactly `scale` digits worth `rm`. */
  lemma FractionDigits(rm: nat, scale: nat)
    requires scale >= 1 && rm < Pow10(scale)
    ensures var frac := FractionText(rm, scale);
      |frac| == scale && AllDigits(frac) && DigitsValue(frac) == rm
  {
    var f := NatDigits(rm);
    NatDigitsLength(rm, scale);
    NatDigitsValue(rm);
    if |f| < scale {
      var z := Zeros(scale - |f|);
      DigitsValueConcat(z, f);
      DigitsValueZeros(scale - |f|);
      assert DigitsValue(z + f) == 0 * Pow10(|f|) + rm;
    }
  }

  lemma NormalizeNormal(n: Num)
    requires Normal(n)
    ensures Normalize(n.negative, n.mantissa, n.scale) == n
  {
  }

  lemma DivModDigits(intDigits: string, frac: string, m: nat)
    requires AllDigits(intDigits) && AllDigits(frac)
    requires DigitsValue(intDigits) == Quotient(m, |frac|) && DigitsValue(frac) == Remainder(m, |frac|)
    ensures AllDigits(intDigits + frac) && DigitsValue(intDigits + frac) == m
  {
    DigitsValueConcat(intDigits, frac);
  }

  /** Every canonical number survives a render/parse round trip: the text
      Rust prints for it parses back to the same number. */
  lemma ParseRenderRoundTrip(n: Num)
    requires Normal(n)
    ensures ParseNum(RenderNum(n)) == Some(n)
  {
    NormalizeNormal(n);
    if n.scale == 0 {
      var d := NatDigits(n.mantissa);
      NatDigitsValue(n.mantissa);
      ParseSign(n.negative, d);
      ParseWhole(n.negative, d);
    } else {
      var d := NatDigits(Quotient(n.mantissa, n.scale));
      var frac := FractionText(Remainder(n.mantissa, n.scale), n.scale);
      NatDigitsValue(Quotient(n.mantissa, n.scale));
      FractionDigits(Remainder(n.mantissa, n.scale), n.scale);
      assert RenderNum(n) == (if n.negative then "-" else "") + (d + "." + frac);
      ParseSign(n.negative, d + "." + frac);
      ParseFraction(n.negative, d, frac);
      DivModDigits(d, frac, n.mantissa);
    }
  }

  /** A rendered number is one Number token's worth of text: it starts with a
      digit or `-` and continues with digits and `.` only. */
  lemma RenderNumShape(n: Num)
    ensures var r := RenderNum(n);
      |r| > 0 && (IsDigit(r[0]) || r[0] == '-') &&
      forall k | 1 <= k < |r| :: IsDigit(r[k]) || r[k] == '.'
  {
    var sign := if n.negative then "-" else "";
    if n.scale > 0 {
      var d := NatDigits(Quotient(n.mantissa, n.scale));
      var frac := FractionText(Remainder(n.mantissa, n.scale), n.scale);
      assert AllDigits(frac);
      var r := sign + d + "." + frac;
      assert forall k | 1 <= k < |r| :: IsDigit(r[k]) || r[k] == '.' by {
        forall k | 1 <= k < |r| ensures IsDigit(r[k]) || r[k] == '.' {
          if k < |sign| + |d| { assert r[k] == (sign + d)[k]; }
          else if k > |sign| + |d| { assert r[k] == frac[k - |sign| - |d| - 1]; }
        }
      }
    }
  }
}
