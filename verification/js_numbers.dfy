/** The few JavaScript number computations the reporters perform, in exact
    integer arithmetic: defaulting a possibly missing duration, rendering
    milliseconds as seconds with `toFixed(2)`, and the aspect-preserving
    image height `Math.round(400 * H / W)`. */
module JsNumbers {
  import opened Results
  import opened JsStrings

  /** A step or test duration as a reporter receives it: missing
      (`undefined` or `null`), `NaN`, or a whole number of milliseconds. */
  datatype Duration = Missing | NotANumber | Ms(ms: nat)

  /** The numbers the duration cells are computed from. */
  datatype Num = NaN | Whole(n: nat)

  /** `d ?? 0`: only a missing value is replaced. */
  function DefaultNullish(d: Duration): (x: Num)
    ensures d.Missing? ==> x == Whole(0)
    ensures d.NotANumber? ==> x == NaN
    ensures d.Ms? ==> x == Whole(d.ms)
  {
    match d
    case Missing => Whole(0)
    case NotANumber => NaN
    case Ms(ms) => Whole(ms)
  }

  /** `d || 0`: every falsy value (missing, `NaN`, zero) becomes zero. */
  function DefaultFalsy(d: Duration): (x: Num)
    ensures x.Whole?
    ensures d.Ms? ==> x == Whole(d.ms)
    ensures !d.Ms? ==> x == Whole(0)
  {
    match d
    case Ms(ms) => if ms == 0 then Whole(0) else Whole(ms)
    case _ => Whole(0)
  }

  /** The two defaults differ exactly on `NaN`. */
  lemma DefaultsAgreeExceptNaN(d: Duration)
    ensures DefaultNullish(d) == DefaultFalsy(d) <==> !d.NotANumber?
  {
  }

  /** The number of hundredths of a second nearest to `ms` milliseconds,
      rounding a half up. */
  function Centis(ms: nat): nat {
    (ms + 5) / 10
  }

  /** `(x / 1000).toFixed(2)`: `NaN` prints as "NaN"; a whole number of
      milliseconds prints as seconds with exactly two decimals. */
  function SecondsFixed2(x: Num): (r: string)
    ensures x.NaN? ==> r == "NaN"
    ensures x.Whole? ==> |r| >= 4 && r[|r| - 3] == '.'
  {
    match x
    case NaN => "NaN"
    case Whole(ms) =>
      var c := Centis(ms);
      NatToString(c / 100) + "." + [DigitChar(c / 10 % 10), DigitChar(c % 10)]
  }

  /** Reads a numeral with two decimals back as a count of hundredths. */
  function ParseFixed2(s: string): Option<nat> {
    if |s| >= 4 && s[|s| - 3] == '.' && AllDigits(s[..|s| - 3]) && AllDigits(s[|s| - 2..])
    then Some(100 * DigitsValue(s[..|s| - 3]) + DigitsValue(s[|s| - 2..]))
    else None
  }

  /** Two digit characters read back as their two-digit value. */
  lemma TwoDigitsValue(a: nat, b: nat)
    requires a < 10 && b < 10
    ensures AllDigits([DigitChar(a), DigitChar(b)])
    ensures DigitsValue([DigitChar(a), DigitChar(b)]) == 10 * a + b
  {
    var t := [DigitChar(a), DigitChar(b)];
    assert t[..1] == [DigitChar(a)];
    assert t[..1][..0] == [];
    assert DigitsValue(t[..1]) == a;
  }

  /** A numeral, a point and two digits parse as the numeral's hundredths. */
  lemma ParseFixed2Of(q: string, t: string)
    requires |q| > 0 && AllDigits(q) && |t| == 2 && AllDigits(t)
    ensures ParseFixed2(q + "." + t) == Some(100 * DigitsValue(q) + DigitsValue(t))
  {
    Fixed2Pieces(q, t);
  }

  /** The pieces `ParseFixed2` cuts `q + "." + t` into. */
  lemma Fixed2Pieces(q: string, t: string)
    requires |t| == 2
    ensures var r := q + "." + t;
      && |r| == |q| + 3 && r[|r| - 3] == '.' && r[..|r| - 3] == q && r[|r| - 2..] == t
  {
    var r := q + "." + t;
    assert r[..|q|] == q;
    assert r[|q| + 1..] == t;
  }

  /** A count split into its hundreds, tens and units. */
  lemma DecimalPlaces(c: nat)
    ensures 100 * (c / 100) + 10 * (c / 10 % 10) + c % 10 == c
  {
    assert c == 10 * (c / 10) + c % 10;
    assert c / 10 == 10 * (c / 10 / 10) + c / 10 % 10;
    assert c / 10 / 10 == c / 100;
  }

  /** A rendered duration reads back as the hundredths of a second nearest
      to the milliseconds; away from the tie `ms % 10 == 5` that count is
      unique, so float rounding cannot pick another. */
  lemma SecondsFixed2RoundTrip(ms: nat)
    ensures ParseFixed2(SecondsFixed2(Whole(ms))) == Some(Centis(ms))
    ensures 10 * Centis(ms) - 5 <= ms < 10 * Centis(ms) + 5
    ensures ms % 10 != 5 ==> -5 < ms - 10 * Centis(ms) < 5
  {
    var c := Centis(ms);
    var q := NatToString(c / 100);
    var t := [DigitChar(c / 10 % 10), DigitChar(c % 10)];
    assert SecondsFixed2(Whole(ms)) == q + "." + t;
    NatToStringRoundTrip(c / 100);
    TwoDigitsValue(c / 10 % 10, c % 10);
    ParseFixed2Of(q, t);
    DecimalPlaces(c);
  }

  /** The worked values of the duration column. */
  lemma SecondsFixed2Examples()
    ensures SecondsFixed2(Whole(1230)) == "1.23"
    ensures SecondsFixed2(Whole(1234)) == "1.23"
    ensures SecondsFixed2(Whole(500)) == "0.50"
    ensures SecondsFixed2(DefaultNullish(Missing)) == "0.00"
    ensures SecondsFixed2(DefaultNullish(NotANumber)) == "NaN"
    ensures SecondsFixed2(DefaultFalsy(NotANumber)) == "0.00"
  {
    assert NatToString(1) == "1";
    assert NatToString(0) == "0";
  }

  /** The display width every report image is scaled to. */
  const TargetWidth: nat := 400

  /** A positive pixel count; image widths are divisors. */
  type Pos = n: nat | n > 0 witness 1

  /** `Math.round(400 * (h / w))` in exact arithmetic: the nearest whole
      number, a half rounding up. */
  function ScaledHeight(w: Pos, h: nat): (r: nat)
    ensures 2 * w * r <= 2 * TargetWidth * h + w < 2 * w * r + 2 * w
  {
    var num := 2 * TargetWidth * h + w;
    var r := num / (2 * w);
    assert num == 2 * w * r + num % (2 * w);
    r
  }

  /** The scaled height is the nearest whole number to 400·h/w (unique away
      from ties), and exact whenever w divides 400·h. */
  lemma ScaledHeightPreservesAspect(w: Pos, h: nat)
    ensures -(w as int) <= 2 * w * ScaledHeight(w, h) - 2 * TargetWidth * h <= w
    ensures (TargetWidth * h) % w == 0 ==> ScaledHeight(w, h) == TargetWidth * h / w
  {
    var r := ScaledHeight(w, h);
    if (TargetWidth * h) % w == 0 {
      var k := TargetWidth * h / w;
      assert 2 * TargetWidth * h == 2 * w * k by {
        assert TargetWidth * h == w * k;
      }
      if r < k {
        MulMonotone(2 * w, r + 1, k);
        assert false;
      } else if r > k {
        MulMonotone(2 * w, k + 1, r);
        assert false;
      }
    }
  }

  lemma MulMonotone(x: nat, a: nat, b: nat)
    requires a <= b
    ensures x * a <= x * b
  {
  }

  lemma ScaledHeightExamples()
    ensures ScaledHeight(800, 600) == 300
    ensures ScaledHeight(1280, 720) == 225
    ensures ScaledHeight(3, 1) == 133
  {
  }
}
