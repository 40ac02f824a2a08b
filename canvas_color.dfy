/** The canvas plot's colour ramp: parsing of `#rgb` / `#rrggbb` colours and the
    linear interpolation of a score between the minimum and maximum colours. */
module CanvasColor {
  import opened Common
  import opened PlotSettings

  datatype Rgb = Rgb(r: int, g: int, b: int)

  /** A fill colour: a colour string passed through, or an `rgb(r,g,b)` triple. */
  datatype Color = Named(name: string) | RgbColor(rgb: Rgb)

  predicate InByteRange(c: Rgb) {
    0 <= c.r < 256 && 0 <= c.g < 256 && 0 <= c.b < 256
  }

  /** The value of one hexadecimal digit in either case (`[a-f\d]` under `/i`). */
  function HexDigit(c: char): (r: Option<int>)
    ensures r.Some? ==> 0 <= r.value < 16
    ensures '0' <= c <= '9' ==> r == Some(c as int - '0' as int)
  {
    if '0' <= c <= '9' then Some(c as int - '0' as int)
    else if 'a' <= c <= 'f' then Some(c as int - 'a' as int + 10)
    else if 'A' <= c <= 'F' then Some(c as int - 'A' as int + 10)
    else None
  }

  predicate AllHex(s: string) {
    forall i :: 0 <= i < |s| ==> HexDigit(s[i]).Some?
  }

  /** `parseInt` of two hexadecimal digits. */
  function PairValue(s: string, i: nat): (v: int)
    requires i + 1 < |s| && AllHex(s)
    ensures 0 <= v < 256
  {
    HexDigit(s[i]).value * 16 + HexDigit(s[i + 1]).value
  }

  /** The six colour digits the pattern `^#?([a-f\d]{2}){3}$` captures, if it matches. */
  function ColourDigits(v: string): (r: Option<string>)
    ensures r.Some? ==> |r.value| == 6 && AllHex(r.value)
    ensures r.Some? <==> (|v| == 7 && v[0] == '#' && AllHex(v[1..])) || (|v| == 6 && AllHex(v))
  {
    if |v| == 7 && v[0] == '#' && AllHex(v[1..]) then Some(v[1..])
    else if |v| == 6 && AllHex(v) then Some(v)
    else None
  }

  /** `hexToRgb`: a four-character `#rgb` is first expanded to `#rrggbb`; a match
      gives the three parsed channels and anything else gives black. */
  function HexToRgb(hex: string): (c: Rgb)
    ensures InByteRange(c)
  {
    var v := if |hex| == 4 && hex[0] == '#' then ['#', hex[1], hex[1], hex[2], hex[2], hex[3], hex[3]] else hex;
    match ColourDigits(v)
    case None => Rgb(0, 0, 0)
    case Some(d) => Rgb(PairValue(d, 0), PairValue(d, 2), PairValue(d, 4))
  }

  /** A lower-case hexadecimal digit. */
  function DigitChar(n: int): (c: char)
    requires 0 <= n < 16
    ensures HexDigit(c) == Some(n)
  {
    if n < 10 then ('0' as int + n) as char else ('a' as int + n - 10) as char
  }

  /** The `#rrggbb` spelling of a colour whose channels are bytes. */
  function ToHex(c: Rgb): (s: string)
    requires InByteRange(c)
    ensures |s| == 7 && s[0] == '#'
  {
    ['#', DigitChar(c.r / 16), DigitChar(c.r % 16), DigitChar(c.g / 16), DigitChar(c.g % 16),
     DigitChar(c.b / 16), DigitChar(c.b % 16)]
  }

  /** Parsing inverts spelling: every byte triple survives the round trip. */
  lemma HexRoundTrip(c: Rgb)
    requires InByteRange(c)
    ensures HexToRgb(ToHex(c)) == c
  {
    var s := ToHex(c);
    assert AllHex(s[1..]) by {
      forall i | 0 <= i < 6 ensures HexDigit(s[1..][i]).Some? {
        assert s[1..][i] == s[i + 1];
      }
    }
    assert ColourDigits(s) == Some(s[1..]);
  }

  /** The shorthand `#rgb` means each digit doubled, so each channel is the digit's
      value times 17 (`0xaa` is 170). */
  lemma ShortHex(hex: string)
    requires |hex| == 4 && hex[0] == '#' && AllHex(hex[1..])
    ensures HexToRgb(hex) ==
      Rgb(17 * HexDigit(hex[1]).value, 17 * HexDigit(hex[2]).value, 17 * HexDigit(hex[3]).value)
  {
    var v := ['#', hex[1], hex[1], hex[2], hex[2], hex[3], hex[3]];
    assert hex[1..][0] == hex[1] && hex[1..][1] == hex[2] && hex[1..][2] == hex[3];
    assert AllHex(v[1..]) by {
      forall i | 0 <= i < 6 ensures HexDigit(v[1..][i]).Some? {
        assert v[1..][i] == v[i + 1];
      }
    }
  }

  /** A string that is neither a `#`-prefixed nor a bare six-digit colour, nor a
      four-character shorthand, parses as black. */
  lemma MalformedIsBlack(hex: string)
    requires !(|hex| == 4 && hex[0] == '#')
    requires ColourDigits(hex).None?
    ensures HexToRgb(hex) == Rgb(0, 0, 0)
  {
  }

  /** One channel of the ramp: `Math.floor(a + (b - a) * t)`. */
  function Channel(a: int, b: int, t: real): int {
    (a as real + (b - a) as real * t).Floor
  }

  /** A channel at a position between the two ends of the ramp stays between the two
      end values. */
  lemma ChannelBetween(a: int, b: int, t: real)
    requires 0.0 <= t <= 1.0
    ensures (if a <= b then a else b) <= Channel(a, b, t) <= (if a <= b then b else a)
  {
    var x := a as real + (b - a) as real * t;
    if a <= b {
      assert (b - a) as real * t >= 0.0;
      assert (b - a) as real * t <= (b - a) as real;
      assert a as real <= x <= b as real;
    } else {
      assert (a - b) as real * t >= 0.0;
      assert (a - b) as real * t <= (a - b) as real;
      assert b as real <= x <= a as real;
    }
  }

  /** A ratio of two same-signed quantities, the first no larger in size, is in
      `[0, 1]`. */
  lemma UnitRatio(num: real, den: real)
    requires (0.0 <= num <= den && den > 0.0) || (den <= num <= 0.0 && den < 0.0)
    ensures 0.0 <= num / den <= 1.0
  {
    if den > 0.0 {
      assert num / den * den == num;
    } else {
      NegRatio(num, den);
      assert (-num) / (-den) * (-den) == -num;
    }
  }

  lemma NegRatio(num: real, den: real)
    requires den != 0.0
    ensures (-num) / (-den) == num / den
  {
    var t := num / den;
    var u := (-num) / (-den);
    assert t * den == num;
    assert u * (-den) == -num;
    assert (t - u) * den == 0.0;
  }

  lemma SelfRatio(x: real)
    requires x != 0.0
    ensures x / x == 1.0
  {
  }

  /** The ends of the ramp: position 0 is the first colour, position 1 the second. */
  lemma ChannelEnds(a: int, b: int)
    ensures Channel(a, b, 0.0) == a && Channel(a, b, 1.0) == b
  {
  }

  /** The position of a score in `[minScore, maxScore]`. */
  function Position(st: PlotState, score: real): real
    requires st.maxScore != st.minScore
  {
    (score - st.minScore) / (st.maxScore - st.minScore)
  }

  /** `colorScale`: the minimum colour as given when the range is empty; otherwise
      each channel interpolated linearly between the parsed minimum and maximum
      colours, rounded down. The two ends of the range get exactly the two colours. */
  function ColorScale(st: PlotState, score: real): (c: Color)
    ensures st.maxScore == st.minScore ==> c == Named(st.minColor)
    ensures st.maxScore != st.minScore && score == st.minScore ==> c == RgbColor(HexToRgb(st.minColor))
    ensures st.maxScore != st.minScore && score == st.maxScore ==> c == RgbColor(HexToRgb(st.maxColor))
  {
    if st.maxScore == st.minScore then Named(st.minColor)
    else
      var t := Position(st, score);
      var lo := HexToRgb(st.minColor);
      var hi := HexToRgb(st.maxColor);
      assert score == st.minScore ==> t == 0.0;
      assert score == st.maxScore ==> t == 1.0 by {
        SelfRatio(st.maxScore - st.minScore);
      }
      ChannelEnds(lo.r, hi.r);
      ChannelEnds(lo.g, hi.g);
      ChannelEnds(lo.b, hi.b);
      RgbColor(Rgb(Channel(lo.r, hi.r, t), Channel(lo.g, hi.g, t), Channel(lo.b, hi.b, t)))
  }

  /** A score inside the range (in either orientation) gets a colour whose channels
      lie between those of the two end colours, hence are bytes. */
  lemma ColorScaleInRange(st: PlotState, score: real)
    requires st.maxScore != st.minScore
    requires Min(st.minScore, st.maxScore) <= score <= Max(st.minScore, st.maxScore)
    ensures ColorScale(st, score).RgbColor?
    ensures InByteRange(ColorScale(st, score).rgb)
  {
    var t := Position(st, score);
    UnitRatio(score - st.minScore, st.maxScore - st.minScore);
    var lo := HexToRgb(st.minColor);
    var hi := HexToRgb(st.maxColor);
    ChannelBetween(lo.r, hi.r, t);
    ChannelBetween(lo.g, hi.g, t);
    ChannelBetween(lo.b, hi.b, t);
  }
}
