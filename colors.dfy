/**
  The colour pipeline of the clock: the `Extensions` helpers of MainForm.cs.

  A wall-clock time becomes an RGB colour (ToColor), the colour is shown as a
  six-digit hex code (ToHex), its luma decides whether the text drawn over it
  is black or white (Luma, IsLight), and a darker variant of it is the outer
  colour of the background gradient (DarkerVersion).

  The source computes in double and single precision. Every quantity here is
  stated over integers instead:
  - floor(255.0 * h / 23.0) is (255 * h) / 23: the true quotient is either an
    integer (h = 0 or h = 23) or at least 1/23 away from one, far beyond the
    rounding error of one double division;
  - (int)(c * 0.6f) is (6 * c) / 10: 0.6f is a little above 0.6, and 0.6 * c
    is either an integer or at least 0.2 away from one for a byte c;
  - luma >= 0.6 is 2126 * R + 7152 * G + 722 * B >= 6000 * 255, the weights
    of the ITU-R BT.709 luma equation scaled by 10000 and the channels by 255.
    Away from the colours whose luma is exactly 0.6 no rounding can cross the
    threshold, and the clock never shows such a colour (ClockColorNeverTies).
*/
module Colors {
  import opened Common

  /** A colour channel: `Color.R`, `Color.G` and `Color.B` are bytes. */
  type Byte = x: int | 0 <= x < 256

  type Hour = x: int | 0 <= x < 24
  type Minute = x: int | 0 <= x < 60
  type Second = x: int | 0 <= x < 60

  /** The parts of a `DateTime` that the colour depends on. */
  datatype TimeSample = TimeSample(hour: Hour, minute: Minute, second: Second)

  datatype Color = Color(r: Byte, g: Byte, b: Byte)

  const Black := Color(0, 0, 0)
  const White := Color(255, 255, 255)

  // ---------------------------------------------------------------------------
  // ToColor

  /** Each channel is the largest byte not above 255 * part / max. */
  function ToColor(t: TimeSample): (c: Color)
    ensures 23 * c.r <= 255 * t.hour < 23 * (c.r + 1)
    ensures 59 * c.g <= 255 * t.minute < 59 * (c.g + 1)
    ensures 59 * c.b <= 255 * t.second < 59 * (c.b + 1)
  {
    Color(255 * t.hour / 23, 255 * t.minute / 59, 255 * t.second / 59)
  }

  /** Reads the time back from a colour: the smallest part whose channel
      reaches the colour's channel, i.e. ceil(part * channel / 255). */
  function TimeOf(c: Color): (t: TimeSample)
    ensures 255 * t.hour < 23 * c.r + 255
    ensures 255 * t.minute < 59 * c.g + 255
    ensures 255 * t.second < 59 * c.b + 255
  {
    TimeSample((23 * c.r + 254) / 255, (59 * c.g + 254) / 255, (59 * c.b + 254) / 255)
  }

  /** The colour of a time determines the time: reading it back recovers it. */
  lemma TimeOfToColor(t: TimeSample)
    ensures TimeOf(ToColor(t)) == t
  {
    var c := ToColor(t);
    var u := TimeOf(c);
    // 23 * r <= 255 * h < 23 * r + 23, so 255 * h is the only multiple of 255
    // in [23 * r, 23 * r + 254].
    assert 255 * u.hour >= 23 * c.r;
    HitsOnlyMultiple(23 * c.r, t.hour, u.hour, 23);
    assert 255 * u.minute >= 59 * c.g;
    HitsOnlyMultiple(59 * c.g, t.minute, u.minute, 59);
    assert 255 * u.second >= 59 * c.b;
    HitsOnlyMultiple(59 * c.b, t.second, u.second, 59);
  }

  /** Two multiples of 255 that both lie in [lo, lo + 254] are equal. */
  lemma HitsOnlyMultiple(lo: int, a: int, b: int, w: int)
    requires 0 < w <= 255
    requires lo <= 255 * a < lo + w
    requires lo <= 255 * b < lo + 255
    ensures a == b
  {
  }

  /** Distinct times give distinct colours. */
  lemma ToColorInjective(t1: TimeSample, t2: TimeSample)
    requires ToColor(t1) == ToColor(t2)
    ensures t1 == t2
  {
    TimeOfToColor(t1);
    TimeOfToColor(t2);
  }

  /** Midnight is black and 23:59:59 is white. */
  lemma ToColorExtremes()
    ensures ToColor(TimeSample(0, 0, 0)) == Black
    ensures ToColor(TimeSample(23, 59, 59)) == White
  {
  }

  /** Each channel grows strictly with its own part of the time and does not
      depend on the other parts. */
  lemma {:induction false} ToColorMonotone(t1: TimeSample, t2: TimeSample)
    ensures t1.hour < t2.hour ==> ToColor(t1).r < ToColor(t2).r
    ensures t1.minute < t2.minute ==> ToColor(t1).g < ToColor(t2).g
    ensures t1.second < t2.second ==> ToColor(t1).b < ToColor(t2).b
    ensures t1.hour == t2.hour ==> ToColor(t1).r == ToColor(t2).r
    ensures t1.minute == t2.minute ==> ToColor(t1).g == ToColor(t2).g
    ensures t1.second == t2.second ==> ToColor(t1).b == ToColor(t2).b
  {
    var c1, c2 := ToColor(t1), ToColor(t2);
    if t1.hour < t2.hour {
      assert 23 * c1.r <= 255 * t1.hour <= 255 * t2.hour - 255 < 23 * c2.r + 23 - 255;
    }
    if t1.minute < t2.minute {
      assert 59 * c1.g <= 255 * t1.minute <= 255 * t2.minute - 255 < 59 * c2.g + 59 - 255;
    }
    if t1.second < t2.second {
      assert 59 * c1.b <= 255 * t1.second <= 255 * t2.second - 255 < 59 * c2.b + 59 - 255;
    }
  }

  // ---------------------------------------------------------------------------
  // ToHex

  predicate IsUpperHexDigit(ch: char) {
    '0' <= ch <= '9' || 'A' <= ch <= 'F'
  }

  /** The upper-case hex digit of a value below 16. */
  function HexDigit(d: int): (ch: char)
    requires 0 <= d < 16
    ensures IsUpperHexDigit(ch)
  {
    if d < 10 then ('0' as int + d) as char else ('A' as int + d - 10) as char
  }

  /** The value of an upper-case hex digit; None for any other character. */
  function HexValue(ch: char): (v: Option<int>)
    ensures v.Some? <==> IsUpperHexDigit(ch)
    ensures v.Some? ==> 0 <= v.value < 16 && HexDigit(v.value) == ch
  {
    if '0' <= ch <= '9' then Some(ch as int - '0' as int)
    else if 'A' <= ch <= 'F' then Some(ch as int - 'A' as int + 10)
    else None
  }

  /** The "X2" format of a byte: two upper-case hex digits, zero-padded,
      most significant first. */
  function X2(b: Byte): (s: string)
    ensures |s| == 2 && IsUpperHexDigit(s[0]) && IsUpperHexDigit(s[1])
    ensures HexValue(s[0]) == Some(b / 16) && HexValue(s[1]) == Some(b % 16)
  {
    [HexDigit(b / 16), HexDigit(b % 16)]
  }

  /** "RRGGBB": the three channels in X2 format, joined without separator. */
  function ToHex(c: Color): (s: string)
    ensures |s| == 6
    ensures forall i :: 0 <= i < |s| ==> IsUpperHexDigit(s[i])
    ensures s[0..2] == X2(c.r) && s[2..4] == X2(c.g) && s[4..6] == X2(c.b)
  {
    X2(c.r) + X2(c.g) + X2(c.b)
  }

  /** The byte written by two hex digits, most significant first. */
  function ByteOf(hi: char, lo: char): (v: Option<Byte>)
    ensures v.Some? <==> IsUpperHexDigit(hi) && IsUpperHexDigit(lo)
  {
    match (HexValue(hi), HexValue(lo))
    case (Some(h), Some(l)) => Some(16 * h + l)
    case _ => None
  }

  /** Decodes "RRGGBB" back to a colour; None unless the text is six
      upper-case hex digits. */
  function FromHex(s: string): (c: Option<Color>)
    ensures c.Some? <==> |s| == 6 && forall i :: 0 <= i < 6 ==> IsUpperHexDigit(s[i])
  {
    if |s| != 6 then None
    else
      match (ByteOf(s[0], s[1]), ByteOf(s[2], s[3]), ByteOf(s[4], s[5]))
      case (Some(r), Some(g), Some(b)) => Some(Color(r, g, b))
      case _ => None
  }

  /** Decoding each pair of digits recovers the channel it encodes. */
  lemma FromHexToHex(c: Color)
    ensures FromHex(ToHex(c)) == Some(c)
  {
    var s := ToHex(c);
    assert s[0..2] == X2(c.r) && s[2..4] == X2(c.g) && s[4..6] == X2(c.b);
    assert s[0] == X2(c.r)[0] && s[1] == X2(c.r)[1];
    assert s[2] == X2(c.g)[0] && s[3] == X2(c.g)[1];
    assert s[4] == X2(c.b)[0] && s[5] == X2(c.b)[1];
  }

  /** Two digits the decoder accepts are the X2 form of the byte they encode. */
  lemma X2ByteOf(hi: char, lo: char)
    requires ByteOf(hi, lo).Some?
    ensures X2(ByteOf(hi, lo).value) == [hi, lo]
  {
    var h, l := HexValue(hi).value, HexValue(lo).value;
    assert 0 <= h < 16 && 0 <= l < 16;
    assert ByteOf(hi, lo).value == 16 * h + l;
    assert (16 * h + l) / 16 == h && (16 * h + l) % 16 == l;
    assert HexDigit(h) == hi && HexDigit(l) == lo;
  }

  /** Every text the decoder accepts is exactly the code of the colour it
      decodes to: ToHex is onto the six-digit upper-case codes. */
  lemma ToHexFromHex(s: string)
    requires FromHex(s).Some?
    ensures ToHex(FromHex(s).value) == s
  {
    X2ByteOf(s[0], s[1]);
    X2ByteOf(s[2], s[3]);
    X2ByteOf(s[4], s[5]);
    assert s == [s[0], s[1]] + [s[2], s[3]] + [s[4], s[5]];
  }

  /** Distinct colours have distinct codes. */
  lemma ToHexInjective(c1: Color, c2: Color)
    requires ToHex(c1) == ToHex(c2)
    ensures c1 == c2
  {
    FromHexToHex(c1);
    FromHexToHex(c2);
  }

  lemma ToHexExample()
    ensures ToHex(Color(255, 0, 128)) == "FF0080"
  {
  }

  // ---------------------------------------------------------------------------
  // Luma and IsLight

  /** Luma of (1, 1, 1) in the scaled units of Luma: 10000 for the weights,
      255 for the channels. */
  const LumaScale := 10000 * 255

  /** 0.2126 R/255 + 0.7152 G/255 + 0.0722 B/255, multiplied by LumaScale. */
  function Luma(c: Color): (l: int)
    ensures 0 <= l <= LumaScale
    ensures l == 0 <==> c == Black
    ensures l == LumaScale <==> c == White
  {
    2126 * c.r + 7152 * c.g + 722 * c.b
  }

  /** Luma of at least 0.6, inclusive: black text is drawn on such a
      colour. Green decides most of it: no colour with less than 113 green
      is light, and 214 green makes any colour light. */
  function IsLight(c: Color): (light: bool)
    ensures c.g >= 214 ==> light
    ensures light ==> c.g >= 113
  {
    10 * Luma(c) >= 6 * LumaScale
  }

  /** Channel-wise order: every channel of c1 is at most that of c2. */
  predicate Below(c1: Color, c2: Color) {
    c1.r <= c2.r && c1.g <= c2.g && c1.b <= c2.b
  }

  /** White is light and black is not. */
  lemma IsLightExtremes()
    ensures IsLight(White) && !IsLight(Black)
  {
  }

  /** The threshold is inclusive: the colour (37, 200, 29), whose luma is
      exactly 0.6, is light, and lowering its blue channel by one is not. */
  lemma IsLightThreshold()
    ensures 10 * Luma(Color(37, 200, 29)) == 6 * LumaScale && IsLight(Color(37, 200, 29))
    ensures !IsLight(Color(37, 200, 28))
  {
    assert Luma(Color(37, 200, 28)) == 1529278;
  }

  // A colour whose luma is exactly 0.6 satisfies, halved,
  // 1063 R + 3576 G + 361 B == 765000. As 138 is the inverse of 3576 modulo
  // 361, such a colour's red channel fixes its green channel modulo 361,
  // hence outright, and then its blue channel.

  function TieGreen(r: int): int {
    (243 - 128 * r) % 361
  }

  function TieBlueTimes361(r: int): int {
    765000 - 1063 * r - 3576 * TieGreen(r)
  }

  /** The tie that red r allows has green and blue within a byte. */
  predicate TieInBytes(r: int) {
    TieGreen(r) < 256 && 0 <= TieBlueTimes361(r) < 361 * 256
  }

  lemma ModUnique(x: int, k: int, g: int)
    requires x == g + 361 * k && 0 <= g < 361
    ensures g == x % 361
  {
  }

  /** On a colour of luma exactly 0.6, green and blue follow from red. */
  lemma {:induction false} TieChannels(c: Color)
    ensures 10 * Luma(c) == 6 * LumaScale ==> c.g == TieGreen(c.r) && 361 * c.b == TieBlueTimes361(c.r)
  {
    if 10 * Luma(c) == 6 * LumaScale {
      var k := 138 * c.b + 1367 * c.g + 406 * c.r - 292437;
      assert 243 - 128 * c.r == c.g + 361 * k;
      ModUnique(243 - 128 * c.r, k, c.g);
    }
  }

  /** The clock's red channel: 11 per hour, one more from noon on and two
      more at hour 23. */
  lemma ClockRed(t: TimeSample)
    ensures ToColor(t).r == 11 * t.hour + 2 * t.hour / 23
  {
    assert 255 * t.hour == 23 * (11 * t.hour) + 2 * t.hour;
  }

  /** No minute has green channel 170: 59 * 170 <= 255 * m < 59 * 171 has no
      solution. */
  lemma NoMinuteGreen170(t: TimeSample)
    ensures ToColor(t).g != 170
  {
  }

  /** Among the red channels the clock shows, only hour 8's red 88 has a tie
      within a byte. */
  lemma ClockRedTies(h: Hour)
    ensures TieInBytes(11 * h + 2 * h / 23) ==> h == 8
  {
    // -1408 is 36 modulo 361, so the tie's green for the red 11 h + e is
    // 243 + 36 h - 128 e less a multiple j of 361 fixed on each range of
    // hours.
    var e, j;
    if h < 4 {
      e, j := 0, 0;
    } else if h < 12 {
      e, j := 0, 1;
    } else if h < 17 {
      e, j := 1, 1;
    } else if h < 23 {
      e, j := 1, 2;
    } else {
      e, j := 2, 2;
    }
    assert 2 * h / 23 == e;
    ModUnique(243 - 128 * (11 * h + e), j - 4 * h, 243 + 36 * h - 128 * e - 361 * j);
  }

  /** The clock never shows a colour whose luma is exactly 0.6, so which
      text colour it draws does not depend on how the comparison with 0.6f
      rounds. */
  lemma ClockColorNeverTies(t: TimeSample)
    ensures 10 * Luma(ToColor(t)) != 6 * LumaScale
  {
    ClockRed(t);
    NoMinuteGreen170(t);
    NoTieOnClockRed(ToColor(t), t.hour);
  }

  /** A colour with the red channel of some hour and a green channel other
      than 170 is not a tie. */
  lemma NoTieOnClockRed(c: Color, h: Hour)
    requires c.r == 11 * h + 2 * h / 23 && c.g != 170
    ensures 10 * Luma(c) != 6 * LumaScale
  {
    TieChannels(c);
    ClockRedTies(h);
    assert TieGreen(88) == 170;
  }

  /** Green weighs most: full green alone is light, full red alone is not. */
  lemma IsLightPrimaries()
    ensures IsLight(Color(0, 255, 0)) && !IsLight(Color(255, 0, 0))
  {
    assert Luma(Color(255, 0, 0)) == 542130;
  }

  /** Raising channels never turns a light colour dark: all weights are
      positive. */
  lemma {:induction false} IsLightMonotone(c1: Color, c2: Color)
    requires Below(c1, c2) && IsLight(c1)
    ensures IsLight(c2)
  {
    assert Luma(c1) <= Luma(c2);
  }

  // ---------------------------------------------------------------------------
  // DarkerVersion

  /** Each channel scaled by 0.6 and truncated. */
  function DarkerVersion(c: Color): (d: Color)
    ensures 10 * d.r <= 6 * c.r < 10 * (d.r + 1)
    ensures 10 * d.g <= 6 * c.g < 10 * (d.g + 1)
    ensures 10 * d.b <= 6 * c.b < 10 * (d.b + 1)
  {
    Color(6 * c.r / 10, 6 * c.g / 10, 6 * c.b / 10)
  }

  /** The darker variant is never brighter in any channel, and it equals the
      colour itself exactly for black. */
  lemma DarkerVersionDarkens(c: Color)
    ensures Below(DarkerVersion(c), c)
    ensures DarkerVersion(c) == c <==> c == Black
  {
    var d := DarkerVersion(c);
    if d == c {
      assert 10 * c.r <= 6 * c.r && 10 * c.g <= 6 * c.g && 10 * c.b <= 6 * c.b;
    }
  }

  /** Darkening keeps the channel order between two colours. */
  lemma DarkerVersionMonotone(c1: Color, c2: Color)
    requires Below(c1, c2)
    ensures Below(DarkerVersion(c1), DarkerVersion(c2))
  {
    var d1, d2 := DarkerVersion(c1), DarkerVersion(c2);
    assert 10 * d1.r <= 6 * c1.r <= 6 * c2.r < 10 * (d2.r + 1);
    assert 10 * d1.g <= 6 * c1.g <= 6 * c2.g < 10 * (d2.g + 1);
    assert 10 * d1.b <= 6 * c1.b <= 6 * c2.b < 10 * (d2.b + 1);
  }

  /** The gradient's outer colour is dark whenever its centre colour is. */
  lemma DarkerVersionOfDarkIsDark(c: Color)
    requires !IsLight(c)
    ensures !IsLight(DarkerVersion(c))
  {
    DarkerVersionDarkens(c);
    if IsLight(DarkerVersion(c)) {
      IsLightMonotone(DarkerVersion(c), c);
    }
  }

  lemma DarkerVersionExample()
    ensures DarkerVersion(Color(200, 100, 50)) == Color(120, 60, 30)
    ensures DarkerVersion(White) == Color(153, 153, 153)
    ensures DarkerVersion(Color(1, 1, 1)) == Black
  {
  }
}
