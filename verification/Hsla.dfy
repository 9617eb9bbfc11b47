/** Colours as red, green and blue, and as hue, saturation and lightness, with exact reals for floats.
  *
  * All properties are about the conversions as functions; the methods, which fill their target field
  * by field and bring the hue into range with loops, are proved to compute them.
  */
module Hsla {

  datatype Rgb = Rgb(red: real, green: real, blue: real, alpha: real)
  datatype Hsl = Hsl(hue: real, saturation: real, lightness: real, alpha: real)

  predicate Unit(x: real) { 0.0 <= x <= 1.0 }
  predicate InGamut(c: Rgb) { Unit(c.red) && Unit(c.green) && Unit(c.blue) }
  predicate InRange(c: Hsl) { Unit(c.saturation) && Unit(c.lightness) }

  function Max(x: real, y: real): real { if x > y then x else y }
  function Min(x: real, y: real): real { if x < y then x else y }
  function Max3(c: Rgb): real { Max(Max(c.red, c.green), c.blue) }
  function Min3(c: Rgb): real { Min(Min(c.red, c.green), c.blue) }

  // ---------- from red, green, blue ----------

  function Saturation(max: real, min: real): real
    requires 0.0 <= min <= max <= 1.0
  {
    if max == min then 0.0
    else if max + min <= 1.0 then (max - min) / (max + min)
    else (max - min) / (2.0 - max - min)
  }

  /** In turns of sixty degrees, counted from red, and negative on the way to magenta. */
  function Sector(c: Rgb): real
    requires Max3(c) != Min3(c)
  {
    var delta := Max3(c) - Min3(c);
    if c.red == Max3(c) then (c.green - c.blue) / delta
    else if c.green == Max3(c) then 2.0 + (c.blue - c.red) / delta
    else 4.0 + (c.red - c.green) / delta
  }

  function Hue(c: Rgb): real {
    if Max3(c) == Min3(c) then 0.0
    else
      var h := Sector(c) * 60.0;
      if h < 0.0 then h + 360.0 else h
  }

  function FromRgb(c: Rgb): Hsl
    requires InGamut(c)
  {
    Hsl(Hue(c), Saturation(Max3(c), Min3(c)), (Max3(c) + Min3(c)) / 2.0, c.alpha)
  }

  // ---------- to red, green, blue ----------

  function Down(hue: real): real
    decreases hue
  {
    if hue > 360.0 then Down(hue - 360.0) else hue
  }

  function Up(hue: real): real
    decreases -hue
  {
    if hue < 0.0 then Up(hue + 360.0) else hue
  }

  /** The hue brought into [0, 360], where 360 stays 360. */
  function Norm(hue: real): real { Up(Down(hue)) }

  function High(c: Hsl): real {
    if c.lightness <= 0.5 then c.lightness * (1.0 + c.saturation)
    else c.lightness + c.saturation - c.lightness * c.saturation
  }

  function Low(c: Hsl): real { 2.0 * c.lightness - High(c) }

  function Channel(m1: real, m2: real, hue: real): real {
    if hue < 60.0 then m1 + (m2 - m1) * hue / 60.0
    else if hue < 180.0 then m2
    else if hue < 240.0 then m1 + (m2 - m1) * (240.0 - hue) / 60.0
    else m1
  }

  function ToRgb(c: Hsl): Rgb {
    if c.saturation == 0.0 then Rgb(c.lightness, c.lightness, c.lightness, c.alpha)
    else
      Rgb(Channel(Low(c), High(c), Norm(c.hue + 120.0)),
          Channel(Low(c), High(c), Norm(c.hue)),
          Channel(Low(c), High(c), Norm(c.hue - 120.0)),
          c.alpha)
  }

  // ---------- shading ----------

  function Clamp(x: real): real {
    if x > 1.0 then 1.0 else if x < 0.0 then 0.0 else x
  }

  function Scaled(x: real, factor: real): real { Clamp(x * factor) }

  function Shade(c: Hsl, factor: real): Hsl {
    c.(lightness := Scaled(c.lightness, factor), saturation := Scaled(c.saturation, factor))
  }

  // ---------- one wave for all three channels ----------

  /** The channel's height between low (0) and high (1), in turns of sixty degrees. */
  function Wave(y: real): real {
    if y < 1.0 then y else if y < 3.0 then 1.0 else if y < 4.0 then 4.0 - y else 0.0
  }

  lemma ChannelIsWave(m1: real, m2: real, y: real)
    ensures Channel(m1, m2, 60.0 * y) == m1 + (m2 - m1) * Wave(y)
  {
    var d := m2 - m1;
    assert d * (60.0 * y) / 60.0 == d * y;
    assert d * (240.0 - 60.0 * y) / 60.0 == d * (4.0 - y) by {
      assert 240.0 - 60.0 * y == 60.0 * (4.0 - y);
    }
  }

  /** The three channels of a hue in [0, 360], as heights. */
  function RedWave(y: real): real { Wave(if y <= 4.0 then y + 2.0 else y - 4.0) }
  function BlueWave(y: real): real { Wave(if y >= 2.0 then y - 2.0 else y + 4.0) }

  lemma NormTurns(y: real)
    requires 0.0 <= y < 6.0
    ensures Norm(60.0 * y) == 60.0 * y
    ensures Norm(60.0 * y + 120.0) == 60.0 * if y <= 4.0 then y + 2.0 else y - 4.0
    ensures Norm(60.0 * y - 120.0) == 60.0 * if y >= 2.0 then y - 2.0 else y + 4.0
  {
    assert Down(60.0 * y + 120.0) == if y <= 4.0 then 60.0 * y + 120.0 else 60.0 * y - 240.0;
    assert Up(60.0 * y - 120.0) == if y >= 2.0 then 60.0 * y - 120.0 else 60.0 * y + 240.0;
  }

  lemma ToRgbByWaves(c: Hsl, y: real, m1: real, d: real)
    requires 0.0 <= y < 6.0 && c.hue == 60.0 * y && c.saturation != 0.0
    requires Low(c) == m1 && High(c) == m1 + d
    ensures ToRgb(c) == Rgb(m1 + d * RedWave(y), m1 + d * Wave(y), m1 + d * BlueWave(y), c.alpha)
  {
    hide Channel, Low, High, Norm;
    NormTurns(y);
    ChannelIsWave(Low(c), High(c), if y <= 4.0 then y + 2.0 else y - 4.0);
    ChannelIsWave(Low(c), High(c), y);
    ChannelIsWave(Low(c), High(c), if y >= 2.0 then y - 2.0 else y + 4.0);
  }

  // ---------- from red, green, blue and back ----------

  lemma Ratio(p: real, d: real)
    requires d != 0.0
    ensures d * (p / d) == p
  {}

  /** The two extremes are recovered from saturation and lightness. */
  lemma Extremes(c: Hsl, max: real, min: real)
    requires 0.0 <= min < max <= 1.0
    requires c.lightness == (max + min) / 2.0 && c.saturation == Saturation(max, min)
    ensures High(c) == max && Low(c) == min && c.saturation > 0.0
  {
    var l, s := c.lightness, c.saturation;
    if l <= 0.5 {
      Ratio(max - min, max + min);
      assert l * s == (max + min) * s / 2.0;
    } else {
      Ratio(max - min, 2.0 - max - min);
      assert (1.0 - l) * s == (2.0 - max - min) * s / 2.0;
      assert l + s - l * s == l + (1.0 - l) * s;
    }
  }

  /** A coloured value taken apart: its extremes, and its position on the colour circle. */
  ghost predicate Apart(c: Rgb, min: real, d: real, y: real) {
    && min == Min3(c) && min + d == Max3(c) && d > 0.0
    && y == var x := Sector(c); if x < 0.0 then x + 6.0 else x
  }

  /** The position on the circle is in [0, 6) and gives each channel its height back. */
  lemma SectorHeights(c: Rgb, min: real, d: real, y: real)
    requires Apart(c, min, d, y)
    ensures 0.0 <= y < 6.0 && Hue(c) == 60.0 * y
    ensures d * RedWave(y) == c.red - min && d * Wave(y) == c.green - min && d * BlueWave(y) == c.blue - min
  {
    if c.red == Max3(c) {
      Bounded(c.green - c.blue, d);
    } else if c.green == Max3(c) {
      Bounded(c.blue - c.red, d);
    } else {
      Bounded(c.red - c.green, d);
    }
  }

  lemma Bounded(p: real, d: real)
    requires d > 0.0 && -d <= p <= d
    ensures -1.0 <= p / d <= 1.0 && d * (p / d) == p
    ensures d * (-(p / d)) == -p
    ensures (p < 0.0 <==> p / d < 0.0) && (p / d == 1.0 <==> p == d) && (p / d == -1.0 <==> p == -d)
  {
    Ratio(p, d);
  }

  lemma ColouredRoundTrip(c: Rgb, back: Hsl, min: real, d: real, y: real)
    requires InGamut(c) && Apart(c, min, d, y) && back == FromRgb(c)
    ensures ToRgb(back) == c
  {
    Extremes(back, min + d, min);
    assert back.hue == Hue(c) && back.alpha == c.alpha;
    hide *;
    SectorHeights(c, min, d, y);
    ToRgbByWaves(back, y, min, d);
  }

  /** Converting to hue, saturation and lightness and back is the identity. */
  lemma RgbRoundTrip(c: Rgb)
    requires InGamut(c)
    ensures ToRgb(FromRgb(c)) == c
  {
    if Max3(c) == Min3(c) {
      assert FromRgb(c) == Hsl(0.0, 0.0, c.red, c.alpha);
    } else {
      var x := Sector(c);
      ColouredRoundTrip(c, FromRgb(c), Min3(c), Max3(c) - Min3(c), if x < 0.0 then x + 6.0 else x);
    }
  }

  /** What a colour becomes is always in range, with the hue in [0, 360). */
  lemma FromRgbInRange(c: Rgb)
    requires InGamut(c)
    ensures InRange(FromRgb(c)) && 0.0 <= Hue(c) < 360.0
  {
    var max, min := Max3(c), Min3(c);
    if max != min {
      var x := Sector(c);
      SectorHeights(c, min, max - min, if x < 0.0 then x + 6.0 else x);
      if max + min <= 1.0 {
        Bounded(max - min, max + min);
      } else {
        Bounded(max - min, 2.0 - max - min);
      }
      Extremes(FromRgb(c), max, min);
    }
  }

  // ---------- to red, green, blue and back ----------

  lemma Product(x: real, s: real)
    requires 0.0 <= x && 0.0 <= s <= 1.0
    ensures 0.0 <= x * s <= x
    ensures x * s == 0.0 <==> x == 0.0 || s == 0.0
  {}

  /** How far lightness is from its nearer end. */
  function Room(c: Hsl): real { if c.lightness <= 0.5 then c.lightness else 1.0 - c.lightness }

  /** Low and high lie symmetrically around the lightness. */
  lemma LowAndHigh(c: Hsl) returns (r: real, q: real)
    requires InRange(c)
    ensures r == Room(c) && 0.0 <= r && r <= c.lightness && r <= 1.0 - c.lightness
    ensures q == r * c.saturation && 0.0 <= q <= r && (q == 0.0 <==> r == 0.0 || c.saturation == 0.0)
    ensures Low(c) == c.lightness - q && High(c) == c.lightness + q
  {
    var l, s := c.lightness, c.saturation;
    r := Room(c);
    q := r * s;
    Product(r, s);
    if l <= 0.5 {
      assert l * (1.0 + s) == l + l * s;
    } else {
      assert (1.0 - l) * s == s - l * s;
    }
  }

  lemma Spread(c: Hsl)
    requires InRange(c)
    ensures 0.0 <= Low(c) <= High(c) <= 1.0
    ensures Low(c) == High(c) <==> c.saturation == 0.0 || c.lightness == 0.0 || c.lightness == 1.0
  {
    hide Low, High;
    var r, q := LowAndHigh(c);
  }

  lemma SaturationBack(c: Hsl)
    requires InRange(c) && 0.0 < c.saturation && 0.0 < c.lightness < 1.0
    ensures 0.0 <= Low(c) < High(c) <= 1.0 && Low(c) + High(c) == 2.0 * c.lightness
    ensures Saturation(High(c), Low(c)) == c.saturation
  {
    hide Low, High;
    var r, q := LowAndHigh(c);
    DoubleRoom(q, r, c.saturation);
  }

  lemma DoubleRoom(q: real, r: real, s: real)
    requires q == r * s && r > 0.0
    ensures 2.0 * q / (2.0 * r) == s
  {
    assert 2.0 * q == s * (2.0 * r);
  }

  lemma Quotient(p: real, d: real)
    ensures d != 0.0 ==> p * d / d == p
  {}

  predicate Heights(c: Rgb, m1: real, d: real, y: real) {
    c.red == m1 + d * RedWave(y) && c.green == m1 + d * Wave(y) && c.blue == m1 + d * BlueWave(y)
  }

  lemma Fraction(p: real, d: real)
    requires d > 0.0 && 0.0 <= p <= d
    ensures (-p) / d == -(p / d) && d / d == 1.0 && (-d) / d == -1.0
    ensures 0.0 <= p / d <= 1.0 && (p / d == 0.0 <==> p == 0.0) && (p / d == 1.0 <==> p == d)
  {
    Bounded(p, d);
    Ratio(-p, d);
  }

  /** The two sectors around red: the other two channels decide between them. */
  lemma AroundRed(c: Rgb, m1: real, d: real, p: real, y: real)
    requires d > 0.0 && 0.0 <= p <= d && c.red == m1 + d
    ensures c.green == m1 + p && c.blue == m1 && y == p / d ==> Apart(c, m1, d, y)
    ensures c.green == m1 && c.blue == m1 + p && p > 0.0 && y == 6.0 - p / d ==> Apart(c, m1, d, y)
  {
    Fraction(p, d);
  }

  lemma AroundGreen(c: Rgb, m1: real, d: real, p: real, y: real)
    requires d > 0.0 && 0.0 <= p <= d && c.green == m1 + d
    ensures c.red == m1 + p && c.blue == m1 && y == 2.0 - p / d ==> Apart(c, m1, d, y)
    ensures c.red == m1 && c.blue == m1 + p && y == 2.0 + p / d ==> Apart(c, m1, d, y)
  {
    Fraction(p, d);
  }

  lemma AroundBlue(c: Rgb, m1: real, d: real, p: real, y: real)
    requires d > 0.0 && 0.0 <= p <= d && c.blue == m1 + d
    ensures c.green == m1 + p && c.red == m1 && y == 4.0 - p / d ==> Apart(c, m1, d, y)
    ensures c.green == m1 && c.red == m1 + p && p < d && y == 4.0 + p / d ==> Apart(c, m1, d, y)
  {
    Fraction(p, d);
  }

  /** In every sector one channel is high, one low, and one in between. */
  function Between(y: real): real {
    if y < 1.0 then y else if y < 2.0 then 2.0 - y else if y < 3.0 then y - 2.0
    else if y < 4.0 then 4.0 - y else if y < 5.0 then y - 4.0 else 6.0 - y
  }

  lemma Part(d: real, x: real) returns (p: real)
    requires d > 0.0 && 0.0 <= x <= 1.0
    ensures p == d * x && p / d == x && 0.0 <= p <= d
    ensures (x > 0.0 ==> p > 0.0) && (x < 1.0 ==> p < d)
  {
    p := d * x;
    Quotient(x, d);
    Product(d, x);
    Product(d, 1.0 - x);
    assert d * (1.0 - x) == d - p;
  }

  lemma Times(d: real)
    ensures d * 1.0 == d && d * 0.0 == 0.0
  {}

  lemma EachChannel(c: Rgb, m1: real, d: real, y: real, p: real)
    requires 0.0 <= y < 6.0 && Heights(c, m1, d, y) && p == d * Between(y)
    ensures y < 1.0 ==> c.red == m1 + d && c.green == m1 + p && c.blue == m1
    ensures 1.0 <= y < 2.0 ==> c.red == m1 + p && c.green == m1 + d && c.blue == m1
    ensures 2.0 <= y < 3.0 ==> c.red == m1 && c.green == m1 + d && c.blue == m1 + p
    ensures 3.0 <= y < 4.0 ==> c.red == m1 && c.green == m1 + p && c.blue == m1 + d
    ensures 4.0 <= y < 5.0 ==> c.red == m1 + p && c.green == m1 && c.blue == m1 + d
    ensures 5.0 <= y ==> c.red == m1 + d && c.green == m1 && c.blue == m1 + p
  {
    Times(d);
  }

  /** The heights determine the extremes and the position on the circle. */
  lemma ApartFromHeights(c: Rgb, m1: real, d: real, y: real)
    requires d > 0.0 && 0.0 <= y < 6.0 && Heights(c, m1, d, y)
    ensures Apart(c, m1, d, y)
  {
    var p := Part(d, Between(y));
    EachChannel(c, m1, d, y, p);
    hide Apart, Heights, Wave, RedWave, BlueWave;
    if y < 1.0 || y >= 5.0 {
      AroundRed(c, m1, d, p, y);
    } else if y < 3.0 {
      AroundGreen(c, m1, d, p, y);
    } else {
      AroundBlue(c, m1, d, p, y);
    }
  }

  /** From hue, saturation and lightness and back: the full round trip. */
  lemma HslComesBack(c: Hsl)
    requires InRange(c) && 0.0 <= c.hue < 360.0 && 0.0 < c.saturation && 0.0 < c.lightness < 1.0
    ensures InGamut(ToRgb(c)) && FromRgb(ToRgb(c)) == c
  {
    var y, m1, d, rgb := c.hue / 60.0, Low(c), High(c) - Low(c), ToRgb(c);
    Spread(c);
    SaturationBack(c);
    assert c.hue == 60.0 * y && 0.0 <= y < 6.0;
    ToRgbByWaves(c, y, m1, d);
    ApartFromHeights(rgb, m1, d, y);
    SectorHeights(rgb, m1, d, y);
    ApartInGamut(rgb, m1, d, y);
  }

  lemma ApartInGamut(c: Rgb, m1: real, d: real, y: real)
    ensures Apart(c, m1, d, y) && 0.0 <= m1 && m1 + d <= 1.0 ==> InGamut(c)
  {}

  lemma GreyComesBack(c: Hsl)
    requires InRange(c) && (c.saturation == 0.0 || c.lightness == 0.0 || c.lightness == 1.0)
    ensures InGamut(ToRgb(c)) && FromRgb(ToRgb(c)) == Hsl(0.0, 0.0, c.lightness, c.alpha)
  {
    Spread(c);
    if c.saturation != 0.0 {
      var m := High(c);
      assert m == c.lightness;
      FlatChannel(m, Norm(c.hue + 120.0));
      FlatChannel(m, Norm(c.hue));
      FlatChannel(m, Norm(c.hue - 120.0));
    }
    var l := c.lightness;
    assert ToRgb(c) == Rgb(l, l, l, c.alpha);
  }

  lemma FlatChannel(m: real, hue: real)
    ensures Channel(m, m, hue) == m
  {}

  // ---------- what the three numbers are ----------

  /** Lightness is halfway between the strongest and the weakest channel; saturation is their distance,
    * measured against what the lightness leaves room for; alpha is passed on both ways. */
  lemma WhatIsConverted(c: Rgb, hi: real, lo: real)
    requires InGamut(c)
    requires hi in {c.red, c.green, c.blue} && lo in {c.red, c.green, c.blue}
    requires lo <= c.red <= hi && lo <= c.green <= hi && lo <= c.blue <= hi
    ensures FromRgb(c).lightness == (hi + lo) / 2.0 && FromRgb(c).alpha == c.alpha
    ensures FromRgb(c).saturation == if hi == lo then 0.0 else (hi - lo) / if hi + lo <= 1.0 then hi + lo else 2.0 - hi - lo
    ensures forall h :: ToRgb(h).alpha == h.alpha
  {
    assert Max3(c) == hi && Min3(c) == lo;
    hide Hue, Channel, Norm, Low, High;
  }

  /** The colours at the six corners of the circle. */
  lemma CornersOfTheCircle()
    ensures Hue(Rgb(1.0, 0.0, 0.0, 1.0)) == 0.0 && Hue(Rgb(1.0, 1.0, 0.0, 1.0)) == 60.0
    ensures Hue(Rgb(0.0, 1.0, 0.0, 1.0)) == 120.0 && Hue(Rgb(0.0, 1.0, 1.0, 1.0)) == 180.0
    ensures Hue(Rgb(0.0, 0.0, 1.0, 1.0)) == 240.0 && Hue(Rgb(1.0, 0.0, 1.0, 1.0)) == 300.0
  {}

  // ---------- whole turns ----------

  /** Whole turns make no difference; 360 and 0 are both low green and high red. */
  lemma ChannelTurn(m1: real, m2: real, hue: real)
    ensures Channel(m1, m2, Norm(hue + 360.0)) == Channel(m1, m2, Norm(hue))
  {
    if hue > 0.0 {
      assert Down(hue + 360.0) == Down(hue);
    } else if hue == 0.0 {
      assert Norm(hue) == 0.0 && Norm(hue + 360.0) == 360.0;
    } else {
      assert Down(hue) == hue && Down(hue + 360.0) == hue + 360.0 && Up(hue) == Up(hue + 360.0);
    }
  }

  lemma OneTurn(c: Hsl)
    ensures ToRgb(c.(hue := c.hue + 360.0)) == ToRgb(c)
  {
    var c' := c.(hue := c.hue + 360.0);
    assert Low(c') == Low(c) && High(c') == High(c);
    hide Channel, Norm, Low, High;
    ChannelTurn(Low(c), High(c), c.hue + 120.0);
    ChannelTurn(Low(c), High(c), c.hue);
    ChannelTurn(Low(c), High(c), c.hue - 120.0);
    assert c.hue + 120.0 + 360.0 == c'.hue + 120.0;
    assert c.hue - 120.0 + 360.0 == c'.hue - 120.0;
  }

  /** The colour depends on the hue only up to whole turns, forward or back. */
  lemma {:induction false} HuePeriod(c: Hsl, k: int)
    ensures ToRgb(c.(hue := c.hue + 360.0 * k as real)) == ToRgb(c)
    decreases if k < 0 then -k else k
  {
    hide ToRgb;
    if k > 0 {
      HuePeriod(c, k - 1);
      OneTurn(c.(hue := c.hue + 360.0 * (k - 1) as real));
    } else if k < 0 {
      HuePeriod(c, k + 1);
      OneTurn(c.(hue := c.hue + 360.0 * k as real));
    }
  }

  ghost predicate Turned(hue: real, k: int, turned: real) { turned == hue + 360.0 * k as real }

  /** The same hue in [0, 360). */
  lemma OnTheWheel(hue: real) returns (k: int, turned: real)
    ensures Turned(hue, k, turned) && 0.0 <= turned < 360.0
  {
    k := -(hue / 360.0).Floor;
    turned := hue + 360.0 * k as real;
    assert hue == 360.0 * (hue / 360.0);
  }

  // ---------- main results about hue, saturation and lightness ----------

  /** Any hue, saturation and lightness gives a colour in range; from the colour saturation and
    * lightness come back, and the hue up to whole turns.  Grey, black and white have no hue. */
  lemma HslNormalised(c: Hsl)
    requires InRange(c)
    ensures InGamut(ToRgb(c))
    ensures var back := FromRgb(ToRgb(c));
      if c.saturation == 0.0 || c.lightness == 0.0 || c.lightness == 1.0 then back == Hsl(0.0, 0.0, c.lightness, c.alpha)
      else back == c.(hue := back.hue) && 0.0 <= back.hue < 360.0 && exists k :: Turned(c.hue, k, back.hue)
  {
    hide ToRgb, FromRgb;
    if c.saturation == 0.0 || c.lightness == 0.0 || c.lightness == 1.0 {
      GreyComesBack(c);
    } else {
      var k, turned := OnTheWheel(c.hue);
      HuePeriod(c, k);
      HslComesBack(c.(hue := turned));
    }
  }

  /** Exactly when converting to red, green and blue and back changes nothing. */
  lemma HslRoundTripIff(c: Hsl)
    requires InRange(c)
    ensures InGamut(ToRgb(c))
    ensures FromRgb(ToRgb(c)) == c <==>
              0.0 <= c.hue < 360.0
              && if c.saturation == 0.0 then c.hue == 0.0 else 0.0 < c.lightness < 1.0
  {
    hide ToRgb, FromRgb;
    HslNormalised(c);
    if 0.0 <= c.hue < 360.0 && c.saturation > 0.0 && 0.0 < c.lightness < 1.0 {
      HslComesBack(c);
    }
  }

  // ---------- shading ----------

  /** y is x times the factor if that lies between 0 and 1, and the nearer bound otherwise. */
  predicate IsScaled(y: real, x: real, factor: real) {
    if x * factor < 0.0 then y == 0.0 else if x * factor > 1.0 then y == 1.0 else y == x * factor
  }

  lemma ScaledIsScaled(x: real, factor: real)
    ensures IsScaled(Scaled(x, factor), x, factor)
  {}

  /** Shading leaves hue and alpha alone; lightness and saturation are multiplied and kept within bounds. */
  lemma ShadeMeans(c: Hsl, factor: real)
    ensures Shade(c, factor).hue == c.hue && Shade(c, factor).alpha == c.alpha
    ensures var x := c.lightness * factor; Shade(c, factor).lightness == if x < 0.0 then 0.0 else if x > 1.0 then 1.0 else x
    ensures var x := c.saturation * factor; Shade(c, factor).saturation == if x < 0.0 then 0.0 else if x > 1.0 then 1.0 else x
  {
    var l, s := c.lightness * factor, c.saturation * factor;
    ScaledIs(c.lightness, factor, l);
    ScaledIs(c.saturation, factor, s);
    hide Scaled;
  }

  lemma ShadeStaysInRange(c: Hsl, factor: real)
    ensures InRange(Shade(c, factor)) && InGamut(ToRgb(Shade(c, factor)))
  {
    HslNormalised(Shade(c, factor));
  }

  /** Shading by 1 gives every colour back. */
  lemma ShadeByOne(c: Rgb)
    requires InGamut(c)
    ensures ToRgb(Shade(FromRgb(c), 1.0)) == c
  {
    hide ToRgb, FromRgb;
    FromRgbRanges(c);
    RgbRoundTrip(c);
  }

  lemma FromRgbRanges(c: Rgb)
    requires InGamut(c)
    ensures InRange(FromRgb(c))
  {
    FromRgbInRange(c);
  }

  /** Shading twice is shading by the product, except when the first factor runs into the limit and
    * the second one leads back below it. */
  lemma ShadeTwiceIff(c: Hsl, f: real, g: real)
    requires InRange(c) && f >= 0.0 && g >= 0.0
    ensures Shade(Shade(c, f), g) == Shade(c, f * g) <==>
              g == 0.0 || g >= 1.0 || (c.lightness * f <= 1.0 && c.saturation * f <= 1.0)
  {
    hide Scaled;
    ScaledTwiceIff(c.lightness, f, g);
    ScaledTwiceIff(c.saturation, f, g);
  }

  lemma ScaledTwiceIff(x: real, f: real, g: real)
    requires Unit(x) && f >= 0.0 && g >= 0.0
    ensures Scaled(Scaled(x, f), g) == Scaled(x, f * g) <==> g == 0.0 || g >= 1.0 || x * f <= 1.0
  {
    hide Clamp, Scaled;
    var y, fg := x * f, f * g;
    var z := y * g;
    assert x * fg == z;
    ScaledIs(x, f, y);
    ScaledIs(x, fg, z);
    ScaledOnce(y, g, z);
  }

  lemma ScaledOnce(y: real, g: real, z: real)
    requires y >= 0.0 && g >= 0.0 && z == y * g
    ensures Scaled(Clamp(y), g) == Clamp(z) <==> g == 0.0 || g >= 1.0 || y <= 1.0
  {
    if y > 1.0 {
      assert Scaled(1.0, g) == Clamp(g);
      if g > 0.0 {
        assert z > g by { assert (y - 1.0) * g > 0.0; }
      }
    }
  }

  lemma ScaledIs(x: real, factor: real, y: real)
    requires y == x * factor
    ensures Scaled(x, factor) == Clamp(y)
  {}

  // ---------- the code ----------

  class Rgba {
    var red: real
    var green: real
    var blue: real
    var alpha: real

    ghost function Value(): Rgb reads this { Rgb(red, green, blue, alpha) }

    method InitFromHsla(c: Hsla)
      modifies this
      ensures Value() == ToRgb(c.Value())
    {
      var lightness, saturation := c.lightness, c.saturation;
      var m1, m2;
      if lightness <= 0.5 {
        m2 := lightness * (1.0 + saturation);
      } else {
        m2 := lightness + saturation - lightness * saturation;
      }
      m1 := 2.0 * lightness - m2;
      alpha := c.alpha;
      if saturation == 0.0 {
        red, green, blue := lightness, lightness, lightness;
      } else {
        red := ChannelAt(m1, m2, c.hue + 120.0);
        green := ChannelAt(m1, m2, c.hue);
        blue := ChannelAt(m1, m2, c.hue - 120.0);
      }
    }
  }

  /** The code has this text once for each channel. */
  method ChannelAt(m1: real, m2: real, start: real) returns (value: real)
    ensures value == Channel(m1, m2, Norm(start))
  {
    var hue := start;
    while hue > 360.0
      invariant Down(hue) == Down(start)
      decreases hue
    {
      hue := hue - 360.0;
    }
    assert hue == Down(start);
    while hue < 0.0
      invariant Up(hue) == Norm(start)
      decreases -hue
    {
      hue := hue + 360.0;
    }
    if hue < 60.0 {
      value := m1 + (m2 - m1) * hue / 60.0;
    } else if hue < 180.0 {
      value := m2;
    } else if hue < 240.0 {
      value := m1 + (m2 - m1) * (240.0 - hue) / 60.0;
    } else {
      value := m1;
    }
  }

  class Hsla {
    var hue: real
    var saturation: real
    var lightness: real
    var alpha: real

    ghost function Value(): Hsl reads this { Hsl(hue, saturation, lightness, alpha) }

    method InitFromRgba(c: Rgba)
      requires InGamut(c.Value())
      modifies this
      ensures Value() == FromRgb(c.Value())
    {
      var red, green, blue := c.red, c.green, c.blue;
      var max, min;
      if red > green {
        if red > blue { max := red; } else { max := blue; }
        if green < blue { min := green; } else { min := blue; }
      } else {
        if green > blue { max := green; } else { max := blue; }
        if red < blue { min := red; } else { min := blue; }
      }
      ghost var v := c.Value();
      assert max == Max3(v) && min == Min3(v) && 0.0 <= min <= max <= 1.0;
      hide Max3, Min3, Max, Min;
      lightness := (max + min) / 2.0;
      saturation := 0.0;
      hue := 0.0;
      alpha := c.alpha;
      if max != min {
        if lightness <= 0.5 {
          saturation := (max - min) / (max + min);
        } else {
          saturation := (max - min) / (2.0 - max - min);
        }
        var delta := max - min;
        if red == max {
          hue := (green - blue) / delta;
        } else if green == max {
          hue := 2.0 + (blue - red) / delta;
        } else if blue == max {
          hue := 4.0 + (red - green) / delta;
        }
        hue := hue * 60.0;
        if hue < 0.0 {
          hue := hue + 360.0;
        }
      }
    }

    /** The source may be the target itself. */
    method ShadeFrom(src: Hsla, factor: real)
      modifies this
      ensures Value() == Shade(old(src.Value()), factor)
      ensures hue == old(src.hue) && alpha == old(src.alpha)
      ensures IsScaled(lightness, old(src.lightness), factor) && IsScaled(saturation, old(src.saturation), factor)
    {
      hide Clamp, Scaled, IsScaled;
      ScaledIsScaled(src.lightness, factor);
      ScaledIsScaled(src.saturation, factor);
      hue := src.hue;
      var scaled := src.lightness * factor;
      ScaledIs(src.lightness, factor, scaled);
      lightness := Clamp(scaled);
      scaled := src.saturation * factor;
      ScaledIs(src.saturation, factor, scaled);
      saturation := Clamp(scaled);
      alpha := src.alpha;
    }
  }
}
