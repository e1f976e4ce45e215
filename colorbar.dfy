/** The bar colour for a percentage (calculateColorFromPercentage,
    src/password.js:187-216): green grows and red falls linearly, both scaled against 50
    rather than 100, and each is clamped into its configured range. Numbers are modelled as
    reals; floating-point rounding is not. */
module ColorBar {
  import opened PasswordOptions

  datatype Rgb = Rgb(red: real, green: real, blue: real)

  /** The red range, 0 to 240 when `customColorBarRGB` has no `red` key. */
  function RedRange(bar: ColorBarRGB): ChannelRange
  {
    match bar.red
    case Some(range) => range
    case None => ChannelRange(0.0, 240.0)
  }

  /** The green range, 0 to 240 when `customColorBarRGB` has no `green` key. */
  function GreenRange(bar: ColorBarRGB): ChannelRange
  {
    match bar.green
    case Some(range) => range
    case None => ChannelRange(0.0, 240.0)
  }

  /** The blue constant, 10 when `customColorBarRGB` has no `blue` key. */
  function BlueValue(bar: ColorBarRGB): real
  {
    match bar.blue
    case Some(b) => b
    case None => 10.0
  }

  function MathMin(a: real, b: real): real
  {
    if a <= b then a else b
  }

  function MathMax(a: real, b: real): real
  {
    if a >= b then a else b
  }

  /** `Math.min(Math.max(x, min), max)`. */
  function ClampTo(x: real, range: ChannelRange): (r: real)
    ensures r <= range.max
    ensures range.min <= range.max ==> range.min <= r
    ensures range.min <= x <= range.max ==> r == x
  {
    MathMin(MathMax(x, range.min), range.max)
  }

  /** The green channel before clamping. */
  function RawGreen(percent: int, green: ChannelRange): real
  {
    percent as real * green.max / 50.0
  }

  /** The red channel before clamping. */
  function RawRed(percent: int, red: ChannelRange): real
  {
    2.0 * red.max - percent as real * red.max / 50.0
  }

  /** calculateColorFromPercentage(percent). */
  function ColorFromPercentage(o: Options, percent: int): (c: Rgb)
    ensures c.red <= RedRange(o.customColorBarRGB).max
    ensures c.green <= GreenRange(o.customColorBarRGB).max
    ensures RedRange(o.customColorBarRGB).min <= RedRange(o.customColorBarRGB).max ==> RedRange(o.customColorBarRGB).min <= c.red
    ensures GreenRange(o.customColorBarRGB).min <= GreenRange(o.customColorBarRGB).max ==> GreenRange(o.customColorBarRGB).min <= c.green
    ensures c.blue == BlueValue(o.customColorBarRGB)
  {
    var bar := o.customColorBarRGB;
    Rgb(ClampTo(RawRed(percent, RedRange(bar)), RedRange(bar)),
        ClampTo(RawGreen(percent, GreenRange(bar)), GreenRange(bar)),
        BlueValue(bar))
  }

  /** Raising the percentage never lowers green and never raises red (for non-negative
      maxima): the bar moves from red towards green. */
  lemma GradientMonotone(o: Options, p: int, q: int)
    requires p <= q
    requires RedRange(o.customColorBarRGB).max >= 0.0 && GreenRange(o.customColorBarRGB).max >= 0.0
    ensures ColorFromPercentage(o, p).green <= ColorFromPercentage(o, q).green
    ensures ColorFromPercentage(o, p).red >= ColorFromPercentage(o, q).red
  {
    var bar := o.customColorBarRGB;
    var red, green := RedRange(bar), GreenRange(bar);
    assert (q - p) as real * green.max >= 0.0;
    assert RawGreen(p, green) <= RawGreen(q, green);
    assert (q - p) as real * red.max >= 0.0;
    assert RawRed(p, red) >= RawRed(q, red);
  }

  /** Because both channels are scaled against 50, red stays at its maximum up to 50 percent
      and green sits at its maximum from 50 percent on. */
  lemma SaturatesAtFifty(o: Options, percent: int)
    requires RedRange(o.customColorBarRGB).max >= 0.0 && GreenRange(o.customColorBarRGB).max >= 0.0
    ensures percent <= 50 ==> ColorFromPercentage(o, percent).red == RedRange(o.customColorBarRGB).max
    ensures percent >= 50 ==> ColorFromPercentage(o, percent).green == GreenRange(o.customColorBarRGB).max
  {
    var bar := o.customColorBarRGB;
    var red, green := RedRange(bar), GreenRange(bar);
    if percent <= 50 {
      assert (50 - percent) as real * red.max >= 0.0;
      assert RawRed(percent, red) >= red.max;
    }
    if percent >= 50 {
      assert (percent - 50) as real * green.max >= 0.0;
      assert RawGreen(percent, green) >= green.max;
    }
  }

  /** Worked examples with the default colour range. */
  lemma DefaultColors()
    ensures ColorFromPercentage(Defaults, 50) == Rgb(240.0, 240.0, 10.0)
    ensures ColorFromPercentage(Defaults, 0) == Rgb(240.0, 0.0, 10.0)
    ensures ColorFromPercentage(Defaults, 100) == Rgb(0.0, 240.0, 10.0)
    ensures ColorFromPercentage(Defaults, 75) == Rgb(120.0, 240.0, 10.0)
  {
  }
}
