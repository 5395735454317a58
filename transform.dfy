/**
 * `DarkModeEngine.generateDarkColor` of the injected page script: a light
 * colour (luminance above one half) is pulled towards white-on-dark by
 * `255 - 0.15 c` per channel, a dark one is lifted by `1.3 c + 30`, capped at
 * 255. The arithmetic is exact: the factors are the rationals 3/20 and 13/10,
 * and `Math.round` is `floor(x + 1/2)`.
 */
module Transform {
  import opened ColorUtils

  /** `Math.round`: the nearest integer, halves rounded up. */
  function JsRound(x: real): (n: int)
    ensures n as real <= x + 0.5 < n as real + 1.0
  {
    (x + 0.5).Floor
  }

  /** The channel of the light branch, `Math.round(255 - c * 0.15)`, in closed form. */
  function Light(c: int): (d: int)
    ensures d == (5110 - 3 * c) / 20
  {
    var x := 255.0 - c as real * 0.15;
    var q := (5110 - 3 * c) / 20;
    assert 20 * q <= 5110 - 3 * c < 20 * q + 20;
    assert q as real <= x + 0.5 < q as real + 1.0;
    JsRound(x)
  }

  function Min255(n: int): int { if n < 255 then n else 255 }

  /** The channel of the dark branch, `Math.min(255, Math.round(c * 1.3 + 30))`, in closed form. */
  function Dark(c: int): (d: int)
    ensures d == Min255((13 * c + 305) / 10)
  {
    var x := c as real * 1.3 + 30.0;
    var q := (13 * c + 305) / 10;
    assert 10 * q <= 13 * c + 305 < 10 * q + 10;
    assert q as real <= x + 0.5 < q as real + 1.0;
    var rounded := JsRound(x);
    if 255 < rounded then 255 else rounded
  }

  /** A channel in [0, 255] stays in [217, 255] on the light branch. */
  lemma LightBounds(c: int)
    requires 0 <= c <= 255
    ensures 217 <= Light(c) <= 255
  {
  }

  /** The light branch reverses the order of channels (weakly): a brighter input never gives a brighter output. */
  lemma LightNonIncreasing(c1: int, c2: int)
    requires c1 <= c2
    ensures Light(c2) <= Light(c1)
  {
  }

  /**
   * The light branch does not darken every channel: it raises exactly the
   * channels up to 221, so a light grey comes out lighter.
   */
  lemma LightRaisesLowChannels(c: int)
    requires 0 <= c <= 255
    ensures Light(c) > c <==> c <= 221
  {
  }

  /** The dark branch never darkens an in-range channel, lifts every one to at least 30, and stays within 255. */
  lemma DarkBounds(c: int)
    requires 0 <= c <= 255
    ensures c <= Dark(c) && 30 <= Dark(c) <= 255
  {
  }

  /** The dark branch keeps the order of channels (weakly). */
  lemma DarkNonDecreasing(c1: int, c2: int)
    requires c1 <= c2
    ensures Dark(c1) <= Dark(c2)
  {
  }

  /** The luminance above which a colour counts as light. */
  const LightThreshold: real := 0.5

  /**
   * `generateDarkColor`: the branch is chosen by the luminance of the three
   * channels (`pow` is the `Math.pow(_, 2.4)` of `getLuminance`); alpha is
   * passed through.
   */
  function GenerateDarkColor(pow: real -> real, c: Rgba): (d: Rgba)
    ensures d.a == c.a
    ensures Luminance(pow, c.r, c.g, c.b) > LightThreshold ==>
      d.r == (5110 - 3 * c.r) / 20 && d.g == (5110 - 3 * c.g) / 20 && d.b == (5110 - 3 * c.b) / 20
    ensures Luminance(pow, c.r, c.g, c.b) <= LightThreshold ==>
      d.r == Min255((13 * c.r + 305) / 10) && d.g == Min255((13 * c.g + 305) / 10) && d.b == Min255((13 * c.b + 305) / 10)
  {
    if Luminance(pow, c.r, c.g, c.b) > LightThreshold then Rgba(Light(c.r), Light(c.g), Light(c.b), c.a)
    else Rgba(Dark(c.r), Dark(c.g), Dark(c.b), c.a)
  }

  /** Every channel of an in-range colour stays in range, whichever branch is taken. */
  lemma GenerateDarkColorInRange(pow: real -> real, c: Rgba)
    requires 0 <= c.r <= 255 && 0 <= c.g <= 255 && 0 <= c.b <= 255
    ensures var d := GenerateDarkColor(pow, c);
      && 0 <= d.r <= 255 && 0 <= d.g <= 255 && 0 <= d.b <= 255
  {
    LightBounds(c.r);
    LightBounds(c.g);
    LightBounds(c.b);
    DarkBounds(c.r);
    DarkBounds(c.g);
    DarkBounds(c.b);
  }
}
