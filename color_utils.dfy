/**
 * The colour helpers of the injected page script (`ColorUtils` in injected.js):
 * the sentinel check and the regular-expression stage of `parseColor`,
 * `rgbToHex`, `normalize` and `getLuminance`.
 *
 * The host's own colour resolution (a throw-away element whose computed
 * `color` is read back) is a parameter `host`: the model sees only the string
 * the host returns.
 */
module ColorUtils {
  import opened Wrappers
  import opened ColorRegex

  /** The host's colour resolution: a colour expression in, the computed `color` value out. */
  type Host = string -> string

  /** What `parseFloat` gives for a captured alpha text: a number, or NaN. */
  datatype Alpha = Num(value: real) | NaN

  /** The colour record `{r, g, b, a}`. */
  datatype Rgba = Rgba(r: int, g: int, b: int, a: Alpha)

  // ----------------------------------------------------------------------
  // Decimal numerals: parseInt and Number.prototype.toString()
  // ----------------------------------------------------------------------

  /** `parseInt` of a string of decimal digits (the captures are never anything else). */
  function DigitsValue(s: string): nat
    requires AllIn(s, Digits)
  {
    if s == [] then 0 else DigitsValue(s[..|s| - 1]) * 10 + (s[|s| - 1] as int - '0' as int)
  }

  function DecimalDigit(d: nat): char
    requires d < 10
  {
    "0123456789"[d]
  }

  /** `String(n)` for a non-negative integer. */
  function Decimal(n: nat): string
  {
    if n < 10 then [DecimalDigit(n)] else Decimal(n / 10) + [DecimalDigit(n % 10)]
  }

  lemma DecimalDigitValue(d: nat)
    requires d < 10
    ensures IsDigit(DecimalDigit(d)) && DecimalDigit(d) as int - '0' as int == d
  {
    var digits := "0123456789";
    assert digits[d] as int == '0' as int + d;
  }

  /** Appending a digit multiplies the value by ten and adds the digit. */
  lemma DigitsValueSnoc(t: string, c: char)
    requires AllIn(t, Digits) && IsDigit(c)
    ensures AllIn(t + [c], Digits)
    ensures DigitsValue(t + [c]) == DigitsValue(t) * 10 + (c as int - '0' as int)
  {
    var u := t + [c];
    assert u[..|u| - 1] == t;
    forall k | 0 <= k < |u| ensures InClass(u[k], Digits) {
      if k < |t| { assert u[k] == t[k]; }
    }
  }

  /** Printing and reading back a channel is the identity. */
  lemma {:induction false} DecimalRoundTrip(n: nat)
    ensures |Decimal(n)| >= 1 && AllIn(Decimal(n), Digits)
    ensures DigitsValue(Decimal(n)) == n
  {
    DecimalDigitValue(n % 10);
    if n < 10 {
      assert DigitsValue([DecimalDigit(n)]) == DigitsValue([DecimalDigit(n)][..0]) * 10 + n;
    } else {
      DecimalRoundTrip(n / 10);
      DigitsValueSnoc(Decimal(n / 10), DecimalDigit(n % 10));
    }
  }

  // ----------------------------------------------------------------------
  // parseFloat on the alpha capture ([\d.]+)
  // ----------------------------------------------------------------------

  function Pow10(n: nat): (p: nat)
    ensures p >= 1
  {
    if n == 0 then 1 else 10 * Pow10(n - 1)
  }

  /**
   * `parseFloat` of a text made of digits and dots: the longest prefix
   * `digits [ "." digits ]` with at least one digit, read exactly; NaN when
   * there is no such prefix. (The text has no sign, space or exponent.)
   */
  function ParseFloat(t: string): (v: Alpha)
    ensures v == NaN <==> (|t| == 0 || (!IsDigit(t[0]) && !(t[0] == '.' && |t| > 1 && IsDigit(t[1]))))
  {
    var ie := Span(t, 0, Digits);
    SpanIsLongestRun(t, 0, Digits);
    if ie < |t| && t[ie] == '.' then
      var fe := Span(t, ie + 1, Digits);
      SpanIsLongestRun(t, ie + 1, Digits);
      if ie == 0 && fe == ie + 1 then NaN
      else Num(DigitsValue(t[..ie]) as real + DigitsValue(t[ie + 1..fe]) as real / Pow10(fe - ie - 1) as real)
    else if ie == 0 then NaN
    else Num(DigitsValue(t[..ie]) as real)
  }

  /** `parseFloat` of a digit run is the integer it denotes. */
  lemma ParseFloatInteger(d: string)
    requires |d| > 0 && AllIn(d, Digits)
    ensures ParseFloat(d) == Num(DigitsValue(d) as real)
  {
    SpanAt(d, 0, |d|, Digits);
    assert d[..|d|] == d;
  }

  /** `parseFloat` once the integer run is known to stop at a dot at `ie` and the fraction run at `fe`. */
  lemma ParseFloatDotAt(t: string, ie: nat, fe: nat)
    requires ie < |t| && t[ie] == '.' && Span(t, 0, Digits) == ie && Span(t, ie + 1, Digits) == fe && fe > 1
    ensures AllIn(t[..ie], Digits) && AllIn(t[ie + 1..fe], Digits)
    ensures ParseFloat(t) == Num(DigitsValue(t[..ie]) as real + DigitsValue(t[ie + 1..fe]) as real / Pow10(fe - ie - 1) as real)
  {
    SpanIsLongestRun(t, 0, Digits);
    SpanIsLongestRun(t, ie + 1, Digits);
  }

  /**
   * `parseFloat` of `d.f`, either run possibly empty but not both, is
   * `d + f / 10^|f|`; whatever follows from a second dot on is ignored.
   */
  lemma ParseFloatFraction(d: string, f: string, rest: string)
    requires AllIn(d, Digits) && AllIn(f, Digits) && |d| + |f| > 0
    requires rest == [] || rest[0] == '.'
    ensures ParseFloat(d + "." + f + rest) == Num(DigitsValue(d) as real + DigitsValue(f) as real / Pow10(|f|) as real)
  {
    var t := d + "." + f + rest;
    var ie, fe := |d|, |d| + 1 + |f|;
    DotSplit(d, f, rest);
    forall k | 0 <= k < ie ensures InClass(t[k], Digits) {
      assert t[k] == t[..ie][k];
    }
    SpanAt(t, 0, ie, Digits);
    forall k | ie + 1 <= k < fe ensures InClass(t[k], Digits) {
      assert t[k] == t[ie + 1..fe][k - ie - 1];
    }
    assert fe < |t| ==> t[fe] == t[fe..][0];
    SpanAt(t, ie + 1, |f|, Digits);
    ParseFloatDotAt(t, ie, fe);
  }

  /** Where the parts of `d.f` followed by `rest` sit. */
  lemma DotSplit(d: string, f: string, rest: string)
    ensures var t, ie := d + "." + f + rest, |d|;
      && |t| == |d| + 1 + |f| + |rest| && t[..ie] == d && t[ie] == '.'
      && t[ie + 1..ie + 1 + |f|] == f && t[ie + 1 + |f|..] == rest
  {
  }

  /** The regular-expression stage of `parseColor`: from a computed value to a colour record. */
  function ParseComputed(computed: string): (c: Option<Rgba>)
    ensures c.Some? ==> c.value.r >= 0 && c.value.g >= 0 && c.value.b >= 0
    ensures c.Some? <==> Search(computed, 0).Some?
  {
    var found := Search(computed, 0);
    if found.None? then None
    else
      var m := found.value;
      MatchAtWellFormed(computed, m.start);
      Some(Rgba(DigitsValue(m.red), DigitsValue(m.green), DigitsValue(m.blue),
                if m.alpha.Some? then ParseFloat(m.alpha.value) else Num(1.0)))
  }

  /** A computed value gives a record exactly when the expression matches somewhere in it. */
  lemma ParseComputedFinds(computed: string)
    ensures ParseComputed(computed).Some? <==> exists p: nat :: p <= |computed| && MatchAt(computed, p).Some?
  {
    if ParseComputed(computed).Some? {
      var p := Search(computed, 0).value.start;
      assert MatchAt(computed, p).Some?;
    }
    if exists p: nat :: p <= |computed| && MatchAt(computed, p).Some? {
      var p: nat :| p <= |computed| && MatchAt(computed, p).Some?;
      SearchFinds(computed, 0, p);
    }
  }

  /** The values `parseColor` answers `null` for without asking the host. */
  predicate IsSentinel(color: string) {
    color == "" || color == "transparent" || color == "none" || color == "inherit" || color == "initial"
  }

  /** `ColorUtils.parseColor`. */
  function ParseColor(host: Host, color: string): (c: Option<Rgba>)
    ensures IsSentinel(color) ==> c == None
    ensures !IsSentinel(color) ==> c == ParseComputed(host(color))
  {
    if IsSentinel(color) then None else ParseComputed(host(color))
  }

  // ----------------------------------------------------------------------
  // rgbToHex and normalize
  // ----------------------------------------------------------------------

  function HexDigit(d: nat): char
    requires d < 16
  {
    "0123456789abcdef"[d]
  }

  /** `n.toString(16)`: lower-case hexadecimal without leading zeros. */
  function ToHex(n: nat): string
  {
    if n < 16 then [HexDigit(n)] else ToHex(n / 16) + [HexDigit(n % 16)]
  }

  /** The per-channel step of `rgbToHex`: one digit gets a leading `0`. */
  function HexByte(n: nat): string
  {
    var h := ToHex(n);
    if |h| == 1 then "0" + h else h
  }

  /** `ColorUtils.rgbToHex` (`Math.round` is the identity on the integer channels it is given). */
  function RgbToHex(r: nat, g: nat, b: nat): string
  {
    "#" + HexByte(r) + HexByte(g) + HexByte(b)
  }

  /** ASCII `toLowerCase`. */
  function ToLower(s: string): (t: string)
    ensures |t| == |s|
    ensures forall k :: 0 <= k < |s| ==> t[k] == (if 'A' <= s[k] <= 'Z' then (s[k] as int + 32) as char else s[k])
  {
    if s == [] then []
    else [if 'A' <= s[0] <= 'Z' then (s[0] as int + 32) as char else s[0]] + ToLower(s[1..])
  }

  /** `ColorUtils.normalize`. */
  function Normalize(host: Host, color: string): Option<string>
  {
    var c := ParseColor(host, color);
    if c.None? then None else Some(ToLower(RgbToHex(c.value.r, c.value.g, c.value.b)))
  }

  predicate IsLowerHexDigit(c: char) { '0' <= c <= '9' || 'a' <= c <= 'f' }

  /** The value of a hexadecimal digit of either case. */
  function HexValue(c: char): Option<nat>
  {
    if '0' <= c <= '9' then Some(c as int - '0' as int)
    else if 'a' <= c <= 'f' then Some(c as int - 'a' as int + 10)
    else if 'A' <= c <= 'F' then Some(c as int - 'A' as int + 10)
    else None
  }

  /** The value of a two-digit hexadecimal number, high digit first. */
  function HexPair(hi: char, lo: char): Option<nat>
  {
    var h := HexValue(hi);
    var l := HexValue(lo);
    if h.None? || l.None? then None else Some(h.value * 16 + l.value)
  }

  /** Reading a `#rrggbb` string back into its three channels. */
  function DecodeHex(h: string): Option<(nat, nat, nat)>
  {
    if |h| != 7 || h[0] != '#' then None
    else
      var r := HexPair(h[1], h[2]);
      var g := HexPair(h[3], h[4]);
      var b := HexPair(h[5], h[6]);
      if r.None? || g.None? || b.None? then None else Some((r.value, g.value, b.value))
  }

  /** The canonical seven-character form. */
  predicate IsCanonicalHex(h: string) {
    |h| == 7 && h[0] == '#' && forall k :: 1 <= k < 7 ==> IsLowerHexDigit(h[k])
  }

  lemma HexDigitFacts(d: nat)
    requires d < 16
    ensures IsLowerHexDigit(HexDigit(d)) && HexValue(HexDigit(d)) == Some(d)
  {
    var digits := "0123456789abcdef";
    assert digits[d] == HexDigit(d);
    if d < 10 {
      assert digits[d] as int == '0' as int + d;
    } else {
      assert digits[d] as int == 'a' as int + d - 10;
    }
  }

  /** A channel in [0, 255] becomes exactly two hex digits, high nibble first. */
  lemma HexByteOfChannel(n: nat)
    requires n <= 255
    ensures HexByte(n) == [HexDigit(n / 16), HexDigit(n % 16)]
    ensures IsLowerHexDigit(HexDigit(n / 16)) && IsLowerHexDigit(HexDigit(n % 16))
    ensures HexPair(HexDigit(n / 16), HexDigit(n % 16)) == Some(n)
  {
    HexDigitFacts(n / 16);
    HexDigitFacts(n % 16);
    if n < 16 {
      assert ToHex(n) == [HexDigit(n)];
      assert HexDigit(0) == '0';
    } else {
      assert ToHex(n / 16) == [HexDigit(n / 16)];
    }
  }

  /** Every character `toString(16)` produces is a lower-case hex digit. */
  lemma {:induction false} ToHexLower(n: nat)
    ensures forall k :: 0 <= k < |ToHex(n)| ==> IsLowerHexDigit(ToHex(n)[k])
  {
    HexDigitFacts(n % 16);
    if n >= 16 {
      ToHexLower(n / 16);
      var t := ToHex(n / 16);
      forall k | 0 <= k < |ToHex(n)| ensures IsLowerHexDigit(ToHex(n)[k]) {
        if k < |t| { assert ToHex(n)[k] == t[k]; }
      }
    }
  }

  /** `toLowerCase` leaves a string without upper-case ASCII letters unchanged. */
  lemma ToLowerNoUpper(s: string)
    requires forall k :: 0 <= k < |s| ==> !('A' <= s[k] <= 'Z')
    ensures ToLower(s) == s
  {
  }

  /** `toLowerCase` works character by character, so it distributes over concatenation. */
  lemma ToLowerAppend(a: string, b: string)
    ensures ToLower(a + b) == ToLower(a) + ToLower(b)
  {
    assert forall k :: 0 <= k < |a + b| ==> ToLower(a + b)[k] == (ToLower(a) + ToLower(b))[k];
  }

  /** `toLowerCase` leaves each formatted channel unchanged. */
  lemma HexByteIsLowerCase(n: nat)
    ensures ToLower(HexByte(n)) == HexByte(n)
  {
    ToHexLower(n);
    var h := ToHex(n);
    if |h| == 1 {
      forall k | 0 <= k < |"0" + h| ensures !('A' <= ("0" + h)[k] <= 'Z') {
        if k > 0 { assert ("0" + h)[k] == h[k - 1]; }
      }
      ToLowerNoUpper("0" + h);
    } else {
      ToLowerNoUpper(h);
    }
  }

  /** For every channel value, the `toLowerCase` in `normalize` changes nothing. */
  lemma RgbToHexIsLowerCase(r: nat, g: nat, b: nat)
    ensures ToLower(RgbToHex(r, g, b)) == RgbToHex(r, g, b)
  {
    HexByteIsLowerCase(r);
    HexByteIsLowerCase(g);
    HexByteIsLowerCase(b);
    ToLowerAppend("#" + HexByte(r) + HexByte(g), HexByte(b));
    ToLowerAppend("#" + HexByte(r), HexByte(g));
    ToLowerAppend("#", HexByte(r));
    assert ToLower("#") == "#";
  }

  /** The seven characters of `rgbToHex` for channels in [0, 255]. */
  lemma RgbToHexChars(r: nat, g: nat, b: nat)
    requires r <= 255 && g <= 255 && b <= 255
    ensures RgbToHex(r, g, b) == ['#', HexDigit(r / 16), HexDigit(r % 16), HexDigit(g / 16), HexDigit(g % 16), HexDigit(b / 16), HexDigit(b % 16)]
  {
    HexByteOfChannel(r);
    HexByteOfChannel(g);
    HexByteOfChannel(b);
  }

  /** Channels in [0, 255] give the canonical `#rrggbb` form, and it decodes back to them. */
  lemma RgbToHexCanonical(r: nat, g: nat, b: nat)
    requires r <= 255 && g <= 255 && b <= 255
    ensures IsCanonicalHex(RgbToHex(r, g, b))
    ensures DecodeHex(RgbToHex(r, g, b)) == Some((r, g, b))
  {
    RgbToHexChars(r, g, b);
    HexByteOfChannel(r);
    HexByteOfChannel(g);
    HexByteOfChannel(b);
  }

  /** Whenever `normalize` succeeds on an in-range colour, its result is the canonical form of the parsed channels. */
  lemma NormalizeCanonical(host: Host, color: string)
    requires ParseColor(host, color).Some?
    requires var c := ParseColor(host, color).value; c.r <= 255 && c.g <= 255 && c.b <= 255
    ensures var c := ParseColor(host, color).value;
      && Normalize(host, color) == Some(RgbToHex(c.r, c.g, c.b))
      && IsCanonicalHex(Normalize(host, color).value)
      && DecodeHex(Normalize(host, color).value) == Some((c.r, c.g, c.b))
  {
    var c := ParseColor(host, color).value;
    RgbToHexIsLowerCase(c.r, c.g, c.b);
    RgbToHexCanonical(c.r, c.g, c.b);
  }

  // ----------------------------------------------------------------------
  // What the regular expression does with the host's serialisations
  // ----------------------------------------------------------------------

  /** The computed-value serialisation `rgb(r, g, b)` of an opaque colour. */
  function SerializeRgb(r: nat, g: nat, b: nat): string
  {
    "rgb(" + Decimal(r) + ", " + Decimal(g) + ", " + Decimal(b) + ")"
  }

  /** The serialisation `rgba(r, g, b, a)` of a colour with an alpha text. */
  function SerializeRgba(r: nat, g: nat, b: nat, alpha: string): string
  {
    "rgba(" + Decimal(r) + ", " + Decimal(g) + ", " + Decimal(b) + ", " + alpha + ")"
  }

  /** Reading back the serialisation `rgb(r, g, b)` gives the channels, with alpha 1. */
  lemma ParseSerializedRgb(r: nat, g: nat, b: nat)
    ensures ParseComputed(SerializeRgb(r, g, b)) == Some(Rgba(r, g, b, Num(1.0)))
  {
    DecimalRoundTrip(r);
    DecimalRoundTrip(g);
    DecimalRoundTrip(b);
    var s := SerializeRgb(r, g, b);
    assert s[0..] == s;
    MatchRgbFields(s, 0, Decimal(r), Decimal(g), Decimal(b));
  }

  /** Reading back `rgba(r, g, b, alpha)` gives the channels and `parseFloat(alpha)`. */
  lemma ParseSerializedRgba(r: nat, g: nat, b: nat, alpha: string)
    requires |alpha| > 0 && AllIn(alpha, DigitsOrDots)
    ensures ParseComputed(SerializeRgba(r, g, b, alpha)) == Some(Rgba(r, g, b, ParseFloat(alpha)))
  {
    DecimalRoundTrip(r);
    DecimalRoundTrip(g);
    DecimalRoundTrip(b);
    var s := SerializeRgba(r, g, b, alpha);
    assert s[0..] == s;
    MatchRgbaFields(s, 0, Decimal(r), Decimal(g), Decimal(b), alpha);
  }

  /** `parseColor` rejects a value whose computed form contains no `rgb`. */
  lemma ParseColorRejectsNonRgb(host: Host, color: string)
    requires forall p: nat :: !RgbAt(host(color), p)
    ensures ParseColor(host, color) == None
  {
    SearchNeedsRgb(host(color), 0);
  }

  /** The host resolves every canonical hex colour to its `rgb(r, g, b)` serialisation, as browsers do. */
  ghost predicate ResolvesHex(host: Host) {
    forall r: nat, g: nat, b: nat :: r <= 255 && g <= 255 && b <= 255 ==> host(RgbToHex(r, g, b)) == SerializeRgb(r, g, b)
  }

  /** `normalize` is idempotent on in-range colours, for a host that resolves hex colours as browsers do. */
  lemma NormalizeIdempotent(host: Host, color: string)
    requires ResolvesHex(host)
    requires ParseColor(host, color).Some?
    requires var c := ParseColor(host, color).value; c.r <= 255 && c.g <= 255 && c.b <= 255
    ensures Normalize(host, color).Some?
    ensures Normalize(host, Normalize(host, color).value) == Normalize(host, color)
  {
    var c := ParseColor(host, color).value;
    NormalizeCanonical(host, color);
    var h := RgbToHex(c.r, c.g, c.b);
    assert h[1] != 'n' && h[1] != 'r' && h[1] != 'o' && h[1] != 'i';
    assert !IsSentinel(h);
    assert host(h) == SerializeRgb(c.r, c.g, c.b);
    ParseSerializedRgb(c.r, c.g, c.b);
    RgbToHexIsLowerCase(c.r, c.g, c.b);
  }

  // ----------------------------------------------------------------------
  // getLuminance
  // ----------------------------------------------------------------------

  /**
   * The channel linearisation of `getLuminance`. `pow` stands for
   * `x => Math.pow(x, 2.4)`, which the model does not compute.
   */
  function Linear(pow: real -> real, c: int): real
  {
    var x := c as real / 255.0;
    if x <= 0.03928 then x / 12.92 else pow((x + 0.055) / 1.055)
  }

  /** `ColorUtils.getLuminance`: the weighted sum of the linearised channels. */
  function Luminance(pow: real -> real, r: int, g: int, b: int): real
  {
    0.2126 * Linear(pow, r) + 0.7152 * Linear(pow, g) + 0.0722 * Linear(pow, b)
  }

  /** White has luminance exactly 1 whenever `pow(1) == 1`, and black has luminance 0. */
  lemma LuminanceExtremes(pow: real -> real)
    requires pow(1.0) == 1.0
    ensures Luminance(pow, 255, 255, 255) == 1.0
    ensures Luminance(pow, 0, 0, 0) == 0.0
  {
    assert Linear(pow, 255) == 1.0;
    assert Linear(pow, 0) == 0.0;
  }
}
