/**
 * The regular expression that `ColorUtils.parseColor` applies to a computed
 * colour value,
 *
 *     /rgba?\((\d+),\s*(\d+),\s*(\d+)(?:,\s*([\d.]+))?\)/
 *
 * written as data, and a backtracking matcher for the constructs it uses,
 * with the ECMAScript semantics: a greedy quantifier takes the longest run
 * first and gives characters back one at a time when the rest fails; an
 * optional group is tried before it is skipped, and the captures of a
 * skipped group are `undefined`; the expression is not anchored, so `match`
 * reports the leftmost position where it succeeds.
 */
module ColorRegex {
  import opened Wrappers

  // ----------------------------------------------------------------------
  // Character classes
  // ----------------------------------------------------------------------

  /** `\d`: an ASCII decimal digit. */
  predicate IsDigit(c: char) { '0' <= c <= '9' }

  /** `\s` of ECMAScript regular expressions: the WhiteSpace and LineTerminator code points. */
  predicate IsSpace(c: char) {
    || c == '\t' || c == '\n' || c == '\U{B}' || c == '\U{C}' || c == '\r' || c == ' '
    || c == '\U{A0}' || c == '\U{1680}' || ('\U{2000}' <= c <= '\U{200A}')
    || c == '\U{2028}' || c == '\U{2029}' || c == '\U{202F}' || c == '\U{205F}'
    || c == '\U{3000}' || c == '\U{FEFF}'
  }

  /** The classes the expression uses: `\d`, `\s` and `[\d.]`. */
  datatype CharClass = Digits | Spaces | DigitsOrDots

  predicate InClass(c: char, cls: CharClass) {
    match cls
    case Digits => IsDigit(c)
    case Spaces => IsSpace(c)
    case DigitsOrDots => IsDigit(c) || c == '.'
  }

  /** Every character of `t` is in `cls`. */
  predicate AllIn(t: string, cls: CharClass) { forall k :: 0 <= k < |t| ==> InClass(t[k], cls) }

  /** The end of the longest run of `cls` characters starting at `i`. */
  function Span(s: string, i: nat, cls: CharClass): (e: nat)
    requires i <= |s|
    ensures i <= e <= |s|
    decreases |s| - i
  {
    if i < |s| && InClass(s[i], cls) then Span(s, i + 1, cls) else i
  }

  /** `Span` stops at the first character outside the class. */
  lemma {:induction false} SpanIsLongestRun(s: string, i: nat, cls: CharClass)
    requires i <= |s|
    ensures forall k :: i <= k < Span(s, i, cls) ==> InClass(s[k], cls)
    ensures Span(s, i, cls) == |s| || !InClass(s[Span(s, i, cls)], cls)
    decreases |s| - i
  {
    if i < |s| && InClass(s[i], cls) {
      SpanIsLongestRun(s, i + 1, cls);
    }
  }

  /** A run that is known to stop at `i + n` is what `Span` finds. */
  lemma {:induction false} SpanAt(s: string, i: nat, n: nat, cls: CharClass)
    requires i + n <= |s|
    requires forall k :: i <= k < i + n ==> InClass(s[k], cls)
    requires i + n == |s| || !InClass(s[i + n], cls)
    ensures Span(s, i, cls) == i + n
    decreases n
  {
    if n > 0 {
      SpanAt(s, i + 1, n - 1, cls);
    }
  }

  // ----------------------------------------------------------------------
  // Patterns and the backtracking matcher
  // ----------------------------------------------------------------------

  /** A pattern, each construct followed by the rest of the pattern. */
  datatype Pattern =
    | Empty
    | Char(c: char, next: Pattern)                  // the literal character c
    | OptionalChar(c: char, next: Pattern)          // c?
    | Group(cls: CharClass, next: Pattern)          // (cls+), a capture group
    | Many(cls: CharClass, next: Pattern)           // cls*
    | OptionalGroup(body: Pattern, next: Pattern)   // (?:body)?

  function Size(p: Pattern): nat
  {
    match p
    case Empty => 0
    case Char(_, next) => 2 + Size(next)
    case OptionalChar(_, next) => 2 + Size(next)
    case Group(_, next) => 2 + Size(next)
    case Many(_, next) => 2 + Size(next)
    case OptionalGroup(body, next) => 2 + Size(body) + Size(next)
  }

  /** `body` followed by `next`. */
  function Append(body: Pattern, next: Pattern): (r: Pattern)
    ensures Size(r) == Size(body) + Size(next)
  {
    match body
    case Empty => next
    case Char(c, rest) => Char(c, Append(rest, next))
    case OptionalChar(c, rest) => OptionalChar(c, Append(rest, next))
    case Group(cls, rest) => Group(cls, Append(rest, next))
    case Many(cls, rest) => Many(cls, Append(rest, next))
    case OptionalGroup(b, rest) => OptionalGroup(b, Append(rest, next))
  }

  /** A capture group of a pattern: its class, and whether every match sets it. */
  datatype Slot = Slot(cls: CharClass, required: bool)

  /** The capture groups of `p`, in the order of their opening parentheses. */
  function Slots(p: Pattern): seq<Slot>
  {
    match p
    case Empty => []
    case Char(_, next) => Slots(next)
    case OptionalChar(_, next) => Slots(next)
    case Group(cls, next) => [Slot(cls, true)] + Slots(next)
    case Many(_, next) => Slots(next)
    case OptionalGroup(body, next) => Optional(Slots(body)) + Slots(next)
  }

  /** The groups inside an optional group may be left unset. */
  function Optional(slots: seq<Slot>): (r: seq<Slot>)
    ensures |r| == |slots|
  {
    if slots == [] then [] else [Slot(slots[0].cls, false)] + Optional(slots[1..])
  }

  /** `n` unset captures (`undefined`). */
  function Nones(n: nat): (r: seq<Option<string>>)
    ensures |r| == n
  {
    if n == 0 then [] else [None] + Nones(n - 1)
  }

  /** Where a successful match ends, and the captures so far. */
  datatype Outcome = Outcome(end: nat, captures: seq<Option<string>>)

  /** Matching `p` against `s` from position `k`, with the captures `caps` made before it. */
  function Run(s: string, k: nat, p: Pattern, caps: seq<Option<string>>): Option<Outcome>
    requires k <= |s|
    decreases Size(p), 0
  {
    match p
    case Empty => Some(Outcome(k, caps))
    case Char(c, next) =>
      if k < |s| && s[k] == c then Run(s, k + 1, next, caps) else None
    case OptionalChar(c, next) =>
      var taken := if k < |s| && s[k] == c then Run(s, k + 1, next, caps) else None;
      if taken.Some? then taken else Run(s, k, next, caps)
    case Group(cls, next) =>
      var e := Span(s, k, cls);
      if e == k then None else Backtrack(s, k, e, 1, true, next, caps)
    case Many(cls, next) =>
      Backtrack(s, k, Span(s, k, cls), 0, false, next, caps)
    case OptionalGroup(body, next) =>
      var taken := Run(s, k, Append(body, next), caps);
      if taken.Some? then taken else Run(s, k, next, caps + Nones(|Slots(body)|))
  }

  /**
   * A greedy run of length at least `min` from `start`, tried at the end `e`
   * first and then one character shorter at a time; `capture` says whether
   * the run is a capture group.
   */
  function Backtrack(s: string, start: nat, e: nat, min: nat, capture: bool, next: Pattern,
                     caps: seq<Option<string>>): Option<Outcome>
    requires start + min <= e <= |s|
    decreases Size(next) + 1, e
  {
    var r := Run(s, e, next, if capture then caps + [Some(s[start..e])] else caps);
    if r.Some? || e == start + min then r
    else Backtrack(s, start, e - 1, min, capture, next, caps)
  }

  // ----------------------------------------------------------------------
  // What a successful match captures
  // ----------------------------------------------------------------------

  /** A capture agrees with its group: a nonempty run of the group's class, set if the group is required. */
  predicate Fits(c: Option<string>, slot: Slot) {
    && (c.Some? ==> |c.value| > 0 && AllIn(c.value, slot.cls))
    && (slot.required ==> c.Some?)
  }

  predicate FitAll(cs: seq<Option<string>>, slots: seq<Slot>) {
    |cs| == |slots| && forall j :: 0 <= j < |cs| ==> Fits(cs[j], slots[j])
  }

  lemma FitAllAppend(a: seq<Option<string>>, b: seq<Option<string>>, x: seq<Slot>, y: seq<Slot>)
    requires FitAll(a, x) && FitAll(b, y)
    ensures FitAll(a + b, x + y)
  {
    forall j | 0 <= j < |a + b| ensures Fits((a + b)[j], (x + y)[j]) {
      if j < |a| {
        assert (a + b)[j] == a[j] && (x + y)[j] == x[j];
      } else {
        assert (a + b)[j] == b[j - |a|] && (x + y)[j] == y[j - |x|];
      }
    }
  }

  lemma {:induction false} FitOptional(cs: seq<Option<string>>, slots: seq<Slot>)
    requires FitAll(cs, slots)
    ensures FitAll(cs, Optional(slots))
    decreases |slots|
  {
    if slots != [] {
      assert FitAll(cs[1..], slots[1..]) by {
        forall j | 0 <= j < |cs[1..]| ensures Fits(cs[1..][j], slots[1..][j]) {
          assert cs[1..][j] == cs[j + 1] && slots[1..][j] == slots[j + 1];
        }
      }
      FitOptional(cs[1..], slots[1..]);
      assert cs == [cs[0]] + cs[1..];
      FitAllAppend([cs[0]], cs[1..], [Slot(slots[0].cls, false)], Optional(slots[1..]));
    }
  }

  lemma {:induction false} NonesFitOptional(slots: seq<Slot>)
    ensures FitAll(Nones(|slots|), Optional(slots))
    decreases |slots|
  {
    if slots != [] {
      NonesFitOptional(slots[1..]);
      FitAllAppend([None], Nones(|slots| - 1), [Slot(slots[0].cls, false)], Optional(slots[1..]));
    }
  }

  lemma {:induction false} SlotsAppend(body: Pattern, next: Pattern)
    ensures Slots(Append(body, next)) == Slots(body) + Slots(next)
  {
    match body
    case Empty =>
    case Char(_, rest) => SlotsAppend(rest, next);
    case OptionalChar(_, rest) => SlotsAppend(rest, next);
    case Group(cls, rest) =>
      var head := [Slot(cls, true)];
      calc {
        Slots(Append(body, next));
        head + Slots(Append(rest, next));
        { SlotsAppend(rest, next); }
        head + (Slots(rest) + Slots(next));
        (head + Slots(rest)) + Slots(next);
      }
    case Many(_, rest) => SlotsAppend(rest, next);
    case OptionalGroup(b, rest) =>
      var head := Optional(Slots(b));
      calc {
        Slots(Append(body, next));
        head + Slots(Append(rest, next));
        { SlotsAppend(rest, next); }
        head + (Slots(rest) + Slots(next));
        (head + Slots(rest)) + Slots(next);
      }
  }

  /**
   * A successful match ends inside the text, keeps the earlier captures and
   * adds one capture per group of the pattern, each of which fits its group.
   */
  lemma {:induction false} RunCaptures(s: string, k: nat, p: Pattern, caps: seq<Option<string>>)
    requires k <= |s| && Run(s, k, p, caps).Some?
    ensures var o := Run(s, k, p, caps).value;
      && k <= o.end <= |s| && |caps| <= |o.captures| && o.captures[..|caps|] == caps
      && FitAll(o.captures[|caps|..], Slots(p))
    decreases Size(p), 0
  {
    var o := Run(s, k, p, caps).value;
    match p
    case Empty =>
      assert o.captures[|caps|..] == [];
    case Char(c, next) =>
      RunCaptures(s, k + 1, next, caps);
    case OptionalChar(c, next) =>
      if k < |s| && s[k] == c && Run(s, k + 1, next, caps).Some? {
        RunCaptures(s, k + 1, next, caps);
      } else {
        RunCaptures(s, k, next, caps);
      }
    case Group(cls, next) =>
      SpanIsLongestRun(s, k, cls);
      BacktrackCaptures(s, k, Span(s, k, cls), 1, true, cls, next, caps);
    case Many(cls, next) =>
      SpanIsLongestRun(s, k, cls);
      BacktrackCaptures(s, k, Span(s, k, cls), 0, false, cls, next, caps);
    case OptionalGroup(body, next) =>
      SlotsAppend(body, next);
      if Run(s, k, Append(body, next), caps).Some? {
        RunCaptures(s, k, Append(body, next), caps);
        TakenFits(o.captures[|caps|..], Slots(body), Slots(next));
      } else {
        RunCaptures(s, k, next, caps + Nones(|Slots(body)|));
        SkippedFits(caps, o.captures, Slots(body), Slots(next));
      }
  }

  /** Captures of a taken optional group fit the group's slots made optional. */
  lemma TakenFits(added: seq<Option<string>>, body: seq<Slot>, next: seq<Slot>)
    requires FitAll(added, body + next)
    ensures FitAll(added, Optional(body) + next)
  {
    var n := |body|;
    assert added == added[..n] + added[n..];
    assert FitAll(added[..n], body) by {
      forall j | 0 <= j < n ensures Fits(added[..n][j], body[j]) {
        assert added[..n][j] == added[j] && body[j] == (body + next)[j];
      }
    }
    assert FitAll(added[n..], next) by {
      forall j | 0 <= j < |added| - n ensures Fits(added[n..][j], next[j]) {
        assert added[n..][j] == added[n + j] && next[j] == (body + next)[n + j];
      }
    }
    FitOptional(added[..n], body);
    FitAllAppend(added[..n], added[n..], Optional(body), next);
  }

  /** Captures after a skipped optional group: one `None` per slot of the group, then the rest. */
  lemma SkippedFits(caps: seq<Option<string>>, out: seq<Option<string>>, body: seq<Slot>, next: seq<Slot>)
    requires |caps + Nones(|body|)| <= |out| && out[..|caps + Nones(|body|)|] == caps + Nones(|body|)
    requires FitAll(out[|caps + Nones(|body|)|..], next)
    ensures |caps| <= |out| && out[..|caps|] == caps && FitAll(out[|caps|..], Optional(body) + next)
  {
    var before := caps + Nones(|body|);
    var later := out[|before|..];
    assert out[..|caps|] == before[..|caps|] == caps;
    assert out[|caps|..] == Nones(|body|) + later by {
      assert out[|caps|..|before|] == before[|caps|..] == Nones(|body|);
    }
    NonesFitOptional(body);
    FitAllAppend(Nones(|body|), later, Optional(body), next);
  }

  lemma {:induction false} BacktrackCaptures(s: string, start: nat, e: nat, min: nat, capture: bool,
                                              cls: CharClass, next: Pattern, caps: seq<Option<string>>)
    requires start + min <= e <= |s| && Backtrack(s, start, e, min, capture, next, caps).Some?
    requires capture ==> min >= 1
    requires forall j :: start <= j < e ==> InClass(s[j], cls)
    ensures var o := Backtrack(s, start, e, min, capture, next, caps).value;
      && start <= o.end <= |s| && |caps| <= |o.captures| && o.captures[..|caps|] == caps
      && FitAll(o.captures[|caps|..], if capture then [Slot(cls, true)] + Slots(next) else Slots(next))
    decreases Size(next) + 1, e
  {
    var before := if capture then caps + [Some(s[start..e])] else caps;
    var r := Run(s, e, next, before);
    if r.Some? {
      RunCaptures(s, e, next, before);
      var o := r.value;
      var later := o.captures[|before|..];
      assert o.captures[..|caps|] == before[..|caps|] == caps;
      if capture {
        var t := s[start..e];
        assert AllIn(t, cls) by {
          forall j | 0 <= j < |t| ensures InClass(t[j], cls) {
            assert t[j] == s[start + j];
          }
        }
        assert o.captures[|caps|..] == [Some(t)] + later by {
          assert o.captures[|caps|..|before|] == before[|caps|..] == [Some(t)];
        }
        FitAllAppend([Some(t)], later, [Slot(cls, true)], Slots(next));
      }
    } else {
      BacktrackCaptures(s, start, e - 1, min, capture, cls, next, caps);
    }
  }

  // ----------------------------------------------------------------------
  // Steps of the matcher over a known text
  // ----------------------------------------------------------------------

  lemma RunChar(s: string, k: nat, c: char, next: Pattern, caps: seq<Option<string>>)
    requires k < |s| && s[k] == c
    ensures Run(s, k, Char(c, next), caps) == Run(s, k + 1, next, caps)
  {
  }

  lemma RunOptionalCharAbsent(s: string, k: nat, c: char, next: Pattern, caps: seq<Option<string>>)
    requires k < |s| && s[k] != c
    ensures Run(s, k, OptionalChar(c, next), caps) == Run(s, k, next, caps)
  {
  }

  lemma RunOptionalCharPresent(s: string, k: nat, c: char, next: Pattern, caps: seq<Option<string>>)
    requires k < |s| && s[k] == c && Run(s, k + 1, next, caps).Some?
    ensures Run(s, k, OptionalChar(c, next), caps) == Run(s, k + 1, next, caps)
  {
  }

  /** A maximal run `s[k..e]` of the group's class, after which the rest matches. */
  lemma RunGroup(s: string, k: nat, e: nat, cls: CharClass, next: Pattern, caps: seq<Option<string>>)
    requires k < e <= |s|
    requires forall j :: k <= j < e ==> InClass(s[j], cls)
    requires e == |s| || !InClass(s[e], cls)
    requires Run(s, e, next, caps + [Some(s[k..e])]).Some?
    ensures Run(s, k, Group(cls, next), caps) == Run(s, e, next, caps + [Some(s[k..e])])
  {
    SpanAt(s, k, e - k, cls);
  }

  /** A maximal run `s[k..e]` of the class, after which the rest matches. */
  lemma RunMany(s: string, k: nat, e: nat, cls: CharClass, next: Pattern, caps: seq<Option<string>>)
    requires k <= e <= |s|
    requires forall j :: k <= j < e ==> InClass(s[j], cls)
    requires e == |s| || !InClass(s[e], cls)
    requires Run(s, e, next, caps).Some?
    ensures Run(s, k, Many(cls, next), caps) == Run(s, e, next, caps)
  {
    SpanAt(s, k, e - k, cls);
  }

  lemma RunOptionalGroupTaken(s: string, k: nat, body: Pattern, next: Pattern, caps: seq<Option<string>>)
    requires k <= |s| && Run(s, k, Append(body, next), caps).Some?
    ensures Run(s, k, OptionalGroup(body, next), caps) == Run(s, k, Append(body, next), caps)
  {
  }

  lemma RunOptionalGroupSkipped(s: string, k: nat, body: Pattern, next: Pattern, caps: seq<Option<string>>)
    requires k <= |s| && Run(s, k, Append(body, next), caps).None?
    ensures Run(s, k, OptionalGroup(body, next), caps) == Run(s, k, next, caps + Nones(|Slots(body)|))
  {
  }

  // ----------------------------------------------------------------------
  // The expression of parseColor
  // ----------------------------------------------------------------------

  /** `,\s*` followed by `next`. */
  function Separated(next: Pattern): Pattern { Char(',', Many(Spaces, next)) }

  /** `,\s*([\d.]+)`, the body of the optional alpha group. */
  const AlphaPart: Pattern := Separated(Group(DigitsOrDots, Empty))

  /** `(?:,\s*([\d.]+))?\)` */
  const Tail: Pattern := OptionalGroup(AlphaPart, Char(')', Empty))

  /** `(\d+)` and the rest, from the blue channel on. */
  const BlueOn: Pattern := Group(Digits, Tail)

  const GreenOn: Pattern := Group(Digits, Separated(BlueOn))

  const RedOn: Pattern := Group(Digits, Separated(GreenOn))

  /** The whole expression. */
  const ColorPattern: Pattern := Char('r', Char('g', Char('b', OptionalChar('a', Char('(', RedOn)))))

  /** Three required digit groups and an optional group of digits and dots. */
  lemma ColorSlots()
    ensures Slots(ColorPattern) == [Slot(Digits, true), Slot(Digits, true), Slot(Digits, true), Slot(DigitsOrDots, false)]
  {
    assert Slots(Tail) == [Slot(DigitsOrDots, false)];
    assert Slots(BlueOn) == [Slot(Digits, true), Slot(DigitsOrDots, false)];
    assert Slots(GreenOn) == [Slot(Digits, true), Slot(Digits, true), Slot(DigitsOrDots, false)];
    assert Slots(RedOn) == [Slot(Digits, true), Slot(Digits, true), Slot(Digits, true), Slot(DigitsOrDots, false)];
  }

  /** The literal `rgb` starts at position `p`. */
  predicate RgbAt(s: string, p: nat) { p + 3 <= |s| && s[p] == 'r' && s[p + 1] == 'g' && s[p + 2] == 'b' }

  /** A match: where it starts and ends, and its four capture groups. */
  datatype RgbMatch = RgbMatch(start: nat, end: nat, red: string, green: string, blue: string, alpha: Option<string>)

  /** The groups of a match are digit runs, and the alpha group a run of digits and dots. */
  predicate WellFormedMatch(m: RgbMatch) {
    && |m.red| > 0 && AllIn(m.red, Digits)
    && |m.green| > 0 && AllIn(m.green, Digits)
    && |m.blue| > 0 && AllIn(m.blue, Digits)
    && (m.alpha.Some? ==> |m.alpha.value| > 0 && AllIn(m.alpha.value, DigitsOrDots))
  }

  /** The match attempted at position `i`, with its captures read out. */
  function MatchAt(s: string, i: nat): (m: Option<RgbMatch>)
    requires i <= |s|
    ensures m.Some? <==> Run(s, i, ColorPattern, []).Some?
    ensures m.Some? ==> m.value.start == i && m.value.end == Run(s, i, ColorPattern, []).value.end
  {
    var o := Run(s, i, ColorPattern, []);
    if o.None? then None
    else
      RunCaptures(s, i, ColorPattern, []);
      ColorSlots();
      var c := o.value.captures;
      assert c[0..] == c;
      assert Fits(c[0], Slot(Digits, true)) && Fits(c[1], Slot(Digits, true)) && Fits(c[2], Slot(Digits, true));
      Some(RgbMatch(i, o.value.end, c[0].value, c[1].value, c[2].value, c[3]))
  }

  lemma MatchAtWellFormed(s: string, i: nat)
    requires i <= |s| && MatchAt(s, i).Some?
    ensures WellFormedMatch(MatchAt(s, i).value)
    ensures MatchAt(s, i).value.end <= |s|
  {
    RunCaptures(s, i, ColorPattern, []);
    ColorSlots();
    var c := Run(s, i, ColorPattern, []).value.captures;
    assert c[0..] == c;
    assert Fits(c[0], Slot(Digits, true)) && Fits(c[1], Slot(Digits, true)) && Fits(c[2], Slot(Digits, true));
    assert Fits(c[3], Slot(DigitsOrDots, false));
  }

  /** `String.prototype.match` with a non-global expression: the leftmost match at or after `i`. */
  function Search(s: string, i: nat): (m: Option<RgbMatch>)
    requires i <= |s|
    ensures m.Some? ==> i <= m.value.start <= |s| && MatchAt(s, m.value.start) == m
    decreases |s| - i
  {
    if MatchAt(s, i).Some? then MatchAt(s, i)
    else if i == |s| then None
    else Search(s, i + 1)
  }

  /** `Search` finds nothing before the match it reports. */
  lemma {:induction false} SearchIsLeftmost(s: string, i: nat, p: nat)
    requires i <= |s| && Search(s, i).Some? && i <= p < Search(s, i).value.start
    ensures MatchAt(s, p) == None
    decreases |s| - i
  {
    if i < p {
      SearchIsLeftmost(s, i + 1, p);
    }
  }

  /** A match at any position from `i` on is found: `Search` reports it or an earlier one. */
  lemma {:induction false} SearchFinds(s: string, i: nat, p: nat)
    requires i <= p <= |s| && MatchAt(s, p).Some?
    ensures Search(s, i).Some? && Search(s, i).value.start <= p
    decreases |s| - i
  {
    if MatchAt(s, i).None? {
      SearchFinds(s, i + 1, p);
    }
  }

  /** Without the literal `rgb` at `i` there is no match at `i`. */
  lemma NoMatchWithoutRgb(s: string, i: nat)
    requires i <= |s| && !RgbAt(s, i)
    ensures MatchAt(s, i) == None
  {
    var afterB := OptionalChar('a', Char('(', RedOn));
    if i < |s| && s[i] == 'r' {
      RunChar(s, i, 'r', Char('g', Char('b', afterB)), []);
      if i + 1 < |s| && s[i + 1] == 'g' {
        RunChar(s, i + 1, 'g', Char('b', afterB), []);
        assert Run(s, i + 2, Char('b', afterB), []) == None;
      }
    }
  }

  /** A text with no `rgb` anywhere in it has no match. */
  lemma {:induction false} SearchNeedsRgb(s: string, i: nat)
    requires i <= |s| && forall p: nat :: !RgbAt(s, p)
    ensures Search(s, i) == None
    decreases |s| - i
  {
    NoMatchWithoutRgb(s, i);
    if i < |s| {
      SearchNeedsRgb(s, i + 1);
    }
  }

  // ----------------------------------------------------------------------
  // The match of a known serialisation
  // ----------------------------------------------------------------------

  /** A run `d` of `cls` at `s[k..e]`, then `, ` and a text that does not start with a space. */
  lemma GroupSeparated(s: string, k: nat, e: nat, d: string, cls: CharClass, next: Pattern, caps: seq<Option<string>>)
    requires k < e && e + 2 <= |s| && s[k..e] == d && s[e] == ',' && s[e + 1] == ' '
    requires AllIn(d, cls) && !InClass(',', cls)
    requires e + 2 == |s| || !IsSpace(s[e + 2])
    requires Run(s, e + 2, next, caps + [Some(d)]).Some?
    ensures Run(s, k, Group(cls, Separated(next)), caps) == Run(s, e + 2, next, caps + [Some(d)])
  {
    RunMany(s, e + 1, e + 2, Spaces, next, caps + [Some(d)]);
    RunChar(s, e, ',', Many(Spaces, next), caps + [Some(d)]);
    forall j | k <= j < e ensures InClass(s[j], cls) {
      assert s[j] == d[j - k];
    }
    RunGroup(s, k, e, cls, Separated(next), caps);
  }

  /** The tail `)` with no alpha group. */
  lemma TailClose(s: string, k: nat, caps: seq<Option<string>>)
    requires k + 1 == |s| && s[k] == ')'
    ensures Run(s, k, Tail, caps) == Some(Outcome(|s|, caps + [None]))
  {
    assert Append(AlphaPart, Char(')', Empty)) == Char(',', Many(Spaces, Group(DigitsOrDots, Char(')', Empty))));
    assert Run(s, k, Append(AlphaPart, Char(')', Empty)), caps) == None;
    assert Nones(|Slots(AlphaPart)|) == [None];
    RunOptionalGroupSkipped(s, k, AlphaPart, Char(')', Empty), caps);
  }

  /** The tail `, alpha)`, with `alpha` at `s[k + 2..e]`. */
  lemma TailAlpha(s: string, k: nat, e: nat, alpha: string, caps: seq<Option<string>>)
    requires k + 2 < e && e + 1 == |s| && s[k] == ',' && s[k + 1] == ' ' && s[k + 2..e] == alpha && s[e] == ')'
    requires AllIn(alpha, DigitsOrDots)
    ensures Run(s, k, Tail, caps) == Some(Outcome(|s|, caps + [Some(alpha)]))
  {
    var close := Char(')', Empty);
    forall j | k + 2 <= j < e ensures InClass(s[j], DigitsOrDots) {
      assert s[j] == alpha[j - k - 2];
    }
    RunChar(s, e, ')', Empty, caps + [Some(alpha)]);
    RunGroup(s, k + 2, e, DigitsOrDots, close, caps);
    RunMany(s, k + 1, k + 2, Spaces, Group(DigitsOrDots, close), caps);
    RunChar(s, k, ',', Many(Spaces, Group(DigitsOrDots, close)), caps);
    assert Append(AlphaPart, close) == Char(',', Many(Spaces, Group(DigitsOrDots, close)));
    RunOptionalGroupTaken(s, k, AlphaPart, close, caps);
  }

  /** The opening `rgb(` followed by what matches `RedOn`. */
  lemma OpenRgb(s: string, i: nat, caps: seq<Option<string>>)
    requires i + 4 <= |s| && RgbAt(s, i) && s[i + 3] == '('
    requires Run(s, i + 4, RedOn, caps).Some?
    ensures Run(s, i, ColorPattern, caps) == Run(s, i + 4, RedOn, caps)
  {
    RunChar(s, i + 3, '(', RedOn, caps);
    RunOptionalCharAbsent(s, i + 3, 'a', Char('(', RedOn), caps);
    RunChar(s, i + 2, 'b', OptionalChar('a', Char('(', RedOn)), caps);
    RunChar(s, i + 1, 'g', Char('b', OptionalChar('a', Char('(', RedOn))), caps);
    RunChar(s, i, 'r', Char('g', Char('b', OptionalChar('a', Char('(', RedOn)))), caps);
  }

  /** The opening `rgba(` followed by what matches `RedOn`. */
  lemma OpenRgba(s: string, i: nat, caps: seq<Option<string>>)
    requires i + 5 <= |s| && RgbAt(s, i) && s[i + 3] == 'a' && s[i + 4] == '('
    requires Run(s, i + 5, RedOn, caps).Some?
    ensures Run(s, i, ColorPattern, caps) == Run(s, i + 5, RedOn, caps)
  {
    RunChar(s, i + 4, '(', RedOn, caps);
    RunOptionalCharPresent(s, i + 3, 'a', Char('(', RedOn), caps);
    RunChar(s, i + 2, 'b', OptionalChar('a', Char('(', RedOn)), caps);
    RunChar(s, i + 1, 'g', Char('b', OptionalChar('a', Char('(', RedOn))), caps);
    RunChar(s, i, 'r', Char('g', Char('b', OptionalChar('a', Char('(', RedOn)))), caps);
  }

  /** The channels `dr, dg, db` lie at `s[p..e1]`, `s[e1 + 2..e2]` and `s[e2 + 2..e3]`, each but the last followed by `, `. */
  predicate ChannelsAt(s: string, p: nat, e1: nat, e2: nat, e3: nat, dr: string, dg: string, db: string) {
    && p < e1 && e1 + 2 < e2 && e2 + 2 < e3 < |s|
    && s[p..e1] == dr && s[e1] == ',' && s[e1 + 1] == ' '
    && s[e1 + 2..e2] == dg && s[e2] == ',' && s[e2 + 1] == ' '
    && s[e2 + 2..e3] == db
  }

  /** The three channels, followed by a text that matches `Tail`. */
  lemma ChannelsRun(s: string, p: nat, e1: nat, e2: nat, e3: nat, dr: string, dg: string, db: string, result: Outcome)
    requires ChannelsAt(s, p, e1, e2, e3, dr, dg, db)
    requires AllIn(dr, Digits) && AllIn(dg, Digits) && AllIn(db, Digits) && !IsDigit(s[e3])
    requires Run(s, e3, Tail, [Some(dr), Some(dg), Some(db)]) == Some(result)
    ensures Run(s, p, RedOn, []) == Some(result)
  {
    BlueRun(s, e2 + 2, e3, dr, dg, db, result);
    assert s[e2 + 2] == db[0] && s[e1 + 2] == dg[0];
    assert [Some(dr)] + [Some(dg)] == [Some(dr), Some(dg)];
    GroupSeparated(s, e1 + 2, e2, dg, Digits, BlueOn, [Some(dr)]);
    assert [] + [Some(dr)] == [Some(dr)];
    GroupSeparated(s, p, e1, dr, Digits, GreenOn, []);
  }

  /** The blue channel at `s[k..e]`, followed by a text that matches `Tail`. */
  lemma BlueRun(s: string, k: nat, e: nat, dr: string, dg: string, db: string, result: Outcome)
    requires k < e < |s| && s[k..e] == db && AllIn(db, Digits) && !IsDigit(s[e])
    requires Run(s, e, Tail, [Some(dr), Some(dg), Some(db)]) == Some(result)
    ensures Run(s, k, BlueOn, [Some(dr), Some(dg)]) == Some(result)
  {
    forall j | k <= j < e ensures InClass(s[j], Digits) {
      assert s[j] == db[j - k];
    }
    assert [Some(dr), Some(dg)] + [Some(s[k..e])] == [Some(dr), Some(dg), Some(db)];
    RunGroup(s, k, e, Digits, Tail, [Some(dr), Some(dg)]);
  }

  /** Where the channels of `dr, dg, db` followed by `t` lie, once the text from `p` on is known. */
  lemma ChannelFacts(s: string, p: nat, dr: string, dg: string, db: string, t: string)
    requires p <= |s| && s[p..] == dr + ([','] + ([' '] + (dg + ([','] + ([' '] + (db + t))))))
    requires |dr| > 0 && |dg| > 0 && |db| > 0 && |t| > 0
    ensures ChannelsAt(s, p, p + |dr|, p + |dr| + 2 + |dg|, |s| - |t|, dr, dg, db)
    ensures s[|s| - |t|..] == t
  {
    var u := s[p..];
    var e1 := |dr|;
    var e2 := e1 + 2 + |dg|;
    var e3 := e2 + 2 + |db|;
    assert u[..e1] == dr && u[e1] == ',' && u[e1 + 1] == ' ';
    assert u[e1 + 2..e2] == dg && u[e2] == ',' && u[e2 + 1] == ' ';
    assert u[e2 + 2..e3] == db && u[e3..] == t;
    assert s[p..p + e1] == u[..e1];
    assert s[p + e1 + 2..p + e2] == u[e1 + 2..e2];
    assert s[p + e2 + 2..p + e3] == u[e2 + 2..e3];
    assert s[p + e3..] == u[e3..];
  }

  /** The opening `rgb(` or `rgba(` at the start of the text from `i` on. */
  lemma OpeningFacts(s: string, i: nat, open: string, t: string)
    requires i <= |s| && s[i..] == open + t
    requires open == "rgb(" || open == "rgba("
    ensures i + |open| <= |s| && RgbAt(s, i) && s[i + |open|..] == t
    ensures s[i + |open| - 1] == '('
    ensures open == "rgba(" ==> s[i + 3] == 'a'
  {
    assert s[i] == s[i..][0] && s[i + 1] == s[i..][1] && s[i + 2] == s[i..][2];
    assert s[i + 3] == s[i..][3] && s[i + |open| - 1] == s[i..][|open| - 1];
    assert s[i + |open|..] == s[i..][|open|..];
  }

  /** `rgb(dr, dg, db)` with its parts at known places matches with no alpha. */
  lemma MatchRgbAt(s: string, i: nat, e1: nat, e2: nat, e3: nat, dr: string, dg: string, db: string)
    requires i + 4 <= |s| && RgbAt(s, i) && s[i + 3] == '('
    requires ChannelsAt(s, i + 4, e1, e2, e3, dr, dg, db) && e3 + 1 == |s| && s[e3] == ')'
    requires AllIn(dr, Digits) && AllIn(dg, Digits) && AllIn(db, Digits)
    ensures MatchAt(s, i) == Some(RgbMatch(i, |s|, dr, dg, db, None))
  {
    TailClose(s, e3, [Some(dr), Some(dg), Some(db)]);
    assert [Some(dr), Some(dg), Some(db)] + [None] == [Some(dr), Some(dg), Some(db), None];
    ChannelsRun(s, i + 4, e1, e2, e3, dr, dg, db, Outcome(|s|, [Some(dr), Some(dg), Some(db), None]));
    OpenRgb(s, i, []);
  }

  /** `rgba(dr, dg, db, alpha)` with its parts at known places matches with all four captures. */
  lemma MatchRgbaAt(s: string, i: nat, e1: nat, e2: nat, e3: nat, e4: nat, dr: string, dg: string, db: string, alpha: string)
    requires i + 5 <= |s| && RgbAt(s, i) && s[i + 3] == 'a' && s[i + 4] == '('
    requires ChannelsAt(s, i + 5, e1, e2, e3, dr, dg, db)
    requires e3 + 2 < e4 && e4 + 1 == |s| && s[e3] == ',' && s[e3 + 1] == ' ' && s[e3 + 2..e4] == alpha && s[e4] == ')'
    requires AllIn(dr, Digits) && AllIn(dg, Digits) && AllIn(db, Digits) && AllIn(alpha, DigitsOrDots)
    ensures MatchAt(s, i) == Some(RgbMatch(i, |s|, dr, dg, db, Some(alpha)))
  {
    TailAlpha(s, e3, e4, alpha, [Some(dr), Some(dg), Some(db)]);
    assert [Some(dr), Some(dg), Some(db)] + [Some(alpha)] == [Some(dr), Some(dg), Some(db), Some(alpha)];
    ChannelsRun(s, i + 5, e1, e2, e3, dr, dg, db, Outcome(|s|, [Some(dr), Some(dg), Some(db), Some(alpha)]));
    OpenRgba(s, i, []);
  }

  /** Where the alpha group lies in a text ending in `, alpha)`. */
  lemma AlphaFacts(s: string, k: nat, alpha: string)
    requires k <= |s| && s[k..] == [','] + ([' '] + (alpha + [')']))
    ensures k == |s| - |alpha| - 3 && s[k] == ',' && s[k + 1] == ' '
    ensures s[|s| - |alpha| - 1..|s| - 1] == alpha && s[|s| - 1] == ')'
  {
    var u := s[k..];
    assert s[k] == u[0] && s[k + 1] == u[1] && s[|s| - 1] == u[|u| - 1];
    assert u[2..|u| - 1] == alpha;
    assert s[|s| - |alpha| - 1..|s| - 1] == u[2..|u| - 1];
  }

  /** The serialised text, grouped from the right. */
  lemma Regroup(open: string, dr: string, dg: string, db: string, t: string)
    ensures open + dr + ", " + dg + ", " + db + t == open + (dr + ([','] + ([' '] + (dg + ([','] + ([' '] + (db + t)))))))
  {
  }

  /** Where the parts of `rgb(dr, dg, db)` lie when it is the text from `i` on. */
  lemma RgbLayout(s: string, i: nat, dr: string, dg: string, db: string)
    requires |dr| > 0 && |dg| > 0 && |db| > 0
    requires i <= |s| && s[i..] == "rgb(" + dr + ", " + dg + ", " + db + ")"
    ensures i + 4 <= |s| && RgbAt(s, i) && s[i + 3] == '('
    ensures ChannelsAt(s, i + 4, i + 4 + |dr|, i + 4 + |dr| + 2 + |dg|, |s| - 1, dr, dg, db) && s[|s| - 1] == ')'
  {
    var t := [')'];
    var inner := dr + ([','] + ([' '] + (dg + ([','] + ([' '] + (db + t))))));
    Regroup("rgb(", dr, dg, db, t);
    OpeningFacts(s, i, "rgb(", inner);
    ChannelFacts(s, i + 4, dr, dg, db, t);
    assert s[|s| - 1] == s[|s| - |t|..][0];
  }

  /** Where the parts of `rgba(dr, dg, db, alpha)` lie when it is the text from `i` on. */
  lemma RgbaLayout(s: string, i: nat, dr: string, dg: string, db: string, alpha: string)
    requires |dr| > 0 && |dg| > 0 && |db| > 0 && |alpha| > 0
    requires i <= |s| && s[i..] == "rgba(" + dr + ", " + dg + ", " + db + ", " + alpha + ")"
    ensures i + 5 <= |s| && RgbAt(s, i) && s[i + 3] == 'a' && s[i + 4] == '('
    ensures ChannelsAt(s, i + 5, i + 5 + |dr|, i + 5 + |dr| + 2 + |dg|, |s| - |alpha| - 3, dr, dg, db)
    ensures s[|s| - |alpha| - 3] == ',' && s[|s| - |alpha| - 2] == ' ' && s[|s| - |alpha| - 1..|s| - 1] == alpha && s[|s| - 1] == ')'
  {
    var t := [','] + ([' '] + (alpha + [')']));
    var inner := dr + ([','] + ([' '] + (dg + ([','] + ([' '] + (db + t))))));
    Regroup("rgba(", dr, dg, db, t);
    assert db + ", " + alpha + ")" == db + t;
    OpeningFacts(s, i, "rgba(", inner);
    RgbaInnerLayout(s, i + 5, dr, dg, db, alpha);
  }

  /** Where the parts of `dr, dg, db, alpha)` lie when it is the text from `p` on. */
  lemma RgbaInnerLayout(s: string, p: nat, dr: string, dg: string, db: string, alpha: string)
    requires |dr| > 0 && |dg| > 0 && |db| > 0
    requires p <= |s| && s[p..] == dr + ([','] + ([' '] + (dg + ([','] + ([' '] + (db + ([','] + ([' '] + (alpha + [')'])))))))))
    ensures ChannelsAt(s, p, p + |dr|, p + |dr| + 2 + |dg|, |s| - |alpha| - 3, dr, dg, db)
    ensures s[|s| - |alpha| - 3] == ',' && s[|s| - |alpha| - 2] == ' ' && s[|s| - |alpha| - 1..|s| - 1] == alpha && s[|s| - 1] == ')'
  {
    var t := [','] + ([' '] + (alpha + [')']));
    ChannelFacts(s, p, dr, dg, db, t);
    AlphaFacts(s, |s| - |t|, alpha);
  }

  /** The text `rgb(dr, dg, db)` from `i` to the end matches with the three channels and no alpha. */
  lemma MatchRgbFields(s: string, i: nat, dr: string, dg: string, db: string)
    requires |dr| > 0 && |dg| > 0 && |db| > 0 && AllIn(dr, Digits) && AllIn(dg, Digits) && AllIn(db, Digits)
    requires i <= |s| && s[i..] == "rgb(" + dr + ", " + dg + ", " + db + ")"
    ensures MatchAt(s, i) == Some(RgbMatch(i, |s|, dr, dg, db, None))
  {
    RgbLayout(s, i, dr, dg, db);
    MatchRgbAt(s, i, i + 4 + |dr|, i + 4 + |dr| + 2 + |dg|, |s| - 1, dr, dg, db);
  }

  /** The text `rgba(dr, dg, db, alpha)` from `i` to the end matches with the four captures. */
  lemma MatchRgbaFields(s: string, i: nat, dr: string, dg: string, db: string, alpha: string)
    requires |dr| > 0 && |dg| > 0 && |db| > 0 && AllIn(dr, Digits) && AllIn(dg, Digits) && AllIn(db, Digits)
    requires |alpha| > 0 && AllIn(alpha, DigitsOrDots)
    requires i <= |s| && s[i..] == "rgba(" + dr + ", " + dg + ", " + db + ", " + alpha + ")"
    ensures MatchAt(s, i) == Some(RgbMatch(i, |s|, dr, dg, db, Some(alpha)))
  {
    RgbaLayout(s, i, dr, dg, db, alpha);
    MatchRgbaAt(s, i, i + 5 + |dr|, i + 5 + |dr| + 2 + |dg|, |s| - |alpha| - 3, |s| - 1, dr, dg, db, alpha);
  }
}
