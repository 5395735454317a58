/**
 * `generateCustomCSS` of the background script: one of five named palettes
 * (the `default` one when the name is not a palette), each colour replaced by
 * the user's own when that one is a non-empty string, a link colour that
 * does not depend on the palette, and the five chosen colours substituted
 * into a fixed style sheet.
 *
 * The style sheet is kept as data, a list of rules whose declarations hold
 * either a fixed value or a slot for one of the five colours, and rendered
 * exactly as the template literal writes it: a line break, then each rule
 * (selector line, one line per declaration ending in `!important;`,
 * closing brace) followed by a blank line, the last one followed by two
 * spaces.
 */
module Presets {
  import opened Wrappers

  // ----------------------------------------------------------------------
  // Palettes and the user's colours
  // ----------------------------------------------------------------------

  datatype Palette = Palette(bg: string, text: string, secondary: string, border: string)

  /** The `presets` object. */
  const PresetTable: map<string, Palette> := map[
    "default" := Palette("#1a1a2e", "#e0e0e0", "#252540", "#404060"),
    "midnight" := Palette("#0d1b2a", "#e0e1dd", "#1b263b", "#415a77"),
    "deep" := Palette("#1a1a2e", "#eaeaea", "#16213e", "#0f3460"),
    "neon" := Palette("#16213e", "#e94560", "#0f3460", "#e94560"),
    "amoled" := Palette("#000000", "#ffffff", "#1a1a1a", "#333333")
  ]

  /** The link colour used when the user gives none. */
  const DefaultLink: string := "#64b5f6"

  /** `customColors`: each field a string, or `None` when it is not set. */
  datatype Custom = Custom(background: Option<string>, text: Option<string>, secondary: Option<string>, border: Option<string>, link: Option<string>)

  /** A custom value that JavaScript treats as true: a non-empty string. */
  predicate Given(v: Option<string>) {
    v.Some? && v.value != ""
  }

  /** `v || fallback` for a string-or-unset `v`. */
  function Or(v: Option<string>, fallback: string): string
  {
    if Given(v) then v.value else fallback
  }

  /** The five colours substituted into the style sheet. */
  datatype Choice = Choice(bg: string, text: string, secondary: string, border: string, link: string)

  /** The palette a name selects: its own, or the `default` one. */
  function PaletteOf(preset: string): Palette
  {
    if preset in PresetTable then PresetTable[preset] else PresetTable["default"]
  }

  /** Lines 128 to 133 of the background script: the palette, then the user's colours over it. */
  function Choose(custom: Custom, preset: string): Choice
  {
    var colors := PaletteOf(preset);
    Choice(Or(custom.background, colors.bg), Or(custom.text, colors.text), Or(custom.secondary, colors.secondary),
      Or(custom.border, colors.border), Or(custom.link, DefaultLink))
  }

  /** The table has exactly the five named palettes. */
  lemma PresetNames()
    ensures PresetTable.Keys == {"default", "midnight", "deep", "neon", "amoled"}
  {
  }

  /** A name that is not a palette's, the empty one included, gives what `default` gives. */
  lemma UnknownPresetFallsBack(custom: Custom, preset: string)
    requires preset !in PresetTable
    ensures Choose(custom, preset) == Choose(custom, "default")
    ensures GenerateCustomCss(custom, preset) == GenerateCustomCss(custom, "default")
  {
  }

  /** Each of the four palette colours is the user's when given, the palette's otherwise. */
  lemma PaletteFields(custom: Custom, preset: string)
    ensures var ch, p := Choose(custom, preset), PaletteOf(preset);
      && ch.bg == (if Given(custom.background) then custom.background.value else p.bg)
      && ch.text == (if Given(custom.text) then custom.text.value else p.text)
      && ch.secondary == (if Given(custom.secondary) then custom.secondary.value else p.secondary)
      && ch.border == (if Given(custom.border) then custom.border.value else p.border)
  {
  }

  /** The link colour is the user's or `#64b5f6`, whatever the palette. */
  lemma LinkIgnoresPreset(custom: Custom, preset: string, other: string)
    ensures Choose(custom, preset).link == Choose(custom, other).link
    ensures Choose(custom, preset).link == (if Given(custom.link) then custom.link.value else "#64b5f6")
  {
  }

  /** With all five colours given, the palette name does not matter. */
  lemma AllCustomIgnoresPreset(custom: Custom, preset: string, other: string)
    requires Given(custom.background) && Given(custom.text) && Given(custom.secondary) && Given(custom.border) && Given(custom.link)
    ensures GenerateCustomCss(custom, preset) == GenerateCustomCss(custom, other)
  {
    assert Choose(custom, preset) == Choose(custom, other);
  }

  // ----------------------------------------------------------------------
  // The palette lookup as the script writes it
  // ----------------------------------------------------------------------

  /**
   * The names every plain object inherits from `Object.prototype`;
   * `presets[preset]` finds a member of it under each of them.
   */
  const ObjectPrototypeMembers: set<string> := {
    "constructor", "__proto__", "hasOwnProperty", "isPrototypeOf", "propertyIsEnumerable", "toLocaleString",
    "toString", "valueOf", "__defineGetter__", "__defineSetter__", "__lookupGetter__", "__lookupSetter__"
  }

  /** What `presets[preset]` evaluates to. */
  datatype Lookup = Own(palette: Palette) | Inherited | Missing

  function LookupAsWritten(preset: string): Lookup
  {
    if preset in PresetTable then Own(PresetTable[preset])
    else if preset in ObjectPrototypeMembers then Inherited
    else Missing
  }

  /**
   * Lines 128 to 133 as written: an inherited member is a true value, so it is
   * kept instead of `presets.default`, and each of its colours reads
   * `undefined`, which the template writes as the text `undefined`.
   */
  function ChooseAsWritten(custom: Custom, preset: string): Choice
  {
    var colors := match LookupAsWritten(preset)
      case Own(p) => p
      case Missing => PresetTable["default"]
      case Inherited => Palette("undefined", "undefined", "undefined", "undefined");
    Choice(Or(custom.background, colors.bg), Or(custom.text, colors.text), Or(custom.secondary, colors.secondary),
      Or(custom.border, colors.border), Or(custom.link, DefaultLink))
  }

  function GenerateCustomCssAsWritten(custom: Custom, preset: string): string
  {
    SheetText(Template, ChooseAsWritten(custom, preset))
  }

  /** Asking for the palette `toString` without colours of one's own writes `undefined` as the background. */
  lemma InheritedNameAsWritten()
    ensures var none := Custom(None, None, None, None, None);
      && LookupAsWritten("toString") == Inherited
      && ChooseAsWritten(none, "toString").bg == "undefined"
      && Choose(none, "toString").bg == "#1a1a2e"
  {
  }

  /** Away from the inherited names, the lookup as written and the corrected one agree. */
  lemma AsWrittenAgrees(custom: Custom, preset: string)
    requires preset !in ObjectPrototypeMembers
    ensures ChooseAsWritten(custom, preset) == Choose(custom, preset)
    ensures GenerateCustomCssAsWritten(custom, preset) == GenerateCustomCss(custom, preset)
  {
  }

  // ----------------------------------------------------------------------
  // The style sheet
  // ----------------------------------------------------------------------

  datatype Field = Bg | Text | Secondary | Border | Link

  /** The value of a declaration: fixed text, or the slot of one of the chosen colours. */
  datatype Value = Fixed(s: string) | Slot(field: Field)

  datatype Decl = Decl(property: string, value: Value)

  datatype CssRule = CssRule(selector: string, decls: seq<Decl>)

  function ValueOf(ch: Choice, f: Field): string
  {
    match f
    case Bg => ch.bg
    case Text => ch.text
    case Secondary => ch.secondary
    case Border => ch.border
    case Link => ch.link
  }

  function ValueText(v: Value, ch: Choice): string
  {
    match v
    case Fixed(s) => s
    case Slot(f) => ValueOf(ch, f)
  }

  function DeclText(d: Decl, ch: Choice): string
  {
    "      " + d.property + ": " + ValueText(d.value, ch) + " !important;\n"
  }

  function DeclsText(ds: seq<Decl>, ch: Choice): string
  {
    if ds == [] then "" else DeclText(ds[0], ch) + DeclsText(ds[1..], ch)
  }

  function RuleText(r: CssRule, ch: Choice): string
  {
    "    " + r.selector + " {\n" + DeclsText(r.decls, ch) + "    }\n"
  }

  /** Each rule after a line break: the first after the opening one, the others after a blank line. */
  function RulesText(rs: seq<CssRule>, ch: Choice): string
  {
    if rs == [] then "" else "\n" + RuleText(rs[0], ch) + RulesText(rs[1..], ch)
  }

  function SheetText(rs: seq<CssRule>, ch: Choice): string
  {
    RulesText(rs, ch) + "  "
  }

  /** The rules of the template of lines 135 to 247, one constant each. */
  const HtmlBody: CssRule := CssRule("html, body", [Decl("background-color", Slot(Bg)), Decl("color", Slot(Text))])
  const Universal: CssRule := CssRule("*", [Decl("background-color", Fixed("inherit")), Decl("color", Fixed("inherit")), Decl("border-color", Slot(Border))])
  const Containers: CssRule := CssRule("div, section, article, aside, nav, header, footer, main", [Decl("background-color", Slot(Bg))])
  const FormControls: CssRule := CssRule("input, textarea, select, button", [Decl("background-color", Slot(Secondary)), Decl("color", Slot(Text)), Decl("border-color", Slot(Border))])
  const Links: CssRule := CssRule("a", [Decl("color", Slot(Link))])
  const VisitedLinks: CssRule := CssRule("a:visited", [Decl("color", Fixed("#ba68c8"))])
  const Tables: CssRule := CssRule("table, th, td", [Decl("background-color", Slot(Bg)), Decl("border-color", Slot(Border)), Decl("color", Slot(Text))])
  const TableHeaders: CssRule := CssRule("th", [Decl("background-color", Slot(Secondary))])
  const CodeBlocks: CssRule := CssRule("code, pre, kbd, samp", [Decl("background-color", Slot(Secondary)), Decl("color", Slot(Text))])
  const Media: CssRule := CssRule("img, video, canvas, iframe, embed, object", [Decl("filter", Fixed("brightness(0.85) contrast(1.05)"))])
  const Svg: CssRule := CssRule("svg", [Decl("filter", Fixed("brightness(0.9)"))])
  const Scrollbar: CssRule := CssRule("::-webkit-scrollbar", [Decl("width", Fixed("10px")), Decl("height", Fixed("10px"))])
  const ScrollbarTrack: CssRule := CssRule("::-webkit-scrollbar-track", [Decl("background", Slot(Bg))])
  const ScrollbarThumb: CssRule := CssRule("::-webkit-scrollbar-thumb", [Decl("background", Slot(Border)), Decl("border-radius", Fixed("5px"))])
  const Selection: CssRule := CssRule("::selection", [Decl("background-color", Slot(Link)), Decl("color", Fixed("#000000"))])
  const Headings: CssRule := CssRule("h1, h2, h3, h4, h5, h6", [Decl("color", Fixed("#ffffff"))])
  const Blockquotes: CssRule := CssRule("blockquote", [Decl("background-color", Slot(Secondary)), Decl("border-left-color", Slot(Link))])
  const Rulers: CssRule := CssRule("hr", [Decl("border-color", Slot(Border))])
  const Tooltips: CssRule := CssRule("[role=\"tooltip\"], .tooltip, .popover", [Decl("background-color", Slot(Secondary)), Decl("color", Slot(Text)), Decl("border-color", Slot(Border))])
  const Dialogs: CssRule := CssRule("dialog, [role=\"dialog\"], .modal", [Decl("background-color", Slot(Bg)), Decl("color", Slot(Text))])
  const Listboxes: CssRule := CssRule("select, option, optgroup, [role=\"listbox\"]", [Decl("background-color", Slot(Secondary)), Decl("color", Slot(Text))])
  const Focus: CssRule := CssRule("*:focus", [Decl("outline-color", Slot(Link))])
  const Placeholders: CssRule := CssRule("::placeholder", [Decl("color", Fixed("#808080"))])
  const Disabled: CssRule := CssRule("*[disabled]", [Decl("opacity", Fixed("0.5"))])

  /** The template, rule by rule. */
  const Template: seq<CssRule> := [
    HtmlBody, Universal, Containers, FormControls,
    Links, VisitedLinks, Tables, TableHeaders,
    CodeBlocks, Media, Svg, Scrollbar,
    ScrollbarTrack, ScrollbarThumb, Selection, Headings,
    Blockquotes, Rulers, Tooltips, Dialogs,
    Listboxes, Focus, Placeholders, Disabled
  ]

  /** `generateCustomCSS(customColors, preset)`. */
  function GenerateCustomCss(custom: Custom, preset: string): string
  {
    SheetText(Template, Choose(custom, preset))
  }

  // ----------------------------------------------------------------------
  // Where the colours go
  // ----------------------------------------------------------------------

  /** Regrouping a concatenation of five texts. */
  lemma Regroup(a: string, b: string, c: string, d: string, e: string)
    ensures a + (b + c + d + e) == a + b + c + d + e
  {
  }

  lemma Regroup4(a: string, b: string, c: string, d: string)
    ensures a + (b + c + d) == a + b + c + d
  {
  }

  /** Declaration `j` sits between the declarations before and after it. */
  lemma {:induction false} DeclsAround(ds: seq<Decl>, ch: Choice, j: nat)
    requires j < |ds|
    ensures DeclsText(ds, ch) == DeclsText(ds[..j], ch) + DeclText(ds[j], ch) + DeclsText(ds[j + 1..], ch)
  {
    if j == 0 {
      assert ds[..0] == [] && ds[1..] == ds[j + 1..];
    } else {
      var tail := ds[1..];
      DeclsAround(tail, ch, j - 1);
      assert tail[..j - 1] == ds[1..j] && tail[j - 1] == ds[j] && tail[j..] == ds[j + 1..];
      assert ds[..j][0] == ds[0] && ds[..j][1..] == ds[1..j];
      Regroup4(DeclText(ds[0], ch), DeclsText(ds[1..j], ch), DeclText(ds[j], ch), DeclsText(ds[j + 1..], ch));
    }
  }

  /** Rule `i` sits, after its line break, between the rules before and after it. */
  lemma {:induction false} RulesAround(rs: seq<CssRule>, ch: Choice, i: nat)
    requires i < |rs|
    ensures RulesText(rs, ch) == RulesText(rs[..i], ch) + "\n" + RuleText(rs[i], ch) + RulesText(rs[i + 1..], ch)
  {
    if i == 0 {
      assert rs[..0] == [] && rs[1..] == rs[i + 1..];
    } else {
      var tail := rs[1..];
      RulesAround(tail, ch, i - 1);
      assert tail[..i - 1] == rs[1..i] && tail[i - 1] == rs[i] && tail[i..] == rs[i + 1..];
      assert rs[..i][0] == rs[0] && rs[..i][1..] == rs[1..i];
      Regroup("\n" + RuleText(rs[0], ch), RulesText(rs[1..i], ch), "\n", RuleText(rs[i], ch), RulesText(rs[i + 1..], ch));
    }
  }

  /** The regrouping that takes one declaration out of a rendered sheet. */
  lemma RegroupSlot(a: string, b: string, c: string, e: string, d1: string, x: string, d2: string, f: string, q: string, g: string)
    ensures (a + (b + c + e + (d1 + x + d2) + f) + q) + g == (a + b + c + e + d1) + x + (d2 + f + q + g)
  {
  }

  /** The sheet up to declaration `j` of rule `i`. */
  function Before(rs: seq<CssRule>, ch: Choice, i: nat, j: nat): string
  {
    if i < |rs| && j <= |rs[i].decls| then
      RulesText(rs[..i], ch) + "\n" + "    " + rs[i].selector + " {\n" + DeclsText(rs[i].decls[..j], ch)
    else ""
  }

  /** The sheet after declaration `j` of rule `i`. */
  function After(rs: seq<CssRule>, ch: Choice, i: nat, j: nat): string
  {
    if i < |rs| && j < |rs[i].decls| then
      DeclsText(rs[i].decls[j + 1..], ch) + "    }\n" + RulesText(rs[i + 1..], ch) + "  "
    else ""
  }

  /**
   * Every declaration is written, on a line of its own inside the block of
   * its rule, between the text of all that precedes it and all that follows:
   * a slot's colour verbatim, a fixed value as it is.
   */
  lemma DeclPlace(rs: seq<CssRule>, ch: Choice, i: nat, j: nat)
    requires i < |rs| && j < |rs[i].decls|
    ensures SheetText(rs, ch) == Before(rs, ch, i, j) + DeclText(rs[i].decls[j], ch) + After(rs, ch, i, j)
  {
    var r := rs[i];
    RulesAround(rs, ch, i);
    DeclsAround(r.decls, ch, j);
    RegroupSlot(RulesText(rs[..i], ch) + "\n", "    ", r.selector, " {\n", DeclsText(r.decls[..j], ch), DeclText(r.decls[j], ch),
      DeclsText(r.decls[j + 1..], ch), "    }\n", RulesText(rs[i + 1..], ch), "  ");
  }

  /**
   * Each chosen colour is written verbatim at every slot of the template
   * that holds it, as the value of that slot's declaration.
   */
  lemma ChosenAppears(custom: Custom, preset: string, i: nat, j: nat)
    requires i < |Template| && j < |Template[i].decls| && Template[i].decls[j].value.Slot?
    ensures var ch, d := Choose(custom, preset), Template[i].decls[j];
      GenerateCustomCss(custom, preset) ==
        Before(Template, ch, i, j) + ("      " + d.property + ": " + ValueOf(ch, d.value.field) + " !important;\n") + After(Template, ch, i, j)
  {
    DeclPlace(Template, Choose(custom, preset), i, j);
  }

  /** A fixed value of the template is written as it is, whatever the colours. */
  lemma FixedAppears(custom: Custom, preset: string, i: nat, j: nat)
    requires i < |Template| && j < |Template[i].decls| && Template[i].decls[j].value.Fixed?
    ensures var ch, d := Choose(custom, preset), Template[i].decls[j];
      GenerateCustomCss(custom, preset) ==
        Before(Template, ch, i, j) + ("      " + d.property + ": " + d.value.s + " !important;\n") + After(Template, ch, i, j)
  {
    DeclPlace(Template, Choose(custom, preset), i, j);
  }

  /** The slots of the link colour: links, selections, quotation borders and focus outlines. */
  lemma LinkSlots()
    ensures Template[4] == Links && Links == CssRule("a", [Decl("color", Slot(Link))])
    ensures Template[14] == Selection && Selection.selector == "::selection" && Selection.decls[0] == Decl("background-color", Slot(Link))
    ensures Template[16] == Blockquotes && Blockquotes.selector == "blockquote" && Blockquotes.decls[1] == Decl("border-left-color", Slot(Link))
    ensures Template[21] == Focus && Focus == CssRule("*:focus", [Decl("outline-color", Slot(Link))])
  {
  }

  /** The slots of the background colour: the page, the containers, tables, the scrollbar track and dialogs. */
  lemma BgSlots()
    ensures Template[0] == HtmlBody && HtmlBody.selector == "html, body" && HtmlBody.decls[0] == Decl("background-color", Slot(Bg))
    ensures Template[2] == Containers && Containers.selector == "div, section, article, aside, nav, header, footer, main"
      && Containers.decls == [Decl("background-color", Slot(Bg))]
    ensures Template[6] == Tables && Tables.selector == "table, th, td" && Tables.decls[0] == Decl("background-color", Slot(Bg))
    ensures Template[12] == ScrollbarTrack && ScrollbarTrack == CssRule("::-webkit-scrollbar-track", [Decl("background", Slot(Bg))])
    ensures Template[19] == Dialogs && Dialogs.selector == "dialog, [role=\"dialog\"], .modal" && Dialogs.decls[0] == Decl("background-color", Slot(Bg))
  {
  }

  /** The values that no input changes: visited links, headings, placeholders and disabled elements. */
  lemma FixedLiterals()
    ensures Template[5] == VisitedLinks && VisitedLinks == CssRule("a:visited", [Decl("color", Fixed("#ba68c8"))])
    ensures Template[15] == Headings && Headings.decls == [Decl("color", Fixed("#ffffff"))]
    ensures Template[22] == Placeholders && Placeholders == CssRule("::placeholder", [Decl("color", Fixed("#808080"))])
    ensures Template[23] == Disabled && Disabled == CssRule("*[disabled]", [Decl("opacity", Fixed("0.5"))])
  {
  }
}
