/**
 * The style text of the injected page script, `DarkModeEngine.generateDarkModeCSS`:
 * a fixed base rule set scoped by the `__dark-mode-active` class on the root
 * element, followed by one block per colour mapping, in table order. Each
 * block selects the elements whose inline `style` attribute contains
 * `color: <key>` or `background-color: <key>` (attribute selectors with the
 * `i` flag, sections 6.2 and 6.3 of Selectors Level 4) and forces the mapped
 * colour.
 *
 * The key is escaped by putting a backslash before every `"` and `\`. The
 * module proves that this escape is undone exactly by reading the CSS string
 * back: a tokenizer following section 4.3.5 of CSS Syntax Level 3 ("consume a
 * string token", with escapes per section 4.3.7 and the input preprocessing of
 * section 3.3), started at the quote that opens the selector string, returns
 * the key itself and stops at the quote the script put after it, for every key
 * without line breaks.
 */
module Rules {
  import opened Wrappers

  // ----------------------------------------------------------------------
  // The mapping table
  // ----------------------------------------------------------------------

  /** One colour mapping: a page colour as written in `style` attributes, and the colour forced instead. */
  datatype Mapping = Mapping(original: string, mapped: string)

  /**
   * `colorMappings`, a plain object: its entries in the order
   * `Object.entries` lists them, which for string keys is the order the keys
   * were first assigned.
   */
  type Table = seq<Mapping>

  function Originals(t: Table): (ks: seq<string>)
    ensures |ks| == |t|
  {
    if t == [] then [] else [t[0].original] + Originals(t[1..])
  }

  lemma {:induction false} OriginalAt(t: Table, i: nat)
    requires i < |t|
    ensures Originals(t)[i] == t[i].original
  {
    if i > 0 {
      OriginalAt(t[1..], i - 1);
    }
  }

  predicate DistinctOriginals(t: Table) {
    forall i, j :: 0 <= i < j < |t| ==> t[i].original != t[j].original
  }

  /** `table[k]`: the mapped colour of `k`, if there is one. */
  function Find(t: Table, k: string): Option<string>
  {
    if t == [] then None else if t[0].original == k then Some(t[0].mapped) else Find(t[1..], k)
  }

  /** `table[k] = v`: an existing key keeps its place and takes the new value, a new key goes last. */
  function Assign(t: Table, k: string, v: string): Table
  {
    if t == [] then [Mapping(k, v)]
    else if t[0].original == k then [Mapping(k, v)] + t[1..]
    else [t[0]] + Assign(t[1..], k, v)
  }

  /** After `table[k] = v`, `k` reads `v` and every other key reads as before. */
  lemma {:induction false} AssignFind(t: Table, k: string, v: string, j: string)
    ensures Find(Assign(t, k, v), j) == if j == k then Some(v) else Find(t, j)
  {
    if t != [] && t[0].original != k {
      AssignFind(t[1..], k, v, j);
    }
  }

  /** Assigning to a present key keeps the order of keys; assigning to a new key appends it. */
  lemma {:induction false} AssignOriginals(t: Table, k: string, v: string)
    ensures Originals(Assign(t, k, v)) == if k in Originals(t) then Originals(t) else Originals(t) + [k]
  {
    if t != [] && t[0].original != k {
      AssignOriginals(t[1..], k, v);
      assert Originals(t) == [t[0].original] + Originals(t[1..]);
      assert k in Originals(t) <==> k in Originals(t[1..]);
    }
  }

  /** Assigning to the key at position `i` replaces that entry and nothing else. */
  lemma {:induction false} AssignPresent(t: Table, i: nat, v: string)
    requires DistinctOriginals(t) && i < |t|
    ensures Assign(t, t[i].original, v) == t[..i] + [Mapping(t[i].original, v)] + t[i + 1..]
  {
    if i > 0 {
      assert t[0].original != t[i].original;
      assert DistinctOriginals(t[1..]) by {
        forall a, b | 0 <= a < b < |t[1..]| ensures t[1..][a].original != t[1..][b].original {
          assert t[1..][a] == t[a + 1] && t[1..][b] == t[b + 1];
        }
      }
      AssignPresent(t[1..], i - 1, v);
      assert t[1..][..i - 1] == t[1..i] && t[1..][i - 1] == t[i] && t[1..][i..] == t[i + 1..];
      assert t[..i] == [t[0]] + t[1..i];
    }
  }

  /** Assigning to a key that is not present appends one entry. */
  lemma {:induction false} AssignAbsent(t: Table, k: string, v: string)
    requires Find(t, k) == None
    ensures Assign(t, k, v) == t + [Mapping(k, v)]
  {
    if t != [] {
      AssignAbsent(t[1..], k, v);
      assert t == [t[0]] + t[1..];
    }
  }

  /** A key is found exactly when some entry holds it. */
  lemma {:induction false} FindSome(t: Table, k: string)
    ensures Find(t, k).Some? <==> exists i :: 0 <= i < |t| && t[i].original == k
  {
    if t != [] {
      FindSome(t[1..], k);
      if Find(t[1..], k).Some? {
        var i :| 0 <= i < |t[1..]| && t[1..][i].original == k;
        assert t[i + 1].original == k;
      }
      if exists i :: 0 <= i < |t| && t[i].original == k {
        var i :| 0 <= i < |t| && t[i].original == k;
        if i > 0 { assert t[1..][i - 1].original == k; }
      }
    }
  }

  /** Assignment keeps the keys distinct. */
  lemma AssignDistinct(t: Table, k: string, v: string)
    requires DistinctOriginals(t)
    ensures DistinctOriginals(Assign(t, k, v))
  {
    FindSome(t, k);
    if Find(t, k) == None {
      AssignAbsent(t, k, v);
      AppendDistinct(t, Mapping(k, v));
    } else {
      var i :| 0 <= i < |t| && t[i].original == k;
      AssignPresent(t, i, v);
      ReplaceDistinct(t, i, v);
    }
  }

  lemma AppendDistinct(t: Table, m: Mapping)
    requires DistinctOriginals(t) && forall i :: 0 <= i < |t| ==> t[i].original != m.original
    ensures DistinctOriginals(t + [m])
  {
    var r := t + [m];
    forall i, j | 0 <= i < j < |r| ensures r[i].original != r[j].original {
      assert r[i] == t[i];
      if j < |t| { assert r[j] == t[j]; }
    }
  }

  lemma ReplaceDistinct(t: Table, i: nat, v: string)
    requires DistinctOriginals(t) && i < |t|
    ensures DistinctOriginals(t[..i] + [Mapping(t[i].original, v)] + t[i + 1..])
  {
    var r := t[..i] + [Mapping(t[i].original, v)] + t[i + 1..];
    assert |r| == |t|;
    forall a | 0 <= a < |r| ensures r[a].original == t[a].original {
      if a < i { assert r[a] == t[a]; } else if a > i { assert r[a] == t[a]; }
    }
  }

  // ----------------------------------------------------------------------
  // Escaping the key
  // ----------------------------------------------------------------------

  /** `s.replace(/(["\\])/g, '\\$1')`: a backslash before every quote and every backslash. */
  function Escape(s: string): string
  {
    if s == [] then []
    else (if s[0] == '"' || s[0] == '\\' then ['\\', s[0]] else [s[0]]) + Escape(s[1..])
  }

  /** The inverse of `Escape`: a backslash must be followed by a quote or a backslash, and a bare quote is refused. */
  function Unescape(r: string): Option<string>
  {
    if r == [] then Some([])
    else if r[0] == '"' then None
    else if r[0] == '\\' then
      if |r| >= 2 && (r[1] == '"' || r[1] == '\\') then
        var rest := Unescape(r[2..]);
        if rest.Some? then Some([r[1]] + rest.value) else None
      else None
    else
      var rest := Unescape(r[1..]);
      if rest.Some? then Some([r[0]] + rest.value) else None
  }

  /** Unescaping gives back the key. */
  lemma {:induction false} UnescapeEscape(s: string)
    ensures Unescape(Escape(s)) == Some(s)
  {
    if s != [] {
      UnescapeEscape(s[1..]);
      var e := Escape(s[1..]);
      assert s == [s[0]] + s[1..];
      if s[0] == '"' || s[0] == '\\' {
        assert Escape(s) == ['\\', s[0]] + e;
        assert (['\\', s[0]] + e)[2..] == e;
      } else {
        assert Escape(s) == [s[0]] + e;
        assert ([s[0]] + e)[1..] == e;
      }
    }
  }

  /** And `Escape` is the only way to reach an escaped text: what unescapes to `s` is `Escape(s)`. */
  lemma {:induction false} EscapeUnescape(r: string, s: string)
    requires Unescape(r) == Some(s)
    ensures Escape(s) == r
  {
    if r != [] {
      if r[0] == '\\' {
        var rest := Unescape(r[2..]).value;
        EscapeUnescape(r[2..], rest);
        assert s == [r[1]] + rest && s[1..] == rest;
        assert r == [r[0], r[1]] + r[2..];
      } else {
        var rest := Unescape(r[1..]).value;
        EscapeUnescape(r[1..], rest);
        assert s == [r[0]] + rest && s[1..] == rest;
        assert r == [r[0]] + r[1..];
      }
    }
  }

  // ----------------------------------------------------------------------
  // Reading a CSS string back (CSS Syntax Level 3)
  // ----------------------------------------------------------------------

  const Replacement: char := '\U{FFFD}'

  /** The input preprocessing of section 3.3: CR LF, CR and FF become LF, NUL becomes U+FFFD. */
  function Preprocess(s: string): string
  {
    if s == [] then []
    else if s[0] == '\r' then
      if |s| >= 2 && s[1] == '\n' then "\n" + Preprocess(s[2..]) else "\n" + Preprocess(s[1..])
    else if s[0] == '\U{000C}' then "\n" + Preprocess(s[1..])
    else if s[0] == '\0' then [Replacement] + Preprocess(s[1..])
    else [s[0]] + Preprocess(s[1..])
  }

  /** Characters the preprocessing keeps as they are. */
  predicate Plain(c: char) {
    c != '\r' && c != '\U{000C}' && c != '\0'
  }

  /** A text without carriage returns, form feeds or NUL. */
  predicate PlainText(s: string) {
    forall i :: 0 <= i < |s| ==> Plain(s[i])
  }

  /** Preprocessing passes a plain text through unchanged. */
  lemma {:induction false} PreprocessPlain(s: string, rest: string)
    requires PlainText(s)
    ensures Preprocess(s + rest) == s + Preprocess(rest)
  {
    if s != [] {
      assert Plain(s[0]);
      assert PlainText(s[1..]) by {
        forall i | 0 <= i < |s[1..]| ensures Plain(s[1..][i]) { assert s[1..][i] == s[i + 1]; }
      }
      PreprocessPlain(s[1..], rest);
      assert (s + rest)[0] == s[0] && (s + rest)[1..] == s[1..] + rest;
      assert Preprocess(s + rest) == [s[0]] + Preprocess(s[1..] + rest);
      assert s == [s[0]] + s[1..];
    } else {
      assert s + rest == rest;
    }
  }

  predicate IsHexDigit(c: char) {
    '0' <= c <= '9' || 'a' <= c <= 'f' || 'A' <= c <= 'F'
  }

  function HexDigitValue(c: char): nat
    requires IsHexDigit(c)
  {
    if '0' <= c <= '9' then c as nat - '0' as nat
    else if 'a' <= c <= 'f' then c as nat - 'a' as nat + 10
    else c as nat - 'A' as nat + 10
  }

  /** How many hex digits start `s`, at most `limit`. */
  function HexRun(s: string, limit: nat): (n: nat)
    ensures n <= limit && n <= |s|
  {
    if s == [] || limit == 0 || !IsHexDigit(s[0]) then 0 else 1 + HexRun(s[1..], limit - 1)
  }

  /** The value of the hex digits `s[..n]`. */
  function HexNumber(s: string, n: nat): nat
    requires n <= |s| && forall i :: 0 <= i < n ==> IsHexDigit(s[i])
  {
    if n == 0 then 0 else 16 * HexNumber(s, n - 1) + HexDigitValue(s[n - 1])
  }

  lemma {:induction false} HexRunDigits(s: string, limit: nat)
    ensures forall i :: 0 <= i < HexRun(s, limit) ==> IsHexDigit(s[i])
  {
    if s != [] && limit != 0 && IsHexDigit(s[0]) {
      HexRunDigits(s[1..], limit - 1);
      forall i | 0 <= i < HexRun(s, limit) ensures IsHexDigit(s[i]) {
        if i > 0 { assert s[i] == s[1..][i - 1]; }
      }
    }
  }

  /** CSS whitespace, after preprocessing: newline, tab or space. */
  predicate IsCssWhitespace(c: char) {
    c == '\n' || c == '\t' || c == ' '
  }

  /** An escaped code point and the input after it. */
  datatype Escaped = Escaped(c: char, rest: string)

  /**
   * "Consume an escaped code point" (section 4.3.7), called just after the
   * backslash with the next code point known not to be a newline: up to six
   * hex digits and one optional whitespace give a code point (U+FFFD for zero,
   * a surrogate or anything beyond U+10FFFF), any other code point stands for
   * itself.
   */
  function ConsumeEscaped(s: string): (e: Escaped)
    requires s != []
    ensures |e.rest| < |s|
  {
    if IsHexDigit(s[0]) then
      var n := HexRun(s, 6);
      HexRunDigits(s, 6);
      var value := HexNumber(s, n);
      var after := s[n..];
      var rest := if after != [] && IsCssWhitespace(after[0]) then after[1..] else after;
      var c := if value == 0 || (0xD800 <= value <= 0xDFFF) || 0x10FFFF < value then Replacement else value as char;
      Escaped(c, rest)
    else Escaped(s[0], s[1..])
  }

  datatype Token = StringToken(value: string) | BadStringToken

  /** A token and the input left after it. */
  datatype Scanned = Scanned(token: Token, rest: string)

  /**
   * "Consume a string token" (section 4.3.5), on preprocessed input, started
   * after the opening quote `ending`; `acc` is the value read so far.
   */
  function ConsumeString(s: string, ending: char, acc: string): Scanned
    decreases |s|
  {
    if s == [] then Scanned(StringToken(acc), [])
    else if s[0] == ending then Scanned(StringToken(acc), s[1..])
    else if s[0] == '\n' then Scanned(BadStringToken, s)
    else if s[0] == '\\' then
      if |s| == 1 then Scanned(StringToken(acc), [])
      else if s[1] == '\n' then ConsumeString(s[2..], ending, acc)
      else
        var e := ConsumeEscaped(s[1..]);
        ConsumeString(e.rest, ending, acc + [e.c])
    else ConsumeString(s[1..], ending, acc + [s[0]])
  }

  /**
   * An escaped key without line breaks is read back whole: the token is the
   * key, and it ends at the quote written after it.
   */
  lemma {:induction false} ScanEscaped(key: string, rest: string, acc: string)
    requires OnOneLine(key)
    ensures ConsumeString(Escape(key) + "\"" + rest, '"', acc) == Scanned(StringToken(acc + key), rest)
  {
    if key == [] {
      assert Escape(key) + "\"" + rest == ['"'] + rest;
      assert acc + key == acc;
    } else {
      var c := key[0];
      assert c != '\n';
      ScanEscaped(key[1..], rest, acc + [c]);
      var tail := Escape(key[1..]) + "\"" + rest;
      assert acc + [c] + key[1..] == acc + key;
      if c == '"' || c == '\\' {
        assert Escape(key) + "\"" + rest == ['\\', c] + tail;
        assert (['\\', c] + tail)[1..] == [c] + tail;
        assert ConsumeEscaped([c] + tail) == Escaped(c, tail);
      } else {
        assert Escape(key) + "\"" + rest == [c] + tail;
      }
    }
  }

  /** A key with a line break does not close: the tokenizer reaches it inside the string and gives a bad string. */
  lemma {:induction false} ScanBroken(key: string, rest: string, acc: string)
    requires exists i :: 0 <= i < |key| && key[i] == '\n'
    ensures ConsumeString(Escape(key) + "\"" + rest, '"', acc).token == BadStringToken
  {
    var c := key[0];
    var tail := Escape(key[1..]) + "\"" + rest;
    if c == '\n' {
      assert Escape(key) + "\"" + rest == [c] + tail;
    } else {
      var i :| 0 <= i < |key| && key[i] == '\n';
      assert key[1..][i - 1] == '\n';
      ScanBroken(key[1..], rest, acc + [c]);
      if c == '"' || c == '\\' {
        assert Escape(key) + "\"" + rest == ['\\', c] + tail;
        assert (['\\', c] + tail)[1..] == [c] + tail;
        assert ConsumeEscaped([c] + tail) == Escaped(c, tail);
      } else {
        assert Escape(key) + "\"" + rest == [c] + tail;
      }
    }
  }

  // ----------------------------------------------------------------------
  // The style text
  // ----------------------------------------------------------------------

  /** The class on the root element that turns every rule on. */
  const Marker: string := "__dark-mode-active"

  /** The text of one mapping block, up to the quote that opens the `color:` selector string. */
  const BlockLead: string := "\n          html.__dark-mode-active [style*="

  /** Between the two selector strings. */
  const BlockBetween: string := " i]," + BlockLead

  /** Between the second selector string and the mapped colour. */
  const BlockDeclOpen: string := " i] {\n            color: "

  /** After the mapped colour. */
  const BlockClose: string := " !important;\n          }\n        "

  /** The string of the first selector, as written, without its quotes. */
  function ColorKey(original: string): string
  {
    "color: " + Escape(original)
  }

  /** The string of the second selector, as written, without its quotes. */
  function BackgroundKey(original: string): string
  {
    "background-color: " + Escape(original)
  }

  /** The rest of the block after the first selector string's closing quote. */
  function AfterColorKey(m: Mapping): string
  {
    BlockBetween + "\"" + BackgroundKey(m.original) + "\"" + Declaration(m.mapped)
  }

  /** The declaration of the mapped colour, which closes the block. */
  function Declaration(mapped: string): string
  {
    BlockDeclOpen + mapped + BlockClose
  }

  /** The block one mapping adds. */
  function Block(m: Mapping): string
  {
    BlockLead + "\"" + ColorKey(m.original) + "\"" + AfterColorKey(m)
  }

  /** Everything before the mapping blocks. */
  const BaseRules: string :=
    "\n"
    + "        /* Base dark mode styles */\n"
    + "        html.__dark-mode-active,\n"
    + "        html.__dark-mode-active body {\n"
    + "          background-color: #1a1a1a !important;\n"
    + "          color: #e0e0e0 !important;\n"
    + "        }\n"
    + "\n"
    + "        html.__dark-mode-active * {\n"
    + "          border-color: #404040 !important;\n"
    + "        }\n"
    + "\n"
    + "        /* Form elements */\n"
    + "        html.__dark-mode-active input,\n"
    + "        html.__dark-mode-active textarea,\n"
    + "        html.__dark-mode-active select,\n"
    + "        html.__dark-mode-active button {\n"
    + "          background-color: #2d2d2d !important;\n"
    + "          color: #e0e0e0 !important;\n"
    + "          border-color: #404040 !important;\n"
    + "        }\n"
    + "\n"
    + "        /* Links */\n"
    + "        html.__dark-mode-active a {\n"
    + "          color: #4da6ff !important;\n"
    + "        }\n"
    + "\n"
    + "        html.__dark-mode-active a:visited {\n"
    + "          color: #b366ff !important;\n"
    + "        }\n"
    + "\n"
    + "        /* Images and media */\n"
    + "        html.__dark-mode-active img,\n"
    + "        html.__dark-mode-active video,\n"
    + "        html.__dark-mode-active canvas,\n"
    + "        html.__dark-mode-active iframe {\n"
    + "          filter: brightness(0.85) contrast(1.1) !important;\n"
    + "        }\n"
    + "\n"
    + "        /* Background images */\n"
    + "        html.__dark-mode-active [style*=\"background-image\"] {\n"
    + "          filter: brightness(0.7) !important;\n"
    + "        }\n"
    + "\n"
    + "        /* Tables */\n"
    + "        html.__dark-mode-active table,\n"
    + "        html.__dark-mode-active th,\n"
    + "        html.__dark-mode-active td {\n"
    + "          background-color: #1a1a1a !important;\n"
    + "          border-color: #404040 !important;\n"
    + "          color: #e0e0e0 !important;\n"
    + "        }\n"
    + "\n"
    + "        html.__dark-mode-active th {\n"
    + "          background-color: #2d2d2d !important;\n"
    + "        }\n"
    + "\n"
    + "        /* Code blocks */\n"
    + "        html.__dark-mode-active code,\n"
    + "        html.__dark-mode-active pre {\n"
    + "          background-color: #2d2d2d !important;\n"
    + "          color: #e0e0e0 !important;\n"
    + "        }\n"
    + "\n"
    + "        /* Scrollbars */\n"
    + "        html.__dark-mode-active ::-webkit-scrollbar {\n"
    + "          width: 10px;\n"
    + "        }\n"
    + "\n"
    + "        html.__dark-mode-active ::-webkit-scrollbar-track {\n"
    + "          background: #1a1a1a;\n"
    + "        }\n"
    + "\n"
    + "        html.__dark-mode-active ::-webkit-scrollbar-thumb {\n"
    + "          background: #404040;\n"
    + "          border-radius: 5px;\n"
    + "        }\n"
    + "\n"
    + "        /* Selection */\n"
    + "        html.__dark-mode-active ::selection {\n"
    + "          background-color: #4da6ff !important;\n"
    + "          color: #000 !important;\n"
    + "        }\n"
    + "\n"
    + "        /* Custom color mappings */\n"
    + "        "

  /** Everything after the mapping blocks. */
  const Closing: string := "\n      "

  /** The texts `render(x)` of the items `xs`, one after the other, in order. */
  function Join<T>(render: T -> string, xs: seq<T>): string
  {
    if xs == [] then [] else Join(render, xs[..|xs| - 1]) + render(xs[|xs| - 1])
  }

  /** `colorCSS`: the blocks of the table, in table order. */
  function Blocks(t: Table): string
  {
    Join(Block, t)
  }

  /** The style text for a table. */
  function StyleText(t: Table): string
  {
    BaseRules + Blocks(t) + Closing
  }

  /**
   * `generateDarkModeCSS`: the blocks accumulated one mapping at a time, then
   * put between the base rules and the closing text.
   */
  method GenerateDarkModeCss(t: Table) returns (css: string)
    ensures css == StyleText(t)
  {
    var colorCss := "";
    var i := 0;
    assert t[..0] == [];
    while i < |t|
      invariant 0 <= i <= |t|
      invariant colorCss == Blocks(t[..i])
    {
      JoinPrefix(Block, t, i);
      colorCss := colorCss + Block(t[i]);
      i := i + 1;
    }
    assert t[..|t|] == t;
    css := BaseRules + colorCss + Closing;
  }

  lemma JoinSnoc<T>(render: T -> string, xs: seq<T>, x: T)
    ensures Join(render, xs + [x]) == Join(render, xs) + render(x)
  {
    assert (xs + [x])[..|xs|] == xs;
  }

  /** One more item of a run. */
  lemma JoinPrefix<T>(render: T -> string, xs: seq<T>, i: nat)
    requires i < |xs|
    ensures Join(render, xs[..i + 1]) == Join(render, xs[..i]) + render(xs[i])
  {
    assert xs[..i + 1] == xs[..i] + [xs[i]];
    JoinSnoc(render, xs[..i], xs[i]);
  }

  /** Joining two runs of items, one after the other. */
  lemma {:induction false} JoinAppend<T>(render: T -> string, a: seq<T>, b: seq<T>)
    ensures Join(render, a + b) == Join(render, a) + Join(render, b)
  {
    if b == [] {
      assert a + b == a;
    } else {
      var prefix, last := b[..|b| - 1], b[|b| - 1];
      calc {
        Join(render, a + b);
        { assert a + b == (a + prefix) + [last]; }
        Join(render, (a + prefix) + [last]);
        { JoinSnoc(render, a + prefix, last); }
        Join(render, a + prefix) + render(last);
        { JoinAppend(render, a, prefix); }
        Join(render, a) + Join(render, prefix) + render(last);
      }
    }
  }

  /** The text of item `i` sits between those of the items before and after it. */
  lemma JoinAround<T>(render: T -> string, xs: seq<T>, i: nat)
    requires i < |xs|
    ensures Join(render, xs) == Join(render, xs[..i]) + render(xs[i]) + Join(render, xs[i + 1..])
  {
    JoinSplit(render, xs, i + 1);
    JoinPrefix(render, xs, i);
  }

  /** A run cut in two. */
  lemma JoinSplit<T>(render: T -> string, xs: seq<T>, k: nat)
    requires k <= |xs|
    ensures Join(render, xs) == Join(render, xs[..k]) + Join(render, xs[k..])
  {
    assert xs == xs[..k] + xs[k..];
    JoinAppend(render, xs[..k], xs[k..]);
  }

  /** The block of each mapping sits after the base rules and the blocks of the mappings before it. */
  lemma BlockPlace(t: Table, i: nat)
    requires i < |t|
    ensures StyleText(t) == BaseRules + (Blocks(t[..i]) + Block(t[i]) + Blocks(t[i + 1..])) + Closing
  {
    JoinAround(Block, t, i);
  }

  /** A mapping for a new key adds its block last; one for a present key rewrites its own block in place. */
  lemma AssignBlocks(t: Table, k: string, v: string)
    requires DistinctOriginals(t)
    ensures Find(t, k) == None ==> Blocks(Assign(t, k, v)) == Blocks(t) + Block(Mapping(k, v))
    ensures forall i :: 0 <= i < |t| && t[i].original == k ==>
      Blocks(Assign(t, k, v)) == Blocks(t[..i]) + Block(Mapping(k, v)) + Blocks(t[i + 1..])
  {
    if Find(t, k) == None {
      AssignAbsent(t, k, v);
      JoinSnoc(Block, t, Mapping(k, v));
    }
    forall i | 0 <= i < |t| && t[i].original == k
      ensures Blocks(Assign(t, k, v)) == Blocks(t[..i]) + Block(Mapping(k, v)) + Blocks(t[i + 1..])
    {
      AssignPresent(t, i, v);
      var r := t[..i] + [Mapping(k, v)] + t[i + 1..];
      assert r[..i] == t[..i] && r[i] == Mapping(k, v) && r[i + 1..] == t[i + 1..];
      JoinAround(Block, r, i);
    }
  }
  // ----------------------------------------------------------------------
  // Reading the selector strings back
  // ----------------------------------------------------------------------

  /** A text with no line feed. */
  predicate OnOneLine(s: string) {
    forall i :: 0 <= i < |s| ==> s[i] != '\n'
  }

  /** A text the preprocessing keeps and that holds no quote and no backslash. */
  predicate Unquoted(s: string) {
    forall i :: 0 <= i < |s| ==> Plain(s[i]) && s[i] != '"' && s[i] != '\\'
  }

  /** The characters of the selector leads. */
  predicate LeadChar(c: char) {
    ('a' <= c <= 'z') || c == ' ' || c == '\n' || c == '.' || c == '-' || c == '_' || c == '[' || c == '*' || c == '='
  }

  lemma LeadUnquoted()
    ensures Unquoted(BlockLead)
  {
    assert forall i :: 0 <= i < |BlockLead| ==> LeadChar(BlockLead[i]);
  }

  lemma UnquotedAppend(a: string, b: string)
    requires Unquoted(a) && Unquoted(b)
    ensures Unquoted(a + b)
  {
    forall i | 0 <= i < |a + b| ensures Plain((a + b)[i]) && (a + b)[i] != '"' && (a + b)[i] != '\\' {
      if i >= |a| { assert (a + b)[i] == b[i - |a|]; }
    }
  }

  lemma BetweenUnquoted()
    ensures Unquoted(BlockBetween)
  {
    assert Unquoted(" i],");
    LeadUnquoted();
    UnquotedAppend(" i],", BlockLead);
  }

  lemma PlainAppend(a: string, b: string)
    requires PlainText(a) && PlainText(b)
    ensures PlainText(a + b)
  {
    forall i | 0 <= i < |a + b| ensures Plain((a + b)[i]) {
      if i >= |a| { assert (a + b)[i] == b[i - |a|]; }
    }
  }

  /**
   * The next string token of a text whose only quotes open strings: the
   * characters before the first quote are passed over, and the string token
   * is consumed after it.
   */
  function NextString(s: string): Option<Scanned>
  {
    if s == [] then None
    else if s[0] == '"' then Some(ConsumeString(s[1..], '"', ""))
    else NextString(s[1..])
  }

  /** A text without quotes is passed over. */
  lemma {:induction false} SkipUnquoted(pre: string, rest: string)
    requires Unquoted(pre)
    ensures NextString(pre + rest) == NextString(rest)
  {
    if pre == [] {
      assert pre + rest == rest;
    } else {
      assert pre[0] != '"';
      assert Unquoted(pre[1..]) by {
        forall i | 0 <= i < |pre[1..]| ensures Plain(pre[1..][i]) && pre[1..][i] != '"' && pre[1..][i] != '\\' {
          assert pre[1..][i] == pre[i + 1];
        }
      }
      SkipUnquoted(pre[1..], rest);
      assert (pre + rest)[1..] == pre[1..] + rest;
    }
  }

  /** Plain characters other than the quote and the backslash are read as themselves. */
  lemma {:induction false} ScanPlainLead(lead: string, rest: string, acc: string)
    requires Unquoted(lead) && OnOneLine(lead)
    ensures ConsumeString(lead + rest, '"', acc) == ConsumeString(rest, '"', acc + lead)
  {
    if lead == [] {
      assert lead + rest == rest && acc + lead == acc;
    } else {
      assert lead[0] != '"' && lead[0] != '\\' && lead[0] != '\n';
      assert Unquoted(lead[1..]) && OnOneLine(lead[1..]) by {
        forall i | 0 <= i < |lead[1..]| ensures lead[1..][i] == lead[i + 1] { }
      }
      ScanPlainLead(lead[1..], rest, acc + [lead[0]]);
      assert (lead + rest)[1..] == lead[1..] + rest;
      assert acc + [lead[0]] + lead[1..] == acc + lead;
    }
  }

  /** Escaping adds only backslashes, so a plain key stays plain. */
  lemma {:induction false} EscapePlain(s: string)
    requires PlainText(s)
    ensures PlainText(Escape(s))
  {
    if s != [] {
      assert Plain(s[0]);
      assert PlainText(s[1..]) by {
        forall i | 0 <= i < |s[1..]| ensures Plain(s[1..][i]) { assert s[1..][i] == s[i + 1]; }
      }
      EscapePlain(s[1..]);
      var head := if s[0] == '"' || s[0] == '\\' then ['\\', s[0]] else [s[0]];
      var e := Escape(s[1..]);
      forall i | 0 <= i < |head + e| ensures Plain((head + e)[i]) {
        if i >= |head| { assert (head + e)[i] == e[i - |head|]; }
      }
    }
  }

  /** The string of a selector, a lead and then the escaped key, closed by a quote. */
  lemma ScanLead(lead: string, key: string, rest: string)
    requires Unquoted(lead) && OnOneLine(lead)
    requires PlainText(key) && OnOneLine(key)
    ensures ConsumeString(Preprocess(lead + Escape(key) + "\"" + rest), '"', "")
      == Scanned(StringToken(lead + key), Preprocess(rest))
  {
    var e := Escape(key);
    EscapePlain(key);
    assert PlainText(lead);
    assert PlainText("\"");
    PlainAppend(lead, e);
    PlainAppend(lead + e, "\"");
    calc {
      ConsumeString(Preprocess(lead + e + "\"" + rest), '"', "");
      { PreprocessPlain(lead + e + "\"", rest); }
      ConsumeString(lead + e + "\"" + Preprocess(rest), '"', "");
      { assert lead + e + "\"" + Preprocess(rest) == lead + (e + "\"" + Preprocess(rest)); }
      ConsumeString(lead + (e + "\"" + Preprocess(rest)), '"', "");
      { ScanPlainLead(lead, e + "\"" + Preprocess(rest), ""); assert "" + lead == lead; }
      ConsumeString(e + "\"" + Preprocess(rest), '"', lead);
      { ScanEscaped(key, Preprocess(rest), lead); }
      Scanned(StringToken(lead + key), Preprocess(rest));
    }
  }

  /** After a text without quotes, the next string token is the selector string. */
  lemma SelectorString(pre: string, lead: string, key: string, rest: string)
    requires Unquoted(pre) && Unquoted(lead) && OnOneLine(lead)
    requires PlainText(key) && OnOneLine(key)
    ensures NextString(Preprocess(pre + "\"" + (lead + Escape(key)) + "\"" + rest))
      == Some(Scanned(StringToken(lead + key), Preprocess(rest)))
  {
    var tail := lead + Escape(key) + "\"" + rest;
    assert pre + "\"" + (lead + Escape(key)) + "\"" + rest == pre + ("\"" + tail);
    assert PlainText(pre) && PlainText("\"");
    PreprocessPlain(pre, "\"" + tail);
    PreprocessPlain("\"", tail);
    SkipUnquoted(pre, "\"" + Preprocess(tail));
    assert ("\"" + Preprocess(tail))[1..] == Preprocess(tail);
    ScanLead(lead, key, rest);
  }

  /**
   * The selector strings of a block. The tokenizer starts a string token at a
   * quote, and neither the text before the first selector string nor that
   * between the two holds a quote or a backslash; so for a key without line
   * feeds, carriage returns, form feeds or NUL both strings are read in full,
   * from the quote the block opens to the quote it closes, as `color: <key>`
   * and `background-color: <key>` with the key exactly as it is in the table.
   */
  lemma BlockSelectors(m: Mapping)
    requires PlainText(m.original) && OnOneLine(m.original)
    ensures NextString(Preprocess(Block(m)))
      == Some(Scanned(StringToken("color: " + m.original), Preprocess(AfterColorKey(m))))
    ensures NextString(Preprocess(AfterColorKey(m)))
      == Some(Scanned(StringToken("background-color: " + m.original), Preprocess(Declaration(m.mapped))))
  {
    LeadUnquoted();
    BetweenUnquoted();
    assert Unquoted("color: ") && OnOneLine("color: ");
    assert Unquoted("background-color: ") && OnOneLine("background-color: ");
    SelectorString(BlockLead, "color: ", m.original, AfterColorKey(m));
    SelectorString(BlockBetween, "background-color: ", m.original, Declaration(m.mapped));
  }
}
