# Dark mode extension: colour engine and palette style sheet

This project models the colour engine of a browser extension that lays a dark
colour scheme over one tab, and states and proves what that engine promises.

The engine (`injected.js`, lines 1 to 326) has these parts:

- **Colour helpers (`ColorUtils`).**
  - `parseColor` turns the computed value the host gives back into
    `{r, g, b, a}`. It has a sentinel check, then a regular-expression stage.
  - `rgbToHex` and `normalize` give the canonical `#rrggbb` key.
  - `getLuminance` weights the linearised channels.
- **`DarkModeEngine`.**
  - `extractColors` counts the normalised `color` and `background-color` of
    every visible element, in batches of 100, then ranks the top 50 by count.
  - `generateDarkColor` is the light/dark transform.
  - `generateDarkModeCSS` builds the style text: fixed base rules, then one
    block per entry of the colour mapping table. Each block carries the
    table's key, escaped, inside two attribute-selector strings.
  - The stateful part is `apply`, `applyDarkMode`, `removeDarkMode`,
    `updateColorMapping` and `createStyleSheet`. It covers the enabled flag,
    the table, the engine's own `<style>` element and the
    `__dark-mode-active` class on the root element.

The background script's `generateCustomCSS` (`background.js`, lines 118 to
248) picks one of five named palettes. Each of four colours is overridden by
the user's colour when that one is a non-empty string. The link colour does
not depend on the palette. The five colours are then written into a fixed
style sheet.

Modules, one per part of the program:

| file | module | what |
|---|---|---|
| wrappers.dfy | Wrappers | `Option` |
| color_regex.dfy | ColorRegex | the expression `/rgba?\((\d+),\s*(\d+),\s*(\d+)(?:,\s*([\d.]+))?\)/` as data, and a backtracking matcher with ECMAScript semantics: greedy runs, optional groups, leftmost search |
| color_utils.dfy | ColorUtils | `parseColor` (host resolution as a parameter), `parseInt`/`parseFloat` on captures, `rgbToHex`, `normalize`, `getLuminance` |
| transform.dfy | Transform | `generateDarkColor`, with `Math.round` exact on rationals |
| sampling.dfy | Sampling | `extractColors`: pixel-free element records, the `Map` tally as an insertion-ordered list, the batch loops as methods proved against the specification `TallyOf(Observations(...))`, and the stable sort and top-50 cut |
| rules.dfy | Rules | the mapping table (a JavaScript object: insertion-ordered keys), the quote escape, a model of the CSS string tokenizer (CSS Syntax Module Level 3, sections 3.3, 4.3.5 and 4.3.7), and the style text with the `+=` loop of `generateDarkModeCSS` |
| engine.dfy | Engine | `class DarkModeEngine` with its fields updated in place, the style element and root element as classes, and the pure transitions that state each method's new state |
| presets.dfy | Presets | `generateCustomCSS`: palettes, `\|\|` fallbacks, and the template as a list of rules whose declarations hold fixed values or colour slots |

The host's colour resolution in `parseColor` is a function parameter
`host: string -> string`. The element records of `extractColors` carry what
the script reads from each element: whether access throws, the bounding box,
and the computed property values. `Math.pow(_, 2.4)` in `getLuminance` is a
parameter `pow`.

Where the code and the extension's specification disagree, the model follows
the code:

- The specification says the light branch of `generateDarkColor` always lowers
  the luminance. The code does not: it raises every channel up to 221 (grey
  200 becomes 225). `Transform.LightRaisesLowChannels` states this.
- The specification mentions an eight-selector block per mapping. That block
  exists only in the text after the script's closing `})();`
  (`injected.js:327-496`). The modelled block has two selectors
  (`injected.js:192-197`). The same text also holds a filter that skips
  mapping keys `parseColor` rejects (`injected.js:423-428`). The modelled
  `generateDarkModeCSS` has no such filter.
- The text after `})();` begins mid-token (`rk-mode-active header,` at
  `injected.js:327`), which is not valid JavaScript. As shipped, injected.js
  fails to parse and none of it runs. The model treats lines 1 to 326 as if
  that fragment were deleted.

## Model

| member | source | states |
|---|---|---|
| ColorRegex.SpanIsLongestRun | injected.js:24 | a greedy run holds only characters of its class and stops at the end of the text or at the first character outside the class |
| ColorRegex.RunCaptures | injected.js:24 | a successful match ends inside the text, keeps earlier captures, and every new capture fits its group (a non-empty run of the group's class, set when the group is required) |
| ColorRegex.ColorSlots | injected.js:24 | the expression has three required digit groups and one optional group of digits and dots |
| ColorRegex.Run | injected.js:24 | the matcher: a pattern node is matched at a position with the captures so far, and a greedy run is tried longest first through `Backtrack`; its contract is stated by RunCaptures and SpanIsLongestRun |
| ColorRegex.Backtrack | injected.js:24 | giving back one character of a greedy run at a time until the rest of the pattern matches; stated through RunCaptures |
| ColorRegex.MatchAt | injected.js:24 | the captures are read out exactly when the expression matches at that position, and the match spans from there to where the matcher stops |
| ColorRegex.MatchAtWellFormed | injected.js:24 | the channel captures are digit runs and the alpha capture, when present, a run of digits and dots |
| ColorRegex.Search | injected.js:24 | `match` reports a match at or after the starting position, and it is the match attempted there |
| ColorRegex.SearchFinds | injected.js:24 | a match at any position from the start on is found: `match` reports it or an earlier one |
| ColorRegex.SearchIsLeftmost | injected.js:24 | no match starts before the reported one |
| ColorRegex.NoMatchWithoutRgb | injected.js:24 | there is no match where the literal `rgb` does not start |
| ColorRegex.SearchNeedsRgb | injected.js:24-25 | a text with no `rgb` in it has no match |
| ColorRegex.MatchRgbFields | injected.js:24 | the text `rgb(r, g, b)` matches with its three digit runs as captures and no alpha |
| ColorRegex.MatchRgbaFields | injected.js:24 | the text `rgba(r, g, b, a)` matches with all four captures |
| ColorUtils.DecimalRoundTrip | injected.js:27-29 | `parseInt` of the decimal text of a channel gives the channel back |
| ColorUtils.ParseFloat | injected.js:30 | `parseFloat` of a digits-and-dots capture is NaN exactly when the text does not start with a digit or with a dot followed by a digit |
| ColorUtils.ParseFloatInteger | injected.js:30 | `parseFloat` of a digit run is the integer it denotes |
| ColorUtils.ParseFloatFraction | injected.js:30 | `parseFloat` of `d.f` is `d + f / 10^\|f\|`, and everything from a second dot on is ignored |
| ColorUtils.ParseComputed | injected.js:24-31 | a record exists exactly when the expression matches, and its channels are non-negative |
| ColorUtils.ParseComputedFinds | injected.js:24-31 | a computed value gives a record exactly when the expression matches at some position in it |
| ColorUtils.ParseColor | injected.js:14-31 | the sentinels (empty, `transparent`, `none`, `inherit`, `initial`) give `null` without asking the host; any other value gives the regular-expression stage applied to the host's computed value |
| ColorUtils.ToLower | injected.js:47 | `toLowerCase` keeps the length and maps exactly the letters A to Z to their lower-case forms |
| ColorUtils.HexByteOfChannel | injected.js:37-40 | a channel in [0, 255] becomes exactly two lower-case hex digits, high nibble first, which decode back to the channel |
| ColorUtils.RgbToHex | injected.js:36-41 | `#` and each channel in hexadecimal, one digit padded with `0`; its contract is stated by RgbToHexCanonical and RgbToHexIsLowerCase |
| ColorUtils.Normalize | injected.js:45-48 | `parseColor`, then `rgbToHex` of the channels, lower-cased, or `null`; its contract is stated by NormalizeCanonical and NormalizeIdempotent |
| ColorUtils.RgbToHexIsLowerCase | injected.js:36-47 | the `toLowerCase` in `normalize` changes nothing, for every channel value |
| ColorUtils.RgbToHexCanonical | injected.js:36-41 | channels in [0, 255] give `#` and six lower-case hex digits, and decoding the pairs gives the channels back |
| ColorUtils.NormalizeCanonical | injected.js:45-48 | when `normalize` succeeds on in-range channels, its result is the canonical seven-character form of the parsed channels |
| ColorUtils.ParseSerializedRgb | injected.js:24-31 | the serialisation `rgb(r, g, b)` parses back to its channels with alpha 1 |
| ColorUtils.ParseSerializedRgba | injected.js:24-31 | the serialisation `rgba(r, g, b, a)` parses back to its channels and `parseFloat(a)` |
| ColorUtils.ParseColorRejectsNonRgb | injected.js:24-25 | a computed value without `rgb` in it gives `null` |
| ColorUtils.NormalizeIdempotent | injected.js:45-48 | for a host that resolves hex colours as browsers do, normalising a normalised colour gives it back |
| ColorUtils.Luminance | injected.js:51-57 | the WCAG weights 0.2126, 0.7152 and 0.0722 on the channels linearised with the 0.03928 branch; stated by LuminanceExtremes |
| ColorUtils.LuminanceExtremes | injected.js:51-57 | white has luminance 1 when `pow(1) = 1`, and black has luminance 0 |
| Transform.JsRound | injected.js:143 | `Math.round` gives the integer n with n ≤ x + 1/2 < n + 1 |
| Transform.Light | injected.js:143-145 | `Math.round(255 - 0.15 c)` is `(5110 - 3c) div 20` |
| Transform.Dark | injected.js:151-153 | `Math.min(255, Math.round(1.3 c + 30))` is `min(255, (13c + 305) div 10)` |
| Transform.LightBounds | injected.js:140-147 | the light branch keeps a channel in [217, 255] |
| Transform.LightNonIncreasing | injected.js:140-147 | the light branch never gives a brighter channel for a brighter input |
| Transform.LightRaisesLowChannels | injected.js:140-147 | the light branch raises a channel exactly when it is at most 221 |
| Transform.DarkBounds | injected.js:148-155 | the dark branch never lowers a channel, and keeps it in [30, 255] |
| Transform.DarkNonDecreasing | injected.js:148-155 | the dark branch keeps the order of channels |
| Transform.GenerateDarkColor | injected.js:135-157 | the branch is chosen by luminance above 1/2, each branch has its per-channel formula, and alpha is unchanged |
| Transform.GenerateDarkColorInRange | injected.js:135-157 | an in-range colour stays in range whichever branch is taken |
| Sampling.Observations | injected.js:94-116 | the colours one pass over the elements sees, `color` then `background-color` of each counted element, in page order; the specification of the batch loops |
| Sampling.TallyOf | injected.js:103-111 | the `Map` after counting the observations; stated by TallyCounts, TallyKeys and TallyPositive |
| Sampling.SortByCount | injected.js:126 | the stable sort by descending count; stated by SortSorted and SortWithCount |
| Sampling.Rank | injected.js:125-128 | `Array.from(colors.entries())`, sorted, then `slice(0, 50)`; stated by RankFacts and RankPrefix |
| Sampling.Sample | injected.js:104-107 | a property value counts once exactly when it is set, not `none` or `transparent`, and normalises, and it counts as its normalised colour |
| Sampling.PutGet | injected.js:108-109 | after `set(k, v)`, `get(k)` is `v` and every other key reads as before |
| Sampling.PutKeys | injected.js:108-109 | `set` keeps the key order for a present key and appends a new key |
| Sampling.CountAllAppend | injected.js:90-116 | counting one run of observations after another is counting them together |
| Sampling.FirstOccurrencesMembers | injected.js:125 | the first-seen list holds exactly the observed colours |
| Sampling.TallyCounts | injected.js:103-111 | every colour is counted exactly as often as it is observed |
| Sampling.TallyKeys | injected.js:108-109 | the keys of the tally are the observed colours in the order they were first seen |
| Sampling.TallyPositive | injected.js:108-109 | every entry of the tally was observed and holds a count of at least 1, equal to its number of observations |
| Sampling.SharedBackground | injected.js:94-112 | N visible elements sharing one background colour give that colour a count of at least N |
| Sampling.SkippedAddNothing | injected.js:95-115 | an element whose access throws, or whose box is empty, changes no count |
| Sampling.CountValue | injected.js:104-111 | one property value adds 1 to its normalised colour when it counts, and leaves the tally alone otherwise |
| Sampling.CountElement | injected.js:94-116 | one element adds the colours of `color` then `background-color`, or nothing when it is passed over |
| Sampling.CountProperties | injected.js:103-112 | the `colorProps.forEach` loop counts each property's colour in order |
| Sampling.CountBatch | injected.js:94-116 | the `batch.forEach` loop counts the observations of the batch's elements in order |
| Sampling.CountColors | injected.js:90-122 | the batched loop over the page gives the tally of all observations, the same as one pass |
| Sampling.SortSorted | injected.js:126 | the sort orders entries by non-increasing count and is a permutation |
| Sampling.SortWithCount | injected.js:126 | the sort is stable: entries of one count keep their order |
| Sampling.RankFacts | injected.js:125-128 | the ranking has min(n, 50) entries with distinct colours, in non-increasing count, drawn from the tally with ties in tally order, and an entry left out counts no more than the last one reported |
| Sampling.RankPrefix | injected.js:125-128 | the ranking is the first min(n, 50) entries of the sorted tally |
| Sampling.RankLeavesOutOnlyLess | injected.js:125-127 | an entry missing from the ranking means the ranking is full and the entry counts no more than its last entry |
| Sampling.ExtractColors | injected.js:82-132 | `extractColors` returns the ranking of the page's tally |
| Sampling.ExtractedColors | injected.js:82-132 | the report has at most 50 distinct colours in non-increasing count, each with a count of at least 1 equal to its number of observations, ties in first-seen order |
| Rules.Assign | injected.js:291 | `table[k] = v` on insertion-ordered keys; stated by AssignFind, AssignOriginals, AssignPresent and AssignAbsent |
| Rules.AssignFind | injected.js:291 | after `table[k] = v`, `k` reads `v` and every other key reads as before |
| Rules.AssignOriginals | injected.js:291 | assigning to a present key keeps the key order, and a new key goes last |
| Rules.AssignPresent | injected.js:291 | assigning to the key at position i replaces that entry and nothing else |
| Rules.AssignAbsent | injected.js:291 | assigning to a key that is not there appends one entry |
| Rules.FindSome | injected.js:291 | a key is found exactly when some entry holds it |
| Rules.AssignDistinct | injected.js:291 | assignment keeps the keys distinct |
| Rules.Escape | injected.js:191 | `replace(/(["\\])/g, '\\$1')`: a backslash before each quote and backslash; stated by UnescapeEscape, EscapeUnescape and ScanEscaped |
| Rules.UnescapeEscape | injected.js:191 | the escape has an inverse that gives the key back |
| Rules.EscapeUnescape | injected.js:191 | the escape is the only text that unescapes to the key |
| Rules.ScanEscaped | injected.js:191-194 | for a key without line breaks, the tokenizer reads the escaped key and its closing quote as one string token whose value is the key |
| Rules.ScanBroken | injected.js:191-194 | a key with a line break gives a bad-string token instead |
| Rules.BlockSelectors | injected.js:191-197 | in a mapping's block, the two selector strings read as `color: key` and `background-color: key` exactly, and the second is followed by the declaration of the mapped colour |
| Rules.Blocks | injected.js:190-198 | the blocks of the table's entries in table order; stated by JoinAround, BlockPlace and AssignBlocks |
| Rules.StyleText | injected.js:187-287 | the base rules, the blocks and the closing text; the specification that GenerateDarkModeCss meets |
| Rules.GenerateDarkModeCss | injected.js:187-287 | the `+=` loop builds the base rules, then the blocks of the table in table order, then the closing text |
| Rules.JoinAround | injected.js:190-198 | the block of an entry sits between the blocks of the entries before it and after it |
| Rules.BlockPlace | injected.js:190-198 | the block of entry i follows the base rules and the blocks of the entries before it |
| Rules.AssignBlocks | injected.js:190-198 | a new key adds its block last, and a present key has its block rewritten in place |
| Engine.StyleElement.constructor | injected.js:76-77 | a new style element has the given id and no text |
| Engine.ApplyState | injected.js:160-169 | `apply`: the flag and the table (or `{}`) are stored, then `applyDarkMode` or `removeDarkMode`; stated by ApplyOn, ApplyOff, ApplyOffOn and ApplyIdempotent |
| Engine.UpdateState | injected.js:290-295 | `updateColorMapping`: the lower-cased key is assigned, and the text is rebuilt while enabled; stated by UpdateTable and UpdateBlocks |
| Engine.ApplyDarkModeState | injected.js:172-176 | `applyDarkMode` sets the style text of the table and the marker class, and keeps the flag and the table |
| Engine.RemoveDarkModeState | injected.js:179-184 | `removeDarkMode` empties the style element if there is one and removes the marker class |
| Engine.DarkModeEngine.constructor | injected.js:61-71 | the engine starts disabled with an empty table and owns a new empty style element appended to the root, so the invariant `Valid()` holds |
| Engine.DarkModeEngine.CreateStyleSheet | injected.js:74-79 | a first call creates and appends the element with id `__dark-mode-styles`; later calls change nothing |
| Engine.DarkModeEngine.ApplyDarkMode | injected.js:172-176 | the new state is the transition `applyDarkMode`; the root gains the marker and no child |
| Engine.DarkModeEngine.ShowStyle | injected.js:174-175 | the two writes of `applyDarkMode`: the text into the element and the marker onto the root |
| Engine.DarkModeEngine.RemoveDarkMode | injected.js:179-184 | the new state is the transition `removeDarkMode`; the root loses the marker |
| Engine.DarkModeEngine.Apply | injected.js:160-169 | the flag and the table (or `{}` when missing) are stored, then dark mode is applied or removed; a table with distinct keys keeps `Valid()` |
| Engine.DarkModeEngine.UpdateColorMapping | injected.js:290-295 | the lower-cased key takes the new colour, and the text is rebuilt only while enabled; the keys stay distinct, so `Valid()` is kept and UpdateBlocks applies to the new state |
| Engine.ApplyOn | injected.js:160-176 | after `apply(true, M)`, the table is M, the text is the style text of M and the marker is on |
| Engine.ApplyOff | injected.js:160-184 | after `apply(false, _)`, the element is empty and the marker is off |
| Engine.ApplyOffOn | injected.js:160-184 | switching off and on again with the same table restores the state that switching on gave |
| Engine.ApplyIdempotent | injected.js:160-184 | repeating `apply` with the same arguments changes nothing |
| Engine.UpdateTable | injected.js:290-295 | an update changes only the lower-cased key, and while disabled nothing but the table changes |
| Engine.UpdateBlocks | injected.js:290-295 | while enabled, a new key adds its block after all others, and a present key has its block rewritten in place |
| Presets.Choose | background.js:128-133 | the palette, or `default`, with the user's colours over it; stated by PaletteFields, LinkIgnoresPreset and UnknownPresetFallsBack |
| Presets.GenerateCustomCss | background.js:118-248 | the template with the chosen colours in its slots; stated by DeclPlace, ChosenAppears, FixedAppears, LinkSlots, BgSlots and FixedLiterals |
| Presets.ChooseAsWritten | background.js:128-133 | the lookup as written, where an inherited member is kept and reads `undefined`; stated by InheritedNameAsWritten and AsWrittenAgrees |
| Presets.GenerateCustomCssAsWritten | background.js:118-248 | the template filled from the lookup as written; stated by AsWrittenAgrees |
| Presets.PresetNames | background.js:119-125 | the palette table has exactly the keys default, midnight, deep, neon and amoled |
| Presets.UnknownPresetFallsBack | background.js:128 | a name that is not a palette's gives what `default` gives |
| Presets.PaletteFields | background.js:129-132 | each of background, text, secondary and border is the user's colour when non-empty, and the palette's otherwise |
| Presets.LinkIgnoresPreset | background.js:133 | the link colour is the user's or `#64b5f6`, whatever the palette |
| Presets.AllCustomIgnoresPreset | background.js:128-133 | with all five colours given, the style sheet does not depend on the palette name |
| Presets.DeclPlace | background.js:135-247 | every declaration is written on its own line inside its rule's block, between all that precedes and all that follows it |
| Presets.ChosenAppears | background.js:135-247 | each chosen colour is written verbatim as the value of every slot that holds it |
| Presets.FixedAppears | background.js:135-247 | a fixed value is written as it is, whatever the inputs |
| Presets.LinkSlots | background.js:157-238 | the link colour goes to `a`, the `::selection` background, the `blockquote` left border and the `*:focus` outline |
| Presets.BgSlots | background.js:136-229 | the background colour goes to `html, body`, the containers, tables, the scrollbar track and dialogs |
| Presets.FixedLiterals | background.js:161-246 | visited links are `#ba68c8`, headings `#ffffff`, placeholders `#808080` and disabled elements have opacity 0.5 |
| Presets.InheritedNameAsWritten | background.js:128 | as written, the name `toString` finds an inherited member, and the background becomes `undefined` instead of the default palette's |
| Presets.AsWrittenAgrees | background.js:128 | away from `Object.prototype`'s names, the lookup as written and the corrected one agree |

## Left out

- Doubles: the transform and the luminance are exact on rationals. A channel where JavaScript's `0.15 * c` or `1.3 * c` lands beside a `.5` tie may round the other way.
- ColorUtils.ParseFloat: the result is the exact rational the text denotes (`0.1` is 1/10), not the nearest double.
- Transform.Light, Transform.Dark: these use exact rounding, so ties computed in doubles are not modelled.
- ColorUtils.Luminance: `Math.pow(_, 2.4)` is a parameter, so only its weights and the branch at 0.03928 are modelled. The claim that the light branch lowers the luminance is not made, because the code does not keep it.
- ColorUtils.ToLower: ASCII only, not full Unicode case mapping. Normalised keys are ASCII.
- The host's colour resolution (the throw-away element, `getComputedStyle`, the bounding box) is a parameter or a field of the element record.
- Sampling: an element whose access throws is a flag on its record. The model does not say which DOM operations throw.
- The `await setTimeout` yield between batches (injected.js:119-121) and `console.log` are left out, since they are scheduling and logging.
- The `window.postMessage` listener (injected.js:302-322), the injection guard and the window globals (injected.js:6-7, 325) are left out, since they are messaging and globals.
- The `observer` and `isProcessing` fields are never used, so they are not modelled.
- `generateDarkColor` is not called on any live path, so it is modelled on its own.
- Rules: JavaScript objects list integer-like keys first. The table keeps insertion order for every key, and the key `__proto__` is not treated specially.
- Rules.NextString: the tokenizer is simplified. It skips to the next quote and consumes a string token (section 4.3.5). This is exact for the block's lead texts, which hold no quote, backslash or comment start, but it is not a full CSS tokenizer.
- Mapped colours are written into the style text unescaped (injected.js:195, background.js:135-247), and no safety is claimed for them.
- Keys with lone surrogates or characters outside the model's `char` are not considered.
- Engine: the root's `classList` is a set, so the order of classes is not modelled.
- Engine.DarkModeEngine.ApplyDarkMode: its two writes are stated by the helper `ShowStyle`.
- Engine: `styleSheet.textContent = css` with no style element would throw. The model requires the element, which `init()` always creates first.
- Engine.DarkModeEngine.Apply: `this.colorMappings = colorMappings || {}` (injected.js:162) keeps the caller's object by reference, and `updateColorMapping` later changes that same object. The model copies the table as a value, so that sharing is not modelled. The only caller passes data cloned by `postMessage`, so no other code holds the object.
- Presets: custom colours and the palette name are strings or unset. Numbers, objects and a missing `customColors` are not modelled; the callers always pass `{}` or a string.
- Chrome plumbing in background.js is not modelled: `insertCSS`, `tabs.reload`, storage and the message handler (background.js:251-311) are foreign calls. The unused `DARK_CSS` (background.js:4-116) is not modelled either.
- The text after the script's closing `})();` (injected.js:327-496) is not modelled. It makes the file fail to parse, and the model treats it as deleted.
- popup.js and content.js are not part of this model. They are interface wiring and a ping responder.

## Findings

| source | as written | input that shows it | evidently intended | confidence | as-written member | corrected member |
|---|---|---|---|---|---|---|
| background.js:128 | `presets[preset] \|\| presets.default` also finds the members every object inherits, such as `toString`, `constructor` and `__proto__`; they are true values, so the default is not used, and each colour reads `undefined` | preset `toString` with no custom colours gives the background text `undefined` | any name that is not one of the five palettes falls back to `default` | not executed; medium, since the message handler passes any `request.preset` | Presets.InheritedNameAsWritten | Presets.UnknownPresetFallsBack |
