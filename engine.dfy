/**
 * The state of `DarkModeEngine` in the injected page script: whether dark
 * mode is on, the colour mapping table, the one `<style>` element the engine
 * creates and owns, and the `__dark-mode-active` class on the root element
 * that scopes every rule of the style text.
 *
 * The class `DarkModeEngine` updates its fields in place as the script does;
 * each method states its new state through `State()`, a value that the pure
 * transitions `ApplyDarkModeState`, `RemoveDarkModeState`, `ApplyState` and
 * `UpdateState` compute, and the lemmas at the end state what the script
 * promises about sequences of calls.
 */
module Engine {
  import opened Wrappers
  import opened Rules
  import ColorUtils

  /** The `id` the engine gives its style element. */
  const StyleId: string := "__dark-mode-styles"

  /** A `<style>` element: its `id` and its text. */
  class StyleElement {
    const id: string
    var textContent: string

    constructor (id: string)
      ensures this.id == id && textContent == ""
    {
      this.id := id;
      textContent := "";
    }
  }

  /** `document.documentElement`: its classes and the children appended to it. */
  class RootElement {
    var classList: set<string>
    var children: seq<object>

    constructor (classList: set<string>, children: seq<object>)
      ensures this.classList == classList && this.children == children
    {
      this.classList := classList;
      this.children := children;
    }
  }

  /**
   * What the engine's behaviour depends on: the enabled flag, the table, the
   * text of the style element (`None` while there is no style element) and
   * whether the root carries the marker class.
   */
  datatype EngineState = EngineState(enabled: bool, table: Table, text: Option<string>, marked: bool)

  /** `applyDarkMode`: the style text of the table goes into the style element, and the marker is added. */
  function ApplyDarkModeState(v: EngineState): (w: EngineState)
    requires v.text.Some?
    ensures w.enabled == v.enabled && w.table == v.table
    ensures w.text == Some(StyleText(v.table)) && w.marked
  {
    EngineState(v.enabled, v.table, Some(StyleText(v.table)), true)
  }

  /** `removeDarkMode`: the style element, if there is one, is emptied, and the marker is removed. */
  function RemoveDarkModeState(v: EngineState): (w: EngineState)
    ensures w.enabled == v.enabled && w.table == v.table
    ensures w.text == (if v.text.Some? then Some("") else None) && !w.marked
  {
    EngineState(v.enabled, v.table, if v.text.Some? then Some("") else None, false)
  }

  /** `apply(enabled, colorMappings)`; `None` stands for a missing or `null` table, which becomes `{}`. */
  function ApplyState(v: EngineState, enabled: bool, mappings: Option<Table>): EngineState
    requires enabled ==> v.text.Some?
  {
    var table := if mappings.Some? then mappings.value else [];
    var w := EngineState(enabled, table, v.text, v.marked);
    if enabled then ApplyDarkModeState(w) else RemoveDarkModeState(w)
  }

  /** `updateColorMapping(originalColor, newColor)`: the lower-cased key takes the new colour, and the text is rebuilt only while enabled. */
  function UpdateState(v: EngineState, originalColor: string, newColor: string): EngineState
    requires v.enabled ==> v.text.Some?
  {
    var w := v.(table := Assign(v.table, ColorUtils.ToLower(originalColor), newColor));
    if v.enabled then ApplyDarkModeState(w) else w
  }

  /** `DarkModeEngine`, with the style element it creates on load. */
  class DarkModeEngine {
    var enabled: bool
    var colorMappings: Table
    var styleSheet: StyleElement?
    const root: RootElement

    /**
     * The engine after `init()`: it owns its style element from then on, and
     * its table, a JavaScript object, has each key once.
     */
    ghost predicate Valid()
      reads this
    {
      styleSheet != null && styleSheet.id == StyleId && DistinctOriginals(colorMappings)
    }

    function State(): EngineState
      reads this, styleSheet, root
    {
      EngineState(enabled, colorMappings, if styleSheet == null then None else Some(styleSheet.textContent), Marker in root.classList)
    }

    /** The object literal and `DarkModeEngine.init()`: disabled, an empty table, and a new empty style element appended to the root. */
    constructor (root: RootElement)
      modifies root
      ensures Valid() && this.root == root
      ensures !enabled && colorMappings == []
      ensures fresh(styleSheet) && styleSheet.textContent == ""
      ensures root.children == old(root.children) + [styleSheet] && root.classList == old(root.classList)
    {
      enabled := false;
      colorMappings := [];
      styleSheet := null;
      this.root := root;
      new;
      CreateStyleSheet();
    }

    /** `createStyleSheet`: a second call finds the style element and does nothing. */
    method CreateStyleSheet()
      modifies this, root
      ensures enabled == old(enabled) && colorMappings == old(colorMappings) && root.classList == old(root.classList)
      ensures old(styleSheet) != null ==> styleSheet == old(styleSheet) && root.children == old(root.children)
      ensures old(styleSheet) == null ==>
        && fresh(styleSheet) && styleSheet.id == StyleId && styleSheet.textContent == ""
        && root.children == old(root.children) + [styleSheet]
      ensures styleSheet != null
    {
      if styleSheet != null {
        return;
      }
      var sheet := new StyleElement(StyleId);
      styleSheet := sheet;
      root.children := root.children + [sheet];
    }

    /** `applyDarkMode`; the script reaches it only once the style element exists. */
    method ApplyDarkMode()
      requires Valid()
      modifies styleSheet, root
      ensures Valid()
      ensures State() == ApplyDarkModeState(old(State()))
      ensures root.classList == old(root.classList) + {Marker} && root.children == old(root.children)
    {
      var css := GenerateDarkModeCss(colorMappings);
      ShowStyle(css);
    }

    /** The two writes of `applyDarkMode`: the text into the style element, the marker onto the root. */
    method ShowStyle(css: string)
      requires styleSheet != null
      modifies styleSheet, root
      ensures State() == old(State()).(text := Some(css), marked := true)
      ensures root.classList == old(root.classList) + {Marker} && root.children == old(root.children)
    {
      styleSheet.textContent := css;
      root.classList := root.classList + {Marker};
    }

    /** `removeDarkMode`; the script checks for the style element, which a valid engine always has. */
    method RemoveDarkMode()
      requires Valid()
      modifies styleSheet, root
      ensures Valid()
      ensures State() == RemoveDarkModeState(old(State()))
      ensures root.classList == old(root.classList) - {Marker} && root.children == old(root.children)
    {
      if styleSheet != null {
        styleSheet.textContent := "";
      }
      root.classList := root.classList - {Marker};
    }

    /** `apply(enabled, colorMappings)`. */
    method Apply(enabled: bool, mappings: Option<Table>)
      requires Valid()
      requires mappings.Some? ==> DistinctOriginals(mappings.value)
      modifies this, styleSheet, root
      ensures Valid()
      ensures styleSheet == old(styleSheet) && root.children == old(root.children)
      ensures State() == ApplyState(old(State()), enabled, mappings)
    {
      this.enabled := enabled;
      colorMappings := if mappings.Some? then mappings.value else [];
      if enabled {
        ApplyDarkMode();
      } else {
        RemoveDarkMode();
      }
    }

    /** `updateColorMapping(originalColor, newColor)`. */
    method UpdateColorMapping(originalColor: string, newColor: string)
      requires Valid()
      modifies this, styleSheet, root
      ensures Valid()
      ensures styleSheet == old(styleSheet) && root.children == old(root.children)
      ensures State() == UpdateState(old(State()), originalColor, newColor)
    {
      AssignDistinct(colorMappings, ColorUtils.ToLower(originalColor), newColor);
      colorMappings := Assign(colorMappings, ColorUtils.ToLower(originalColor), newColor);
      if enabled {
        ApplyDarkMode();
      }
    }
  }

  // ----------------------------------------------------------------------
  // What sequences of calls do
  // ----------------------------------------------------------------------

  /** After `apply(true, M)` the table is `M`, the text is the style text of `M` and the marker is on. */
  lemma ApplyOn(v: EngineState, m: Table)
    requires v.text.Some?
    ensures ApplyState(v, true, Some(m)) == EngineState(true, m, Some(StyleText(m)), true)
  {
  }

  /** After `apply(false, _)` the style element is empty and the marker is off. */
  lemma ApplyOff(v: EngineState, mappings: Option<Table>)
    ensures var w := ApplyState(v, false, mappings);
      && !w.enabled && !w.marked && w.text == (if v.text.Some? then Some("") else None)
  {
  }

  /** Turning dark mode off and on again with the same table gives the state that turning it on gave. */
  lemma ApplyOffOn(v: EngineState, mappings: Option<Table>)
    requires v.text.Some?
    ensures var on := ApplyState(v, true, mappings);
      ApplyState(ApplyState(on, false, mappings), true, mappings) == on
  {
  }

  /** Repeating `apply` with the same arguments changes nothing. */
  lemma ApplyIdempotent(v: EngineState, enabled: bool, mappings: Option<Table>)
    requires v.text.Some?
    ensures ApplyState(ApplyState(v, enabled, mappings), enabled, mappings) == ApplyState(v, enabled, mappings)
  {
  }

  /**
   * `updateColorMapping` keys the table by the lower-cased colour and leaves
   * every other key alone; while disabled nothing but the table changes.
   */
  lemma UpdateTable(v: EngineState, originalColor: string, newColor: string, key: string)
    requires v.enabled ==> v.text.Some?
    ensures var w := UpdateState(v, originalColor, newColor);
      && Find(w.table, key) == (if key == ColorUtils.ToLower(originalColor) then Some(newColor) else Find(v.table, key))
      && w.enabled == v.enabled
      && (!v.enabled ==> w.text == v.text && w.marked == v.marked)
  {
    AssignFind(v.table, ColorUtils.ToLower(originalColor), newColor, key);
  }

  /**
   * While enabled, an update rebuilds the text: a new key adds its block after
   * all the others, a present key has its block rewritten in place.
   */
  lemma UpdateBlocks(v: EngineState, originalColor: string, newColor: string)
    requires v.enabled && v.text.Some? && DistinctOriginals(v.table)
    ensures var k, w := ColorUtils.ToLower(originalColor), UpdateState(v, originalColor, newColor);
      && w.marked
      && (Find(v.table, k) == None ==>
        w.text == Some(BaseRules + (Blocks(v.table) + Block(Mapping(k, newColor))) + Closing))
      && (forall i :: 0 <= i < |v.table| && v.table[i].original == k ==>
        w.text == Some(BaseRules + (Blocks(v.table[..i]) + Block(Mapping(k, newColor)) + Blocks(v.table[i + 1..])) + Closing))
  {
    AssignBlocks(v.table, ColorUtils.ToLower(originalColor), newColor);
  }
}
