/**
 * `DarkModeEngine.extractColors` of the injected page script: every element
 * of the page is visited in batches of 100, the `color` and
 * `background-color` of each visible element are normalised to `#rrggbb` and
 * tallied in a `Map`, and the tally is ranked by count, most frequent first,
 * keeping the 50 most frequent.
 *
 * The page is a sequence of element records: the size of the element's
 * bounding box, its computed style as a map from property names to values,
 * and whether reading them throws.
 */
module Sampling {
  import opened Wrappers
  import opened ColorUtils

  // ----------------------------------------------------------------------
  // The page and what it contributes
  // ----------------------------------------------------------------------

  datatype Element = Element(width: real, height: real, computed: map<string, string>, accessible: bool)

  /** `getComputedStyle(el).getPropertyValue(prop)`: the empty string for a property that is not set. */
  function PropertyValue(el: Element, prop: string): string
  {
    if prop in el.computed then el.computed[prop] else ""
  }

  /** The properties read from every element, in order. */
  const ColorProps: seq<string> := ["color", "background-color"]

  /** The elements that are passed over: those whose access throws, and those with an empty bounding box. */
  predicate Skipped(el: Element) {
    !el.accessible || (el.width == 0.0 && el.height == 0.0)
  }

  /** `ColorUtils.normalize`, as the counting code sees it: a value in, `#rrggbb` or `null` out. */
  type Normalizer = string -> Option<string>

  /** What one property value adds to the tally: its normalised colour, or nothing. */
  function Sample(normalize: Normalizer, value: string): (r: seq<string>)
    ensures |r| <= 1
    ensures r != [] <==> value != "" && value != "none" && value != "transparent" && normalize(value).Some?
    ensures r != [] ==> r[0] == normalize(value).value
  {
    if value != "" && value != "none" && value != "transparent" then
      var normalized := normalize(value);
      if normalized.Some? then [normalized.value] else []
    else []
  }

  /** The colours the properties `props` of an element add, in order. */
  function SampleProps(normalize: Normalizer, el: Element, props: seq<string>): seq<string>
  {
    if props == [] then []
    else SampleProps(normalize, el, props[..|props| - 1]) + Sample(normalize, PropertyValue(el, props[|props| - 1]))
  }

  /** The colours one element adds: nothing when it is passed over, else those of `color` and `background-color`, in that order. */
  function Contributions(normalize: Normalizer, el: Element): seq<string>
  {
    if Skipped(el) then []
    else Sample(normalize, PropertyValue(el, "color")) + Sample(normalize, PropertyValue(el, "background-color"))
  }

  /** The colours the elements add, in document order. */
  function Observations(normalize: Normalizer, els: seq<Element>): seq<string>
  {
    if els == [] then [] else Observations(normalize, els[..|els| - 1]) + Contributions(normalize, els[|els| - 1])
  }

  /** Reading the properties of `ColorProps` in order gives the colours of `color`, then of `background-color`. */
  lemma SamplePropsAll(normalize: Normalizer, el: Element)
    ensures SampleProps(normalize, el, ColorProps) == Sample(normalize, PropertyValue(el, "color")) + Sample(normalize, PropertyValue(el, "background-color"))
  {
    assert ColorProps[..1] == ["color"];
    assert ["color"][..0] == [];
    assert SampleProps(normalize, el, ["color"]) == [] + Sample(normalize, PropertyValue(el, "color"));
  }

  // ----------------------------------------------------------------------
  // The tally: a Map from colours to counts, in insertion order
  // ----------------------------------------------------------------------

  datatype Entry = Entry(color: string, count: nat)

  /** The entries of a `Map`, in insertion order. */
  type Tally = seq<Entry>

  function Keys(t: Tally): (ks: seq<string>)
    ensures |ks| == |t|
  {
    if t == [] then [] else [t[0].color] + Keys(t[1..])
  }

  lemma {:induction false} KeyAt(t: Tally, i: nat)
    requires i < |t|
    ensures Keys(t)[i] == t[i].color
  {
    if i > 0 {
      KeyAt(t[1..], i - 1);
    }
  }

  predicate DistinctKeys(t: Tally) {
    forall i, j :: 0 <= i < j < |t| ==> t[i].color != t[j].color
  }

  /** `map.get(k) || 0`. */
  function Get(t: Tally, k: string): nat
  {
    if t == [] then 0 else if t[0].color == k then t[0].count else Get(t[1..], k)
  }

  /** `map.set(k, v)`: an existing key keeps its place, a new one goes last. */
  function Put(t: Tally, k: string, v: nat): Tally
  {
    if t == [] then [Entry(k, v)]
    else if t[0].color == k then [Entry(k, v)] + t[1..]
    else [t[0]] + Put(t[1..], k, v)
  }

  /** After `set(k, v)`, `get(k)` is `v` and every other key reads as before. */
  lemma {:induction false} PutGet(t: Tally, k: string, v: nat, j: string)
    ensures Get(Put(t, k, v), j) == if j == k then v else Get(t, j)
  {
    if t != [] && t[0].color != k {
      PutGet(t[1..], k, v, j);
    }
  }

  /** `set` on a present key keeps the order of keys; on a new key it appends it. */
  lemma {:induction false} PutKeys(t: Tally, k: string, v: nat)
    ensures Keys(Put(t, k, v)) == if k in Keys(t) then Keys(t) else Keys(t) + [k]
  {
    if t != [] && t[0].color != k {
      PutKeys(t[1..], k, v);
      assert Keys(t) == [t[0].color] + Keys(t[1..]);
      assert k in Keys(t) <==> k in Keys(t[1..]);
    }
  }

  /** A key of a tally with distinct keys is found at its own entry. */
  lemma {:induction false} GetAt(t: Tally, i: nat)
    requires DistinctKeys(t) && i < |t|
    ensures Get(t, t[i].color) == t[i].count
  {
    if i > 0 {
      assert t[0].color != t[i].color;
      GetAt(t[1..], i - 1);
    }
  }

  lemma KeysDistinct(t: Tally)
    requires NoRepeats(Keys(t))
    ensures DistinctKeys(t)
  {
    forall i, j | 0 <= i < j < |t| ensures t[i].color != t[j].color {
      KeyAt(t, i);
      KeyAt(t, j);
    }
  }

  /** The counting step of `extractColors`: `colors.set(c, (colors.get(c) || 0) + 1)`. */
  function Step(t: Tally, c: string): Tally
  {
    Put(t, c, Get(t, c) + 1)
  }

  /** The tally `t` after counting the observations `obs` into it, one at a time. */
  function CountAll(t: Tally, obs: seq<string>): Tally
  {
    if obs == [] then t else Step(CountAll(t, obs[..|obs| - 1]), obs[|obs| - 1])
  }

  /** The tally of a sequence of observed colours: counted into an empty map. */
  function TallyOf(obs: seq<string>): Tally
  {
    CountAll([], obs)
  }

  /** Counting one more observation is one more step. */
  lemma CountAllSnoc(t: Tally, obs: seq<string>, c: string)
    ensures CountAll(t, obs + [c]) == Step(CountAll(t, obs), c)
  {
    assert (obs + [c])[..|obs|] == obs;
  }

  /** Counting `a` and then `b` is counting `a + b`. */
  lemma {:induction false} CountAllAppend(t: Tally, a: seq<string>, b: seq<string>)
    ensures CountAll(CountAll(t, a), b) == CountAll(t, a + b)
  {
    if b == [] {
      assert a + b == a;
    } else {
      var prefix, last := b[..|b| - 1], b[|b| - 1];
      calc {
        CountAll(CountAll(t, a), b);
        Step(CountAll(CountAll(t, a), prefix), last);
        { CountAllAppend(t, a, prefix); }
        Step(CountAll(t, a + prefix), last);
        { CountAllSnoc(t, a + prefix, last); }
        CountAll(t, (a + prefix) + [last]);
        { assert (a + prefix) + [last] == a + b; }
        CountAll(t, a + b);
      }
    }
  }

  /** The colours of `obs` in the order they are first seen: an independent description of the tally's keys. */
  function FirstOccurrences(obs: seq<string>): seq<string>
  {
    if obs == [] then []
    else
      var f := FirstOccurrences(obs[..|obs| - 1]);
      if obs[|obs| - 1] in f then f else f + [obs[|obs| - 1]]
  }

  /** Each observed colour is listed, and nothing else. */
  lemma {:induction false} FirstOccurrencesMembers(obs: seq<string>, c: string)
    ensures c in FirstOccurrences(obs) <==> c in obs
  {
    if obs != [] {
      var prefix, last := obs[..|obs| - 1], obs[|obs| - 1];
      FirstOccurrencesMembers(prefix, c);
      assert obs == prefix + [last];
      assert c in obs <==> c in prefix || c == last;
    }
  }

  /** Every colour is tallied exactly as often as it is observed. */
  lemma {:induction false} TallyCounts(obs: seq<string>, c: string)
    ensures Get(TallyOf(obs), c) == multiset(obs)[c]
  {
    if obs != [] {
      var prefix, last := obs[..|obs| - 1], obs[|obs| - 1];
      TallyCounts(prefix, c);
      TallyCounts(prefix, last);
      PutGet(TallyOf(prefix), last, Get(TallyOf(prefix), last) + 1, c);
      assert obs == prefix + [last];
      assert multiset(obs) == multiset(prefix) + multiset{last};
    }
  }

  /** The keys of the tally are the observed colours in order of first appearance. */
  lemma {:induction false} TallyKeys(obs: seq<string>)
    ensures Keys(TallyOf(obs)) == FirstOccurrences(obs)
  {
    if obs != [] {
      var prefix, last := obs[..|obs| - 1], obs[|obs| - 1];
      assert obs == prefix + [last];
      TallyKeys(prefix);
      CountAllSnoc([], prefix, last);
      FirstOccurrencesSnoc(prefix, last);
      var t := TallyOf(prefix);
      PutKeys(t, last, Get(t, last) + 1);
    }
  }

  lemma FirstOccurrencesSnoc(obs: seq<string>, c: string)
    ensures FirstOccurrences(obs + [c]) == if c in FirstOccurrences(obs) then FirstOccurrences(obs) else FirstOccurrences(obs) + [c]
  {
    assert (obs + [c])[..|obs|] == obs;
  }

  lemma TallyDistinct(obs: seq<string>)
    ensures DistinctKeys(TallyOf(obs))
  {
    TallyKeys(obs);
    FirstOccurrencesDistinct(obs);
    KeysDistinct(TallyOf(obs));
  }

  predicate NoRepeats(f: seq<string>) {
    forall i, j :: 0 <= i < j < |f| ==> f[i] != f[j]
  }

  lemma {:induction false} FirstOccurrencesDistinct(obs: seq<string>)
    ensures NoRepeats(FirstOccurrences(obs))
  {
    if obs != [] {
      var prefix, last := obs[..|obs| - 1], obs[|obs| - 1];
      FirstOccurrencesDistinct(prefix);
      var g := FirstOccurrences(prefix);
      assert FirstOccurrences(obs) == if last in g then g else g + [last];
      if last !in g {
        var f := g + [last];
        forall i, j | 0 <= i < j < |f| ensures f[i] != f[j] {
          assert f[i] == g[i] && g[i] in g;
          if j < |g| {
            assert f[j] == g[j];
          }
        }
      }
    }
  }

  /** Every entry of the tally has a count of at least one. */
  predicate AllCounted(t: Tally) {
    forall i :: 0 <= i < |t| ==> t[i].count >= 1
  }

  lemma {:induction false} PutCounted(t: Tally, k: string, v: nat)
    requires AllCounted(t) && v >= 1
    ensures AllCounted(Put(t, k, v))
  {
    if t != [] && t[0].color != k {
      PutCounted(t[1..], k, v);
      var r := Put(t[1..], k, v);
      assert Put(t, k, v) == [t[0]] + r;
      forall i | 0 <= i < |[t[0]] + r| ensures ([t[0]] + r)[i].count >= 1 {
        if i > 0 { assert ([t[0]] + r)[i] == r[i - 1]; }
      }
    } else if t != [] {
      forall i | 0 <= i < |Put(t, k, v)| ensures Put(t, k, v)[i].count >= 1 {
        if i > 0 { assert Put(t, k, v)[i] == t[i]; }
      }
    }
  }

  lemma {:induction false} TallyCounted(obs: seq<string>)
    ensures AllCounted(TallyOf(obs))
  {
    if obs != [] {
      var prefix, last := obs[..|obs| - 1], obs[|obs| - 1];
      TallyCounted(prefix);
      PutCounted(TallyOf(prefix), last, Get(TallyOf(prefix), last) + 1);
    }
  }

  /** Every tallied colour was observed, at least once, and its entry holds its number of observations. */
  lemma TallyPositive(obs: seq<string>)
    ensures forall i :: 0 <= i < |TallyOf(obs)| ==>
      1 <= TallyOf(obs)[i].count == multiset(obs)[TallyOf(obs)[i].color] && TallyOf(obs)[i].color in obs
  {
    var t := TallyOf(obs);
    TallyCounted(obs);
    TallyDistinct(obs);
    forall i | 0 <= i < |t| ensures 1 <= t[i].count == multiset(obs)[t[i].color] && t[i].color in obs {
      GetAt(t, i);
      TallyCounts(obs, t[i].color);
    }
  }

  /** Visible elements that share one background colour give that colour at least as many counts as there are of them. */
  lemma {:induction false} SharedBackground(normalize: Normalizer, els: seq<Element>, c: string)
    requires forall i :: 0 <= i < |els| ==> !Skipped(els[i]) && Sample(normalize, PropertyValue(els[i], "background-color")) == [c]
    ensures Get(TallyOf(Observations(normalize, els)), c) >= |els|
  {
    TallyCounts(Observations(normalize, els), c);
    SharedBackgroundObserved(normalize, els, c);
  }

  lemma {:induction false} SharedBackgroundObserved(normalize: Normalizer, els: seq<Element>, c: string)
    requires forall i :: 0 <= i < |els| ==> !Skipped(els[i]) && Sample(normalize, PropertyValue(els[i], "background-color")) == [c]
    ensures multiset(Observations(normalize, els))[c] >= |els|
  {
    if els != [] {
      var prefix, last := els[..|els| - 1], els[|els| - 1];
      SharedBackgroundObserved(normalize, prefix, c);
      var first := Sample(normalize, PropertyValue(last, "color"));
      assert Observations(normalize, els) == Observations(normalize, prefix) + (first + [c]);
      assert multiset(Observations(normalize, els)) == multiset(Observations(normalize, prefix)) + multiset(first) + multiset{c};
    }
  }

  /** Elements that are passed over change nothing. */
  lemma SkippedAddNothing(normalize: Normalizer, els: seq<Element>, el: Element)
    requires Skipped(el)
    ensures TallyOf(Observations(normalize, els + [el])) == TallyOf(Observations(normalize, els))
  {
    assert (els + [el])[..|els|] == els;
    assert Observations(normalize, els) + [] == Observations(normalize, els);
  }

  // ----------------------------------------------------------------------
  // The counting loop
  // ----------------------------------------------------------------------

  const BatchSize: nat := 100

  function Min(a: int, b: int): int { if a < b then a else b }

  /** The observations of one more element. */
  lemma ObservationsSnoc(normalize: Normalizer, elements: seq<Element>, k: nat)
    requires k < |elements|
    ensures Observations(normalize, elements[..k + 1]) == Observations(normalize, elements[..k]) + Contributions(normalize, elements[k])
  {
    assert elements[..k + 1][..k] == elements[..k];
  }

  /** The colours of one more property. */
  lemma SamplePropsSnoc(normalize: Normalizer, el: Element, props: seq<string>, q: nat)
    requires q < |props|
    ensures SampleProps(normalize, el, props[..q + 1]) == SampleProps(normalize, el, props[..q]) + Sample(normalize, PropertyValue(el, props[q]))
  {
    assert props[..q + 1][..q] == props[..q];
  }

  /** The tally after one more property of an element. */
  lemma NextProperty(normalize: Normalizer, el: Element, props: seq<string>, colors: Tally, q: nat, prev: Tally, updated: Tally)
    requires q < |props|
    requires prev == CountAll(colors, SampleProps(normalize, el, props[..q]))
    requires var sample := Sample(normalize, PropertyValue(el, props[q]));
      updated == if sample == [] then prev else Step(prev, sample[0])
    ensures updated == CountAll(colors, SampleProps(normalize, el, props[..q + 1]))
  {
    var sofar := SampleProps(normalize, el, props[..q]);
    var sample := Sample(normalize, PropertyValue(el, props[q]));
    SamplePropsSnoc(normalize, el, props, q);
    if sample == [] {
      assert sofar + sample == sofar;
    } else {
      assert sample == [sample[0]];
      assert (sofar + sample)[..|sofar|] == sofar;
    }
  }

  /** One property value: counted once when it is set, not `none` or `transparent`, and normalises. */
  method CountValue(normalize: Normalizer, value: string, colors: Tally) returns (updated: Tally)
    ensures var sample := Sample(normalize, value);
      updated == if sample == [] then colors else Step(colors, sample[0])
  {
    updated := colors;
    if value != "" && value != "none" && value != "transparent" {
      var normalized := normalize(value);
      if normalized.Some? {
        var count := Get(updated, normalized.value);
        updated := Put(updated, normalized.value, count + 1);
      }
    }
  }

  /**
   * The body of the per-element callback of `extractColors`: nothing for an
   * element that is passed over, otherwise one count for each of its colour
   * properties whose value is set, not `none` or `transparent`, and normalises.
   */
  method CountElement(normalize: Normalizer, el: Element, colors: Tally) returns (updated: Tally)
    ensures updated == CountAll(colors, Contributions(normalize, el))
  {
    if !el.accessible || (el.width == 0.0 && el.height == 0.0) {
      return colors;
    }
    updated := CountProperties(normalize, el, ColorProps, colors);
    SamplePropsAll(normalize, el);
  }

  /** `colorProps.forEach(...)`: the properties `props` of one element, in order. */
  method CountProperties(normalize: Normalizer, el: Element, props: seq<string>, colors: Tally) returns (updated: Tally)
    ensures updated == CountAll(colors, SampleProps(normalize, el, props))
  {
    updated := colors;
    var q := 0;
    assert props[..0] == [];
    while q < |props|
      invariant 0 <= q <= |props|
      invariant updated == CountAll(colors, SampleProps(normalize, el, props[..q]))
    {
      ghost var prev := updated;
      updated := CountValue(normalize, PropertyValue(el, props[q]), updated);
      NextProperty(normalize, el, props, colors, q, prev, updated);
      q := q + 1;
    }
    assert props[..|props|] == props;
  }

  /** The last element of `a + b` and what comes before it, for a non-empty `b`. */
  lemma AppendLast<T>(a: seq<T>, b: seq<T>)
    requires b != []
    ensures (a + b)[..|a + b| - 1] == a + b[..|b| - 1]
    ensures (a + b)[|a + b| - 1] == b[|b| - 1]
  {
  }

  /** The observations of two runs of elements, one after the other. */
  lemma {:induction false} ObservationsAppend(normalize: Normalizer, a: seq<Element>, b: seq<Element>)
    ensures Observations(normalize, a + b) == Observations(normalize, a) + Observations(normalize, b)
  {
    if b == [] {
      assert a + b == a;
    } else {
      var prefix, last := b[..|b| - 1], b[|b| - 1];
      AppendLast(a, b);
      ObservationsAppend(normalize, a, prefix);
      AppendAssoc(Observations(normalize, a), Observations(normalize, prefix), Contributions(normalize, last));
    }
  }

  lemma AppendAssoc<T>(x: seq<T>, y: seq<T>, z: seq<T>)
    ensures (x + y) + z == x + (y + z)
  {
  }

  /** The tally after one more element of a batch. */
  lemma NextElement(normalize: Normalizer, batch: seq<Element>, colors: Tally, j: nat, prev: Tally, updated: Tally)
    requires j < |batch|
    requires prev == CountAll(colors, Observations(normalize, batch[..j]))
    requires updated == CountAll(prev, Contributions(normalize, batch[j]))
    ensures updated == CountAll(colors, Observations(normalize, batch[..j + 1]))
  {
    ObservationsSnoc(normalize, batch, j);
    CountAllAppend(colors, Observations(normalize, batch[..j]), Contributions(normalize, batch[j]));
  }

  /** `batch.forEach(...)`: each element of one batch through `CountElement`, in order. */
  method CountBatch(normalize: Normalizer, batch: seq<Element>, colors: Tally) returns (updated: Tally)
    ensures updated == CountAll(colors, Observations(normalize, batch))
  {
    updated := colors;
    var j := 0;
    assert batch[..0] == [];
    while j < |batch|
      invariant 0 <= j <= |batch|
      invariant updated == CountAll(colors, Observations(normalize, batch[..j]))
    {
      ghost var prev := updated;
      updated := CountElement(normalize, batch[j], updated);
      NextElement(normalize, batch, colors, j, prev, updated);
      j := j + 1;
    }
    assert batch[..|batch|] == batch;
  }

  /** The tally after the batch of elements `i` to `end` of the page. */
  lemma NextBatch(normalize: Normalizer, elements: seq<Element>, i: nat, end: nat, prev: Tally, updated: Tally)
    requires i <= end <= |elements|
    requires prev == TallyOf(Observations(normalize, elements[..i]))
    requires updated == CountAll(prev, Observations(normalize, elements[i..end]))
    ensures updated == TallyOf(Observations(normalize, elements[..end]))
  {
    var done, batch := elements[..i], elements[i..end];
    calc {
      updated;
      CountAll(CountAll([], Observations(normalize, done)), Observations(normalize, batch));
      { CountAllAppend([], Observations(normalize, done), Observations(normalize, batch)); }
      CountAll([], Observations(normalize, done) + Observations(normalize, batch));
      { ObservationsAppend(normalize, done, batch); }
      CountAll([], Observations(normalize, done + batch));
      { SplitAt(elements, i, end); }
      TallyOf(Observations(normalize, elements[..end]));
    }
  }

  lemma SplitAt<T>(s: seq<T>, i: nat, end: nat)
    requires i <= end <= |s|
    ensures s[..end] == s[..i] + s[i..end]
  {
  }

  /**
   * The counting part of `extractColors`: the elements in batches of
   * `BatchSize` (`slice` clamps the last batch to the end of the page). The
   * result is the tally of a single pass over the page.
   */
  method CountColors(normalize: Normalizer, elements: seq<Element>) returns (colors: Tally)
    ensures colors == TallyOf(Observations(normalize, elements))
  {
    colors := [];
    var total := |elements|;
    var i := 0;
    assert elements[..i] == [];
    while i < total
      invariant 0 <= i
      invariant colors == TallyOf(Observations(normalize, elements[..Min(i, total)]))
      decreases total - i
    {
      var batch := elements[i..Min(i + BatchSize, total)];
      ghost var prev := colors;
      colors := CountBatch(normalize, batch, colors);
      NextBatch(normalize, elements, i, Min(i + BatchSize, total), prev, colors);
      i := i + BatchSize;
    }
    assert elements[..total] == elements;
  }

  // ----------------------------------------------------------------------
  // Ranking: the stable sort by count, most frequent first, and the top 50
  // ----------------------------------------------------------------------

  /** Counts never increase along `s`. */
  predicate SortedByCount(s: seq<Entry>) {
    forall i, j :: 0 <= i < j < |s| ==> s[i].count >= s[j].count
  }

  /** Places `x` before the first entry whose count is not larger. */
  function InsertByCount(x: Entry, s: seq<Entry>): (r: seq<Entry>)
    ensures |r| == |s| + 1
  {
    if s == [] || s[0].count <= x.count then [x] + s else [s[0]] + InsertByCount(x, s[1..])
  }

  /**
   * `Array.prototype.sort((a, b) => b[1] - a[1])`, which is stable: by count,
   * most frequent first, entries of equal count in their original order.
   */
  function SortByCount(t: seq<Entry>): (r: seq<Entry>)
    ensures |r| == |t|
  {
    if t == [] then [] else InsertByCount(t[0], SortByCount(t[1..]))
  }

  /** The entries of count `c`, in order. */
  function WithCount(s: seq<Entry>, c: nat): seq<Entry>
  {
    if s == [] then [] else (if s[0].count == c then [s[0]] else []) + WithCount(s[1..], c)
  }

  /** No entry of `s` counts more than `b`. */
  predicate AtMost(s: seq<Entry>, b: nat) {
    forall i :: 0 <= i < |s| ==> s[i].count <= b
  }

  lemma {:induction false} InsertAtMost(x: Entry, s: seq<Entry>, b: nat)
    requires x.count <= b && AtMost(s, b)
    ensures AtMost(InsertByCount(x, s), b)
  {
    if s != [] && s[0].count > x.count {
      InsertAtMost(x, s[1..], b);
      var r := InsertByCount(x, s[1..]);
      assert InsertByCount(x, s) == [s[0]] + r;
      forall i | 0 <= i < |[s[0]] + r| ensures ([s[0]] + r)[i].count <= b {
        if i > 0 { assert ([s[0]] + r)[i] == r[i - 1]; }
      }
    } else {
      forall i | 0 <= i < |[x] + s| ensures ([x] + s)[i].count <= b {
        if i > 0 { assert ([x] + s)[i] == s[i - 1]; }
      }
    }
  }

  lemma {:induction false} InsertSorted(x: Entry, s: seq<Entry>)
    requires SortedByCount(s)
    ensures SortedByCount(InsertByCount(x, s))
  {
    if s == [] || s[0].count <= x.count {
      var r := [x] + s;
      forall i, j | 0 <= i < j < |r| ensures r[i].count >= r[j].count {
        assert r[j] == s[j - 1];
        if i > 0 { assert r[i] == s[i - 1]; }
      }
    } else {
      InsertSorted(x, s[1..]);
      var tail := InsertByCount(x, s[1..]);
      InsertAtMost(x, s[1..], s[0].count);
      var r := [s[0]] + tail;
      forall i, j | 0 <= i < j < |r| ensures r[i].count >= r[j].count {
        assert r[j] == tail[j - 1];
        if i > 0 { assert r[i] == tail[i - 1]; }
      }
    }
  }

  lemma {:induction false} InsertPermutes(x: Entry, s: seq<Entry>)
    ensures multiset(InsertByCount(x, s)) == multiset{x} + multiset(s)
  {
    if s != [] && s[0].count > x.count {
      InsertPermutes(x, s[1..]);
      assert s == [s[0]] + s[1..];
    }
  }

  /** The sort orders by count and rearranges the entries without adding or losing any. */
  lemma {:induction false} SortSorted(t: seq<Entry>)
    ensures SortedByCount(SortByCount(t))
    ensures multiset(SortByCount(t)) == multiset(t)
  {
    if t != [] {
      SortSorted(t[1..]);
      InsertSorted(t[0], SortByCount(t[1..]));
      InsertPermutes(t[0], SortByCount(t[1..]));
      assert t == [t[0]] + t[1..];
    }
  }

  lemma {:induction false} InsertWithCount(x: Entry, s: seq<Entry>, c: nat)
    ensures WithCount(InsertByCount(x, s), c) == WithCount([x], c) + WithCount(s, c)
  {
    if s == [] || s[0].count <= x.count {
      assert ([x] + s)[1..] == s;
    } else {
      InsertWithCount(x, s[1..], c);
      var r := InsertByCount(x, s[1..]);
      assert ([s[0]] + r)[1..] == r;
      assert WithCount([x], c) == (if x.count == c then [x] else []);
    }
  }

  /** Stability: among entries of one count, the sort keeps the original order. */
  lemma {:induction false} SortWithCount(t: seq<Entry>, c: nat)
    ensures WithCount(SortByCount(t), c) == WithCount(t, c)
  {
    if t != [] {
      SortWithCount(t[1..], c);
      InsertWithCount(t[0], SortByCount(t[1..]), c);
      assert WithCount([t[0]], c) == (if t[0].count == c then [t[0]] else []);
    }
  }

  /** How many entries `extractColors` reports at most. */
  const TopCount: nat := 50

  /** The ranking of `extractColors`: sorted by count, then the first `TopCount`. */
  function Rank(t: Tally): seq<Entry>
  {
    var sorted := SortByCount(t);
    if |sorted| <= TopCount then sorted else sorted[..TopCount]
  }

  lemma {:induction false} WithCountPrefix(s: seq<Entry>, n: nat, c: nat)
    requires n <= |s|
    ensures WithCount(s[..n], c) <= WithCount(s, c)
  {
    if n > 0 {
      WithCountPrefix(s[1..], n - 1, c);
      assert s[..n][1..] == s[1..][..n - 1];
    }
  }

  lemma DistinctPermutation(s: seq<Entry>, t: seq<Entry>)
    requires multiset(s) == multiset(t) && DistinctKeys(t)
    ensures DistinctKeys(s)
  {
    forall i, j | 0 <= i < j < |s| ensures s[i].color != s[j].color {
      if s[i].color == s[j].color {
        assert s[i] in multiset(t) && s[j] in multiset(t);
        var p :| 0 <= p < |t| && t[p] == s[i];
        var q :| 0 <= q < |t| && t[q] == s[j];
        assert p == q;
        TwoCopies(s, i, j);
        CountAtMostOne(t, p);
        assert false;
      }
    }
  }

  lemma TwoCopies(s: seq<Entry>, i: nat, j: nat)
    requires i < j < |s| && s[i] == s[j]
    ensures multiset(s)[s[i]] >= 2
  {
    assert s == s[..i] + [s[i]] + s[i + 1..j] + [s[j]] + s[j + 1..];
  }

  lemma CountAtMostOne(t: seq<Entry>, p: nat)
    requires DistinctKeys(t) && p < |t|
    ensures multiset(t)[t[p]] == 1
  {
    assert t == t[..p] + [t[p]] + t[p + 1..];
    assert t[p] !in t[..p] && t[p] !in t[p + 1..] by {
      forall k | 0 <= k < p ensures t[..p][k] != t[p] { assert t[k].color != t[p].color; }
      forall k | p + 1 <= k < |t| ensures t[k] != t[p] { assert t[k].color != t[p].color; }
    }
    assert multiset(t) == multiset(t[..p]) + multiset{t[p]} + multiset(t[p + 1..]);
  }

  /**
   * What `extractColors` reports about a tally with distinct keys: at most
   * 50 entries from the tally with distinct colours, most frequent first, ties
   * in the tally's order, and nothing left out that is more frequent than the
   * last entry reported.
   */
  lemma RankFacts(t: Tally)
    requires DistinctKeys(t)
    ensures var r := Rank(t);
      && |r| <= TopCount && |r| == Min(|t|, TopCount)
      && SortedByCount(r) && DistinctKeys(r)
      && multiset(r) <= multiset(t)
      && (forall c: nat :: WithCount(r, c) <= WithCount(t, c))
      && (forall e :: e in t && e !in r ==> |r| == TopCount && e.count <= r[TopCount - 1].count)
  {
    var sorted := SortByCount(t);
    SortSorted(t);
    RankPrefix(t);
    DistinctPermutation(sorted, t);
    var r := Rank(t);
    forall c: nat ensures WithCount(r, c) <= WithCount(t, c) {
      SortWithCount(t, c);
      WithCountPrefix(sorted, |r|, c);
    }
    forall e | e in t && e !in r ensures |r| == TopCount && e.count <= r[TopCount - 1].count {
      RankLeavesOutOnlyLess(t, e);
    }
  }

  /** The ranking is the first entries of the sorted tally. */
  lemma RankPrefix(t: Tally)
    ensures var r := Rank(t); var sorted := SortByCount(t);
      && |sorted| == |t| && |r| == Min(|t|, TopCount) && r == sorted[..|r|]
      && SortedByCount(r) && multiset(r) <= multiset(t)
  {
    var sorted := SortByCount(t);
    SortSorted(t);
    var r := Rank(t);
    assert sorted == r + sorted[|r|..];
    assert multiset(sorted) == multiset(r) + multiset(sorted[|r|..]);
  }

  /** An entry missing from the ranking is no more frequent than the last one reported, and the ranking is full. */
  lemma RankLeavesOutOnlyLess(t: Tally, e: Entry)
    requires e in t && e !in Rank(t)
    ensures |Rank(t)| == TopCount && e.count <= Rank(t)[TopCount - 1].count
  {
    var sorted := SortByCount(t);
    SortSorted(t);
    RankPrefix(t);
    var r := Rank(t);
    assert e in multiset(sorted);
    var p :| 0 <= p < |sorted| && sorted[p] == e;
    assert forall q :: 0 <= q < |r| ==> r[q] != e;
    assert p >= |r|;
  }

  // ----------------------------------------------------------------------
  // extractColors
  // ----------------------------------------------------------------------

  /** The normaliser `extractColors` uses: `ColorUtils.normalize` with the page's colour resolution. */
  function NormalizerOf(host: Host): Normalizer
  {
    v => Normalize(host, v)
  }

  /** `DarkModeEngine.extractColors`: the tally of the page, ranked. */
  method ExtractColors(host: Host, elements: seq<Element>) returns (ranked: seq<Entry>)
    ensures ranked == Rank(TallyOf(Observations(NormalizerOf(host), elements)))
  {
    var colors := CountColors(NormalizerOf(host), elements);
    ranked := Rank(colors);
  }

  /**
   * The report on a page: at most 50 distinct colours, each with the number
   * of times it was observed, most frequent first, and ties in the order the
   * colours were first seen.
   */
  lemma ExtractedColors(host: Host, elements: seq<Element>)
    ensures var obs := Observations(NormalizerOf(host), elements); var r := Rank(TallyOf(obs));
      && |r| <= TopCount && SortedByCount(r) && DistinctKeys(r)
      && (forall i :: 0 <= i < |r| ==> 1 <= r[i].count == multiset(obs)[r[i].color])
      && (forall c: nat :: WithCount(r, c) <= WithCount(TallyOf(obs), c))
      && Keys(TallyOf(obs)) == FirstOccurrences(obs)
  {
    var obs := Observations(NormalizerOf(host), elements);
    var t := TallyOf(obs);
    TallyKeys(obs);
    TallyDistinct(obs);
    TallyPositive(obs);
    RankFacts(t);
    var r := Rank(t);
    forall i | 0 <= i < |r| ensures 1 <= r[i].count == multiset(obs)[r[i].color] {
      assert r[i] in multiset(t);
      var p :| 0 <= p < |t| && t[p] == r[i];
      GetAt(t, p);
      TallyCounts(obs, r[i].color);
    }
  }
}
