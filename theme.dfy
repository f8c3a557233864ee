/**
 * The style-map helpers of src/theme.tsx: `merge`, which folds any number of
 * possibly undefined style maps into one, and `apply`, which falls back to a
 * default map.
 */
module Theme {
  import opened TerraformTypes

  /** `CSSProperties`: property name to value. */
  type StyleMap = map<string, string>

  /** `{...s}` where `s` may be undefined: spreading undefined contributes nothing. */
  function SpreadOf(s: Option<StyleMap>): StyleMap {
    if s.Some? then s.value else map[]
  }

  /** The reducer of merge: skip an undefined style, else `{...accumulated, ...properties}`. */
  function MergeStep(accumulated: Option<StyleMap>, properties: Option<StyleMap>): (merged: Option<StyleMap>)
    ensures merged.None? <==> accumulated.None? && properties.None?
    ensures properties.Some? ==> merged.value.Keys == SpreadOf(accumulated).Keys + properties.value.Keys
    ensures properties.Some? ==> forall k :: k in properties.value ==> merged.value[k] == properties.value[k]
    ensures properties.Some? ==> forall k :: k in merged.value && k !in properties.value ==>
      merged.value[k] == accumulated.value[k]
  {
    if properties.None? then accumulated else Some(SpreadOf(accumulated) + properties.value)
  }

  function Reduce(accumulated: Option<StyleMap>, rest: seq<Option<StyleMap>>): (reduced: Option<StyleMap>)
    ensures reduced.None? <==> accumulated.None? && forall i :: 0 <= i < |rest| ==> rest[i].None?
    ensures accumulated.Some? ==> accumulated.value.Keys <= reduced.value.Keys
    decreases |rest|
  {
    if rest == [] then accumulated else Reduce(MergeStep(accumulated, rest[0]), rest[1..])
  }

  /**
   * merge: `styles.reduce(reducer)` with no seed, so the first style is the
   * starting accumulator. Reducing an empty list throws, hence the requires.
   */
  function Merge(styles: seq<Option<StyleMap>>): (merged: Option<StyleMap>)
    requires |styles| >= 1
    ensures |styles| == 1 ==> merged == styles[0]
  {
    Reduce(styles[0], styles[1..])
  }

  /** Style `i` is defined and sets `key`. */
  predicate Sets(styles: seq<Option<StyleMap>>, i: int, key: string) {
    0 <= i < |styles| && styles[i].Some? && key in styles[i].value
  }

  predicate AnyDefined(styles: seq<Option<StyleMap>>) {
    exists i :: 0 <= i < |styles| && styles[i].Some?
  }

  /** The value `key` takes in the last style that sets it, if any does. */
  function LastSetting(styles: seq<Option<StyleMap>>, key: string): (v: Option<string>)
    ensures v.None? <==> forall i :: 0 <= i < |styles| ==> !Sets(styles, i, key)
    ensures v.Some? ==> exists i ::
      && Sets(styles, i, key)
      && styles[i].value[key] == v.value
      && forall j :: i < j < |styles| ==> !Sets(styles, j, key)
    decreases |styles|
  {
    if styles == [] then None
    else
      var last := |styles| - 1;
      var earlier := styles[..last];
      assert forall i :: 0 <= i < last ==> (Sets(styles, i, key) <==> Sets(earlier, i, key));
      if Sets(styles, last, key) then Some(styles[last].value[key])
      else LastSetting(earlier, key)
  }

  lemma {:induction false} ReduceSnoc(accumulated: Option<StyleMap>, rest: seq<Option<StyleMap>>, s: Option<StyleMap>)
    ensures Reduce(accumulated, rest + [s]) == MergeStep(Reduce(accumulated, rest), s)
    decreases |rest|
  {
    if rest == [] {
      assert [s][1..] == [];
    } else {
      assert (rest + [s])[1..] == rest[1..] + [s];
      ReduceSnoc(MergeStep(accumulated, rest[0]), rest[1..], s);
    }
  }

  /**
   * What merge computes: undefined exactly when every style is undefined;
   * otherwise the keys of all defined styles, each with the value of the last
   * style that sets it.
   */
  lemma {:induction false} MergeMeaning(styles: seq<Option<StyleMap>>)
    requires |styles| >= 1
    ensures Merge(styles).Some? <==> AnyDefined(styles)
    ensures Merge(styles).Some? ==> forall key ::
      (key in Merge(styles).value <==> LastSetting(styles, key).Some?)
    ensures Merge(styles).Some? ==> forall key :: key in Merge(styles).value ==>
      Merge(styles).value[key] == LastSetting(styles, key).value
    decreases |styles|
  {
    if |styles| > 1 {
      var last := |styles| - 1;
      var earlier := styles[..last];
      assert styles == earlier + [styles[last]];
      assert styles[1..] == earlier[1..] + [styles[last]];
      ReduceSnoc(styles[0], earlier[1..], styles[last]);
      MergeMeaning(earlier);
      assert AnyDefined(styles) <==> AnyDefined(earlier) || styles[last].Some? by {
        if AnyDefined(styles) && !styles[last].Some? {
          var i :| 0 <= i < |styles| && styles[i].Some?;
          assert earlier[i].Some?;
        }
        if AnyDefined(earlier) {
          var i :| 0 <= i < |earlier| && earlier[i].Some?;
          assert styles[i].Some?;
        }
      }
      forall key ensures LastSetting(styles, key) ==
        if Sets(styles, last, key) then Some(styles[last].value[key]) else LastSetting(earlier, key) {
      }
    }
  }

  /** Merging only undefined styles gives undefined. */
  lemma AllUndefinedMergeUndefined(styles: seq<Option<StyleMap>>)
    requires |styles| >= 1
    requires forall i :: 0 <= i < |styles| ==> styles[i].None?
    ensures Merge(styles) == None
  {
    MergeMeaning(styles);
  }

  /** A later style's value wins over an earlier one's for a key both set. */
  lemma LaterStyleWins(styles: seq<Option<StyleMap>>, key: string)
    requires |styles| >= 1
    requires Sets(styles, |styles| - 1, key)
    ensures Merge(styles).Some? && key in Merge(styles).value
    ensures Merge(styles).value[key] == styles[|styles| - 1].value[key]
  {
    MergeMeaning(styles);
  }

  /** apply: `styles ?? fallback`, the fallback being the empty map unless one is given. */
  function Apply(styles: Option<StyleMap>, fallback: StyleMap := map[]): (applied: StyleMap)
    ensures styles.Some? ==> applied == styles.value
    ensures styles.None? ==> applied == fallback
  {
    if styles.Some? then styles.value else fallback
  }
}
