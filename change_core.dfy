/**
 * The per-resource diff logic that src/components/Terraform/Change.tsx and
 * src/components/Change.tsx both carry, character for character: findChange,
 * the fold that merges `after_unknown`, `after` and `before` into one row per
 * attribute, the `changes` filter, getChangeColor and the prettified
 * attribute name. Both components are modelled by this one module.
 */
module ChangeCore {
  import opened TerraformTypes

  // ---------------------------------------------------------------------------
  // findChange
  // ---------------------------------------------------------------------------

  /** `Array.isArray(v)`. */
  predicate IsArray(v: Json) {
    v.JArr?
  }

  /** `typeof v === 'object'`, which holds for null and arrays as well as objects. */
  predicate IsObjectTyped(v: Json) {
    v.JNull? || v.JArr? || v.JObj?
  }

  /**
   * findChange. Two arrays, or two object-typed values, are compared through
   * JSON.stringify; the model takes that comparison to be structural inequality
   * of the values, key order included (the serialiser writes keys in property
   * order, which `Json` objects hold, and is injective on parsed JSON). Anything else goes through `!==`, which is value
   * inequality on two primitives and always true between a primitive and an object.
   */
  function FindChange(a: Json, b: Json): (changed: bool)
    ensures changed <==> a != b
  {
    if IsArray(a) && IsArray(b) then a != b
    else if IsObjectTyped(a) && IsObjectTyped(b) then a != b
    else if IsObjectTyped(a) || IsObjectTyped(b) then true
    else a != b
  }

  lemma {:induction false} FindChangeSymmetric(a: Json, b: Json)
    ensures FindChange(a, b) == FindChange(b, a)
  {
  }

  lemma {:induction false} FindChangeIrreflexive(v: Json)
    ensures !FindChange(v, v)
  {
  }

  /**
   * Two objects with the same non-integer-like keys in a different property
   * order serialise differently, so findChange reports them as changed.
   */
  lemma KeyOrderCounts()
    ensures FindChange(JObj([("a", JNum(1)), ("b", JNum(2))]), JObj([("b", JNum(2)), ("a", JNum(1))]))
  {
  }

  /** Every value other than null differs from null, and a number differs from the string of its digits. */
  lemma {:induction false} NullAndTypeCount(v: Json)
    ensures v != JNull ==> FindChange(v, JNull) && FindChange(JNull, v)
    ensures FindChange(JNum(1), JStr("1"))
  {
  }

  // ---------------------------------------------------------------------------
  // The change map
  // ---------------------------------------------------------------------------

  /**
   * `ChangeMapValue` while the fold builds it: a property the fold has not set
   * is None, which is JavaScript's `undefined`.
   */
  datatype Row = Row(
    address: string,
    changed: Option<bool>,
    afterUnknown: Option<bool>,
    before: Option<Json>,
    after: Option<Json>)

  /** `ChangeMap`: attribute name to row. */
  type ChangeMap = map<string, Row>

  /** The callback of one pass: what becomes of the row for `key`, given the row so far (if any) and the value. */
  type RowUpdate = (Option<Row>, string, Json) -> Row

  /** `resourceChange.change.x ?? {}`. */
  function Entries(r: Option<Record>): Record {
    if r.Some? then r.value else []
  }

  function Get(m: ChangeMap, key: string): Option<Row> {
    if key in m then Some(m[key]) else None
  }

  /** `...combined[key]`: spreading an absent row contributes no property. */
  function Spread(prior: Option<Row>): Row {
    if prior.Some? then prior.value else Row("", None, None, None, None)
  }

  /**
   * `Object.entries(source).reduce((combined, [key, value]) => ({...combined, [key]: ...}), seed)`:
   * a left fold that replaces the row of each key in turn.
   */
  function Overlay(combined: ChangeMap, entries: Record, update: RowUpdate): (overlaid: ChangeMap)
    ensures overlaid.Keys == combined.Keys + Keys(entries)
    decreases |entries|
  {
    if entries == [] then combined
    else
      var key := entries[0].0;
      assert Keys(entries) == {key} + Keys(entries[1..]) by {
        forall k | k in Keys(entries) ensures k in {key} + Keys(entries[1..]) {
          var i :| 0 <= i < |entries| && entries[i].0 == k;
          if i > 0 { assert entries[1..][i - 1].0 == k; }
        }
        forall k | k in Keys(entries[1..]) ensures k in Keys(entries) {
          var i :| 0 <= i < |entries[1..]| && entries[1..][i].0 == k;
          assert entries[i + 1].0 == k;
        }
      }
      Overlay(combined[key := update(Get(combined, key), key, entries[0].1)], entries[1..], update)
  }

  /** The `after_unknown` pass: before and after become null; the flag records whether the value is literally `true`. */
  function UnknownRow(prior: Option<Row>, key: string, value: Json): (row: Row)
    ensures row.address == key && row.before == Some(JNull) && row.after == Some(JNull)
    ensures row.afterUnknown == Some(true) <==> value == JBool(true)
    ensures row.afterUnknown.Some?
    ensures row.changed == (if prior.Some? then prior.value.changed else None)
  {
    Spread(prior).(address := key, before := Some(JNull), after := Some(JNull), afterUnknown := Some(value == JBool(true)))
  }

  /** The `after` pass: `changed` is reset to false and the value is recorded. */
  function AfterRow(prior: Option<Row>, key: string, value: Json): (row: Row)
    ensures row.address == key && row.changed == Some(false) && row.after == Some(value)
    ensures row.before == (if prior.Some? then prior.value.before else None)
    ensures row.afterUnknown == (if prior.Some? then prior.value.afterUnknown else None)
  {
    Spread(prior).(changed := Some(false), address := key, after := Some(value))
  }

  /**
   * The `before` pass: a key no earlier pass created is changed; otherwise it is
   * changed when findChange tells the value from the row's `after`
   * (`findChange(value, undefined)` is true, though no row reaches here without `after`).
   */
  function BeforeRow(prior: Option<Row>, key: string, value: Json): (row: Row)
    ensures row.address == key && row.before == Some(value)
    ensures row.changed == Some(true) <==>
      prior.None? || prior.value.after.None? || value != prior.value.after.value
    ensures row.changed.Some?
    ensures row.after == (if prior.Some? then prior.value.after else None)
    ensures row.afterUnknown == (if prior.Some? then prior.value.afterUnknown else None)
  {
    var changed :=
      if prior.None? then true
      else if prior.value.after.None? then true
      else FindChange(value, prior.value.after.value);
    Spread(prior).(address := key, before := Some(value), changed := Some(changed))
  }

  /** `changeMap`: the three nested reduces, innermost (`after_unknown`) first. */
  function ChangeMapOf(change: Change): (m: ChangeMap)
    ensures m.Keys == Keys(Entries(change.before)) + Keys(Entries(change.after)) + Keys(Entries(change.afterUnknown))
  {
    var unknown := Overlay(map[], Entries(change.afterUnknown), UnknownRow);
    var after := Overlay(unknown, Entries(change.after), AfterRow);
    Overlay(after, Entries(change.before), BeforeRow)
  }

  /** `changes`: the rows whose `changed` is truthy, keyed by attribute name. */
  function Changes(m: ChangeMap): (shown: map<string, Row>)
    ensures shown.Keys <= m.Keys
    ensures forall k :: k in m && m[k].changed == Some(true) ==> k in shown
    ensures forall k :: k in shown ==> shown[k] == m[k] && shown[k].changed == Some(true)
  {
    map k | k in m && m[k].changed == Some(true) :: m[k]
  }

  /** No attribute map of the change repeats a key (as no JavaScript object can). */
  ghost predicate WellFormed(change: Change) {
    DistinctKeys(Entries(change.before)) && DistinctKeys(Entries(change.after)) && DistinctKeys(Entries(change.afterUnknown))
  }

  /**
   * The row the normaliser leaves for `key`, stated key by key from where the key
   * occurs (u: `after_unknown`, a: `after`, b: `before`), or None when no map has it.
   */
  function RowFor(change: Change, key: string): Option<Row> {
    var u := Lookup(Entries(change.afterUnknown), key);
    var a := Lookup(Entries(change.after), key);
    var b := Lookup(Entries(change.before), key);
    if u.None? && a.None? && b.None? then None
    else
      var after := if a.Some? then a.value else JNull;
      Some(Row(
        address := key,
        changed :=
          if b.Some? then Some(if u.None? && a.None? then true else FindChange(b.value, after))
          else if a.Some? then Some(false)
          else None,
        afterUnknown := if u.Some? then Some(u.value == JBool(true)) else None,
        before := if b.Some? then b else if u.Some? then Some(JNull) else None,
        after := if a.Some? || u.Some? then Some(after) else None))
  }

  /** One pass: keys of the entries get `update` applied to their previous row; every other row stays. */
  lemma {:induction false} OverlayAt(combined: ChangeMap, entries: Record, update: RowUpdate, key: string)
    requires DistinctKeys(entries)
    ensures key in Overlay(combined, entries, update) <==> key in combined || Lookup(entries, key).Some?
    ensures Lookup(entries, key).Some? ==>
      Overlay(combined, entries, update)[key] == update(Get(combined, key), key, Lookup(entries, key).value)
    ensures Lookup(entries, key).None? && key in combined ==>
      Overlay(combined, entries, update)[key] == combined[key]
    decreases |entries|
  {
    if entries != [] {
      var first := entries[0].0;
      var next := combined[first := update(Get(combined, first), first, entries[0].1)];
      assert DistinctKeys(entries[1..]) by {
        forall p, q | 0 <= p < q < |entries[1..]| ensures entries[1..][p].0 != entries[1..][q].0 {
          assert entries[1..][p] == entries[p + 1] && entries[1..][q] == entries[q + 1];
        }
      }
      OverlayAt(next, entries[1..], update, key);
      if key == first {
        assert key !in Keys(entries[1..]) by {
          forall i | 0 <= i < |entries[1..]| ensures entries[1..][i].0 != first {
            assert entries[1..][i] == entries[i + 1];
          }
        }
      }
    }
  }

  /** The fold agrees, key by key, with RowFor. */
  lemma ChangeMapAt(change: Change, key: string)
    requires WellFormed(change)
    ensures key in ChangeMapOf(change) <==> RowFor(change, key).Some?
    ensures key in ChangeMapOf(change) ==> ChangeMapOf(change)[key] == RowFor(change, key).value
  {
    var unknown := Overlay(map[], Entries(change.afterUnknown), UnknownRow);
    var after := Overlay(unknown, Entries(change.after), AfterRow);
    var u := Lookup(Entries(change.afterUnknown), key);
    var a := Lookup(Entries(change.after), key);
    var b := Lookup(Entries(change.before), key);
    OverlayAt(map[], Entries(change.afterUnknown), UnknownRow, key);
    OverlayAt(unknown, Entries(change.after), AfterRow, key);
    OverlayAt(after, Entries(change.before), BeforeRow, key);
    var unknownRow := Row(key, None, if u.Some? then Some(u.value == JBool(true)) else None, Some(JNull), Some(JNull));
    assert Get(unknown, key) == if u.Some? then Some(unknownRow) else None;
    var afterRow :=
      if a.Some? then Spread(Get(unknown, key)).(changed := Some(false), address := key, after := a)
      else Spread(Get(unknown, key));
    assert Get(after, key) == if a.Some? || u.Some? then Some(afterRow) else None;
    assert Get(after, key).Some? ==> Get(after, key).value.after.Some?;
  }

  /**
   * One row per key of `before` ∪ `after` ∪ `after_unknown` (a null map counting
   * as empty), each row's address being its key.
   */
  lemma ChangeMapKeys(change: Change)
    requires WellFormed(change)
    ensures ChangeMapOf(change).Keys ==
      Keys(Entries(change.before)) + Keys(Entries(change.after)) + Keys(Entries(change.afterUnknown))
    ensures forall k :: k in ChangeMapOf(change) ==> ChangeMapOf(change)[k].address == k
  {
    forall k ensures (k in ChangeMapOf(change) <==> RowFor(change, k).Some?)
      && (k in ChangeMapOf(change) ==> ChangeMapOf(change)[k].address == k) {
      ChangeMapAt(change, k);
    }
  }

  /** A key found only in `before` is an attribute being removed: it is changed. */
  lemma BeforeOnlyIsChanged(change: Change, key: string)
    requires WellFormed(change)
    requires key in Keys(Entries(change.before))
    requires key !in Keys(Entries(change.after)) && key !in Keys(Entries(change.afterUnknown))
    ensures key in Changes(ChangeMapOf(change))
    ensures Changes(ChangeMapOf(change))[key].before == Lookup(Entries(change.before), key)
  {
    ChangeMapAt(change, key);
  }

  /** A key in both `before` and `after` is changed exactly when findChange tells the two values apart. */
  lemma BeforeAndAfterCompared(change: Change, key: string)
    requires WellFormed(change)
    requires key in Keys(Entries(change.before)) && key in Keys(Entries(change.after))
    ensures key in ChangeMapOf(change)
    ensures ChangeMapOf(change)[key].changed ==
      Some(FindChange(Lookup(Entries(change.before), key).value, Lookup(Entries(change.after), key).value))
    ensures key in Changes(ChangeMapOf(change)) <==>
      Lookup(Entries(change.before), key) != Lookup(Entries(change.after), key)
  {
    ChangeMapAt(change, key);
  }

  /**
   * A key absent from `before` never becomes changed, so created and
   * unknown-only attributes are hidden: with `after` its row keeps
   * `changed: false`, and with only `after_unknown` `changed` stays unset.
   */
  lemma AbsentFromBeforeIsHidden(change: Change, key: string)
    requires WellFormed(change)
    requires key !in Keys(Entries(change.before))
    ensures key !in Changes(ChangeMapOf(change))
    ensures key in Keys(Entries(change.after)) ==>
      key in ChangeMapOf(change) && ChangeMapOf(change)[key].changed == Some(false)
    ensures key !in Keys(Entries(change.after)) && key in Keys(Entries(change.afterUnknown)) ==>
      key in ChangeMapOf(change) && ChangeMapOf(change)[key].changed == None
  {
    ChangeMapAt(change, key);
  }

  /**
   * Later passes keep what earlier ones set: the unknown flag is true exactly
   * when the `after_unknown` value is literally `true` and survives the other
   * passes; the `after` pass keeps the null `before` of the unknown pass (a key
   * only in `after` has no `before` at all); the `before` pass keeps `after`.
   */
  lemma PassesKeepEarlierFields(change: Change, key: string)
    requires WellFormed(change)
    requires key in ChangeMapOf(change)
    ensures ChangeMapOf(change)[key].afterUnknown ==
      (if key in Keys(Entries(change.afterUnknown))
       then Some(Lookup(Entries(change.afterUnknown), key) == Some(JBool(true)))
       else None)
    ensures key in Keys(Entries(change.after)) ==>
      ChangeMapOf(change)[key].after == Lookup(Entries(change.after), key)
    ensures key !in Keys(Entries(change.after)) && key in Keys(Entries(change.afterUnknown)) ==>
      ChangeMapOf(change)[key].after == Some(JNull)
    ensures key !in Keys(Entries(change.before)) && key in Keys(Entries(change.afterUnknown)) ==>
      ChangeMapOf(change)[key].before == Some(JNull)
    ensures key !in Keys(Entries(change.before)) && key !in Keys(Entries(change.afterUnknown)) ==>
      ChangeMapOf(change)[key].before == None
    ensures key in Keys(Entries(change.before)) ==>
      ChangeMapOf(change)[key].before == Lookup(Entries(change.before), key)
  {
    ChangeMapAt(change, key);
  }

  /**
   * Which attributes reach `changes`: exactly the keys of `before` that either
   * appear in no other map or whose value findChange tells from the row's
   * `after` (null when only `after_unknown` has the key).
   */
  lemma ChangesExactly(change: Change, key: string)
    requires WellFormed(change)
    ensures key in Changes(ChangeMapOf(change)) <==>
      && key in Keys(Entries(change.before))
      && (|| (key !in Keys(Entries(change.after)) && key !in Keys(Entries(change.afterUnknown)))
          || FindChange(
               Lookup(Entries(change.before), key).value,
               if key in Keys(Entries(change.after)) then Lookup(Entries(change.after), key).value else JNull))
  {
    ChangeMapAt(change, key);
  }

  /** A change whose three maps are all empty or null yields no rows. */
  lemma EmptyChangeHasNoRows(change: Change)
    requires Entries(change.before) == [] && Entries(change.after) == [] && Entries(change.afterUnknown) == []
    ensures ChangeMapOf(change) == map[]
  {
  }

  /**
   * before = {a: 1, b: 2}, after = {a: 1, b: 3}: only `b` is changed, from 2 to 3.
   */
  lemma UpdateScenario()
    ensures
      var change := Change(["update"], Some([("a", JNum(1)), ("b", JNum(2))]), Some([("a", JNum(1)), ("b", JNum(3))]), None);
      && Changes(ChangeMapOf(change)).Keys == {"b"}
      && Changes(ChangeMapOf(change))["b"].before == Some(JNum(2))
      && Changes(ChangeMapOf(change))["b"].after == Some(JNum(3))
  {
    var change := Change(["update"], Some([("a", JNum(1)), ("b", JNum(2))]), Some([("a", JNum(1)), ("b", JNum(3))]), None);
    assert WellFormed(change);
    ChangeMapKeys(change);
    assert Keys(Entries(change.before)) == {"a", "b"};
    assert Keys(Entries(change.after)) == {"a", "b"};
    BeforeAndAfterCompared(change, "a");
    BeforeAndAfterCompared(change, "b");
    PassesKeepEarlierFields(change, "b");
  }

  /**
   * after_unknown = {x: true} alone: the row for `x` is flagged unknown, but it is
   * not in `changes`, since `x` is absent from `before`.
   */
  lemma UnknownOnlyScenario()
    ensures
      var change := Change(["create"], None, Some([]), Some([("x", JBool(true))]));
      && ChangeMapOf(change).Keys == {"x"}
      && ChangeMapOf(change)["x"].afterUnknown == Some(true)
      && Changes(ChangeMapOf(change)) == map[]
  {
    var change := Change(["create"], None, Some([]), Some([("x", JBool(true))]));
    assert WellFormed(change);
    ChangeMapKeys(change);
    assert Keys(Entries(change.afterUnknown)) == {"x"};
    PassesKeepEarlierFields(change, "x");
    AbsentFromBeforeIsHidden(change, "x");
  }

  // ---------------------------------------------------------------------------
  // normalisedAddress
  // ---------------------------------------------------------------------------

  /** `address.replace(/_/gu, ' ')`: every underscore becomes a space, nothing else moves. */
  function NormalisedAddress(address: string): (shown: string)
    ensures |shown| == |address|
    ensures forall i :: 0 <= i < |address| ==> shown[i] == if address[i] == '_' then ' ' else address[i]
    ensures '_' !in shown
  {
    if address == [] then []
    else [if address[0] == '_' then ' ' else address[0]] + NormalisedAddress(address[1..])
  }

  // ---------------------------------------------------------------------------
  // getChangeColor
  // ---------------------------------------------------------------------------

  /** The Bootstrap colour category of a card. */
  datatype Category = Secondary | Warning | Danger | Info

  /**
   * What getChangeColor answers for an action list. Its two-action branch
   * compares the argument with freshly built array literals by `===`, which
   * is reference identity and never holds, so every list that is not a single
   * action is `info`.
   */
  function ColorOf(actions: seq<string>): (color: Category)
    ensures |actions| != 1 ==> color == Info
    ensures |actions| == 1 ==> (color == Secondary <==> actions[0] == "no-op")
    ensures |actions| == 1 ==> (color == Warning <==> actions[0] == "update")
    ensures |actions| == 1 ==> (color == Danger <==> actions[0] == "delete")
  {
    if |actions| == 1 then
      var action := actions[0];
      if action == "no-op" then Secondary
      else if action == "update" then Warning
      else if action == "delete" then Danger
      else Info
    else Info
  }

  /**
   * The classification the two-action branch was evidently written for, with the
   * lists compared element by element. Kept apart: the viewer does not use it.
   */
  function IntendedColorOf(actions: seq<string>): Category {
    if |actions| == 1 then ColorOf(actions)
    else if actions == ["create", "delete"] || actions == ["delete", "create"] then Danger
    else Info
  }

  /** The viewer and the intended classifier differ exactly on the two replacement tuples. */
  lemma IntendedColorDiffers(actions: seq<string>)
    ensures IntendedColorOf(actions) != ColorOf(actions) <==>
      actions == ["create", "delete"] || actions == ["delete", "create"]
  {
  }

  /** A JavaScript array object, which `shift()` changes in place. */
  class ActionArray {
    var items: seq<string>

    /** `[...actions]`: a fresh array holding the same items. */
    constructor (items: seq<string>)
      ensures this.items == items
    {
      this.items := items;
    }

    /** `shift()`: removes and returns the first item, or `undefined` when empty. */
    method Shift() returns (first: Option<string>)
      modifies this
      ensures old(items) == [] ==> first == None && items == []
      ensures old(items) != [] ==> first == Some(old(items)[0]) && items == old(items)[1..]
    {
      if items == [] {
        first := None;
      } else {
        first := Some(items[0]);
        items := items[1..];
      }
    }
  }

  /** What `shift()` inside the classifiers leaves of their argument. */
  function AfterClassifying(actions: seq<string>): seq<string> {
    if |actions| == 1 then [] else actions
  }

  /** getChangeColor: it empties a one-action argument with `shift()`. */
  method GetChangeColor(actions: ActionArray) returns (color: Category)
    modifies actions
    ensures color == ColorOf(old(actions.items))
    ensures actions.items == AfterClassifying(old(actions.items))
  {
    if |actions.items| == 1 {
      var action := actions.Shift();
      if action == Some("no-op") {
        return Secondary;
      } else if action == Some("update") {
        return Warning;
      } else if action == Some("delete") {
        return Danger;
      }
      return Info;
    }
    var createDelete := new ActionArray(["create", "delete"]);
    var deleteCreate := new ActionArray(["delete", "create"]);
    if actions == createDelete || actions == deleteCreate {
      return Danger;
    }
    return Info;
  }
}
