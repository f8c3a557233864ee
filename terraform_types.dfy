/**
 * The plan document as the viewer reads it: Terraform's JSON plan output
 * (src/terraform.ts), together with the JSON values it carries.
 */
module TerraformTypes {

  /** An optional value: `None` stands for JavaScript's `undefined` or `null`. */
  datatype Option<+T> = None | Some(value: T)

  /**
   * A JSON value as JSON.parse produces it. Numbers are modelled as integers;
   * an object keeps its key/value pairs in the parsed object's own property
   * order (integer-like keys first, in ascending order, then the others in
   * document order) and holds no key twice.
   */
  datatype Json =
    | JNull
    | JBool(b: bool)
    | JNum(n: int)
    | JStr(s: string)
    | JArr(items: seq<Json>)
    | JObj(entries: seq<(string, Json)>)

  /** A `Record<string, any>` seen through Object.entries: its pairs in iteration order. */
  type Record = seq<(string, Json)>

  /** A JavaScript object never holds the same key twice. */
  ghost predicate DistinctKeys(r: Record) {
    forall i, j :: 0 <= i < j < |r| ==> r[i].0 != r[j].0
  }

  function Keys(r: Record): set<string> {
    set i | 0 <= i < |r| :: r[i].0
  }

  /** `record[key]`: the value stored under `key`, or None when the key is absent. */
  function Lookup(r: Record, key: string): (v: Option<Json>)
    ensures v.Some? <==> key in Keys(r)
    ensures v.Some? ==> exists i :: 0 <= i < |r| && r[i] == (key, v.value)
  {
    if r == [] then None
    else if r[0].0 == key then Some(r[0].1)
    else
      var rest := Lookup(r[1..], key);
      assert Keys(r) == {r[0].0} + Keys(r[1..]) by {
        forall k | k in Keys(r) ensures k in {r[0].0} + Keys(r[1..]) {
          var i :| 0 <= i < |r| && r[i].0 == k;
          if i > 0 { assert r[1..][i - 1].0 == k; }
        }
        forall k | k in Keys(r[1..]) ensures k in Keys(r) {
          var i :| 0 <= i < |r[1..]| && r[1..][i].0 == k;
          assert r[i + 1].0 == k;
        }
      }
      if rest.Some? then
        var i :| 0 <= i < |r[1..]| && r[1..][i] == (key, rest.value);
        assert r[i + 1] == (key, rest.value);
        rest
      else rest
  }

  /** `ResourceMode` (terraform.ts:2). */
  datatype Mode = Managed | Data

  /**
   * `ChangeAction`: the seven action tuples a plan may carry. The viewer's
   * functions receive the tuple as a plain list of strings.
   */
  predicate IsChangeAction(actions: seq<string>) {
    || actions == ["no-op"]
    || actions == ["create"]
    || actions == ["read"]
    || actions == ["update"]
    || actions == ["delete", "create"]
    || actions == ["create", "delete"]
    || actions == ["delete"]
  }

  /** The action tuples hold one or two tokens; the two-token ones are the replacements. */
  lemma ChangeActionShape(actions: seq<string>)
    requires IsChangeAction(actions)
    ensures |actions| == 1 || |actions| == 2
    ensures |actions| == 1 ==> actions[0] in {"no-op", "create", "read", "update", "delete"}
    ensures |actions| == 2 <==> actions == ["delete", "create"] || actions == ["create", "delete"]
  {
  }

  /** `Change`: the action tuple and the three attribute maps, each of which may be null. */
  datatype Change = Change(
    actions: seq<string>,
    before: Option<Record>,
    after: Option<Record>,
    afterUnknown: Option<Record>)

  /** `ResourceChange`: one entry of the plan's `resource_changes`. */
  datatype ResourceChange = ResourceChange(
    address: string,
    moduleAddress: Option<string>,
    mode: Mode,
    resourceType: string,
    name: string,
    index: int,
    deposed: Option<string>,
    change: Change)

  /** `Resource`: a resource of a module in `planned_values`. */
  datatype Resource = Resource(
    address: string,
    mode: Mode,
    resourceType: string,
    name: string,
    index: int,
    providerName: string,
    schemaVersion: int,
    values: Record)

  /** `RootModule`: resources and child modules. */
  datatype RootModule = RootModule(resources: seq<Resource>, childModules: seq<ChildModule>)

  /** `ChildModule`: a RootModule together with its address, so resources occur at every depth. */
  datatype ChildModule = ChildModule(address: string, resources: seq<Resource>, childModules: seq<ChildModule>)

  /** An entry of `outputs`. */
  datatype Output = Output(value: string, sensitive: bool)

  /** `Value`: the shape of `planned_values` and `proposed_unknown`. */
  datatype Value = Value(outputs: map<string, Output>, rootModule: RootModule)

  /** `Plan`: the document; the sections the viewer does not interpret are kept as raw JSON. */
  datatype Plan = Plan(
    formatVersion: string,
    priorState: Json,
    configuration: Json,
    plannedValues: Value,
    proposedUnknown: Value,
    variables: Json,
    resourceChanges: seq<ResourceChange>,
    outputChanges: Json)
}
