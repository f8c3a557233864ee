/**
 * The card of src/components/Change.tsx. Its findChange, change-map fold,
 * `changes` filter, getChangeColor and normalisedAddress are those of
 * ChangeCore; what it has of its own is getChangeLabel.
 */
module LegacyChange {
  import opened TerraformTypes
  import opened ChangeCore
  import TerraformChange

  /**
   * The text getChangeLabel returns: three single actions are named, any other
   * single action (`create` and `read` among them) is returned verbatim, and,
   * the two-action comparisons being identity tests against fresh literals,
   * every other list is "Unknown".
   */
  function ChangeLabel(actions: seq<string>): (text: string)
    ensures |actions| != 1 ==> text == "Unknown"
    ensures |actions| == 1 && actions[0] !in {"no-op", "update", "delete"} ==> text == actions[0]
  {
    if |actions| == 1 then
      var action := actions[0];
      if action == "no-op" then "No change"
      else if action == "update" then "Update in place"
      else if action == "delete" then "Delete"
      else action
    else "Unknown"
  }

  /**
   * The replacement tuples are "Unknown" too; `no-op`, `update` and `delete` are
   * named, and `create` is shown as the token itself.
   */
  lemma ReplacementTuplesAreUnknown()
    ensures ChangeLabel(["create", "delete"]) == "Unknown"
    ensures ChangeLabel(["delete", "create"]) == "Unknown"
    ensures ChangeLabel(["create"]) == "create"
    ensures ChangeLabel(["no-op"]) == "No change"
    ensures ChangeLabel(["update"]) == "Update in place"
    ensures ChangeLabel(["delete"]) == "Delete"
  {
  }

  /** getChangeLabel, emptying a one-action argument with `shift()`. */
  method GetChangeLabel(actions: ActionArray) returns (text: string)
    modifies actions
    ensures text == ChangeLabel(old(actions.items))
    ensures actions.items == AfterClassifying(old(actions.items))
  {
    if |actions.items| == 1 {
      var action := actions.Shift();
      if action == Some("no-op") {
        return "No change";
      } else if action == Some("update") {
        return "Update in place";
      } else if action == Some("delete") {
        return "Delete";
      }
      return action.value;
    }
    var createDelete := new ActionArray(["create", "delete"]);
    if actions == createDelete {
      return "Create new before delete old";
    }
    var deleteCreate := new ActionArray(["delete", "create"]);
    if actions == deleteCreate {
      return "Delete old before create new";
    }
    return "Unknown";
  }

  /** The two components' labels differ only on the single actions `create` and `read`. */
  lemma HeaderAndLabelDiffer(actions: seq<string>)
    ensures TerraformChange.HeaderLabel(actions) != ChangeLabel(actions) <==>
      actions == ["create"] || actions == ["read"]
  {
  }

  /**
   * The card's `getChangeColor([...actions])` and `getChangeLabel([...actions])`:
   * both classifiers work on copies and the resource change's array is untouched.
   */
  method CardClassification(source: ActionArray) returns (color: Category, text: string)
    ensures color == ColorOf(source.items)
    ensures text == ChangeLabel(source.items)
  {
    var colorCopy := new ActionArray(source.items);
    color := GetChangeColor(colorCopy);
    var labelCopy := new ActionArray(source.items);
    text := GetChangeLabel(labelCopy);
  }
}
