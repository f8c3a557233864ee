/**
 * The card header of src/components/Terraform/Change.tsx: getChangeHeader
 * (the text it shows, not its icons) and how the card calls the two
 * classifiers on copies of the resource change's action array.
 */
module TerraformChange {
  import opened TerraformTypes
  import opened ChangeCore

  /**
   * The text getChangeHeader shows. As in getChangeColor, its two-action
   * branches compare the argument with fresh literals by identity and never
   * fire, so every list that is not a single action is labelled "Unknown".
   * A single action it does not know is shown as the action itself.
   */
  function HeaderLabel(actions: seq<string>): (text: string)
    ensures |actions| != 1 ==> text == "Unknown"
    ensures |actions| == 1 && actions[0] !in {"no-op", "update", "delete", "create", "read"} ==> text == actions[0]
  {
    if |actions| == 1 then
      var action := actions[0];
      if action == "no-op" then "No change"
      else if action == "update" then "Update in place"
      else if action == "delete" then "Delete"
      else if action == "create" then "Create"
      else if action == "read" then "Read"
      else action
    else "Unknown"
  }

  /** Labels of the five single actions. */
  lemma SingleActionLabels()
    ensures HeaderLabel(["no-op"]) == "No change"
    ensures HeaderLabel(["update"]) == "Update in place"
    ensures HeaderLabel(["delete"]) == "Delete"
    ensures HeaderLabel(["create"]) == "Create"
    ensures HeaderLabel(["read"]) == "Read"
  {
  }

  /** getChangeHeader: like getChangeColor, it empties a one-action argument with `shift()`. */
  method GetChangeHeader(actions: ActionArray) returns (text: string)
    modifies actions
    ensures text == HeaderLabel(old(actions.items))
    ensures actions.items == AfterClassifying(old(actions.items))
  {
    if |actions.items| == 1 {
      var action := actions.Shift();
      if action == Some("no-op") {
        return "No change";
      } else if action == Some("update") {
        return "Update in place";
      } else if action == Some("delete") {
        return "Delete";
      } else if action == Some("create") {
        return "Create";
      } else if action == Some("read") {
        return "Read";
      }
      return action.value;
    }
    var createDelete := new ActionArray(["create", "delete"]);
    if actions == createDelete {
      return "Create new before delete old";
    }
    var deleteCreate := new ActionArray(["delete", "create"]);
    if actions == deleteCreate {
      return "Delete old before create new";
    }
    return "Unknown";
  }

  /** The text the header was evidently meant to show, comparing the two-action lists element by element. */
  function IntendedHeaderLabel(actions: seq<string>): string {
    if |actions| == 1 then HeaderLabel(actions)
    else if actions == ["create", "delete"] then "Create new before delete old"
    else if actions == ["delete", "create"] then "Delete old before create new"
    else "Unknown"
  }

  /** The viewer's header and the intended one differ exactly on the two replacement tuples. */
  lemma IntendedHeaderDiffers(actions: seq<string>)
    ensures IntendedHeaderLabel(actions) != HeaderLabel(actions) <==>
      actions == ["create", "delete"] || actions == ["delete", "create"]
  {
  }

  /**
   * The card's `getChangeColor([...actions])` and `getChangeHeader([...actions])`:
   * each classifier gets a fresh copy, so both see the full list and the
   * resource change's own array (`source`) is left as it was.
   */
  method CardClassification(source: ActionArray) returns (color: Category, text: string)
    ensures color == ColorOf(source.items)
    ensures text == HeaderLabel(source.items)
  {
    var colorCopy := new ActionArray(source.items);
    color := GetChangeColor(colorCopy);
    var headerCopy := new ActionArray(source.items);
    text := GetChangeHeader(headerCopy);
  }
}
