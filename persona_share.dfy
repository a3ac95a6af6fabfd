/**
 * Sharing a persona to the community (src/components/personas/share-dialog.tsx):
 * the suggested generic name, the share button's guard and the posted fields.
 * A missing `tags` or `personality_traits` list is the empty sequence.
 */
module PersonaShare {
  import opened Wrappers
  import Text

  /** The relationship tag table. */
  const TagLabels: map<string, string> := map[
    "boss" := "Boss",
    "peer" := "Coworker",
    "employee" := "Direct Report",
    "client" := "Client",
    "hr" := "HR Contact",
    "other" := "Contact"
  ]

  /** The label of the first tag; a missing, empty or unknown tag reads "Contact". */
  function TypeLabel(tags: seq<string>): (kind: string)
    ensures kind in TagLabels.Values
    ensures |tags| > 0 && tags[0] in TagLabels ==> kind == TagLabels[tags[0]]
    ensures (|tags| == 0 || tags[0] !in TagLabels) ==> kind == "Contact"
  {
    assert TagLabels["other"] == "Contact";
    if |tags| > 0 && tags[0] != "" then
      if tags[0] in TagLabels && TagLabels[tags[0]] != "" then TagLabels[tags[0]] else "Contact"
    else "Contact"
  }

  /** `suggestGenericName`. */
  function SuggestGenericName(tags: seq<string>, traits: seq<string>): (name: string)
    ensures |traits| > 0 && traits[0] != "" ==>
      name == "The " + Text.Capitalize(traits[0]) + " " + TypeLabel(tags)
    ensures (|traits| == 0 || traits[0] == "") ==> name == "The Difficult " + TypeLabel(tags)
  {
    var typeLabel := TypeLabel(tags);
    if |traits| > 0 && traits[0] != "" then
      "The " + Text.Capitalize(traits[0]) + " " + typeLabel
    else "The Difficult " + typeLabel
  }

  /** Both lists are empty, or both start with the same entry. */
  predicate SameFirst(a: seq<string>, b: seq<string>) {
    (|a| == 0 && |b| == 0) || (|a| > 0 && |b| > 0 && a[0] == b[0])
  }

  /** Only the first tag and the first trait are read. */
  lemma OnlyFirstEntriesMatter(tags1: seq<string>, tags2: seq<string>,
                               traits1: seq<string>, traits2: seq<string>)
    requires SameFirst(tags1, tags2) && SameFirst(traits1, traits2)
    ensures SuggestGenericName(tags1, traits1) == SuggestGenericName(tags2, traits2)
  {
  }

  /** Every suggestion reads "The <adjective> <label>" with a label from the table. */
  lemma SuggestionShape(tags: seq<string>, traits: seq<string>)
    ensures var name := SuggestGenericName(tags, traits);
            exists adjective, kind :: kind in TagLabels.Values &&
              name == "The " + adjective + " " + kind && adjective != ""
  {
    var kind := TypeLabel(tags);
    if |traits| > 0 && traits[0] != "" {
      var adjective := Text.Capitalize(traits[0]);
      assert SuggestGenericName(tags, traits) == "The " + adjective + " " + kind;
    } else {
      assert SuggestGenericName(tags, traits) == "The " + "Difficult" + " " + kind;
    }
  }

  /** The posted body: every field trimmed. */
  datatype ShareFields = ShareFields(name: string, title: string, description: string)

  /** The share button: confirmed, non-blank name and title, not busy. */
  predicate ShareEnabled(confirmed: bool, name: string, title: string, isSharing: bool)
    ensures ShareEnabled(confirmed, name, title, isSharing) ==>
      confirmed && !isSharing && |name| > 0 && |title| > 0
  {
    confirmed && Text.Trim(name) != "" && Text.Trim(title) != "" && !isSharing
  }

  /** `handleShare`'s request: nothing unless confirmed, else the trimmed fields. */
  function ShareRequest(confirmed: bool, name: string, title: string, description: string)
    : (request: Option<ShareFields>)
    ensures request == None <==> !confirmed
    ensures request.Some? ==>
      request.value == ShareFields(Text.Trim(name), Text.Trim(title), Text.Trim(description))
  {
    if !confirmed then None
    else Some(ShareFields(Text.Trim(name), Text.Trim(title), Text.Trim(description)))
  }

  /** The description may be blank; name and title may not. */
  lemma ShareEnabledMeaning(confirmed: bool, name: string, title: string, isSharing: bool)
    ensures ShareEnabled(confirmed, name, title, isSharing) <==>
      confirmed && !isSharing &&
      (exists k :: 0 <= k < |name| && !Text.IsWhitespace(name[k])) &&
      (exists k :: 0 <= k < |title| && !Text.IsWhitespace(title[k]))
  {
    Text.TrimEmpty(name);
    Text.TrimEmpty(title);
  }

  /** The suggested name alone never blocks the button. */
  lemma SuggestedNameIsNotBlank(tags: seq<string>, traits: seq<string>)
    ensures Text.Trim(SuggestGenericName(tags, traits)) != ""
  {
    var name := SuggestGenericName(tags, traits);
    assert name[0] == 'T';
    Text.TrimEmpty(name);
  }
}
