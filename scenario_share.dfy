/**
 * Sharing a scenario to the community (src/components/scenarios/share-dialog.tsx):
 * the suggested generic title, the share button's guard and the trimmed fields
 * that are posted.
 */
module ScenarioShare {
  import opened Wrappers
  import Text
  import Seqs

  /** A word is kept when it is longer than two characters and carries no marker. */
  predicate IsGenericWord(word: string) {
    && !Text.Contains(word, "@")
    && !Text.Contains(word, ".com")
    && !Text.Contains(word, "inc")
    && !Text.Contains(word, "corp")
    && |word| > 2
  }

  /** The words of the lower-cased title that survive the filter, in order. */
  function GenericWords(title: string): (words: seq<string>)
    ensures forall i :: 0 <= i < |words| ==> IsGenericWord(words[i]) && ' ' !in words[i]
    ensures forall i :: 0 <= i < |words| ==> words[i] in Text.Split(Text.ToLower(title), ' ')
  {
    Seqs.Filter(Text.Split(Text.ToLower(title), ' '), IsGenericWord)
  }

  /** Every space-separated word of the lower-cased title that passes survives. */
  lemma GenericWordsComplete(title: string, word: string)
    requires word in Text.Split(Text.ToLower(title), ' ') && IsGenericWord(word)
    ensures word in GenericWords(title)
  {
  }

  /** The survivors keep their relative order. */
  lemma GenericWordsInOrder(title: string)
    ensures Seqs.IsSubsequence(GenericWords(title), Text.Split(Text.ToLower(title), ' '))
  {
    Seqs.FilterIsSubsequence(Text.Split(Text.ToLower(title), ' '), IsGenericWord);
  }

  /** Words of a lower-cased text have no upper-case letters. */
  lemma GenericWordsAreLower(title: string)
    ensures forall i, k :: 0 <= i < |GenericWords(title)| && 0 <= k < |GenericWords(title)[i]| ==>
              !Text.IsUpper(GenericWords(title)[i][k])
  {
    var parts := Text.Split(Text.ToLower(title), ' ');
    forall i, k | 0 <= i < |GenericWords(title)| && 0 <= k < |GenericWords(title)[i]|
      ensures !Text.IsUpper(GenericWords(title)[i][k])
    {
      var w := GenericWords(title)[i];
      var j :| 0 <= j < |parts| && parts[j] == w;
      SplitPartsAreLower(Text.ToLower(title), j);
    }
  }

  /** Characters of a split part are characters of the split text. */
  lemma SplitPartsAreLower(s: string, j: nat)
    requires forall k :: 0 <= k < |s| ==> !Text.IsUpper(s[k])
    requires j < |Text.Split(s, ' ')|
    ensures forall k :: 0 <= k < |Text.Split(s, ' ')[j]| ==> !Text.IsUpper(Text.Split(s, ' ')[j][k])
  {
    if s != [] {
      var rest := Text.Split(s[1..], ' ');
      if s[0] == ' ' {
        if j > 0 {
          SplitPartsAreLower(s[1..], j - 1);
        }
      } else if j > 0 {
        SplitPartsAreLower(s[1..], j);
      } else {
        SplitPartsAreLower(s[1..], 0);
      }
    }
  }

  /** Capitalising cannot create a space. */
  lemma CapitalizeKeepsNoSpace(w: string)
    requires ' ' !in w
    ensures ' ' !in Text.Capitalize(w)
  {
    if w != [] {
      assert Text.Capitalize(w) == [Text.ToUpperChar(w[0])] + w[1..];
      assert ' ' !in w[1..];
    }
  }

  /** `suggestGenericTitle`. */
  function SuggestGenericTitle(title: string, category: string): (suggestion: string)
    ensures GenericWords(title) == [] ==> suggestion == category + " Challenge"
    ensures GenericWords(title) != [] ==>
      Text.Split(suggestion, ' ') == Seqs.Map(GenericWords(title), Text.Capitalize)
  {
    var generic := GenericWords(title);
    if |generic| > 0 then
      var words := Seqs.Map(generic, Text.Capitalize);
      WordsHaveNoSpace(generic);
      Text.SplitJoin(words, ' ');
      Text.Join(words, " ")
    else category + " Challenge"
  }

  lemma WordsHaveNoSpace(words: seq<string>)
    requires forall i :: 0 <= i < |words| ==> ' ' !in words[i]
    ensures forall i :: 0 <= i < |words| ==> ' ' !in Seqs.Map(words, Text.Capitalize)[i]
  {
    forall i | 0 <= i < |words| ensures ' ' !in Seqs.Map(words, Text.Capitalize)[i] {
      CapitalizeKeepsNoSpace(words[i]);
    }
  }

  /**
   * Lower-casing the words of a non-fallback suggestion gives back exactly the
   * surviving words: only first letters were changed.
   */
  lemma SuggestionWordsAreSurvivors(title: string, category: string)
    requires GenericWords(title) != []
    ensures Seqs.Map(Text.Split(SuggestGenericTitle(title, category), ' '), Text.ToLower) ==
            GenericWords(title)
  {
    var generic := GenericWords(title);
    GenericWordsAreLower(title);
    var words := Text.Split(SuggestGenericTitle(title, category), ' ');
    forall i | 0 <= i < |generic| ensures Text.ToLower(words[i]) == generic[i] {
      Text.LowerUndoesCapitalize(generic[i]);
    }
  }

  /** The posted body: every field trimmed. */
  datatype ShareFields = ShareFields(title: string, description: string, context: string)

  /** The share button: confirmed, non-blank title and description, not busy. */
  predicate ShareEnabled(confirmed: bool, title: string, description: string, isSharing: bool)
    ensures ShareEnabled(confirmed, title, description, isSharing) ==>
      confirmed && !isSharing && |title| > 0 && |description| > 0
  {
    confirmed && Text.Trim(title) != "" && Text.Trim(description) != "" && !isSharing
  }

  /** `handleShare`'s request: nothing unless confirmed, else the trimmed fields. */
  function ShareRequest(confirmed: bool, title: string, description: string, context: string)
    : (request: Option<ShareFields>)
    ensures request == None <==> !confirmed
    ensures request.Some? ==>
      request.value == ShareFields(Text.Trim(title), Text.Trim(description), Text.Trim(context))
  {
    if !confirmed then None
    else Some(ShareFields(Text.Trim(title), Text.Trim(description), Text.Trim(context)))
  }

  /** The button is enabled exactly when title and description have a visible character. */
  lemma ShareEnabledMeaning(confirmed: bool, title: string, description: string, isSharing: bool)
    ensures ShareEnabled(confirmed, title, description, isSharing) <==>
      confirmed && !isSharing &&
      (exists k :: 0 <= k < |title| && !Text.IsWhitespace(title[k])) &&
      (exists k :: 0 <= k < |description| && !Text.IsWhitespace(description[k]))
  {
    Text.TrimEmpty(title);
    Text.TrimEmpty(description);
  }

  /** A click on the enabled button posts a non-blank title and description. */
  lemma EnabledShareSendsNonBlank(confirmed: bool, title: string, description: string,
                                  context: string, isSharing: bool)
    requires ShareEnabled(confirmed, title, description, isSharing)
    ensures var request := ShareRequest(confirmed, title, description, context);
            request.Some? && request.value.title != "" && request.value.description != "" &&
            !Text.IsWhitespace(request.value.title[0]) &&
            !Text.IsWhitespace(request.value.description[0])
  {
    Text.TrimIsSlice(title);
    Text.TrimIsSlice(description);
  }
}
