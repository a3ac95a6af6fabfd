/**
 * The dashboard's list of past conversations
 * (src/components/dashboard/conversation-list.tsx): swipe-to-reveal on touch,
 * delete through the API, and the card's badge and link.
 */
module ConversationList {
  import opened Wrappers
  import Seqs
  import Avatars

  datatype ScenarioRef = ScenarioRef(title: string, category: string)
  datatype PersonaRef = PersonaRef(name: string, title: string)

  /** One row as the dashboard query returns it. */
  datatype ConversationItem = ConversationItem(
    id: string,
    status: string,
    createdAt: string,
    scenario: Option<ScenarioRef>,
    persona: Option<PersonaRef>,
    analysis: Option<seq<int>>)   // the overall scores of the joined analyses

  /** How far left a swipe must travel to reveal the delete button. */
  const RevealDistance: real := 80.0
  /** How far right a swipe must travel to hide it again. */
  const HideDistance: real := 40.0

  // ---------------------------------------------------------------------
  // Deleting

  /** `prev.filter((c) => c.id !== id)`. */
  function RemoveById(items: seq<ConversationItem>, id: string): (r: seq<ConversationItem>)
    ensures forall i :: 0 <= i < |r| ==> r[i].id != id && r[i] in items
    ensures forall i :: 0 <= i < |items| && items[i].id != id ==> items[i] in r
  {
    Seqs.Filter(items, (c: ConversationItem) => c.id != id)
  }

  /** The items that remain keep their order. */
  lemma RemoveByIdKeepsOrder(items: seq<ConversationItem>, id: string)
    ensures Seqs.IsSubsequence(RemoveById(items, id), items)
  {
    Seqs.FilterIsSubsequence(items, (c: ConversationItem) => c.id != id);
  }

  /** Deleting an id that is not listed changes nothing. */
  lemma RemoveAbsentId(items: seq<ConversationItem>, id: string)
    requires forall i :: 0 <= i < |items| ==> items[i].id != id
    ensures RemoveById(items, id) == items
  {
    Seqs.FilterAllPass(items, (c: ConversationItem) => c.id != id);
  }

  /** Deleting the same id twice is the same as deleting it once. */
  /** Deleting an id empties the list exactly when every item carries that id. */
  lemma RemoveByIdEmpties(items: seq<ConversationItem>, id: string)
    ensures RemoveById(items, id) == [] <==> forall i :: 0 <= i < |items| ==> items[i].id == id
  {
    if RemoveById(items, id) != [] {
      var r := RemoveById(items, id);
      assert r[0] in items;
    }
  }

  lemma RemoveByIdIdempotent(items: seq<ConversationItem>, id: string)
    ensures RemoveById(RemoveById(items, id), id) == RemoveById(items, id)
  {
    RemoveAbsentId(RemoveById(items, id), id);
  }

  // ---------------------------------------------------------------------
  // The card

  /** `conv.analysis?.[0]?.overall_score`. */
  function Score(c: ConversationItem): (score: Option<int>)
    ensures score.Some? <==> c.analysis.Some? && |c.analysis.value| > 0
    ensures score.Some? ==> score.value == c.analysis.value[0]
  {
    match c.analysis
    case None => None
    case Some(scores) => if |scores| == 0 then None else Some(scores[0])
  }

  datatype ScoreColour = Primary | Yellow | Orange
  datatype Badge = InProgress | ScoreBadge(score: int, colour: ScoreColour) | Completed

  /** Green from 80, yellow from 60, orange below. */
  function ColourOf(score: int): (colour: ScoreColour)
    ensures colour == Primary <==> score >= 80
    ensures colour == Yellow <==> 60 <= score < 80
    ensures colour == Orange <==> score < 60
  {
    if score >= 80 then Primary else if score >= 60 then Yellow else Orange
  }

  function ColourRank(colour: ScoreColour): nat
  {
    match colour
    case Orange => 0
    case Yellow => 1
    case Primary => 2
  }

  /** A higher score never gets a worse colour. */
  lemma ColourMonotone(a: int, b: int)
    requires a <= b
    ensures ColourRank(ColourOf(a)) <= ColourRank(ColourOf(b))
  {
  }

  /**
   * The badge at the card's corner: an active conversation is in progress;
   * otherwise a truthy (non-zero) score is shown in its colour, and a zero
   * or missing score shows as completed.
   */
  function BadgeOf(c: ConversationItem): (badge: Badge)
    ensures badge == InProgress <==> c.status == "active"
    ensures badge.ScoreBadge? <==>
      c.status != "active" && Score(c).Some? && Score(c).value != 0
    ensures badge.ScoreBadge? ==>
      badge.score == Score(c).value && badge.colour == ColourOf(badge.score)
  {
    if c.status == "active" then InProgress
    else
      var score := Score(c);
      if score.Some? && score.value != 0 then ScoreBadge(score.value, ColourOf(score.value))
      else Completed
  }

  /** A finished conversation that was never scored still reads as completed. */
  lemma UnscoredIsCompleted(c: ConversationItem)
    requires c.status != "active" && (c.analysis == None || c.analysis == Some([]))
    ensures BadgeOf(c) == Completed
  {
  }

  const AnalysisPrefix: string := "/analysis/"
  const ChatPrefix: string := "/chat/"

  /** Completed conversations open their analysis; all others reopen the chat. */
  function LinkTarget(c: ConversationItem): (href: string)
    ensures c.status == "completed" ==> href == AnalysisPrefix + c.id
    ensures c.status != "completed" ==> href == ChatPrefix + c.id
  {
    (if c.status == "completed" then AnalysisPrefix else ChatPrefix) + c.id
  }

  /** The link names the conversation: its id is what follows the route prefix. */
  lemma LinkTargetRecoversId(c: ConversationItem)
    ensures var href := LinkTarget(c);
      if c.status == "completed"
      then href[..|AnalysisPrefix|] == AnalysisPrefix && href[|AnalysisPrefix|..] == c.id
      else href[..|ChatPrefix|] == ChatPrefix && href[|ChatPrefix|..] == c.id
  {
  }

  /** `a || fallback` for an optional string. */
  function OrElse(s: Option<string>, fallback: string): (r: string)
    ensures Avatars.Truthy(s) ==> r == s.value
    ensures !Avatars.Truthy(s) ==> r == fallback
  {
    if Avatars.Truthy(s) then s.value else fallback
  }

  function CategoryText(c: ConversationItem): (text: string)
    ensures c.scenario.Some? && c.scenario.value.category != "" ==> text == c.scenario.value.category
    ensures c.scenario.None? || c.scenario.value.category == "" ==> text == "Practice"
  {
    OrElse(if c.scenario.Some? then Some(c.scenario.value.category) else None, "Practice")
  }

  function TitleText(c: ConversationItem): (text: string)
    ensures c.scenario.Some? && c.scenario.value.title != "" ==> text == c.scenario.value.title
    ensures c.scenario.None? || c.scenario.value.title == "" ==> text == "Conversation"
  {
    OrElse(if c.scenario.Some? then Some(c.scenario.value.title) else None, "Conversation")
  }

  function PersonaText(c: ConversationItem): (text: string)
    ensures c.persona.Some? && c.persona.value.name != "" ==> text == c.persona.value.name
    ensures c.persona.None? || c.persona.value.name == "" ==> text == "AI"
  {
    OrElse(if c.persona.Some? then Some(c.persona.value.name) else None, "AI")
  }

  /** None of the card's text lines is ever blank. */
  lemma CardTextNeverBlank(c: ConversationItem)
    ensures CategoryText(c) != "" && TitleText(c) != "" && PersonaText(c) != ""
  {
  }

  // ---------------------------------------------------------------------
  // The component's state

  class ListState {
    var items: seq<ConversationItem>
    var swipedId: Option<string>
    var deleting: Option<string>
    var touchStartX: real
    var touchCurrentX: real
    var swipeRef: Option<string>

    constructor (conversations: seq<ConversationItem>)
      ensures items == conversations
      ensures swipedId == None && deleting == None && swipeRef == None
      ensures touchStartX == 0.0 && touchCurrentX == 0.0
    {
      items := conversations;
      swipedId := None;
      deleting := None;
      touchStartX := 0.0;
      touchCurrentX := 0.0;
      swipeRef := None;
    }

    /** The list shows its empty-state prompt exactly when no item is left. */
    predicate ShowsEmptyState()
      reads this
    {
      |items| == 0
    }

    predicate IsSwiped(id: string)
      reads this
    {
      swipedId == Some(id)
    }

    /** A finger lands on card `id` at horizontal position `x`. */
    method TouchStart(id: string, x: real)
      modifies this
      ensures touchStartX == x && touchCurrentX == x && swipeRef == Some(id)
      ensures items == old(items) && swipedId == old(swipedId) && deleting == old(deleting)
    {
      touchStartX := x;
      touchCurrentX := x;
      swipeRef := Some(id);
    }

    /** The finger moves to `x`. */
    method TouchMove(x: real)
      modifies this
      ensures touchCurrentX == x
      ensures touchStartX == old(touchStartX) && swipeRef == old(swipeRef)
      ensures items == old(items) && swipedId == old(swipedId) && deleting == old(deleting)
    {
      touchCurrentX := x;
    }

    /**
     * The finger lifts: a leftward swipe of more than 80 reveals the recorded
     * card, a rightward swipe of more than 40 hides whatever was revealed,
     * anything shorter leaves it; the recorded card is always forgotten.
     */
    method TouchEnd()
      modifies this
      ensures var diff := old(touchStartX) - old(touchCurrentX);
        if diff > RevealDistance && Avatars.Truthy(old(swipeRef)) then swipedId == old(swipeRef)
        else if diff < -HideDistance then swipedId == None
        else swipedId == old(swipedId)
      ensures swipeRef == None
      ensures touchStartX == old(touchStartX) && touchCurrentX == old(touchCurrentX)
      ensures items == old(items) && deleting == old(deleting)
    {
      var diff := touchStartX - touchCurrentX;
      if diff > RevealDistance && Avatars.Truthy(swipeRef) {
        swipedId := swipeRef;
      } else if diff < -HideDistance {
        swipedId := None;
      }
      swipeRef := None;
    }

    /**
     * A click on card `id`. A revealed card slides back instead of opening;
     * `follow` says whether the link is followed.
     */
    method CardClick(id: string) returns (follow: bool)
      modifies this
      ensures follow <==> !old(IsSwiped(id))
      ensures old(IsSwiped(id)) ==> swipedId == None
      ensures !old(IsSwiped(id)) ==> swipedId == old(swipedId)
      ensures items == old(items) && deleting == old(deleting) && swipeRef == old(swipeRef)
      ensures touchStartX == old(touchStartX) && touchCurrentX == old(touchCurrentX)
    {
      if IsSwiped(id) {
        swipedId := None;
        follow := false;
      } else {
        follow := true;
      }
    }

    /** The delete button of card `id` is pressed; the request is in flight. */
    method StartDelete(id: string)
      modifies this
      ensures deleting == Some(id)
      ensures items == old(items) && swipedId == old(swipedId) && swipeRef == old(swipeRef)
      ensures touchStartX == old(touchStartX) && touchCurrentX == old(touchCurrentX)
    {
      deleting := Some(id);
    }

    /**
     * The request for `id` settled; `ok` is false for a non-ok response and
     * for a thrown error alike. Only success removes the card.
     */
    method FinishDelete(id: string, ok: bool)
      modifies this
      ensures deleting == None
      ensures ok ==> items == RemoveById(old(items), id) && swipedId == None
      ensures ok ==> (ShowsEmptyState() <==> forall i :: 0 <= i < |old(items)| ==> old(items)[i].id == id)
      ensures !ok ==> items == old(items) && swipedId == old(swipedId)
      ensures swipeRef == old(swipeRef)
      ensures touchStartX == old(touchStartX) && touchCurrentX == old(touchCurrentX)
    {
      if ok {
        RemoveByIdEmpties(items, id);
        items := RemoveById(items, id);
        swipedId := None;
      }
      deleting := None;
    }
  }
}
