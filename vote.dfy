/**
 * The optimistic community vote toggle (src/hooks/use-vote.ts).
 *
 * `toggleVote` writes its optimistic state, awaits the server, then either
 * takes the server's `voted` flag or restores what it saw before. The await
 * splits it into `BeginToggle` and `FinishToggle`; the server's answer is a
 * parameter.
 */
module Vote {
  import opened Wrappers

  /** What the request came back with. */
  datatype Outcome =
    | Voted(voted: bool)   // an ok response and its `voted` field
    | Failed               // a non-ok response or a thrown error

  /** The values `toggleVote` keeps in local constants across the await. */
  datatype Pending = Pending(wasVoted: bool, prevCount: int)

  function Indicator(b: bool): int { if b then 1 else 0 }

  class VoteState {
    var hasVoted: bool
    var voteCount: int
    var isLoading: bool

    constructor (initialVoted: bool, initialCount: int)
      ensures hasVoted == initialVoted && voteCount == initialCount && !isLoading
    {
      hasVoted := initialVoted;
      voteCount := initialCount;
      isLoading := false;
    }

    /** The part before the await; nothing happens while a vote is loading. */
    method BeginToggle() returns (pending: Option<Pending>)
      modifies this
      ensures old(isLoading) ==> pending == None && unchanged(this)
      ensures !old(isLoading) ==>
        && pending == Some(Pending(old(hasVoted), old(voteCount)))
        && hasVoted == !old(hasVoted)
        && voteCount == (if old(hasVoted) then old(voteCount) - 1 else old(voteCount) + 1)
        && isLoading
    {
      if isLoading {
        return None;
      }
      var wasVoted := hasVoted;
      var prevCount := voteCount;
      hasVoted := !wasVoted;
      voteCount := if wasVoted then prevCount - 1 else prevCount + 1;
      isLoading := true;
      pending := Some(Pending(wasVoted, prevCount));
    }

    /**
     * The part after the await: success keeps the optimistic count and takes
     * the server's flag; failure restores both values.
     */
    method FinishToggle(pending: Pending, outcome: Outcome)
      modifies this
      ensures !isLoading
      ensures outcome.Voted? ==> hasVoted == outcome.voted && voteCount == old(voteCount)
      ensures outcome == Failed ==>
        hasVoted == pending.wasVoted && voteCount == pending.prevCount
    {
      match outcome {
        case Voted(voted) =>
          hasVoted := voted;
        case Failed =>
          hasVoted := pending.wasVoted;
          voteCount := pending.prevCount;
      }
      isLoading := false;
    }

    /** One whole `toggleVote` call that is answered with `outcome`. */
    method ToggleVote(outcome: Outcome)
      modifies this
      ensures old(isLoading) ==> unchanged(this)
      ensures !old(isLoading) ==> !isLoading
      ensures !old(isLoading) && outcome == Failed ==>
        hasVoted == old(hasVoted) && voteCount == old(voteCount)
      ensures !old(isLoading) && outcome.Voted? ==>
        hasVoted == outcome.voted &&
        voteCount == old(voteCount) + (if old(hasVoted) then -1 else 1)
      // The count is reconciled only when the server agrees with the toggle.
      ensures !old(isLoading) && outcome.Voted? ==>
        (voteCount - Indicator(hasVoted) == old(voteCount) - Indicator(old(hasVoted)) <==>
         outcome.voted == !old(hasVoted))
    {
      var pending := BeginToggle();
      if pending.Some? {
        FinishToggle(pending.value, outcome);
      }
    }
  }
}
