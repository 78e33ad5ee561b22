/**
 * The vote buttons of an idea card (components/IdeaCard.tsx): three pieces of
 * component state (`voteCount`, `isUpvoted`, `isDownvoted`) that start at
 * `0, false, false` and are changed only by the upvote and downvote click
 * handlers. The state is local to the card; nothing is read from or written to
 * the store.
 */
module Votes {

  /** The three state fields as one value. */
  datatype CardVotes = CardVotes(voteCount: int, isUpvoted: bool, isDownvoted: bool)

  /** `useState(0)`, `useState(false)`, `useState(false)`. */
  const Initial := CardVotes(0, false, false)

  /** The direction a card shows: neither button lit, the upvote lit, or the downvote lit. */
  datatype Direction = Neutral | Up | Down

  /** The tally a direction stands for: +1, -1 or 0. */
  function Weight(d: Direction): int {
    match d
    case Neutral => 0
    case Up => 1
    case Down => -1
  }

  /** The card invariant: at most one button lit, and the count is exactly the
      weight of the lit button. */
  predicate Consistent(s: CardVotes) {
    && !(s.isUpvoted && s.isDownvoted)
    && s.voteCount == (if s.isUpvoted then 1 else 0) - (if s.isDownvoted then 1 else 0)
  }

  /** The direction a state shows. */
  function DirectionOf(s: CardVotes): Direction {
    if s.isUpvoted then Up else if s.isDownvoted then Down else Neutral
  }

  /** What the upvote button's handler does to the state it closes over:
      retract a lit upvote, otherwise light it, counting +2 when it replaces a
      downvote and +1 from neutral. */
  function UpvoteClick(s: CardVotes): (r: CardVotes)
    ensures Consistent(s) ==> Consistent(r)
    ensures Consistent(s) ==> DirectionOf(r) == (if DirectionOf(s) == Up then Neutral else Up)
    ensures r.voteCount - s.voteCount == (if s.isUpvoted then -1 else if s.isDownvoted then 2 else 1)
  {
    if s.isUpvoted then CardVotes(s.voteCount - 1, false, s.isDownvoted)
    else CardVotes(if s.isDownvoted then s.voteCount + 2 else s.voteCount + 1, true, false)
  }

  /** The downvote handler, the mirror image: retract a lit downvote, otherwise
      light it, counting -2 when it replaces an upvote and -1 from neutral. */
  function DownvoteClick(s: CardVotes): (r: CardVotes)
    ensures Consistent(s) ==> Consistent(r)
    ensures Consistent(s) ==> DirectionOf(r) == (if DirectionOf(s) == Down then Neutral else Down)
    ensures r.voteCount - s.voteCount == (if s.isDownvoted then 1 else if s.isUpvoted then -2 else -1)
  {
    if s.isDownvoted then CardVotes(s.voteCount + 1, s.isUpvoted, false)
    else CardVotes(if s.isUpvoted then s.voteCount - 2 else s.voteCount - 1, false, true)
  }

  datatype Button = UpvoteButton | DownvoteButton

  function Click(s: CardVotes, b: Button): CardVotes {
    match b
    case UpvoteButton => UpvoteClick(s)
    case DownvoteButton => DownvoteClick(s)
  }

  /** The state after a sequence of clicks, first click first. */
  function Replay(s: CardVotes, clicks: seq<Button>): CardVotes
    decreases |clicks|
  {
    if clicks == [] then s else Replay(Click(s, clicks[0]), clicks[1..])
  }

  /** Every click sequence keeps the card invariant. */
  lemma {:induction false} ReplayConsistent(s: CardVotes, clicks: seq<Button>)
    requires Consistent(s)
    ensures Consistent(Replay(s, clicks))
    decreases |clicks|
  {
    if clicks != [] {
      ReplayConsistent(Click(s, clicks[0]), clicks[1..]);
    }
  }

  /** From the initial state, no click sequence lights both buttons, and the
      count stays within -1..1 and equals the weight of the lit button. */
  lemma ReachableStates(clicks: seq<Button>)
    ensures var s := Replay(Initial, clicks);
            && !(s.isUpvoted && s.isDownvoted)
            && -1 <= s.voteCount <= 1
            && s.voteCount == Weight(DirectionOf(s))
  {
    ReplayConsistent(Initial, clicks);
  }

  /** The six tally changes between the three directions. */
  lemma TransitionDeltas(s: CardVotes)
    requires Consistent(s)
    ensures DirectionOf(s) == Neutral ==> UpvoteClick(s).voteCount == s.voteCount + 1
    ensures DirectionOf(s) == Neutral ==> DownvoteClick(s).voteCount == s.voteCount - 1
    ensures DirectionOf(s) == Down ==> UpvoteClick(s).voteCount == s.voteCount + 2
    ensures DirectionOf(s) == Up ==> DownvoteClick(s).voteCount == s.voteCount - 2
    ensures DirectionOf(s) == Up ==> UpvoteClick(s).voteCount == s.voteCount - 1
    ensures DirectionOf(s) == Down ==> DownvoteClick(s).voteCount == s.voteCount + 1
  {
  }

  /** Clicking the same button twice restores a state in which that button's
      opposite was not lit; from the opposite vote it ends at neutral. */
  lemma ClickTwice(s: CardVotes)
    requires Consistent(s)
    ensures !s.isDownvoted ==> UpvoteClick(UpvoteClick(s)) == s
    ensures s.isDownvoted ==> UpvoteClick(UpvoteClick(s)) == Initial
    ensures !s.isUpvoted ==> DownvoteClick(DownvoteClick(s)) == s
    ensures s.isUpvoted ==> DownvoteClick(DownvoteClick(s)) == Initial
  {
  }

  /** The card's state, updated in place by the two click handlers. */
  class VoteButtons {
    var voteCount: int
    var isUpvoted: bool
    var isDownvoted: bool

    function State(): CardVotes
      reads this
    {
      CardVotes(voteCount, isUpvoted, isDownvoted)
    }

    predicate Valid()
      reads this
    {
      Consistent(State())
    }

    constructor ()
      ensures Valid() && State() == Initial
    {
      voteCount, isUpvoted, isDownvoted := 0, false, false;
    }

    /** The upvote button's `onClick`. */
    method Upvote()
      requires Valid()
      modifies this
      ensures Valid()
      ensures State() == UpvoteClick(old(State()))
      ensures old(isUpvoted) ==> voteCount == old(voteCount) - 1 && !isUpvoted && !isDownvoted
      ensures !old(isUpvoted) ==>
                isUpvoted && !isDownvoted && voteCount == old(voteCount) + (if old(isDownvoted) then 2 else 1)
    {
      if isUpvoted {
        voteCount := voteCount - 1;
        isUpvoted := false;
        return;
      }
      voteCount := if isDownvoted then voteCount + 2 else voteCount + 1;
      isUpvoted := true;
      isDownvoted := false;
    }

    /** The downvote button's `onClick`. */
    method Downvote()
      requires Valid()
      modifies this
      ensures Valid()
      ensures State() == DownvoteClick(old(State()))
      ensures old(isDownvoted) ==> voteCount == old(voteCount) + 1 && !isDownvoted && !isUpvoted
      ensures !old(isDownvoted) ==>
                isDownvoted && !isUpvoted && voteCount == old(voteCount) - (if old(isUpvoted) then 2 else 1)
    {
      if isDownvoted {
        voteCount := voteCount + 1;
        isDownvoted := false;
        return;
      }
      voteCount := if isUpvoted then voteCount - 2 else voteCount - 1;
      isDownvoted := true;
      isUpvoted := false;
    }
  }
}
