/** The delayed evaluation: each update counts the first PendingEvaluation
    down; when it reaches zero the two lowest Revealed, unmatched cards are
    resolved, the turn is reset and the evaluation is destroyed. Unlike the
    immediate evaluation, this path never stamps LastChangedStateVersion and
    bumps StateVersion only in the turn reset. */
module MatchedSystem {
  import opened Common
  import opened Ecs
  import opened Selection
  import Matching

  /** TryGetTwoRevealedUnmatched of this system: sort the hits by CardId and
      take the first two. Both are Revealed, unmatched cards, and with
      distinct CardIds they are two different cards. */
  function PendingPair(cards: seq<Card>): (p: Option<(int, int)>)
    ensures p.None? <==> RevealedUnmatched(cards) < 2
    ensures p.Some? ==> 0 <= p.value.0 < |cards| && 0 <= p.value.1 < |cards|
    ensures p.Some? ==> IsCandidate(cards[p.value.0]) && IsCandidate(cards[p.value.1])
    ensures p.Some? && UniqueIds(Candidates(cards)) ==> p.value.0 != p.value.1
  {
    if RevealedUnmatched(cards) < 2 then None
    else
      SortedPairCards(cards);
      SortedTwoLowest(Candidates(cards))
  }

  /** With distinct CardIds below int.MaxValue, this system resolves the same
      pair the immediate evaluation would have looked at. */
  lemma PendingPairIsImmediatePair(w: World)
    requires SelectableIds(w.cards)
    ensures PendingPair(w.cards) == Matching.ImmediatePair(w)
  {
    CandidatesSelectable(w.cards);
    StreamEqualsSorted(Candidates(w.cards));
  }

  /** The selected pair carries equal PairKeys. */
  predicate PendingMatch(cards: seq<Card>) {
    match PendingPair(cards)
    case None => false
    case Some((e1, e2)) =>
      cards[e1].pairKey.Some? && cards[e1].pairKey == cards[e2].pairKey
  }

  /** The resolution step: reading a missing PairKey throws before any change;
      equal keys tag both cards Matched and then add 2 to MatchedCount (the
      GameState lookup comes after the tags, so it throws with them in place);
      different keys remove Revealed from both. With fewer than two hits
      nothing happens. */
  function Resolve(w: World): (r: Run<()>)
    ensures r.Threw? ==> r.error == MissingComponent || r.error == InvalidOperation
    ensures r.Threw? && r.error == MissingComponent ==> r.world == w
    ensures r.Threw? && r.error == InvalidOperation ==> !HasState(w) && PendingMatch(w.cards)
    ensures |r.world.cards| == |w.cards| && r.world.configs == w.configs && r.world.pending == w.pending
    ensures r.Done? ==> (r.world.states == w.states || (HasState(w) && PendingMatch(w.cards) &&
      |r.world.states| == |w.states| &&
      State(r.world) == State(w).(matchedCount := State(w).matchedCount + 2)))
    ensures r.Done? && HasState(w) ==> (HasState(r.world) &&
      State(r.world).matchedCount == State(w).matchedCount + (if PendingMatch(w.cards) then 2 else 0))
  {
    match PendingPair(w.cards)
    case None => Done(w, ())
    case Some((e1, e2)) =>
      var k1 := w.cards[e1].pairKey;
      var k2 := w.cards[e2].pairKey;
      if k1.None? || k2.None? then Threw(w, MissingComponent)
      else if k1 == k2 then
        var cs := w.cards[e1 := w.cards[e1].(matched := true)];
        var w1 := w.(cards := cs[e2 := cs[e2].(matched := true)]);
        match GetSingleton(w1.states)
        case Err(e) => Threw(w1, e)
        case Ok(g) => Done(WithState(w1, g.(matchedCount := g.matchedCount + 2)), ())
      else
        var cs := w.cards[e1 := Matching.Hide(w.cards[e1])];
        Done(w.(cards := cs[e2 := Matching.Hide(cs[e2])]), ())
  }

  /** ResetTurn: the move is counted, the turn forgotten, the board unlocked
      and StateVersion bumped, all through the GameState reference. */
  function ResetTurn(w: World): (r: Run<()>)
    ensures r.Threw? <==> !HasState(w)
    ensures r.Threw? ==> r == Threw(w, InvalidOperation)
    ensures r.Done? ==> HasState(r.world) && State(r.world) == State(w).(
      moves := State(w).moves + 1,
      firstFlipped := None,
      isLocked := false,
      stateVersion := State(w).stateVersion + 1)
    ensures r.world.cards == w.cards && r.world.configs == w.configs && r.world.pending == w.pending
  {
    match GetSingleton(w.states)
    case Err(e) => Threw(w, e)
    case Ok(g) =>
      Done(WithState(w, g.(moves := g.moves + 1, firstFlipped := None, isLocked := false,
                           stateVersion := g.stateVersion + 1)), ())
  }

  /** The C# decrement of UpdatesLeft, an unchecked `int`. */
  function Countdown(left: int): (r: int)
    ensures InInt32(left) && left > IntMin ==> r == left - 1
    ensures left == IntMin ==> r == IntMax
  {
    Wrap32(left - 1)
  }

  /** What happens once the first evaluation's counter has run out: the pair
      is resolved, the turn reset and the evaluation destroyed, in that
      order, so a throw leaves the evaluation in place. */
  function Settle(w: World): (r: Run<()>)
    requires |w.pending| > 0
    ensures r.Threw? ==> r.error == MissingComponent || r.error == InvalidOperation
    ensures r.Threw? ==> r.world.pending == w.pending
    ensures |r.world.cards| == |w.cards| && r.world.configs == w.configs
    ensures r.Done? ==> r.world.pending == w.pending[1..] && HasState(w) && HasState(r.world)
    ensures r.Done? ==> State(r.world) == State(w).(
      moves := State(w).moves + 1,
      firstFlipped := None,
      isLocked := false,
      matchedCount := State(w).matchedCount + (if PendingMatch(w.cards) then 2 else 0),
      stateVersion := State(w).stateVersion + 1)
  {
    match Resolve(w)
    case Threw(w2, e) => Threw(w2, e)
    case Done(w2, _) =>
      match ResetTurn(w2)
      case Threw(w3, e) => Threw(w3, e)
      case Done(w3, _) => Done(w3.(pending := w3.pending[1..]), ())
  }

  /** Update. Only the first PendingEvaluation in iteration order is looked
      at. Its counter is decremented; while it stays above zero nothing else
      changes, otherwise the evaluation settles. */
  function Update(w: World): (r: Run<()>)
    ensures |w.pending| == 0 ==> r == Done(w, ())
    ensures |w.pending| > 0 && Countdown(w.pending[0]) > 0 ==>
      r == Done(w.(pending := w.pending[0 := Countdown(w.pending[0])]), ())
    ensures r.Threw? ==> |w.pending| > 0 && Countdown(w.pending[0]) <= 0
    ensures r.Threw? ==> r.error == MissingComponent || r.error == InvalidOperation
    ensures r.Threw? ==> r.world.pending == w.pending[0 := Countdown(w.pending[0])]
    ensures |r.world.cards| == |w.cards| && r.world.configs == w.configs
    ensures r.Done? && |w.pending| > 0 && Countdown(w.pending[0]) <= 0 ==>
      r.world.pending == w.pending[1..] && HasState(w) && HasState(r.world) &&
      State(r.world) == State(w).(
        moves := State(w).moves + 1,
        firstFlipped := None,
        isLocked := false,
        matchedCount := State(w).matchedCount + (if PendingMatch(w.cards) then 2 else 0),
        stateVersion := State(w).stateVersion + 1)
  {
    if |w.pending| == 0 then Done(w, ())
    else
      var left := Countdown(w.pending[0]);
      var w1 := w.(pending := w.pending[0 := left]);
      assert w1.pending[1..] == w.pending[1..];
      if left > 0 then Done(w1, ()) else Settle(w1)
  }

  /** `n` successive updates, stopping at the first throw. */
  function Updates(w: World, n: nat): Run<()>
    decreases n
  {
    if n == 0 then Done(w, ())
    else
      match Update(w)
      case Threw(w1, e) => Threw(w1, e)
      case Done(w1, _) => Updates(w1, n - 1)
  }

  /** The countdown: from UpdatesLeft = m, the first k < m updates only
      lower the counter, by one each, and change nothing else. */
  lemma {:induction false} CountdownOnly(w: World, k: nat)
    requires |w.pending| > 0 && InInt32(w.pending[0]) && k < w.pending[0]
    ensures Updates(w, k) == Done(w.(pending := w.pending[0 := w.pending[0] - k]), ())
    decreases k
  {
    if k > 0 {
      var m := w.pending[0];
      var w1 := w.(pending := w.pending[0 := m - 1]);
      assert Update(w) == Done(w1, ());
      CountdownOnly(w1, k - 1);
      assert w1.(pending := w1.pending[0 := m - 1 - (k - 1)]) == w.(pending := w.pending[0 := m - k]);
    }
  }

  /** Starting from UpdatesLeft = m >= 1, the evaluation resolves on exactly
      the m-th update: the counter then reads 1 and the next update is the
      resolving one. */
  lemma ResolvesOnMthUpdate(w: World)
    requires |w.pending| > 0 && 1 <= w.pending[0] <= IntMax
    ensures Updates(w, w.pending[0] - 1) == Done(w.(pending := w.pending[0 := 1]), ())
    ensures Countdown(1) <= 0
  {
    CountdownOnly(w, w.pending[0] - 1);
  }

  /** A resolution of a matching pair of distinct cards: both are tagged
      Matched and keep Revealed and their stamps; no other card changes. */
  lemma ResolveMatchCards(w: World)
    requires |w.pending| > 0 && Countdown(w.pending[0]) <= 0 && HasState(w)
    requires SelectableIds(w.cards) && PendingMatch(w.cards)
    ensures var (e1, e2) := PendingPair(w.cards).value;
      Update(w).Done? &&
      Update(w).world.cards == w.cards[e1 := w.cards[e1].(matched := true)][e2 := w.cards[e2].(matched := true)]
  {
    CandidatesSelectable(w.cards);
  }

  /** A resolution of a non-matching pair: both lose Revealed, keep Matched
      and their stamps; no other card changes. */
  lemma ResolveMismatchCards(w: World)
    requires |w.pending| > 0 && Countdown(w.pending[0]) <= 0 && HasState(w)
    requires PendingPair(w.cards).Some? && !PendingMatch(w.cards)
    requires w.cards[PendingPair(w.cards).value.0].pairKey.Some? && w.cards[PendingPair(w.cards).value.1].pairKey.Some?
    ensures var (e1, e2) := PendingPair(w.cards).value;
      Update(w).Done? &&
      Update(w).world.cards == w.cards[e1 := w.cards[e1].(revealed := false)][e2 := w.cards[e2].(revealed := false)]
  {
  }

  /** With fewer than two Revealed, unmatched cards the turn is still reset
      and the evaluation destroyed, but no card changes. */
  lemma ResolveNothingCards(w: World)
    requires |w.pending| > 0 && Countdown(w.pending[0]) <= 0 && HasState(w)
    requires RevealedUnmatched(w.cards) < 2
    ensures Update(w).Done? && Update(w).world.cards == w.cards
  {
  }
}
