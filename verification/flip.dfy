/** The flip state machine: finding the card at a cell, the skip cases, the
    first flip, and the second flip that either resolves a matching pair at
    once or locks the board and schedules a delayed evaluation. */
module Flip {
  import opened Common
  import opened Ecs
  import opened Selection
  import opened Matching

  /** A card the CardByPosition query (GridPosition, PairKey, CardId) visits
      and whose cell is `pos`. */
  predicate OnCell(c: Card, pos: Pos) {
    c.pairKey.Some? && c.pos == Some(pos)
  }

  /** TryGetCardToFlipByGridPosition: the query callback overwrites its result
      on every hit, so the LAST card in iteration order on that cell wins. */
  function FindCardAt(cards: seq<Card>, pos: Pos): (r: Option<nat>)
    ensures r.None? <==> forall i :: 0 <= i < |cards| ==> !OnCell(cards[i], pos)
    ensures r.Some? ==> r.value < |cards| && OnCell(cards[r.value], pos)
    ensures r.Some? ==> forall i :: r.value < i < |cards| ==> !OnCell(cards[i], pos)
  {
    if |cards| == 0 then None
    else if OnCell(cards[|cards| - 1], pos) then Some(|cards| - 1)
    else FindCardAt(cards[..|cards| - 1], pos)
  }

  /** On a board where no two cards share a cell, the card found is the only
      card on that cell. */
  lemma FindCardAtUnique(cards: seq<Card>, pos: Pos, e: nat)
    requires forall i, j :: 0 <= i < |cards| && 0 <= j < |cards| && i != j ==> cards[i].pos != cards[j].pos
    requires e < |cards| && OnCell(cards[e], pos)
    ensures FindCardAt(cards, pos) == Some(e)
  {
  }

  /** The cases in which a flip on a world with a GameState does nothing. */
  predicate FlipSkips(w: World, pos: Pos)
    requires HasState(w)
  {
    match FindCardAt(w.cards, pos)
    case None => true
    case Some(e) => State(w).isLocked || w.cards[e].matched || w.cards[e].revealed
  }

  /** The common part of every flip that is not skipped: reveal the card, bump
      StateVersion and stamp the card with the new version. */
  function FlipReveal(w: World, e: nat): (r: World)
    requires HasState(w) && e < |w.cards| && !w.cards[e].matched
    ensures HasState(r) && State(r) == State(w).(stateVersion := State(w).stateVersion + 1)
    ensures |r.cards| == |w.cards|
    ensures r.cards[e] == w.cards[e].(revealed := true, lastChanged := Some(State(w).stateVersion + 1))
    ensures forall i :: 0 <= i < |w.cards| && i != e ==> r.cards[i] == w.cards[i]
    ensures r.configs == w.configs && r.pending == w.pending
  {
    var w1 := w.(cards := w.cards[e := w.cards[e].(revealed := true)]);
    Mark(Bump(w1), [e])
  }

  /** The lock a second flip sets through its GameState reference. */
  function Lock(w1: World): (r: World)
    requires HasState(w1)
    ensures HasState(r) && State(r) == State(w1).(isLocked := true)
    ensures r.cards == w1.cards && r.configs == w1.configs && r.pending == w1.pending
  {
    WithState(w1, State(w1).(isLocked := true))
  }

  /** The tail of a second flip, on the world after the reveal: lock the
      board, try the immediate match, otherwise schedule an evaluation with
      Config's delay (throwing when there is no Config). */
  function SecondFlip(w1: World): (r: Run<CommandResult>)
    requires HasState(w1)
    ensures r.Done? ==> r.value == Success
    ensures r.Threw? ==> r.error == InvalidOperation || r.error == InvalidEntity
    ensures r.Done? ==> HasState(r.world) && State(r.world).stateVersion >= State(w1).stateVersion
    ensures r.Done? ==> |r.world.cards| == |w1.cards| && r.world.configs == w1.configs
  {
    var w2 := Lock(w1);
    match TryHandleImmediateMatch(w2)
    case Threw(w3, err) => Threw(w3, err)
    case Done(w3, true) => Done(w3, Success)
    case Done(w3, false) =>
      match GetSingleton(w3.configs)
      case Err(err) => Threw(w3, err)
      case Ok(config) => Done(w3.(pending := w3.pending + [config.evalDelayUpdates]), Success)
  }

  /** TryFlip. The GameState lookup throws when there is none; a locked board,
      an empty cell, or a card already Matched or Revealed is skipped. The
      first flip (no card Revealed and unmatched) only reveals; a later one
      continues with the lock and the evaluation. */
  function TryFlip(w: World, pos: Pos): (r: Run<CommandResult>)
    ensures !HasState(w) ==> r == Threw(w, InvalidOperation)
    ensures HasState(w) ==> (r == Done(w, Skipped) <==> FlipSkips(w, pos))
    ensures r.Done? ==> r.value == Success || r.value == Skipped
    ensures r.Done? && r.value == Skipped ==> r.world == w
    ensures r.Threw? ==> r.error == InvalidOperation || r.error == InvalidEntity
    ensures r.Done? && r.value == Success ==>
      HasState(w) && HasState(r.world) && State(r.world).stateVersion > State(w).stateVersion
    ensures r.Done? ==> |r.world.cards| == |w.cards| && r.world.configs == w.configs
  {
    match GetSingleton(w.states)
    case Err(e) => Threw(w, e)
    case Ok(g) =>
      if g.isLocked then Done(w, Skipped)
      else
        match FindCardAt(w.cards, pos)
        case None => Done(w, Skipped)
        case Some(e) =>
          if w.cards[e].matched || w.cards[e].revealed then Done(w, Skipped)
          else
            var isFirstFlipped := TryGetFirst(w.cards, IsCandidate).None?;
            var w1 := FlipReveal(w, e);
            if isFirstFlipped then Done(w1, Success) else SecondFlip(w1)
  }

  /** A first flip reveals the card and stamps it with the bumped version; the
      board stays unlocked, Moves is unchanged and no evaluation is pending. */
  lemma FlipFirstEffect(w: World, pos: Pos, e: nat)
    requires HasState(w) && !FlipSkips(w, pos) && FindCardAt(w.cards, pos) == Some(e)
    requires RevealedUnmatched(w.cards) == 0
    ensures TryFlip(w, pos) == Done(FlipReveal(w, e), Success)
    ensures !State(FlipReveal(w, e)).isLocked && State(FlipReveal(w, e)).moves == State(w).moves
    ensures FlipReveal(w, e).pending == w.pending
  {
    NoneRevealedUnmatched(w.cards);
  }

  /** The reveal changes the query flags of the flipped card only. */
  lemma FlipRevealFlags(w: World, e: nat)
    requires HasState(w) && e < |w.cards| && !w.cards[e].matched
    ensures SameFlags(w.cards[e := w.cards[e].(revealed := true)], FlipReveal(w, e).cards)
  {
  }

  /** Equal CardIds keep SelectableIds. */
  lemma SelectableByFlags(a: seq<Card>, b: seq<Card>)
    requires SameFlags(a, b) && SelectableIds(a)
    ensures SelectableIds(b)
  {
    assert forall i :: 0 <= i < |a| ==> a[i].cardId == b[i].cardId;
  }

  /** Facts shared by the second-flip lemmas: the immediate evaluation sees at
      least two candidates with selectable CardIds. */
  lemma SecondFlipPair(w: World, e: nat)
    requires HasState(w) && e < |w.cards| && !w.cards[e].matched && !w.cards[e].revealed
    requires RevealedUnmatched(w.cards) > 0 && SelectableIds(w.cards)
    ensures TryGetFirst(w.cards, IsCandidate).Some?
    ensures SelectableIds(FlipReveal(w, e).cards)
    ensures RevealedUnmatched(FlipReveal(w, e).cards) >= 2
  {
    NoneRevealedUnmatched(w.cards);
    RevealCounts(w, e);
    RevealKeepsIds(w, e);
  }

  lemma RevealCounts(w: World, e: nat)
    requires HasState(w) && e < |w.cards| && !w.cards[e].matched && !w.cards[e].revealed
    ensures RevealedUnmatched(FlipReveal(w, e).cards) == RevealedUnmatched(w.cards) + 1
  {
    var flagged := w.cards[e := w.cards[e].(revealed := true)];
    RevealedUnmatchedUpdate(w.cards, e, flagged[e]);
    FlipRevealFlags(w, e);
    CandidatesByFlags(flagged, FlipReveal(w, e).cards);
  }

  lemma RevealKeepsIds(w: World, e: nat)
    requires HasState(w) && e < |w.cards| && !w.cards[e].matched
    requires SelectableIds(w.cards)
    ensures SelectableIds(FlipReveal(w, e).cards)
  {
    var r := FlipReveal(w, e).cards;
    assert forall i :: 0 <= i < |r| ==> r[i].cardId == w.cards[i].cardId;
  }

  /** A flip that is neither skipped nor first continues as a second flip. */
  lemma TryFlipIsSecond(w: World, pos: Pos, e: nat)
    requires HasState(w) && !FlipSkips(w, pos) && FindCardAt(w.cards, pos) == Some(e)
    requires RevealedUnmatched(w.cards) > 0
    ensures TryFlip(w, pos) == SecondFlip(FlipReveal(w, e))
  {
    NoneRevealedUnmatched(w.cards);
  }

  /** The immediate evaluation of a second flip does not throw and decides by
      the pair of the revealed world. */
  lemma SecondFlipEvaluation(w: World, e: nat)
    requires HasState(w) && e < |w.cards| && !w.cards[e].matched && !w.cards[e].revealed
    requires RevealedUnmatched(w.cards) > 0 && SelectableIds(w.cards)
    ensures TryHandleImmediateMatch(Lock(FlipReveal(w, e))).Done?
    ensures TryHandleImmediateMatch(Lock(FlipReveal(w, e))).value <==> PairMatches(FlipReveal(w, e))
  {
    SecondFlipPair(w, e);
    var w2 := Lock(FlipReveal(w, e));
    CandidatesSelectable(w2.cards);
    ImmediateMatchOutcome(w2);
  }

  /** A second flip whose pair matches resolves at once: Moves grows by 1 and
      MatchedCount by 2, the board is unlocked again and no evaluation is
      pending. The two selected cards become Matched, stay Revealed and carry
      the version the reveal set; no other card changes after the reveal. */
  lemma FlipSecondMatchEffect(w: World, pos: Pos, e: nat)
    requires HasState(w) && !FlipSkips(w, pos) && FindCardAt(w.cards, pos) == Some(e)
    requires RevealedUnmatched(w.cards) > 0 && SelectableIds(w.cards)
    requires PairMatches(FlipReveal(w, e))
    ensures TryFlip(w, pos).Done? && TryFlip(w, pos).value == Success
    ensures State(TryFlip(w, pos).world) == State(w).(
      moves := State(w).moves + 1,
      matchedCount := State(w).matchedCount + 2,
      stateVersion := State(w).stateVersion + 2)
    ensures TryFlip(w, pos).world.pending == w.pending
    ensures
      var w1 := FlipReveal(w, e);
      var (e1, e2) := ImmediatePair(w1).value;
      ImmediatePair(w1).Some? && 0 <= e1 < |w.cards| && 0 <= e2 < |w.cards| && e1 != e2 &&
      TryFlip(w, pos).world.cards == w1.cards[e1 := SetMatched(w1.cards[e1], State(w).stateVersion + 1)]
                                             [e2 := SetMatched(w1.cards[e2], State(w).stateVersion + 1)]
    ensures
      var (e1, e2) := ImmediatePair(FlipReveal(w, e)).value;
      var cs := TryFlip(w, pos).world.cards;
      cs[e1].matched && cs[e1].revealed && cs[e2].matched && cs[e2].revealed
  {
    TryFlipIsSecond(w, pos, e);
    SecondFlipMatchFrom(w, e);
    SecondFlipMatchCards(w, e);
  }

  /** The cards after a matching second flip, from the world after the reveal. */
  lemma SecondFlipMatchCards(w: World, e: nat)
    requires HasState(w) && !State(w).isLocked && e < |w.cards| && !w.cards[e].matched && !w.cards[e].revealed
    requires RevealedUnmatched(w.cards) > 0 && SelectableIds(w.cards)
    requires PairMatches(FlipReveal(w, e))
    ensures
      var w1 := FlipReveal(w, e);
      var (e1, e2) := ImmediatePair(w1).value;
      ImmediatePair(w1).Some? && 0 <= e1 < |w1.cards| && 0 <= e2 < |w1.cards| && e1 != e2 &&
      IsCandidate(w1.cards[e1]) && IsCandidate(w1.cards[e2]) &&
      SecondFlip(w1).world.cards == w1.cards[e1 := SetMatched(w1.cards[e1], State(w1).stateVersion)]
                                            [e2 := SetMatched(w1.cards[e2], State(w1).stateVersion)]
    ensures
      var (e1, e2) := ImmediatePair(FlipReveal(w, e)).value;
      var cs := SecondFlip(FlipReveal(w, e)).world.cards;
      cs[e1].matched && cs[e1].revealed && cs[e2].matched && cs[e2].revealed
  {
    var w1 := FlipReveal(w, e);
    var w2 := Lock(w1);
    SecondFlipEvaluation(w, e);
    SecondFlipPair(w, e);
    CandidatesSelectable(w1.cards);
    ImmediatePairCards(w1);
    assert ImmediatePair(w2) == ImmediatePair(w1);
  }

  /** The second-flip tail after the reveal of card `e`, when the pair
      matches. */
  lemma SecondFlipMatchFrom(w: World, e: nat)
    requires HasState(w) && !State(w).isLocked && e < |w.cards| && !w.cards[e].matched && !w.cards[e].revealed
    requires RevealedUnmatched(w.cards) > 0 && SelectableIds(w.cards)
    requires PairMatches(FlipReveal(w, e))
    ensures SecondFlip(FlipReveal(w, e)).Done? && SecondFlip(FlipReveal(w, e)).value == Success
    ensures State(SecondFlip(FlipReveal(w, e)).world) == State(w).(
      moves := State(w).moves + 1,
      matchedCount := State(w).matchedCount + 2,
      stateVersion := State(w).stateVersion + 2)
    ensures SecondFlip(FlipReveal(w, e)).world.pending == w.pending
  {
    SecondFlipEvaluation(w, e);
    SecondFlipMatched(w, e);
  }

  /** The same tail, stated from the outcome of the evaluation alone. */
  lemma SecondFlipMatched(w: World, e: nat)
    requires HasState(w) && !State(w).isLocked && e < |w.cards| && !w.cards[e].matched
    requires TryHandleImmediateMatch(Lock(FlipReveal(w, e))).Done? && TryHandleImmediateMatch(Lock(FlipReveal(w, e))).value
    ensures SecondFlip(FlipReveal(w, e)).Done? && SecondFlip(FlipReveal(w, e)).value == Success
    ensures State(SecondFlip(FlipReveal(w, e)).world) == State(w).(
      moves := State(w).moves + 1,
      matchedCount := State(w).matchedCount + 2,
      stateVersion := State(w).stateVersion + 2)
    ensures SecondFlip(FlipReveal(w, e)).world.pending == w.pending
  {
    SecondFlipResolved(FlipReveal(w, e), State(w));
  }

  /** The tail of a second flip when the immediate evaluation resolves, for
      a revealed world whose GameState is the unlocked `g` after one bump. */
  lemma SecondFlipResolved(w1: World, g: GameState)
    requires HasState(w1) && !g.isLocked && State(w1) == g.(stateVersion := g.stateVersion + 1)
    requires TryHandleImmediateMatch(Lock(w1)).Done? && TryHandleImmediateMatch(Lock(w1)).value
    ensures SecondFlip(w1).Done?
    ensures State(SecondFlip(w1).world) == g.(
      moves := g.moves + 1,
      matchedCount := g.matchedCount + 2,
      stateVersion := g.stateVersion + 2)
    ensures SecondFlip(w1).world.pending == w1.pending
  {
  }

  /** A second flip whose pair does not match locks the board and creates one
      PendingEvaluation whose counter is Config's delay; Moves is unchanged. */
  lemma FlipSecondPendingEffect(w: World, pos: Pos, e: nat)
    requires HasState(w) && !FlipSkips(w, pos) && FindCardAt(w.cards, pos) == Some(e)
    requires RevealedUnmatched(w.cards) > 0 && SelectableIds(w.cards)
    requires |w.configs| > 0
    requires !PairMatches(FlipReveal(w, e))
    ensures TryFlip(w, pos) == Done(Lock(FlipReveal(w, e)).(pending := w.pending + [w.configs[0].evalDelayUpdates]), Success)
    ensures State(TryFlip(w, pos).world) == State(w).(isLocked := true, stateVersion := State(w).stateVersion + 1)
    ensures TryFlip(w, pos).world.cards[e].revealed
  {
    TryFlipIsSecond(w, pos, e);
    SecondFlipEvaluation(w, e);
  }

  /** A second flip without a Config throws after the card was revealed and
      the board locked; nothing is scheduled. */
  lemma FlipSecondNoConfig(w: World, pos: Pos, e: nat)
    requires HasState(w) && !FlipSkips(w, pos) && FindCardAt(w.cards, pos) == Some(e)
    requires RevealedUnmatched(w.cards) > 0 && SelectableIds(w.cards)
    requires |w.configs| == 0
    requires !PairMatches(FlipReveal(w, e))
    ensures TryFlip(w, pos) == Threw(Lock(FlipReveal(w, e)), InvalidOperation)
  {
    TryFlipIsSecond(w, pos, e);
    SecondFlipEvaluation(w, e);
  }
}
