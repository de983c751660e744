/** Immediate match evaluation: whether two cards match, applying a match or
    mismatch to the world, and the shortcut that resolves a matching pair
    as soon as the second card is flipped. */
module Matching {
  import opened Common
  import opened Ecs
  import opened Selection

  /** DoesMatch: both cards carry a PairKey and the keys are equal. The
      relation is therefore symmetric, and a card without a key matches
      nothing, not even itself. */
  function DoesMatch(c1: Card, c2: Card): (m: bool)
    ensures m <==> c1.pairKey.Some? && c1.pairKey == c2.pairKey
    ensures m <==> c2.pairKey.Some? && c2.pairKey == c1.pairKey
  {
    match (c1.pairKey, c2.pairKey)
    case (Some(a), Some(b)) => a == b
    case _ => false
  }

  /** The match branch's tag and stamp on one card. */
  function SetMatched(c: Card, v: int): Card {
    c.(lastChanged := Some(v), matched := true)
  }

  /** The mismatch branch's removal of Revealed from one card. */
  function Hide(c: Card): Card {
    c.(revealed := false)
  }

  /** ApplyMatchResult. On a match both cards are stamped with the version
      read before the bump, tagged Matched, and MatchedCount grows by 2; on a
      mismatch both lose Revealed. Either way StateVersion is bumped and
      MarkChanged is applied to the pair, which stamps only unmatched cards. */
  function ApplyMatchResult(w: World, e1: nat, e2: nat, isMatch: bool): (r: Run<()>)
    requires e1 < |w.cards| && e2 < |w.cards|
    ensures r.Threw? <==> !HasState(w)
    ensures r.Threw? ==> r.error == InvalidOperation
    ensures r.Threw? && isMatch ==> r.world == w
    ensures r.Done? ==> HasState(r.world) && |r.world.cards| == |w.cards|
    ensures r.Done? ==> State(r.world).stateVersion == State(w).stateVersion + 1
    ensures r.Done? ==> r.world.configs == w.configs && r.world.pending == w.pending
    ensures r.Done? && isMatch ==> State(r.world).matchedCount == State(w).matchedCount + 2
    ensures r.Done? && isMatch ==> State(r.world).(matchedCount := 0, stateVersion := 0) == State(w).(matchedCount := 0, stateVersion := 0)
    ensures r.Done? && !isMatch ==> State(r.world).(stateVersion := 0) == State(w).(stateVersion := 0)
  {
    if isMatch then
      match GetSingleton(w.states)
      case Err(e) => Threw(w, e)
      case Ok(g) =>
        var v := g.stateVersion;
        var cs := w.cards[e1 := SetMatched(w.cards[e1], v)];
        var cs := cs[e2 := SetMatched(cs[e2], v)];
        var w1 := WithState(w.(cards := cs), g.(matchedCount := g.matchedCount + 2));
        match IncrementStateVersion(w1)
        case Threw(w2, e) => Threw(w2, e)
        case Done(w2, _) => Done(Mark(w2, [e1, e2]), ())
    else
      var cs := w.cards[e1 := Hide(w.cards[e1])];
      var w1 := w.(cards := cs[e2 := Hide(cs[e2])]);
      match IncrementStateVersion(w1)
      case Threw(w2, e) => Threw(w2, e)
      case Done(w2, _) => Done(Mark(w2, [e1, e2]), ())
  }

  /** The effect of a match: both cards become Matched, stamped with the
      version before the bump, keep Revealed, and no other card changes. */
  lemma ApplyMatchEffect(w: World, e1: nat, e2: nat)
    requires e1 < |w.cards| && e2 < |w.cards| && HasState(w)
    ensures ApplyMatchResult(w, e1, e2, true).Done?
    ensures ApplyMatchResult(w, e1, e2, true).world.cards ==
      w.cards[e1 := SetMatched(w.cards[e1], State(w).stateVersion)][e2 := SetMatched(w.cards[e2], State(w).stateVersion)]
  {
    var v := State(w).stateVersion;
    var cs := w.cards[e1 := SetMatched(w.cards[e1], v)][e2 := SetMatched(w.cards[e2], v)];
    var r := ApplyMatchResult(w, e1, e2, true);
    assert cs[e1].matched && cs[e2].matched;
    assert r.world.cards == StampAll(cs, [e1, e2], v + 1);
  }

  /** The effect of a mismatch on two distinct unmatched cards: both lose
      Revealed and carry the version after the bump; no other card changes. */
  lemma ApplyMismatchEffect(w: World, e1: nat, e2: nat)
    requires e1 < |w.cards| && e2 < |w.cards| && e1 != e2 && HasState(w)
    requires !w.cards[e1].matched && !w.cards[e2].matched
    ensures ApplyMatchResult(w, e1, e2, false).Done?
    ensures ApplyMatchResult(w, e1, e2, false).world.cards ==
      w.cards[e1 := Hide(w.cards[e1]).(lastChanged := Some(State(w).stateVersion + 1))]
             [e2 := Hide(w.cards[e2]).(lastChanged := Some(State(w).stateVersion + 1))]
  {
    var v := State(w).stateVersion + 1;
    var hidden := w.cards[e1 := Hide(w.cards[e1])][e2 := Hide(w.cards[e2])];
    var r := ApplyMatchResult(w, e1, e2, false);
    assert r.world.cards == StampAll(hidden, [e1, e2], v);
    StampPair(hidden, e1, e2, v);
  }

  /** MarkChanged on two distinct unmatched cards stamps exactly those two. */
  lemma StampPair(cards: seq<Card>, e1: nat, e2: nat, v: int)
    requires e1 < |cards| && e2 < |cards| && e1 != e2
    requires !cards[e1].matched && !cards[e2].matched
    ensures StampAll(cards, [e1, e2], v) ==
      cards[e1 := cards[e1].(lastChanged := Some(v))][e2 := cards[e2].(lastChanged := Some(v))]
  {
    var once := cards[e1 := cards[e1].(lastChanged := Some(v))];
    assert [e1, e2][1..] == [e2] && [e2][1..] == [];
    assert StampAll(cards, [e1, e2], v) == StampAll(once, [e2], v);
    assert StampAll(once, [e2], v) == StampAll(once[e2 := once[e2].(lastChanged := Some(v))], [], v);
  }

  /** The pair the immediate evaluation looks at: the streaming selection
      over the RevealedUnmatched query. */
  function ImmediatePair(w: World): (p: Option<(int, int)>)
    ensures p.None? <==> RevealedUnmatched(w.cards) < 2
  {
    StreamTwoLowest(Candidates(w.cards))
  }

  /** TryHandleImmediateMatch: if the two lowest revealed, unmatched cards
      match, resolve them now, count the move and unlock. A selected handle
      that is the default entity (possible only when a CardId equals
      int.MaxValue) makes the component lookup throw. */
  function TryHandleImmediateMatch(w: World): (r: Run<bool>)
    ensures r.Threw? ==> r.world == w
    ensures r.Done? && !r.value ==> r.world == w
    ensures ImmediatePair(w).None? ==> r == Done(w, false)
    ensures r.Done? && r.value ==> HasState(w) && HasState(r.world) && |r.world.cards| == |w.cards|
    ensures r.Done? && r.value ==> State(r.world) == State(w).(
      moves := State(w).moves + 1,
      isLocked := false,
      matchedCount := State(w).matchedCount + 2,
      stateVersion := State(w).stateVersion + 1)
    ensures r.Done? && r.value ==> r.world.configs == w.configs && r.world.pending == w.pending
    ensures r.Done? && r.value ==>
      var (e1, e2) := ImmediatePair(w).value;
      0 <= e1 < |w.cards| && 0 <= e2 < |w.cards| &&
      DoesMatch(w.cards[e1], w.cards[e2]) &&
      r.world.cards == w.cards[e1 := SetMatched(w.cards[e1], State(w).stateVersion)]
                              [e2 := SetMatched(w.cards[e2], State(w).stateVersion)]
  {
    match ImmediatePair(w)
    case None => Done(w, false)
    case Some((e1, e2)) =>
      if !IsCard(w, e1) || !IsCard(w, e2) then Threw(w, InvalidEntity)
      else if !DoesMatch(w.cards[e1], w.cards[e2]) then Done(w, false)
      else
        match ApplyMatchResult(w, e1, e2, true)
        case Threw(w1, e) => Threw(w1, e)
        case Done(w1, _) =>
          ApplyMatchEffect(w, e1, e2);
          var g := State(w1);
          Done(WithState(w1, g.(moves := g.moves + 1, isLocked := false)), true)
  }

  /** With distinct CardIds below int.MaxValue and at least two revealed,
      unmatched cards, the selected pair is two distinct such cards. */
  lemma ImmediatePairCards(w: World)
    requires UniqueIds(Candidates(w.cards)) && BelowSentinel(Candidates(w.cards))
    requires RevealedUnmatched(w.cards) >= 2
    ensures ImmediatePair(w).Some?
    ensures IsCard(w, ImmediatePair(w).value.0) && IsCard(w, ImmediatePair(w).value.1)
    ensures ImmediatePair(w).value.0 != ImmediatePair(w).value.1
    ensures IsCandidate(w.cards[ImmediatePair(w).value.0]) && IsCandidate(w.cards[ImmediatePair(w).value.1])
  {
    var cs := Candidates(w.cards);
    StreamIsLowestTwo(cs);
    var s := ScanAll(cs);
    HitsAreCards(w.cards, Cand(s.first, s.firstId));
    HitsAreCards(w.cards, Cand(s.second, s.secondId));
  }

  /** A hit names a revealed, unmatched card. */
  lemma HitsAreCards(cards: seq<Card>, c: Cand)
    requires c in Candidates(cards)
    ensures HitOf(cards, c)
  {
    var cs := Candidates(cards);
    var i :| 0 <= i < |cs| && cs[i] == c;
  }

  /** The immediate evaluation's decision: two cards are selected, both are
      live, and they match. */
  predicate PairMatches(w: World) {
    match ImmediatePair(w)
    case None => false
    case Some((e1, e2)) => IsCard(w, e1) && IsCard(w, e2) && DoesMatch(w.cards[e1], w.cards[e2])
  }

  /** Under the same conditions the immediate evaluation never throws on a
      world with a GameState, and it resolves exactly when the selected pair
      matches. */
  lemma ImmediateMatchOutcome(w: World)
    requires HasState(w)
    requires UniqueIds(Candidates(w.cards)) && BelowSentinel(Candidates(w.cards))
    requires RevealedUnmatched(w.cards) >= 2
    ensures TryHandleImmediateMatch(w).Done?
    ensures TryHandleImmediateMatch(w).value <==> PairMatches(w)
  {
    ImmediatePairCards(w);
  }
}
