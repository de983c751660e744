/** The one-shot win check: once every card is matched it locks the board,
    marks the game won, bumps StateVersion and sends a single GameWon. */
module WinCheckSystem {
  import opened Common
  import opened Ecs
  import opened Events

  /** The condition under which the check fires: not yet won, a board with
      cards, and MatchedCount has reached TotalCards. */
  predicate WinDue(g: GameState) {
    !g.isWon && g.totalCards != 0 && g.matchedCount >= g.totalCards
  }

  /** Update. The GameState lookup throws when there is none. When the win
      is not due nothing changes and nothing is sent; otherwise IsLocked and
      IsWon are set, StateVersion is bumped, and the GameWon message carries
      Moves, TotalCards and the bumped version. Moves, MatchedCount and
      TotalCards are never written. */
  function Update(w: World): (r: Run<Option<GameWon>>)
    ensures !HasState(w) <==> r.Threw?
    ensures r.Threw? ==> r == Threw(w, InvalidOperation)
    ensures r.Done? ==> r.world.cards == w.cards && r.world.configs == w.configs && r.world.pending == w.pending
    ensures r.Done? ==> (r.value.Some? <==> WinDue(State(w)))
    ensures r.Done? && r.value.None? ==> r.world == w
    ensures r.Done? && r.value.Some? ==> HasState(r.world)
    ensures r.Done? && r.value.Some? ==>
      State(r.world) == State(w).(isLocked := true, isWon := true, stateVersion := State(w).stateVersion + 1)
    ensures r.Done? && r.value.Some? ==>
      r.value.value == GameWon(State(w).moves, State(w).totalCards, State(w).stateVersion + 1)
  {
    match GetSingleton(w.states)
    case Err(e) => Threw(w, e)
    case Ok(g) =>
      if g.isWon || g.totalCards == 0 || g.matchedCount < g.totalCards then Done(w, None)
      else
        var w1 := WithState(w, g.(isLocked := true, isWon := true));
        match IncrementStateVersion(w1)
        case Threw(w2, e) => Threw(w2, e)
        case Done(w2, _) =>
          var g2 := State(w2);
          Done(w2, Some(GameWon(g2.moves, g2.totalCards, g2.stateVersion)))
  }

  /** Idempotence: after an update, the next one changes nothing and sends nothing. */
  lemma UpdateIdempotent(w: World)
    requires HasState(w)
    ensures Update(Update(w).world) == Done(Update(w).world, None)
  {
  }

  /** The messages of `n` successive updates on a world with a GameState. */
  function Sent(w: World, n: nat): (es: seq<GameWon>)
    requires HasState(w)
    decreases n
  {
    if n == 0 then []
    else
      var r := Update(w);
      (if r.value.Some? then [r.value.value] else []) + Sent(r.world, n - 1)
  }

  /** However many updates run, at most one GameWon is sent, and none once
      the game is already won. */
  lemma {:induction false} AtMostOneWin(w: World, n: nat)
    requires HasState(w)
    ensures |Sent(w, n)| <= 1
    ensures State(w).isWon ==> Sent(w, n) == []
    decreases n
  {
    if n > 0 {
      var r := Update(w);
      AtMostOneWin(r.world, n - 1);
      if r.value.Some? {
        assert State(r.world).isWon;
      }
    }
  }
}
