/** The board invariant every reachable world keeps: CardIds stay distinct
    and below int.MaxValue, at most two cards are Revealed and unmatched,
    and when two are, a GameState exists and the board is locked. Every
    system step keeps it, whether it finishes or throws part-way, so any
    sequence of facade calls from a new facade keeps it. */
module Invariants {
  import opened Common
  import opened Ecs
  import opened Selection
  import Shuffle
  import Matching
  import Flip
  import Board
  import Commands
  import MatchedSystem
  import WinCheckSystem
  import Core

  predicate Inv(w: World) {
    && SelectableIds(w.cards)
    && RevealedUnmatched(w.cards) <= 2
    && (RevealedUnmatched(w.cards) == 2 ==> HasState(w) && State(w).isLocked)
  }

  // ---------------------------------------------------------------------------
  // Card-level facts

  /** Cards with the same CardIds, slot by slot. */
  predicate SameIds(a: seq<Card>, b: seq<Card>) {
    |a| == |b| && forall i :: 0 <= i < |a| ==> a[i].cardId == b[i].cardId
  }

  /** Taking two distinct candidates out of the query removes two hits. */
  lemma TwoRemoved(cards: seq<Card>, e1: nat, e2: nat, c1: Card, c2: Card)
    requires e1 < |cards| && e2 < |cards| && e1 != e2
    requires IsCandidate(cards[e1]) && IsCandidate(cards[e2])
    requires !IsCandidate(c1) && !IsCandidate(c2)
    ensures RevealedUnmatched(cards[e1 := c1][e2 := c2]) == RevealedUnmatched(cards) - 2
  {
    RevealedUnmatchedUpdate(cards, e1, c1);
    RevealedUnmatchedUpdate(cards[e1 := c1], e2, c2);
  }

  /** A dealt board has no candidate and selectable CardIds. */
  lemma DealtKeepsInv(config: Config, total: nat, rng: Shuffle.Rng)
    requires config.cols > 0 && total <= IntMax
    ensures SelectableIds(Board.DealCards(config, total, rng))
    ensures RevealedUnmatched(Board.DealCards(config, total, rng)) == 0
  {
    var cards := Board.DealCards(config, total, rng);
    assert forall i :: 0 <= i < |cards| ==> cards[i].cardId == i && !cards[i].revealed;
    NoneRevealedUnmatched(cards);
  }

  // ---------------------------------------------------------------------------
  // The flip

  /** An immediate match on a locked board with exactly two candidates
      removes both and keeps the CardIds. */
  lemma ImmediateMatchKeepsInv(w2: World)
    requires HasState(w2) && SelectableIds(w2.cards) && RevealedUnmatched(w2.cards) == 2
    requires Matching.TryHandleImmediateMatch(w2).Done? && Matching.TryHandleImmediateMatch(w2).value
    ensures Inv(Matching.TryHandleImmediateMatch(w2).world)
  {
    CandidatesSelectable(w2.cards);
    Matching.ImmediatePairCards(w2);
    var (e1, e2) := Matching.ImmediatePair(w2).value;
    var t := Matching.TryHandleImmediateMatch(w2);
    var a := Matching.ApplyMatchResult(w2, e1, e2, true);
    Matching.ApplyMatchEffect(w2, e1, e2);
    assert t.world.cards == a.world.cards;
    StampedPairKeeps(w2.cards, e1, e2, State(w2).stateVersion);
  }

  /** Tagging both selected cards Matched, with a stamp, takes them out of
      the query and keeps the CardIds. */
  lemma StampedPairKeeps(cards: seq<Card>, e1: nat, e2: nat, v: int)
    requires e1 < |cards| && e2 < |cards| && e1 != e2 && SelectableIds(cards)
    requires IsCandidate(cards[e1]) && IsCandidate(cards[e2])
    ensures var out := cards[e1 := Matching.SetMatched(cards[e1], v)][e2 := Matching.SetMatched(cards[e2], v)];
      SelectableIds(out) && RevealedUnmatched(out) == RevealedUnmatched(cards) - 2
  {
    var c1, c2 := Matching.SetMatched(cards[e1], v), Matching.SetMatched(cards[e2], v);
    TwoRemoved(cards, e1, e2, c1, c2);
    assert SameIds(cards, cards[e1 := c1][e2 := c2]);
  }

  /** A second flip, entered with two candidates after the reveal, keeps the
      invariant: either the pair resolves at once and no candidate is left,
      or the board stays locked with the two candidates. */
  lemma SecondFlipKeepsInv(w1: World)
    requires HasState(w1) && SelectableIds(w1.cards) && RevealedUnmatched(w1.cards) == 2
    ensures Inv(Flip.SecondFlip(w1).world)
  {
    var w2 := Flip.Lock(w1);
    var t := Matching.TryHandleImmediateMatch(w2);
    if t.Done? && t.value {
      ImmediateMatchKeepsInv(w2);
      assert Flip.SecondFlip(w1).world == t.world;
    } else {
      assert t.world == w2;
    }
  }

  /** TryFlip keeps the invariant, on every path. */
  lemma FlipKeepsInv(w: World, pos: Pos)
    requires Inv(w)
    ensures Inv(Flip.TryFlip(w, pos).world)
  {
    if HasState(w) && !Flip.FlipSkips(w, pos) {
      var e := Flip.FindCardAt(w.cards, pos).value;
      Flip.RevealCounts(w, e);
      Flip.RevealKeepsIds(w, e);
      if RevealedUnmatched(w.cards) == 0 {
        Flip.FlipFirstEffect(w, pos, e);
      } else {
        Flip.TryFlipIsSecond(w, pos, e);
        SecondFlipKeepsInv(Flip.FlipReveal(w, e));
      }
    }
  }

  // ---------------------------------------------------------------------------
  // The per-tick systems

  /** Tagging both selected cards Matched takes them out of the query. */
  lemma MatchPairKeeps(cards: seq<Card>, e1: nat, e2: nat)
    requires e1 < |cards| && e2 < |cards| && e1 != e2 && SelectableIds(cards)
    requires IsCandidate(cards[e1]) && IsCandidate(cards[e2])
    ensures var cs := cards[e1 := cards[e1].(matched := true)];
      var out := cs[e2 := cs[e2].(matched := true)];
      SelectableIds(out) && RevealedUnmatched(out) == RevealedUnmatched(cards) - 2
  {
    var cs := cards[e1 := cards[e1].(matched := true)];
    assert cs[e2] == cards[e2];
    TwoRemoved(cards, e1, e2, cards[e1].(matched := true), cards[e2].(matched := true));
    assert SameIds(cards, cs[e2 := cs[e2].(matched := true)]);
  }

  /** Turning both selected cards face down takes them out of the query. */
  lemma HidePairKeeps(cards: seq<Card>, e1: nat, e2: nat)
    requires e1 < |cards| && e2 < |cards| && e1 != e2 && SelectableIds(cards)
    requires IsCandidate(cards[e1]) && IsCandidate(cards[e2])
    ensures var cs := cards[e1 := Matching.Hide(cards[e1])];
      var out := cs[e2 := Matching.Hide(cs[e2])];
      SelectableIds(out) && RevealedUnmatched(out) == RevealedUnmatched(cards) - 2
  {
    var cs := cards[e1 := Matching.Hide(cards[e1])];
    assert cs[e2] == cards[e2];
    TwoRemoved(cards, e1, e2, Matching.Hide(cards[e1]), Matching.Hide(cards[e2]));
    assert SameIds(cards, cs[e2 := Matching.Hide(cs[e2])]);
  }

  /** The resolution keeps the invariant, and when it finishes fewer than
      two candidates are left, so the turn reset may unlock. */
  lemma ResolveKeepsInv(w: World)
    requires Inv(w)
    ensures Inv(MatchedSystem.Resolve(w).world)
    ensures MatchedSystem.Resolve(w).Done? ==> RevealedUnmatched(MatchedSystem.Resolve(w).world.cards) < 2
  {
    var r := MatchedSystem.Resolve(w);
    if RevealedUnmatched(w.cards) < 2 {
      assert r == Done(w, ());
    } else {
      CandidatesSelectable(w.cards);
      var (e1, e2) := MatchedSystem.PendingPair(w.cards).value;
      var k1, k2 := w.cards[e1].pairKey, w.cards[e2].pairKey;
      if k1.None? || k2.None? {
        assert r.world == w;
      } else if k1 == k2 {
        MatchPairKeeps(w.cards, e1, e2);
        var cs := w.cards[e1 := w.cards[e1].(matched := true)];
        assert r.world.cards == cs[e2 := cs[e2].(matched := true)];
      } else {
        HidePairKeeps(w.cards, e1, e2);
        var cs := w.cards[e1 := Matching.Hide(w.cards[e1])];
        assert r.world.cards == cs[e2 := Matching.Hide(cs[e2])];
      }
    }
  }

  /** The delayed evaluation keeps the invariant. */
  lemma MatchedKeepsInv(w: World)
    requires Inv(w)
    ensures Inv(MatchedSystem.Update(w).world)
  {
    if |w.pending| > 0 {
      var left := MatchedSystem.Countdown(w.pending[0]);
      var w1 := w.(pending := w.pending[0 := left]);
      if left <= 0 {
        ResolveKeepsInv(w1);
        var r := MatchedSystem.Resolve(w1);
        assert MatchedSystem.Update(w) == MatchedSystem.Settle(w1);
        if r.Done? {
          var t := MatchedSystem.ResetTurn(r.world);
          assert t.world.cards == r.world.cards;
        }
      }
    }
  }

  /** The win check only ever locks, so it keeps the invariant. */
  lemma WinCheckKeepsInv(w: World)
    requires Inv(w)
    ensures Inv(WinCheckSystem.Update(w).world)
  {
  }

  // ---------------------------------------------------------------------------
  // The command drain and the tick

  /** One command of the drain keeps the invariant, whether it finishes or throws. */
  lemma HandleKeepsInv(c: Commands.Command, w: World, rng: Shuffle.Rng)
    requires Inv(w)
    ensures Inv(Commands.Handle(c, w, rng).world)
  {
    match c
    case StartNewGame(cols, rows, seed) =>
      var config := Config(cols, rows, Commands.EvalDelayTicks, seed);
      var w1 := w.(configs := SetOrCreateSingleton(w.configs, config));
      assert Commands.Handle(c, w, rng) == Board.BuildBoard(w1, config, rng);
      if Board.BuildBoard(w1, config, rng).Done? {
        DealtKeepsInv(config, Board.TotalCells(config), rng);
      } else if Board.CheckSize(config).None? {
        assert RevealedUnmatched([]) == 0;
      }
    case FlipCardAt(x, y) =>
      FlipKeepsInv(w, Pos(x, y));
    case Unsupported =>
  }

  lemma {:induction false} DrainKeepsInv(buffer: seq<Commands.Command>, w: World, rng: Shuffle.Rng)
    requires Inv(w)
    ensures Inv(Commands.ProcessBuffer(buffer, w, rng).world)
    decreases |buffer|
  {
    if |buffer| > 0 {
      HandleKeepsInv(buffer[0], w, rng);
      var r := Commands.Handle(buffer[0], w, rng);
      if r.Done? {
        DrainKeepsInv(buffer[1..], r.world, rng);
      }
    }
  }

  /** A tick keeps the invariant, however far it gets before a throw. */
  lemma TickKeepsInv(g: Core.Game, rng: Shuffle.Rng)
    requires Inv(g.world)
    ensures Inv(Core.Tick(g, rng).game.world)
  {
    DrainKeepsInv(g.buffer, g.world, rng);
    var d := Commands.ProcessBuffer(g.buffer, g.world, rng);
    if d.error.None? {
      MatchedKeepsInv(d.world);
      var m := MatchedSystem.Update(d.world);
      WinCheckKeepsInv(m.world);
    }
  }

  // ---------------------------------------------------------------------------
  // Reachable worlds

  /** What a front end can do with the facade: queue a new game, queue a
      flip, or run an update. */
  datatype Input = Start(columns: int, rows: int, seed: int) | FlipAt(x: int, y: int) | Step

  /** The facade after a run of inputs. An update is one tick; the callback
      hand-over after it does not touch the world. */
  function Play(g: Core.Game, inputs: seq<Input>, rng: Shuffle.Rng): Core.Game
    decreases |inputs|
  {
    if |inputs| == 0 then g
    else
      var next :=
        match inputs[0]
        case Start(c, r, s) => Core.StartNewGame(g, c, r, s)
        case FlipAt(x, y) => Core.FlipCardAt(g, x, y)
        case Step => Core.Tick(g, rng).game;
      Play(next, inputs[1..], rng)
  }

  lemma {:induction false} PlayKeepsInv(g: Core.Game, inputs: seq<Input>, rng: Shuffle.Rng)
    requires Inv(g.world)
    ensures Inv(Play(g, inputs, rng).world)
    decreases |inputs|
  {
    if |inputs| > 0 {
      if inputs[0].Step? {
        TickKeepsInv(g, rng);
      }
      var next :=
        match inputs[0]
        case Start(c, r, s) => Core.StartNewGame(g, c, r, s)
        case FlipAt(x, y) => Core.FlipCardAt(g, x, y)
        case Step => Core.Tick(g, rng).game;
      PlayKeepsInv(next, inputs[1..], rng);
    }
  }

  /** From a new facade, whatever the front end does, at most two cards are
      ever Revealed and unmatched, and two only on a locked board. */
  lemma AtMostTwoRevealed(inputs: seq<Input>, rng: Shuffle.Rng)
    ensures RevealedUnmatched(Play(Core.NewGame, inputs, rng).world.cards) <= 2
    ensures var w := Play(Core.NewGame, inputs, rng).world;
      RevealedUnmatched(w.cards) == 2 ==> HasState(w) && State(w).isLocked
  {
    assert RevealedUnmatched(EmptyWorld.cards) == 0;
    PlayKeepsInv(Core.NewGame, inputs, rng);
  }
}
