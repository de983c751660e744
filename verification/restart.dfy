/** What a new board does to the game around it: the GameState reset as the
    C# source writes it leaves TotalCards at 0, so the win check can never
    fire, and a pending evaluation left over from the old board survives the
    rebuild and is settled against the new one. */
module Restart {
  import opened Common
  import opened Ecs
  import opened Selection
  import Shuffle
  import Board
  import MatchedSystem
  import WinCheckSystem
  import Invariants
  import Events
  import RenderSystem
  import Commands
  import Core

  /** The GameState of a built board once every card has been counted matched. */
  function AllMatched(w: World): (r: World)
    requires HasState(w)
    ensures HasState(r) && State(r).matchedCount == |w.cards| && r.cards == w.cards
  {
    WithState(w, State(w).(matchedCount := |w.cards|))
  }

  /** As written: even after every card of a non-empty board has been
      counted matched, the win check sends nothing and the game is not won. */
  lemma AsWrittenNeverWon(w: World, config: Config, rng: Shuffle.Rng)
    requires Board.CheckSize(config).None? && Board.TotalCells(config) > 0
    ensures var r := Board.BuildBoardAsWritten(w, config, rng);
      r.Done? && |r.world.cards| > 0 &&
      WinCheckSystem.Update(AllMatched(r.world)) == Done(AllMatched(r.world), None)
  {
    var r := Board.BuildBoardAsWritten(w, config, rng);
    assert |r.world.cards| == Board.TotalCells(config);
  }

  /** Corrected: TotalCards is the board size, so once every card is counted
      matched the win check fires with the board's Moves and size. */
  lemma CorrectedWins(w: World, config: Config, rng: Shuffle.Rng)
    requires Board.CheckSize(config).None? && Board.TotalCells(config) > 0
    ensures var r := Board.BuildBoard(w, config, rng);
      r.Done? && |r.world.cards| == Board.TotalCells(config) &&
      var c := WinCheckSystem.Update(AllMatched(r.world));
      c.Done? && c.value == Some(Events.GameWon(0, |r.world.cards|, State(r.world).stateVersion + 1)) &&
      State(c.world).isWon && State(c.world).isLocked
  {
    var r := Board.BuildBoard(w, config, rng);
    assert |r.world.cards| == Board.TotalCells(config);
    assert WinCheckSystem.WinDue(State(AllMatched(r.world)));
  }

  /** Only cards are destroyed by a rebuild. A PendingEvaluation whose
      counter runs out on the next update survives it, finds no pair on the
      fresh board, and still resets the turn: the new game starts with one
      Move counted and no flip made. */
  lemma StalePendingCountsMove(w: World, config: Config, rng: Shuffle.Rng)
    requires |w.pending| > 0 && IntMin < w.pending[0] <= 1
    requires Board.BuildBoard(w, config, rng).Done?
    ensures var b := Board.BuildBoard(w, config, rng).world;
      b.pending == w.pending &&
      var u := MatchedSystem.Update(b);
      u.Done? && u.world.cards == b.cards && u.world.pending == w.pending[1..] &&
      State(u.world).moves == 1 && State(u.world).stateVersion == State(b).stateVersion + 1
  {
    var b := Board.BuildBoard(w, config, rng).world;
    Invariants.DealtKeepsInv(config, Board.TotalCells(config), rng);
    assert MatchedSystem.PendingPair(b.cards).None?;
    var left := MatchedSystem.Countdown(b.pending[0]);
    var b1 := b.(pending := b.pending[0 := left]);
    assert MatchedSystem.Resolve(b1) == Done(b1, ());
    assert MatchedSystem.Update(b) == MatchedSystem.Settle(b1);
  }

  /** As written, a rebuild also resets StateVersion to 0. A projector that
      has cached version 0, as it does after showing a first board before
      any flip, then keeps its old snapshot. */
  lemma AsWrittenRebuildKeepsCache(w: World, config: Config, rng: Shuffle.Rng, rd: RenderSystem.Renderer)
    requires Board.CheckSize(config).None? && Board.TotalCells(config) >= 0
    requires rd.lastVersion == 0
    ensures var r := Board.BuildBoardAsWritten(w, config, rng);
      r.Done? && RenderSystem.Update(r.world, rd) == Ok(rd)
  {
  }

  /** The visible effect: a first board of one size is dealt and shown at
      version 0; a new game of another size, built as written before any
      flip, deals its cards, but the next projection keeps showing the first
      board, with the old card count, rows and columns. */
  lemma AsWrittenRestartNotShown(cols1: int, rows1: int, seed1: int, cols2: int, rows2: int, seed2: int, rng: Shuffle.Rng)
    requires 0 < cols1 && 0 < rows1 && 0 < cols1 * rows1 <= IntMax && (cols1 * rows1) % 2 == 0
    requires 0 < cols2 && 0 < rows2 && 0 < cols2 * rows2 <= IntMax && (cols2 * rows2) % 2 == 0
    requires cols1 * rows1 != cols2 * rows2
    ensures var t := Core.Tick(Core.StartNewGame(Core.NewGame, cols1, rows1, seed1), rng);
      var config := Config(cols2, rows2, Commands.EvalDelayTicks, seed2);
      var w1 := t.game.world.(configs := SetOrCreateSingleton(t.game.world.configs, config));
      var b := Board.BuildBoardAsWritten(w1, config, rng);
      t.error.None? && b.Done? && |b.world.cards| == cols2 * rows2 &&
      RenderSystem.Update(b.world, t.game.renderer) == Ok(t.game.renderer) &&
      |Core.Snapshot(t.game).cards| == cols1 * rows1 != |b.world.cards|
  {
    Core.NewGameShownNextTick(Core.NewGame, cols1, rows1, seed1, rng);
    Core.NewGameDrain(EmptyWorld, cols1, rows1, seed1, rng);
    var t := Core.Tick(Core.StartNewGame(Core.NewGame, cols1, rows1, seed1), rng);
    assert t.game.renderer.lastVersion == 0;
    var config := Config(cols2, rows2, Commands.EvalDelayTicks, seed2);
    assert Board.TotalCells(config) == cols2 * rows2;
    var w1 := t.game.world.(configs := SetOrCreateSingleton(t.game.world.configs, config));
    AsWrittenRebuildKeepsCache(w1, config, rng, t.game.renderer);
    Board.DealtBoardLayout(config, rng);
  }

  /** Corrected: StateVersion moves past every version the projector can
      have cached, so the next projection rebuilds and shows one snapshot
      per card of the new board, all face down. */
  lemma CorrectedRestartShown(w: World, config: Config, rng: Shuffle.Rng, rd: RenderSystem.Renderer)
    requires config.cols > 0 && config.rows > 0
    requires config.cols * config.rows <= IntMax && (config.cols * config.rows) % 2 == 0
    requires |w.configs| > 0 && Core.NotAhead(rd.lastVersion, w)
    ensures var r := Board.BuildBoard(w, config, rng);
      r.Done? && RenderSystem.Update(r.world, rd).Ok? &&
      var s := RenderSystem.Update(r.world, rd).value.snapshot;
      s.version == State(r.world).stateVersion && s.version != rd.lastVersion &&
      |s.cards| == |r.world.cards| &&
      forall k :: 0 <= k < |s.cards| ==> !s.cards[k].faceUp
  {
    var r := Board.BuildBoard(w, config, rng);
    Board.DealtBoardLayout(config, rng);
    var cards := r.world.cards;
    assert forall i :: 0 <= i < |cards| ==> Board.FreshCardAt(cards, i) && Board.CellInGrid(cards[i], config.cols, config.rows);
    Core.FaceDownProjection(cards);
    var ps := RenderSystem.ProjectAll(cards).value;
    var u := RenderSystem.Update(r.world, rd);
    assert u.Ok? && u != Ok(rd);
    var shown := u.value.snapshot.cards;
    assert |shown| == |ps| by {
      assert |multiset(shown)| == |multiset(ps)|;
    }
    forall k | 0 <= k < |shown|
      ensures !shown[k].faceUp
    {
      assert shown[k] in multiset(ps);
    }
  }

  /** The same sequence with the corrected rebuild: the next projection
      shows the second board, one face-down card per cell. */
  lemma CorrectedRestartScenario(cols1: int, rows1: int, seed1: int, cols2: int, rows2: int, seed2: int, rng: Shuffle.Rng)
    requires 0 < cols1 && 0 < rows1 && 0 < cols1 * rows1 <= IntMax && (cols1 * rows1) % 2 == 0
    requires 0 < cols2 && 0 < rows2 && 0 < cols2 * rows2 <= IntMax && (cols2 * rows2) % 2 == 0
    ensures var t := Core.Tick(Core.StartNewGame(Core.NewGame, cols1, rows1, seed1), rng);
      var config := Config(cols2, rows2, Commands.EvalDelayTicks, seed2);
      var w1 := t.game.world.(configs := SetOrCreateSingleton(t.game.world.configs, config));
      var b := Board.BuildBoard(w1, config, rng);
      t.error.None? && b.Done? && RenderSystem.Update(b.world, t.game.renderer).Ok? &&
      var s := RenderSystem.Update(b.world, t.game.renderer).value.snapshot;
      |s.cards| == cols2 * rows2 && s.columns == cols2 && s.rows == rows2 &&
      forall k :: 0 <= k < |s.cards| ==> !s.cards[k].faceUp
  {
    Core.NewGameShownNextTick(Core.NewGame, cols1, rows1, seed1, rng);
    var t := Core.Tick(Core.StartNewGame(Core.NewGame, cols1, rows1, seed1), rng);
    var config := Config(cols2, rows2, Commands.EvalDelayTicks, seed2);
    assert Board.TotalCells(config) == cols2 * rows2;
    var w1 := t.game.world.(configs := SetOrCreateSingleton(t.game.world.configs, config));
    assert Core.NotAhead(t.game.renderer.lastVersion, w1);
    CorrectedRestartShown(w1, config, rng, t.game.renderer);
    Board.DealtBoardLayout(config, rng);
  }
}
