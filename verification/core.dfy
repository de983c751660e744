/** The game facade and its tick. The facade only queues commands; an update
    runs the four systems in their fixed order (command drain, delayed
    evaluation, win check, snapshot projector) and then hands the queued
    GameWon callbacks to the receiver. An exception out of any system ends
    the update: the later systems and the callback hand-over do not run, but
    a callback the win check already queued stays queued for a later update. */
module Core {
  import opened Common
  import opened Ecs
  import opened Events
  import Shuffle
  import Board
  import Commands
  import MatchedSystem
  import WinCheckSystem
  import RenderSystem

  /** Everything the facade owns: the world, the command buffer, the
      projector's cache and the event manager. */
  datatype Game = Game(
    world: World,
    buffer: seq<Commands.Command>,
    renderer: RenderSystem.Renderer,
    events: EventManager)

  /** A freshly created facade: an empty world, nothing queued, no snapshot
      built yet and no events. */
  const NewGame: Game := Game(EmptyWorld, [], RenderSystem.InitialRenderer, NoEvents)

  /** StartNewGame: queue the command; nothing else happens until the next update. */
  function StartNewGame(g: Game, columns: int, rows: int, seed: int): (r: Game)
    ensures r.world == g.world && r.renderer == g.renderer && r.events == g.events
    ensures r.buffer == g.buffer + [Commands.StartNewGame(columns, rows, seed)]
    ensures Commands.TryDequeue(r.buffer).Some? &&
      Commands.TryDequeue(r.buffer).value.0 == if g.buffer == [] then Commands.StartNewGame(columns, rows, seed) else g.buffer[0]
  {
    g.(buffer := Commands.Enqueue(g.buffer, Commands.StartNewGame(columns, rows, seed)))
  }

  /** FlipCardAt: queue the command; nothing else happens until the next update. */
  function FlipCardAt(g: Game, x: int, y: int): (r: Game)
    ensures r.world == g.world && r.renderer == g.renderer && r.events == g.events
    ensures r.buffer == g.buffer + [Commands.FlipCardAt(x, y)]
    ensures Commands.TryDequeue(r.buffer).Some? &&
      Commands.TryDequeue(r.buffer).value.0 == if g.buffer == [] then Commands.FlipCardAt(x, y) else g.buffer[0]
  {
    g.(buffer := Commands.Enqueue(g.buffer, Commands.FlipCardAt(x, y)))
  }

  /** The snapshot the facade exposes: the projector's last build. A coherent
      cache hands out the version the projector last saw. */
  function Snapshot(g: Game): (s: RenderSystem.GameSnapshot)
    ensures RenderSystem.Coherent(g.renderer) ==> s.version == g.renderer.lastVersion
  {
    g.renderer.snapshot
  }

  /** The end of one pass over the systems, and the exception that escaped. */
  datatype Ticked = Ticked(game: Game, error: Option<Error>)

  /** The delayed evaluation finishes and the win check then sends GameWon. */
  predicate WinFired(w: World) {
    MatchedSystem.Update(w).Done? &&
    WinCheckSystem.Update(MatchedSystem.Update(w).world).Done? &&
    WinCheckSystem.Update(MatchedSystem.Update(w).world).value.Some?
  }

  /** The GameWon message the win check sends after the delayed evaluation. */
  function FiredWin(w: World): (e: GameWon)
    requires WinFired(w)
    ensures e.totalCards == State(MatchedSystem.Update(w).world).totalCards
  {
    WinCheckSystem.Update(MatchedSystem.Update(w).world).value.value
  }

  /** The systems after the command drain: delayed evaluation, win check
      (a GameWon goes to the event manager's hook at once, so it stays queued
      even when the projector then throws), projector. */
  function RunSystems(g: Game): (t: Ticked)
    ensures t.game.buffer == g.buffer && t.game.events.delivered == g.events.delivered
    ensures t.error.Some? ==> t.game.renderer == g.renderer
    ensures t.error.None? ==> HasState(t.game.world)
    ensures t.error.None? ==> t.game.renderer.lastVersion == State(t.game.world).stateVersion
    ensures RenderSystem.Coherent(g.renderer) ==> RenderSystem.Coherent(t.game.renderer)
    ensures WinFired(g.world) ==> t.game.events == OnGameWon(g.events, FiredWin(g.world))
    ensures !WinFired(g.world) ==> t.game.events == g.events
  {
    match MatchedSystem.Update(g.world)
    case Threw(w1, e) => Ticked(g.(world := w1), Some(e))
    case Done(w1, _) =>
      match WinCheckSystem.Update(w1)
      case Threw(w2, e) => Ticked(g.(world := w2), Some(e))
      case Done(w2, won) =>
        var events := if won.Some? then OnGameWon(g.events, won.value) else g.events;
        match RenderSystem.Update(w2, g.renderer)
        case Err(e) => Ticked(g.(world := w2, events := events), Some(e))
        case Ok(rd) => Ticked(Game(w2, g.buffer, rd, events), None)
  }

  /** SystemManager.Update: the command drain, then the other systems. A
      command that throws leaves the commands behind it queued and stops the
      tick there. */
  function Tick(g: Game, rng: Shuffle.Rng): (t: Ticked)
    ensures t.game.events.delivered == g.events.delivered
    ensures t.error.None? ==> t.game.buffer == []
    ensures |t.game.events.queue| >= |g.events.queue| && t.game.events.queue[..|g.events.queue|] == g.events.queue
    ensures t.error.Some? ==> t.game.renderer == g.renderer
    ensures t.error.None? ==> HasState(t.game.world)
    ensures t.error.None? ==> t.game.renderer.lastVersion == State(t.game.world).stateVersion
    ensures RenderSystem.Coherent(g.renderer) ==> RenderSystem.Coherent(t.game.renderer)
    ensures Commands.ProcessBuffer(g.buffer, g.world, rng).error.Some? ==>
      t.error == Commands.ProcessBuffer(g.buffer, g.world, rng).error &&
      t.game.events == g.events &&
      t.game.world == Commands.ProcessBuffer(g.buffer, g.world, rng).world &&
      t.game.buffer == Commands.ProcessBuffer(g.buffer, g.world, rng).rest
  {
    var d := Commands.ProcessBuffer(g.buffer, g.world, rng);
    if d.error.Some? then Ticked(g.(world := d.world, buffer := d.rest), d.error)
    else RunSystems(g.(world := d.world, buffer := []))
  }

  /** The facade's Update: one tick, then the queued callbacks are invoked in
      order. When a system throws, the exception leaves Update before the
      callbacks are handed over; they stay queued, so the next update that
      ends cleanly delivers them first. */
  method Update(g: Game, rng: Shuffle.Rng) returns (r: Game, error: Option<Error>)
    ensures error == Tick(g, rng).error
    ensures error.Some? ==> r == Tick(g, rng).game
    ensures error.None? ==> r.world == Tick(g, rng).game.world && r.renderer == Tick(g, rng).game.renderer
    ensures error.None? ==> r.buffer == [] && r.events.queue == []
    ensures error.None? ==> r.events.delivered == g.events.delivered + Tick(g, rng).game.events.queue
    ensures error.None? ==> (|r.events.delivered| >= |g.events.delivered| + |g.events.queue| &&
      r.events.delivered[..|g.events.delivered| + |g.events.queue|] == g.events.delivered + g.events.queue)
  {
    var t := Tick(g, rng);
    error := t.error;
    if error.Some? {
      r := t.game;
    } else {
      var events := Dequeue(t.game.events);
      r := t.game.(events := events);
    }
  }

  // ---------------------------------------------------------------------------
  // Properties of a tick

  /** After a tick that ends cleanly, the exposed snapshot carries the
      world's current StateVersion, and it is the projector's build for that
      world. */
  lemma SnapshotAfterTick(g: Game, rng: Shuffle.Rng)
    requires RenderSystem.Coherent(g.renderer)
    requires Tick(g, rng).error.None?
    ensures HasState(Tick(g, rng).game.world)
    ensures Snapshot(Tick(g, rng).game).version == State(Tick(g, rng).game.world).stateVersion
  {
  }

  /** The projector's cache is never ahead of the world: before any
      GameState exists it holds a negative version, afterwards a version not
      above StateVersion. */
  predicate NotAhead(v: int, w: World) {
    if HasState(w) then v <= State(w).stateVersion else v < 0
  }

  /** One command of the drain never moves StateVersion back. */
  lemma HandleNotAhead(c: Commands.Command, w: World, rng: Shuffle.Rng, v: int)
    requires NotAhead(v, w) && Commands.Handle(c, w, rng).Done?
    ensures NotAhead(v, Commands.Handle(c, w, rng).world)
  {
    match c
    case StartNewGame(cols, rows, seed) =>
      var config := Config(cols, rows, Commands.EvalDelayTicks, seed);
      var w1 := w.(configs := SetOrCreateSingleton(w.configs, config));
      assert Commands.Handle(c, w, rng) == Board.BuildBoard(w1, config, rng);
    case FlipCardAt(x, y) =>
    case Unsupported =>
  }

  /** A drain that finishes without an exception never moves StateVersion back. */
  lemma {:induction false} DrainNotAhead(buffer: seq<Commands.Command>, w: World, rng: Shuffle.Rng, v: int)
    requires NotAhead(v, w) && Commands.ProcessBuffer(buffer, w, rng).error.None?
    ensures NotAhead(v, Commands.ProcessBuffer(buffer, w, rng).world)
    decreases |buffer|
  {
    if |buffer| > 0 {
      var r := Commands.Handle(buffer[0], w, rng);
      HandleNotAhead(buffer[0], w, rng, v);
      DrainNotAhead(buffer[1..], r.world, rng, v);
    }
  }

  /** A clean tick never moves StateVersion back, and leaves the projector
      exactly in step with the world. */
  lemma TickKeepsNotAhead(g: Game, rng: Shuffle.Rng)
    requires NotAhead(g.renderer.lastVersion, g.world) && Tick(g, rng).error.None?
    ensures NotAhead(g.renderer.lastVersion, Tick(g, rng).game.world)
    ensures NotAhead(Tick(g, rng).game.renderer.lastVersion, Tick(g, rng).game.world)
  {
    var d := Commands.ProcessBuffer(g.buffer, g.world, rng);
    DrainNotAhead(g.buffer, g.world, rng, g.renderer.lastVersion);
    var w1 := MatchedSystem.Update(d.world).world;
    assert HasState(d.world) ==> HasState(w1) && State(w1).stateVersion >= State(d.world).stateVersion;
  }

  /** A win is visible in the same tick: when the win check sends GameWon and
      the tick ends cleanly, the snapshot that tick leaves behind is rebuilt
      at the post-win version and shows the game won and locked, and exactly
      one callback was queued. */
  lemma WinShownSameTick(g: Game, rng: Shuffle.Rng)
    requires NotAhead(g.renderer.lastVersion, g.world)
    requires Tick(g, rng).error.None?
    requires Tick(g, rng).game.events != g.events
    ensures var s := Snapshot(Tick(g, rng).game);
      s.isWon && s.isLocked && s.version == State(Tick(g, rng).game.world).stateVersion
    ensures |Tick(g, rng).game.events.queue| == |g.events.queue| + 1
  {
    var d := Commands.ProcessBuffer(g.buffer, g.world, rng);
    DrainNotAhead(g.buffer, g.world, rng, g.renderer.lastVersion);
    var w1 := MatchedSystem.Update(d.world).world;
    assert HasState(d.world) ==> HasState(w1) && State(w1).stateVersion >= State(d.world).stateVersion;
    var won := WinCheckSystem.Update(w1);
    assert won.Done? && won.value.Some?;
    assert State(won.world).stateVersion == State(w1).stateVersion + 1;
  }

  /** A win is not lost when the projector throws after it. Here every card
      is counted matched and no Config exists: the win check sends GameWon,
      then the projector throws at the Config lookup. The game is won and its
      callback stays queued, for the next update that ends cleanly to hand
      over; the win check itself never fires again. */
  lemma WinKeptAcrossRenderThrow(rng: Shuffle.Rng)
    ensures var w := World([], [GameState(0, false, None, false, 2, 2, 0)], [], []);
      var t := Tick(Game(w, [], RenderSystem.InitialRenderer, NoEvents), rng);
      t.error == Some(InvalidOperation) && State(t.game.world).isWon &&
      t.game.events.queue == [OnGameWonCall(0, 2)] && t.game.events.delivered == [] &&
      WinCheckSystem.Update(t.game.world) == Done(t.game.world, None)
  {
  }

  /** Before any StartNewGame, an update throws: the win check finds no GameState. */
  lemma UpdateBeforeStartThrows(rng: Shuffle.Rng)
    ensures Tick(NewGame, rng) == Ticked(NewGame, Some(InvalidOperation))
  {
  }

  /** An evaluation scheduled by a flip is counted down in the very tick
      that scheduled it: when the drain leaves a PendingEvaluation with
      counter m >= 2 first, the tick ends with m - 1. */
  lemma ScheduledCountsSameTick(g: Game, rng: Shuffle.Rng)
    requires Commands.ProcessBuffer(g.buffer, g.world, rng).error.None?
    requires var w := Commands.ProcessBuffer(g.buffer, g.world, rng).world;
      |w.pending| > 0 && 2 <= w.pending[0] <= IntMax
    ensures var w := Commands.ProcessBuffer(g.buffer, g.world, rng).world;
      Tick(g, rng).game.world.pending == w.pending[0 := w.pending[0] - 1]
  {
    var w := Commands.ProcessBuffer(g.buffer, g.world, rng).world;
    TickAfterDrain(g, rng);
    SystemsCountDown(g.(world := w, buffer := []));
  }

  /** A tick whose drain finishes runs the other systems on the drained world. */
  lemma TickAfterDrain(g: Game, rng: Shuffle.Rng)
    requires Commands.ProcessBuffer(g.buffer, g.world, rng).error.None?
    ensures Tick(g, rng) == RunSystems(g.(world := Commands.ProcessBuffer(g.buffer, g.world, rng).world, buffer := []))
  {
  }

  /** The systems after the drain lower the first counter by one when it
      does not run out. */
  lemma SystemsCountDown(g: Game)
    requires |g.world.pending| > 0 && 2 <= g.world.pending[0] <= IntMax
    ensures RunSystems(g).game.world.pending == g.world.pending[0 := g.world.pending[0] - 1]
  {
    var w := g.world;
    var m := MatchedSystem.Update(w);
    assert m == Done(w.(pending := w.pending[0 := w.pending[0] - 1]), ());
    var win := WinCheckSystem.Update(m.world);
    assert win.world.pending == m.world.pending;
  }

  /** A snapshot of a fresh board of `n` cards: all face down, no moves,
      nothing matched, neither won nor locked. */
  predicate FreshSnapshot(s: RenderSystem.GameSnapshot, n: int) {
    |s.cards| == n && s.totalCards == n && s.moves == 0 && s.matchedCards == 0 &&
    !s.isWon && !s.isLocked &&
    forall k :: 0 <= k < |s.cards| ==> !s.cards[k].faceUp
  }

  /** StartNewGame followed by an update builds the board in that tick: the
      dealt cards are in the world, nothing is queued, and the snapshot shows
      every card face down with the fresh counters. */
  lemma NewGameShownNextTick(g: Game, columns: int, rows: int, seed: int, rng: Shuffle.Rng)
    requires g.buffer == [] && g.world.pending == []
    requires NotAhead(g.renderer.lastVersion, g.world)
    requires 0 < columns && 0 < rows && 0 < columns * rows <= IntMax && (columns * rows) % 2 == 0
    ensures var t := Tick(StartNewGame(g, columns, rows, seed), rng);
      t.error.None? && t.game.buffer == [] &&
      t.game.world.cards == Board.DealCards(Config(columns, rows, Commands.EvalDelayTicks, seed), columns * rows, rng) &&
      FreshSnapshot(Snapshot(t.game), columns * rows)
  {
    var g1 := StartNewGame(g, columns, rows, seed);
    NewGameDrain(g.world, columns, rows, seed, rng);
    DrainNotAhead(g1.buffer, g1.world, rng, g.renderer.lastVersion);
    var d := Commands.ProcessBuffer(g1.buffer, g1.world, rng);
    FreshBoardSystems(g1.(world := d.world, buffer := []));
  }

  /** The drain of a single valid StartNewGame deals the board and resets
      the GameState. */
  lemma NewGameDrain(w: World, columns: int, rows: int, seed: int, rng: Shuffle.Rng)
    requires 0 < columns && 0 < rows && 0 < columns * rows <= IntMax && (columns * rows) % 2 == 0
    ensures var config := Config(columns, rows, Commands.EvalDelayTicks, seed);
      var d := Commands.ProcessBuffer([Commands.StartNewGame(columns, rows, seed)], w, rng);
      d.error.None? && d.world.cards == Board.DealCards(config, columns * rows, rng) &&
      HasState(d.world) && State(d.world) == Board.FreshState(w, columns * rows) &&
      d.world.pending == w.pending && |d.world.configs| > 0
  {
    var c := Commands.StartNewGame(columns, rows, seed);
    var config := Config(columns, rows, Commands.EvalDelayTicks, seed);
    assert [c][1..] == [];
    assert Board.TotalCells(config) == columns * rows;
    var h := Commands.Handle(c, w, rng);
    assert h.Done?;
    assert Commands.ProcessBuffer([c], w, rng) == Commands.ProcessBuffer([], h.world, rng);
  }

  /** The systems on a board just dealt: nothing is pending, no win is due,
      and the projector rebuilds, showing every card face down. */
  lemma FreshBoardSystems(g: Game)
    requires g.world.pending == [] && HasState(g.world) && |g.world.configs| > 0
    requires var s := State(g.world);
      s.totalCards == |g.world.cards| > 0 && s.matchedCount == 0 && !s.isWon &&
      g.renderer.lastVersion < s.stateVersion
    requires forall i :: 0 <= i < |g.world.cards| ==> g.world.cards[i].pos.Some?
    requires forall i :: 0 <= i < |g.world.cards| ==> !g.world.cards[i].revealed && !g.world.cards[i].matched
    ensures var t := RunSystems(g);
      t.error.None? && t.game.world == g.world && t.game.events == g.events &&
      |Snapshot(t.game).cards| == |g.world.cards| &&
      Snapshot(t.game).totalCards == State(g.world).totalCards && Snapshot(t.game).moves == State(g.world).moves &&
      Snapshot(t.game).matchedCards == 0 && !Snapshot(t.game).isWon &&
      Snapshot(t.game).isLocked == State(g.world).isLocked &&
      (forall k :: 0 <= k < |Snapshot(t.game).cards| ==> !Snapshot(t.game).cards[k].faceUp)
  {
    var cards := g.world.cards;
    FaceDownProjection(cards);
    var ps := RenderSystem.ProjectAll(cards).value;
    var r := RenderSystem.Update(g.world, g.renderer);
    assert r.Ok? && r != Ok(g.renderer);
    var shown := r.value.snapshot.cards;
    forall k | 0 <= k < |shown|
      ensures !shown[k].faceUp
    {
      assert shown[k] in multiset(ps);
    }
  }

  /** Cards that all have a cell and are face down project without a throw,
      one face-down snapshot each. */
  lemma FaceDownProjection(cards: seq<Card>)
    requires forall i :: 0 <= i < |cards| ==> cards[i].pos.Some?
    requires forall i :: 0 <= i < |cards| ==> !cards[i].revealed && !cards[i].matched
    ensures RenderSystem.ProjectAll(cards).Ok?
    ensures |RenderSystem.ProjectAll(cards).value| == |cards|
    ensures forall k :: 0 <= k < |cards| ==> !RenderSystem.ProjectAll(cards).value[k].faceUp
  {
    RenderSystem.ProjectAllOnePerCard(cards);
    PlacedAll(cards);
  }

  /** When every card has a cell, the placed cards are all the cards. */
  lemma {:induction false} PlacedAll(cards: seq<Card>)
    requires forall i :: 0 <= i < |cards| ==> cards[i].pos.Some?
    ensures RenderSystem.PlacedCards(cards) == cards
  {
    if |cards| > 0 {
      var n := |cards| - 1;
      PlacedAll(cards[..n]);
      assert cards == cards[..n] + [cards[n]];
    }
  }
}
