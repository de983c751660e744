/** Command intake. The newer generation validates each command, runs
    immediate ones at once and queues the rest for the command system, which
    drains the queue and turns every handler exception into Failed. The older
    generation queues into a plain command buffer and drains it with no
    validation and no catch. */
module Commands {
  import opened Common
  import opened Ecs
  import Shuffle
  import Board
  import Flip

  /** A game command: start a new game, flip the card at a cell, or any
      other GameCommand subtype, which no handler knows. */
  datatype Command =
    | StartNewGame(columns: int, rows: int, seed: int)
    | FlipCardAt(x: int, y: int)
    | Unsupported

  /** The largest board side and flip coordinate the validation accepts. */
  const MaxBoardDimension: int := 10

  /** The fixed evaluation delay of the older command drain. */
  const EvalDelayTicks: int := 10

  /** ValidateCommand: a new game needs both sides in 1..10 and an even cell
      count; a flip needs both coordinates in 0..10; anything else passes. */
  function Validate(c: Command): (ok: bool)
    ensures c.StartNewGame? ==> (ok <==>
      1 <= c.columns <= MaxBoardDimension && 1 <= c.rows <= MaxBoardDimension &&
      (c.columns * c.rows) % 2 == 0)
    ensures c.FlipCardAt? ==> (ok <==>
      0 <= c.x <= MaxBoardDimension && 0 <= c.y <= MaxBoardDimension)
    ensures c.Unsupported? ==> ok
  {
    match c
    case StartNewGame(cols, rows, _) =>
      0 < cols <= MaxBoardDimension && 0 < rows <= MaxBoardDimension && cols * rows % 2 == 0
    case FlipCardAt(x, y) => 0 <= x <= MaxBoardDimension && 0 <= y <= MaxBoardDimension
    case Unsupported => true
  }

  /** The commands meant to run at once: a new game is expected on the board
      as soon as it is asked for, a flip waits for the next tick. As the
      source declares them, no command type carries the IImmediateCommand
      marker, so ProcessCommandAsWritten runs none of them at once. */
  predicate IsImmediate(c: Command) {
    c.StartNewGame?
  }

  /** A validated new game always passes BuildBoard's own size checks. */
  lemma ValidatedBoardBuilds(c: Command, delay: int)
    requires c.StartNewGame? && Validate(c)
    ensures Board.CheckSize(Config(c.columns, c.rows, delay, c.seed)).None?
    ensures Board.TotalCells(Config(c.columns, c.rows, delay, c.seed)) == c.columns * c.rows
  {
    assert 0 < c.columns * c.rows <= 100 by {
      assert c.columns * c.rows <= c.columns * 10 <= 100;
    }
  }

  // ---------------------------------------------------------------------------
  // Handlers

  /** StartNewGameHandler.Execute: the Config singleton is overwritten with
      the command's size and seed and the configured delay, THEN the board is
      built; a BuildBoard throw therefore leaves the new Config in place. */
  function StartNewGameExecute(c: Command, w: World, delay: int, rng: Shuffle.Rng): (r: Run<CommandResult>)
    requires c.StartNewGame?
    ensures TryGetSingleton(r.world.configs) == Some(Config(c.columns, c.rows, delay, c.seed))
    ensures r.Done? ==> r.value == Success
    ensures r.Done? <==> Board.BuildBoard(w, Config(c.columns, c.rows, delay, c.seed), rng).Done?
    ensures r.Done? ==> r.world.cards == Board.BuildBoard(w, Config(c.columns, c.rows, delay, c.seed), rng).world.cards
    ensures r.Done? ==> HasState(r.world)
    ensures r.Done? ==>
      State(r.world) == Board.FreshState(w, Board.TotalCells(Config(c.columns, c.rows, delay, c.seed)))
    ensures r.world.pending == w.pending
    ensures r.Threw? && Board.CheckSize(Config(c.columns, c.rows, delay, c.seed)).Some? ==>
      r.world.cards == w.cards && r.world.states == w.states
  {
    var config := Config(c.columns, c.rows, delay, c.seed);
    var w1 := w.(configs := SetOrCreateSingleton(w.configs, config));
    match Board.BuildBoard(w1, config, rng)
    case Threw(w2, e) => Threw(w2, e)
    case Done(w2, _) => Done(w2, Success)
  }

  /** FlipCardAtHandler.Execute: TryFlip at the command's cell. */
  function FlipCardAtExecute(c: Command, w: World): (r: Run<CommandResult>)
    requires c.FlipCardAt?
    ensures HasState(w) ==> (r == Done(w, Skipped) <==> Flip.FlipSkips(w, Pos(c.x, c.y)))
    ensures !HasState(w) ==> r == Threw(w, InvalidOperation)
  {
    Flip.TryFlip(w, Pos(c.x, c.y))
  }

  /** What ExecuteCommand hands back: the world after the handler and its result. */
  datatype Outcome = Outcome(world: World, result: CommandResult)

  /** ExecuteCommand: dispatch to the handler; an unknown command fails. A
      handler exception is caught and reported as Failed, but whatever the
      handler changed before throwing stays changed. */
  function ExecuteCommand(c: Command, w: World, delay: int, rng: Shuffle.Rng): (o: Outcome)
    ensures o.result != Deferred
    ensures c.Unsupported? ==> o == Outcome(w, Failed)
    ensures c.StartNewGame? ==> o.world == StartNewGameExecute(c, w, delay, rng).world
    ensures c.FlipCardAt? ==> o.world == FlipCardAtExecute(c, w).world
    ensures !c.Unsupported? ==> (o.result == Failed <==> (
      if c.StartNewGame? then StartNewGameExecute(c, w, delay, rng).Threw?
      else FlipCardAtExecute(c, w).Threw?))
  {
    var run :=
      match c
      case StartNewGame(_, _, _) => StartNewGameExecute(c, w, delay, rng)
      case FlipCardAt(_, _) => FlipCardAtExecute(c, w)
      case Unsupported => Done(w, Failed);
    match run
    case Threw(w1, _) => Outcome(w1, Failed)
    case Done(w1, result) => Outcome(w1, result)
  }

  // ---------------------------------------------------------------------------
  // The FIFO shared by the command queue and the command buffer

  /** Enqueue: append at the tail. */
  function Enqueue(q: seq<Command>, c: Command): (r: seq<Command>)
    ensures |r| == |q| + 1 && r[..|q|] == q && r[|q|] == c
  {
    q + [c]
  }

  /** TryDequeue: the head and the rest, or None when empty. */
  function TryDequeue(q: seq<Command>): (r: Option<(Command, seq<Command>)>)
    ensures r.None? <==> |q| == 0
    ensures r.Some? ==> [r.value.0] + r.value.1 == q
  {
    if |q| == 0 then None else Some((q[0], q[1..]))
  }

  /** FIFO order: what is enqueued on an empty queue comes out first. */
  lemma EnqueueDequeue(q: seq<Command>, c: Command)
    ensures TryDequeue(Enqueue(q, c)).Some?
    ensures TryDequeue(Enqueue(q, c)).value.0 == if |q| == 0 then c else q[0]
    ensures |q| == 0 ==> TryDequeue(TryDequeue(Enqueue(q, c)).value.1).None?
  {
  }

  // ---------------------------------------------------------------------------
  // The newer generation: GameCommandQueue and GameCommandSystem

  /** What ProcessCommand hands back: the queue, the world and the result. */
  datatype Processed = Processed(queue: seq<Command>, world: World, result: CommandResult)

  /** ProcessCommand, given whether the command's type is marked immediate:
      an invalid command fails with nothing queued and nothing changed; an
      immediate one is executed now and never queued; any other valid
      command is queued at the tail and reported Deferred. */
  function Route(q: seq<Command>, c: Command, w: World, delay: int, rng: Shuffle.Rng, immediate: bool): (p: Processed)
    ensures !Validate(c) ==> p == Processed(q, w, Failed)
    ensures Validate(c) && immediate ==> p.queue == q && p.result != Deferred
    ensures Validate(c) && immediate ==> Outcome(p.world, p.result) == ExecuteCommand(c, w, delay, rng)
    ensures Validate(c) && !immediate ==> p == Processed(q + [c], w, Deferred)
    ensures p.result == Deferred <==> Validate(c) && !immediate
  {
    if !Validate(c) then Processed(q, w, Failed)
    else if immediate then
      var o := ExecuteCommand(c, w, delay, rng);
      Processed(q, o.world, o.result)
    else Processed(Enqueue(q, c), w, Deferred)
  }

  /** ProcessCommand as the command types are declared: none is marked
      immediate, so every valid command, a new game included, is queued. */
  function ProcessCommandAsWritten(q: seq<Command>, c: Command, w: World, delay: int, rng: Shuffle.Rng): (p: Processed)
    ensures p.world == w
    ensures Validate(c) ==> p.queue == q + [c] && p.result == Deferred
    ensures !Validate(c) ==> p.queue == q && p.result == Failed
  {
    Route(q, c, w, delay, rng, false)
  }

  /** ProcessCommand with a new game marked immediate: it is executed at once. */
  function ProcessCommand(q: seq<Command>, c: Command, w: World, delay: int, rng: Shuffle.Rng): (p: Processed)
    ensures !Validate(c) ==> p == Processed(q, w, Failed)
    ensures Validate(c) && IsImmediate(c) ==> p.queue == q && p.result != Deferred
    ensures Validate(c) && IsImmediate(c) ==> Outcome(p.world, p.result) == ExecuteCommand(c, w, delay, rng)
    ensures Validate(c) && !IsImmediate(c) ==> p == Processed(q + [c], w, Deferred)
    ensures p.result == Deferred <==> Validate(c) && !IsImmediate(c)
  {
    Route(q, c, w, delay, rng, IsImmediate(c))
  }

  /** As written, a valid new game only joins the queue: the world keeps its
      old cards (none, on a fresh world) until the next Update drains it. */
  lemma AsWrittenNewGameDeferred(q: seq<Command>, c: Command, w: World, delay: int, rng: Shuffle.Rng)
    requires c.StartNewGame? && Validate(c)
    ensures var p := ProcessCommandAsWritten(q, c, w, delay, rng);
      p.result == Deferred && p.world.cards == w.cards && |p.queue| == |q| + 1 && p.queue[|q|] == c
  {
  }

  /** Corrected: a valid new game is executed at once and succeeds; the board
      is dealt before ProcessCommand returns and the queue is untouched. */
  lemma CorrectedNewGameImmediate(q: seq<Command>, c: Command, w: World, delay: int, rng: Shuffle.Rng)
    requires c.StartNewGame? && Validate(c)
    ensures var p := ProcessCommand(q, c, w, delay, rng);
      p.result == Success && p.queue == q &&
      p.world.cards == Board.DealCards(Config(c.columns, c.rows, delay, c.seed), c.columns * c.rows, rng) &&
      |p.world.cards| == c.columns * c.rows
  {
    ValidatedBoardBuilds(c, delay);
    var config := Config(c.columns, c.rows, delay, c.seed);
    Board.DealtBoardLayout(config, rng);
  }

  /** The reference for a drain: every command, in FIFO order, executed once
      on the world the previous one left. */
  function ExecuteAll(q: seq<Command>, w: World, delay: int, rng: Shuffle.Rng): (o: (World, seq<CommandResult>))
    ensures |o.1| == |q|
    decreases |q|
  {
    if |q| == 0 then (w, [])
    else
      var first := ExecuteCommand(q[0], w, delay, rng);
      var rest := ExecuteAll(q[1..], first.world, delay, rng);
      (rest.0, [first.result] + rest.1)
  }

  /** One step of the reference fold. */
  lemma ExecuteAllStep(q: seq<Command>, w: World, delay: int, rng: Shuffle.Rng, results: seq<CommandResult>)
    requires |q| > 0
    ensures var o := ExecuteCommand(q[0], w, delay, rng);
      ExecuteAll(q, w, delay, rng).0 == ExecuteAll(q[1..], o.world, delay, rng).0 &&
      results + ExecuteAll(q, w, delay, rng).1 == (results + [o.result]) + ExecuteAll(q[1..], o.world, delay, rng).1
  {
    var o := ExecuteCommand(q[0], w, delay, rng);
    var tail := ExecuteAll(q[1..], o.world, delay, rng);
    assert ExecuteAll(q, w, delay, rng) == (tail.0, [o.result] + tail.1);
    AppendOne(results, o.result, tail.1);
  }

  lemma AppendOne(a: seq<CommandResult>, x: CommandResult, b: seq<CommandResult>)
    ensures a + ([x] + b) == (a + [x]) + b
  {
  }

  /** GameCommandSystem.Update: dequeue until TryDequeue reports empty. With
      n queued commands that is n + 1 calls; each command is executed exactly
      once, in order, and no result, Failed included, stops the loop. */
  method Drain(q: seq<Command>, w: World, delay: int, rng: Shuffle.Rng)
    returns (w': World, results: seq<CommandResult>, q': seq<Command>, dequeues: nat)
    ensures q' == [] && dequeues == |q| + 1
    ensures (w', results) == ExecuteAll(q, w, delay, rng)
  {
    q' := q;
    w' := w;
    results := [];
    var next := TryDequeue(q');
    dequeues := 1;
    assert results + ExecuteAll(q', w', delay, rng).1 == ExecuteAll(q, w, delay, rng).1;
    while next.Some?
      invariant next == TryDequeue(q')
      invariant |q'| <= |q| && dequeues == |q| - |q'| + 1
      invariant ExecuteAll(q', w', delay, rng).0 == ExecuteAll(q, w, delay, rng).0
      invariant results + ExecuteAll(q', w', delay, rng).1 == ExecuteAll(q, w, delay, rng).1
      decreases |q'|
    {
      var (c, rest) := next.value;
      assert c == q'[0] && rest == q'[1..];
      ExecuteAllStep(q', w', delay, rng, results);
      var o := ExecuteCommand(c, w', delay, rng);
      q' := rest;
      w' := o.world;
      results := results + [o.result];
      next := TryDequeue(q');
      dequeues := dequeues + 1;
    }
    assert results + ExecuteAll(q', w', delay, rng).1 == results;
  }

  // ---------------------------------------------------------------------------
  // The older generation: CommandBuffer and CommandProcessingSystem

  /** One command of the unvalidated drain: a new game writes the Config
      with the fixed delay and builds the board; a flip calls TryFlip and
      ignores its result; any other command throws NotImplemented. */
  function Handle(c: Command, w: World, rng: Shuffle.Rng): (r: Run<()>)
    ensures c.Unsupported? ==> r == Threw(w, NotImplemented)
    ensures c.StartNewGame? ==>
      TryGetSingleton(r.world.configs) == Some(Config(c.columns, c.rows, EvalDelayTicks, c.seed))
    ensures c.StartNewGame? ==> (r.Done? <==>
      Board.CheckSize(Config(c.columns, c.rows, EvalDelayTicks, c.seed)).None? &&
      Board.TotalCells(Config(c.columns, c.rows, EvalDelayTicks, c.seed)) >= 0)
    ensures c.StartNewGame? && r.Done? ==> (r.world.cards ==
      Board.DealCards(Config(c.columns, c.rows, EvalDelayTicks, c.seed), Board.TotalCells(Config(c.columns, c.rows, EvalDelayTicks, c.seed)), rng))
    ensures c.StartNewGame? && r.Done? ==> HasState(r.world)
    ensures c.StartNewGame? && r.Done? ==> (State(r.world) ==
      Board.FreshState(w, Board.TotalCells(Config(c.columns, c.rows, EvalDelayTicks, c.seed))))
    ensures c.StartNewGame? ==> r.world.pending == w.pending
    ensures c.FlipCardAt? ==> r.world == Flip.TryFlip(w, Pos(c.x, c.y)).world
    ensures c.FlipCardAt? ==> r.Threw? == Flip.TryFlip(w, Pos(c.x, c.y)).Threw?
  {
    match c
    case StartNewGame(cols, rows, seed) =>
      var config := Config(cols, rows, EvalDelayTicks, seed);
      var w1 := w.(configs := SetOrCreateSingleton(w.configs, config));
      Board.BuildBoard(w1, config, rng)
    case FlipCardAt(x, y) =>
      (match Flip.TryFlip(w, Pos(x, y))
       case Threw(w1, e) => Threw(w1, e)
       case Done(w1, _) => Done(w1, ()))
    case Unsupported => Threw(w, NotImplemented)
  }

  /** The end of an unvalidated drain: the world, the commands still queued,
      and the exception that escaped, if any. */
  datatype Drained = Drained(world: World, rest: seq<Command>, error: Option<Error>)

  /** CommandProcessingSystem.Update: handle commands in FIFO order until the
      buffer is empty; the first exception escapes the loop and every command
      queued after the failing one stays queued. */
  function ProcessBuffer(buffer: seq<Command>, w: World, rng: Shuffle.Rng): (r: Drained)
    ensures r.error.None? ==> r.rest == []
    ensures r.error.Some? ==> |r.rest| < |buffer| && r.rest == buffer[|buffer| - |r.rest|..]
    decreases |buffer|
  {
    if |buffer| == 0 then Drained(w, [], None)
    else
      match Handle(buffer[0], w, rng)
      case Threw(w1, e) => Drained(w1, buffer[1..], Some(e))
      case Done(w1, _) => ProcessBuffer(buffer[1..], w1, rng)
  }

  /** No validation: an odd board throws ArgumentException out of the loop,
      after the Config was written, and the commands behind it stay queued. */
  lemma OddBoardEscapes(c: Command, rest: seq<Command>, w: World, rng: Shuffle.Rng)
    requires c.StartNewGame? && c.columns > 0 && c.rows > 0
    requires c.columns * c.rows <= IntMax && (c.columns * c.rows) % 2 == 1
    ensures ProcessBuffer([c] + rest, w, rng).error == Some(Argument)
    ensures ProcessBuffer([c] + rest, w, rng).rest == rest
    ensures ProcessBuffer([c] + rest, w, rng).world.cards == w.cards
    ensures TryGetSingleton(ProcessBuffer([c] + rest, w, rng).world.configs) ==
      Some(Config(c.columns, c.rows, EvalDelayTicks, c.seed))
  {
    var config := Config(c.columns, c.rows, EvalDelayTicks, c.seed);
    var w1 := w.(configs := SetOrCreateSingleton(w.configs, config));
    assert Board.TotalCells(config) == c.columns * c.rows;
    assert Board.CheckSize(config) == Some(Argument);
    assert Handle(c, w, rng) == Threw(w1, Argument);
    assert ([c] + rest)[0] == c && ([c] + rest)[1..] == rest;
    assert ProcessBuffer([c] + rest, w, rng) == Drained(w1, rest, Some(Argument));
  }

  /** A board the newer intake rejects as too large is still built by the
      older drain. */
  lemma OversizeBoardBuiltUnvalidated(w: World, seed: int, rng: Shuffle.Rng)
    ensures !Validate(StartNewGame(12, 2, seed))
    ensures ProcessBuffer([StartNewGame(12, 2, seed)], w, rng).error.None?
  {
    var c := StartNewGame(12, 2, seed);
    assert Board.TotalCells(Config(12, 2, EvalDelayTicks, seed)) == 24;
    assert [c][1..] == [];
  }
}
