/** The front-end adapters: the snapshot adapter that flags changed cards
    and remembers the last version it handed out, the version latch that
    tells a front end whether to redraw, and the won-edge detector that
    raises Won once when the game becomes won. They observe the snapshot
    the core exposes; they never change the game. */
module Adapters {
  import opened Common
  import opened Ecs
  import Shuffle
  import Core
  import Commands
  import RenderSystem

  // ---------------------------------------------------------------------------
  // GameAdapter

  /** The snapshot adapter: the facade it forwards to and the version of the
      last snapshot it handed out, kept in a `uint` field (0 before the first). */
  datatype GameAdapter = GameAdapter(game: Core.Game, lastProcessed: nat)

  const NewGameAdapter: GameAdapter := GameAdapter(Core.NewGame, 0)

  /** HasSnapshotChanged: the exposed snapshot's version differs from the
      last one handed out. The `int` version and the `uint` field are both
      widened to `long` for the comparison, so their values are compared:
      a negative version is never settled, and a stored conversion settles
      exactly the non-negative versions. */
  function HasSnapshotChanged(a: GameAdapter): (changed: bool)
    ensures Core.Snapshot(a.game).version < 0 ==> changed
    ensures a.lastProcessed == ToUint32(Core.Snapshot(a.game).version) && Core.Snapshot(a.game).version <= IntMax ==>
      (changed <==> Core.Snapshot(a.game).version < 0)
  {
    Core.Snapshot(a.game).version != a.lastProcessed
  }

  /** The per-card step of GetGameSnapshot: a card whose StateVersion is
      above the last handed-out version is flagged; a flag is never cleared. */
  function FlagCard(c: RenderSystem.CardSnapshot, last: int): (r: RenderSystem.CardSnapshot)
    ensures r.hasChanged <==> c.hasChanged || c.stateVersion > last
    ensures r.(hasChanged := c.hasChanged) == c
  {
    if c.stateVersion > last then c.(hasChanged := true) else c
  }

  /** GetGameSnapshot. The card snapshots are shared objects, so the flags
      land on the snapshot the projector keeps cached; the adapter then
      stores the snapshot's version in its `uint` field and returns it. */
  function GetGameSnapshot(a: GameAdapter): (r: (GameAdapter, RenderSystem.GameSnapshot))
    ensures var s := Core.Snapshot(a.game);
      r.1 == Core.Snapshot(r.0.game) && r.0.lastProcessed == ToUint32(s.version) &&
      r.1.(cards := s.cards) == s && |r.1.cards| == |s.cards|
    ensures var s := Core.Snapshot(a.game);
      forall k :: 0 <= k < |s.cards| ==>
        (r.1.cards[k].hasChanged <==> s.cards[k].hasChanged || s.cards[k].stateVersion > a.lastProcessed)
    ensures var s := Core.Snapshot(a.game);
      forall k :: 0 <= k < |s.cards| ==> r.1.cards[k].(hasChanged := s.cards[k].hasChanged) == s.cards[k]
    ensures r.0.game.world == a.game.world && r.0.game.buffer == a.game.buffer && r.0.game.events == a.game.events
    ensures r.0.game.renderer.lastVersion == a.game.renderer.lastVersion
  {
    var s := Core.Snapshot(a.game);
    var flagged := seq(|s.cards|, k requires 0 <= k < |s.cards| => FlagCard(s.cards[k], a.lastProcessed));
    var s' := s.(cards := flagged);
    var game := a.game.(renderer := a.game.renderer.(snapshot := s'));
    (GameAdapter(game, ToUint32(s.version)), s')
  }

  /** Handing out a snapshot built at a version in `int` range settles
      HasSnapshotChanged until the next build. The -1 of the snapshot that
      exists before the first update is stored as uint.MaxValue, so after
      handing that one out a change is still reported. */
  lemma GetSettlesChanged(a: GameAdapter)
    ensures var v := Core.Snapshot(a.game).version;
      0 <= v <= IntMax ==> !HasSnapshotChanged(GetGameSnapshot(a).0)
    ensures var v := Core.Snapshot(a.game).version;
      v < 0 ==> HasSnapshotChanged(GetGameSnapshot(a).0)
  {
  }

  /** A snapshot asked for before the first update is the initial one at
      version -1: the adapter stores uint.MaxValue and keeps reporting a change. */
  lemma EarlySnapshotWraps()
    ensures var (a, s) := GetGameSnapshot(NewGameAdapter);
      s == RenderSystem.EmptySnapshot && a.lastProcessed == UintModulus - 1 && HasSnapshotChanged(a)
  {
  }

  /** The projector never sets a card's StateVersion, so on a snapshot it
      built no card is ever flagged: no `uint` is above the stored one, even
      the uint.MaxValue an early call leaves. Every flag stays as it was. */
  lemma NoCardFlagged(a: GameAdapter)
    requires forall k :: 0 <= k < |Core.Snapshot(a.game).cards| ==> Core.Snapshot(a.game).cards[k].stateVersion == 0
    ensures GetGameSnapshot(a).1 == Core.Snapshot(a.game)
  {
    var s := Core.Snapshot(a.game);
    var r := GetGameSnapshot(a).1;
    assert r.cards == s.cards;
  }

  /** Asking twice without an update in between flags nothing new the second
      time, as long as no card claims a version above the snapshot's own. */
  lemma SecondCallFlagsNothing(a: GameAdapter)
    requires Core.Snapshot(a.game).version <= IntMax
    requires var s := Core.Snapshot(a.game);
      forall k :: 0 <= k < |s.cards| ==> s.cards[k].stateVersion <= s.version
    ensures var (a1, s1) := GetGameSnapshot(a);
      GetGameSnapshot(a1).1 == s1 && GetGameSnapshot(a1).0 == a1
  {
    var (a1, s1) := GetGameSnapshot(a);
    var (a2, s2) := GetGameSnapshot(a1);
    assert Core.Snapshot(a1.game) == s1;
    assert s2.cards == s1.cards;
    assert a2.game.renderer == a1.game.renderer;
  }

  /** StartNewGame forwards to the facade: the command is only queued, so
      the change indicator is not affected until the next update. */
  function StartNewGame(a: GameAdapter, columns: int, rows: int, seed: int): (r: GameAdapter)
    ensures r.lastProcessed == a.lastProcessed && r.game.world == a.game.world
    ensures HasSnapshotChanged(r) == HasSnapshotChanged(a)
    ensures r.game.buffer == a.game.buffer + [Commands.StartNewGame(columns, rows, seed)]
  {
    a.(game := Core.StartNewGame(a.game, columns, rows, seed))
  }

  /** FlipCardAt forwards to the facade, with the same effect. */
  function FlipCardAt(a: GameAdapter, x: int, y: int): (r: GameAdapter)
    ensures r.lastProcessed == a.lastProcessed && r.game.world == a.game.world
    ensures HasSnapshotChanged(r) == HasSnapshotChanged(a)
    ensures r.game.buffer == a.game.buffer + [Commands.FlipCardAt(x, y)]
  {
    a.(game := Core.FlipCardAt(a.game, x, y))
  }

  /** Update forwards to the facade's update and leaves the adapter's own
      version alone: after a clean update the adapter reports a change
      exactly when StateVersion differs from the version last handed out. */
  method Update(a: GameAdapter, rng: Shuffle.Rng) returns (r: GameAdapter, error: Option<Error>)
    ensures r.lastProcessed == a.lastProcessed
    ensures error == Core.Tick(a.game, rng).error
    ensures RenderSystem.Coherent(a.game.renderer) ==> RenderSystem.Coherent(r.game.renderer)
    ensures RenderSystem.Coherent(a.game.renderer) && error.None? ==>
      HasState(r.game.world) &&
      (HasSnapshotChanged(r) <==> State(r.game.world).stateVersion != a.lastProcessed)
  {
    var game;
    game, error := Core.Update(a.game, rng);
    r := a.(game := game);
  }

  // ---------------------------------------------------------------------------
  // The redraw latch of the render-model adapters

  /** HasRenderModelChanged: whether the observed version differs from the
      last one seen; the observed version is then remembered, so each change
      is reported once. The latch starts at 0. */
  function HasRenderModelChanged(last: int, version: int): (r: (bool, int))
    ensures r.1 == version
    ensures r.0 <==> version != last
  {
    (version != last, version)
  }

  const InitialLatch: int := 0

  /** Asked twice about the same version, the latch reports a change at most
      the first time. */
  lemma LatchReportsOnce(last: int, version: int)
    ensures !HasRenderModelChanged(HasRenderModelChanged(last, version).1, version).0
  {
  }

  /** The latch starts at 0, which is also the version a first board gets
      when no GameState existed before: that first build is not reported. */
  lemma FirstBoardNotReported(columns: int, rows: int, seed: int, rng: Shuffle.Rng)
    requires 0 < columns && 0 < rows && 0 < columns * rows <= IntMax && (columns * rows) % 2 == 0
    ensures var t := Core.Tick(Core.StartNewGame(Core.NewGame, columns, rows, seed), rng);
      t.error.None? && Core.Snapshot(t.game).version == 0 &&
      !HasRenderModelChanged(InitialLatch, Core.Snapshot(t.game).version).0
  {
    Core.NewGameShownNextTick(Core.NewGame, columns, rows, seed, rng);
    Core.NewGameDrain(EmptyWorld, columns, rows, seed, rng);
  }

  // ---------------------------------------------------------------------------
  // The won-edge detector

  /** What Won carries: Moves and the number of cards on the board. */
  datatype WinInfo = WinInfo(moves: int, cards: int)

  /** One Update of the detector: Won fires when the observed snapshot shows
      the game won and the previous one did not; the flag then follows the
      snapshot. */
  function WonStep(wasWon: bool, s: RenderSystem.GameSnapshot): (r: (Option<WinInfo>, bool))
    ensures r.1 == s.isWon
    ensures r.0.Some? <==> !wasWon && s.isWon
    ensures r.0.Some? ==> r.0.value == WinInfo(s.moves, |s.cards|)
  {
    (if !wasWon && s.isWon then Some(WinInfo(s.moves, |s.cards|)) else None, s.isWon)
  }

  /** The Won events over a run of observed snapshots, in order. */
  function WonEvents(wasWon: bool, ss: seq<RenderSystem.GameSnapshot>): (es: seq<WinInfo>)
    decreases |ss|
  {
    if |ss| == 0 then []
    else
      var (e, now) := WonStep(wasWon, ss[0]);
      (if e.Some? then [e.value] else []) + WonEvents(now, ss[1..])
  }

  /** The indices where the observed snapshots turn from not won to won. */
  predicate RisesAt(wasWon: bool, ss: seq<RenderSystem.GameSnapshot>, i: int)
    requires 0 <= i < |ss|
  {
    ss[i].isWon && !(if i == 0 then wasWon else ss[i - 1].isWon)
  }

  /** No event without a rise: when the game never turns won, Won never fires. */
  lemma {:induction false} NoRiseNoWon(wasWon: bool, ss: seq<RenderSystem.GameSnapshot>)
    requires forall i :: 0 <= i < |ss| ==> !RisesAt(wasWon, ss, i)
    ensures WonEvents(wasWon, ss) == []
    decreases |ss|
  {
    if |ss| > 0 {
      assert !RisesAt(wasWon, ss, 0);
      var now := ss[0].isWon;
      forall i | 0 <= i < |ss[1..]|
        ensures !RisesAt(now, ss[1..], i)
      {
        assert !RisesAt(wasWon, ss, i + 1);
      }
      NoRiseNoWon(now, ss[1..]);
    }
  }

  /** One won stretch, one event: while every observed snapshot stays won,
      Won fires exactly once if the game was not won before, and never if it
      already was, carrying the moves and card count of the first won snapshot. */
  lemma {:induction false} WonOncePerStretch(wasWon: bool, ss: seq<RenderSystem.GameSnapshot>)
    requires |ss| > 0
    requires forall i :: 0 <= i < |ss| ==> ss[i].isWon
    ensures WonEvents(wasWon, ss) == if wasWon then [] else [WinInfo(ss[0].moves, |ss[0].cards|)]
  {
    forall i | 0 <= i < |ss[1..]|
      ensures !RisesAt(true, ss[1..], i)
    {
      assert ss[1..][i].isWon;
      if i > 0 {
        assert ss[1..][i - 1].isWon;
      }
    }
    NoRiseNoWon(true, ss[1..]);
  }

  /** The events of a run split at any point: the second part starts from
      the won flag the first part left behind. */
  lemma {:induction false} WonEventsAppend(wasWon: bool, ss: seq<RenderSystem.GameSnapshot>, tail: seq<RenderSystem.GameSnapshot>)
    requires |ss| > 0
    ensures WonEvents(wasWon, ss + tail) == WonEvents(wasWon, ss) + WonEvents(ss[|ss| - 1].isWon, tail)
    decreases |ss|
  {
    var (e, now) := WonStep(wasWon, ss[0]);
    var head := if e.Some? then [e.value] else [];
    assert (ss + tail)[0] == ss[0];
    assert WonEvents(wasWon, ss + tail) == head + WonEvents(now, (ss + tail)[1..]);
    assert WonEvents(wasWon, ss) == head + WonEvents(now, ss[1..]);
    if |ss| == 1 {
      assert (ss + tail)[1..] == tail;
      assert WonEvents(now, ss[1..]) == [];
    } else {
      assert (ss + tail)[1..] == ss[1..] + tail;
      WonEventsAppend(now, ss[1..], tail);
      assert ss[1..][|ss[1..]| - 1] == ss[|ss| - 1];
    }
  }

  /** The flag follows IsWon, so after a stretch that is not won (a new game
      after a win) the next won stretch raises Won again: two wins, two events. */
  lemma WonFiresAgain(won1: seq<RenderSystem.GameSnapshot>, lost: seq<RenderSystem.GameSnapshot>, won2: seq<RenderSystem.GameSnapshot>)
    requires |won1| > 0 && |lost| > 0 && |won2| > 0
    requires forall i :: 0 <= i < |won1| ==> won1[i].isWon
    requires forall i :: 0 <= i < |lost| ==> !lost[i].isWon
    requires forall i :: 0 <= i < |won2| ==> won2[i].isWon
    ensures WonEvents(false, won1 + lost + won2) ==
      [WinInfo(won1[0].moves, |won1[0].cards|), WinInfo(won2[0].moves, |won2[0].cards|)]
  {
    WonEventsAppend(false, won1 + lost, won2);
    WonEventsAppend(false, won1, lost);
    assert (won1 + lost)[|won1 + lost| - 1] == lost[|lost| - 1];
    WonOncePerStretch(false, won1);
    NoRiseNoWon(won1[|won1| - 1].isWon, lost);
    WonOncePerStretch(false, won2);
  }
}
