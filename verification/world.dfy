/** The ECS world of the memory game and the store helpers every system uses:
    singleton lookup and set-or-create, first-match queries, the StateVersion
    bump and the per-card change stamp. */
module Ecs {
  import opened Common

  /** A card's cell on the board (the GridPosition component). */
  datatype Pos = Pos(x: int, y: int)

  /** One card entity. An entity handle is the card's index in `World.cards`;
      components a card may lack (PairKey, GridPosition, LastChangedStateVersion)
      are optional, the Revealed and Matched tags are flags. */
  datatype Card = Card(
    cardId: int,
    pairKey: Option<int>,
    pos: Option<Pos>,
    revealed: bool,
    matched: bool,
    lastChanged: Option<int>)

  /** The GameState singleton. */
  datatype GameState = GameState(
    moves: int,
    isLocked: bool,
    firstFlipped: Option<int>,
    isWon: bool,
    totalCards: int,
    matchedCount: int,
    stateVersion: nat)

  /** The Config singleton: board size, evaluation delay and shuffle seed. */
  datatype Config = Config(cols: int, rows: int, evalDelayUpdates: int, seed: int)

  /** The world. Each sequence lists its entities in query iteration order:
      `states` and `configs` hold every entity carrying that singleton type,
      `pending` the UpdatesLeft counter of every PendingEvaluation entity. */
  datatype World = World(
    cards: seq<Card>,
    states: seq<GameState>,
    configs: seq<Config>,
    pending: seq<int>)

  /** The outcome of a world-mutating operation: it completes with a value, or
      it throws after having made the changes that precede the throw. */
  datatype Run<+T> = Done(world: World, value: T) | Threw(world: World, error: Error)

  /** What a command handler reports. */
  datatype CommandResult = Success | Failed | Skipped | Deferred

  /** The default entity handle (`default(Entity)`), distinct from every card. */
  const NullEntity: int := -1

  const EmptyWorld: World := World([], [], [], [])

  predicate IsCard(w: World, e: int) {
    0 <= e < |w.cards|
  }

  predicate HasState(w: World) {
    |w.states| > 0
  }

  // ---------------------------------------------------------------------------
  // Queries

  /** TryGetFirst: the first entity of `s`, in iteration order, that satisfies
      the query `q`; None when nothing matches. */
  function TryGetFirst<T>(s: seq<T>, q: T -> bool): (r: Option<nat>)
    ensures r.None? <==> forall i :: 0 <= i < |s| ==> !q(s[i])
    ensures r.Some? ==> r.value < |s| && q(s[r.value])
    ensures r.Some? ==> forall i :: 0 <= i < r.value ==> !q(s[i])
  {
    if |s| == 0 then None
    else if q(s[0]) then Some(0)
    else match TryGetFirst(s[1..], q)
      case None => None
      case Some(i) => Some(i + 1)
  }

  // ---------------------------------------------------------------------------
  // Singletons

  /** TryGetSingleton: the first entity holding the component, if any. */
  function TryGetSingleton<T>(store: seq<T>): (r: Option<T>)
    ensures r.None? <==> |store| == 0
    ensures r.Some? ==> r.value == store[0]
  {
    match TryGetFirst(store, (_: T) => true)
    case None => None
    case Some(i) => Some(store[i])
  }

  /** GetSingletonRef: the singleton's value, or InvalidOperationException. */
  function GetSingleton<T>(store: seq<T>): (r: Result<T>)
    ensures r.Err? <==> |store| == 0
    ensures r.Err? ==> r.error == InvalidOperation
    ensures r.Ok? ==> r.value == store[0]
  {
    match TryGetSingleton(store)
    case None => Err(InvalidOperation)
    case Some(v) => Ok(v)
  }

  /** SetOrCreateSingleton: overwrite the first holder, or create one entity. */
  function SetOrCreateSingleton<T>(store: seq<T>, v: T): (r: seq<T>)
    ensures |store| > 0 ==> |r| == |store| && r[1..] == store[1..]
    ensures |store| == 0 ==> |r| == 1
    ensures TryGetSingleton(r) == Some(v)
  {
    if TryGetSingleton(store).Some? then store[0 := v] else [v]
  }

  /** The GameState singleton as read through GetSingletonRef. */
  function State(w: World): GameState
    requires HasState(w)
  {
    w.states[0]
  }

  /** A write through the GameState reference. */
  function WithState(w: World, g: GameState): (r: World)
    requires HasState(w)
    ensures HasState(r) && State(r) == g
    ensures r.cards == w.cards && r.configs == w.configs && r.pending == w.pending
  {
    w.(states := w.states[0 := g])
  }

  // ---------------------------------------------------------------------------
  // StateVersion

  /** The bump of `GameState.StateVersion`, for a world that has a GameState. */
  function Bump(w: World): (r: World)
    requires HasState(w)
    ensures HasState(r)
    ensures State(r).stateVersion == State(w).stateVersion + 1
    ensures State(r).(stateVersion := 0) == State(w).(stateVersion := 0)
    ensures r.cards == w.cards && r.configs == w.configs && r.pending == w.pending
  {
    WithState(w, State(w).(stateVersion := State(w).stateVersion + 1))
  }

  /** IncrementStateVersion: throws when no GameState exists. */
  function IncrementStateVersion(w: World): (r: Run<()>)
    ensures r.Threw? <==> !HasState(w)
    ensures r.Threw? ==> r.error == InvalidOperation && r.world == w
    ensures r.Done? ==> HasState(r.world)
    ensures r.Done? ==> State(r.world).stateVersion == State(w).stateVersion + 1
    ensures r.Done? ==> State(r.world).(stateVersion := 0) == State(w).(stateVersion := 0)
    ensures r.Done? ==> r.world.cards == w.cards && r.world.configs == w.configs
    ensures r.Done? ==> r.world.pending == w.pending
  {
    match GetSingleton(w.states)
    case Err(e) => Threw(w, e)
    case Ok(_) => Done(Bump(w), ())
  }

  /** Applies IncrementStateVersion `n` times to a world with a GameState. */
  function BumpN(w: World, n: nat): World
    requires HasState(w)
  {
    if n == 0 then w else Bump(BumpN(w, n - 1))
  }

  lemma {:induction false} BumpNStrictlyIncreases(w: World, n: nat)
    requires HasState(w)
    ensures HasState(BumpN(w, n))
    ensures State(BumpN(w, n)).stateVersion == State(w).stateVersion + n
    ensures State(BumpN(w, n)).(stateVersion := 0) == State(w).(stateVersion := 0)
    ensures BumpN(w, n).cards == w.cards
  {
    if n > 0 {
      BumpNStrictlyIncreases(w, n - 1);
    }
  }

  // ---------------------------------------------------------------------------
  // Change tracking

  /** Stamps card `e` with version `v` unless it carries Matched. */
  function StampOne(cards: seq<Card>, e: nat, v: int): seq<Card>
    requires e < |cards|
  {
    if cards[e].matched then cards else cards[e := cards[e].(lastChanged := Some(v))]
  }

  /** The loop of MarkChanged over the listed entities, in order. */
  function StampAll(cards: seq<Card>, es: seq<nat>, v: int): (r: seq<Card>)
    requires forall k :: 0 <= k < |es| ==> es[k] < |cards|
    ensures |r| == |cards|
    ensures forall i :: 0 <= i < |cards| && i in es && !cards[i].matched ==>
      r[i] == cards[i].(lastChanged := Some(v))
    ensures forall i :: 0 <= i < |cards| && (i !in es || cards[i].matched) ==> r[i] == cards[i]
    decreases |es|
  {
    if |es| == 0 then cards else StampAll(StampOne(cards, es[0], v), es[1..], v)
  }

  /** MarkChanged: every listed card that is not Matched gets the current
      StateVersion as its LastChangedStateVersion; GameState is only read. */
  function MarkChanged(w: World, es: seq<nat>): (r: Run<()>)
    requires forall k :: 0 <= k < |es| ==> es[k] < |w.cards|
    ensures r.Threw? <==> !HasState(w)
    ensures r.Threw? ==> r.error == InvalidOperation && r.world == w
    ensures r.Done? ==> r.world.states == w.states && r.world.configs == w.configs
    ensures r.Done? ==> r.world.pending == w.pending && |r.world.cards| == |w.cards|
    ensures r.Done? ==> forall i :: 0 <= i < |w.cards| && i in es && !w.cards[i].matched ==>
      r.world.cards[i] == w.cards[i].(lastChanged := Some(State(w).stateVersion))
    ensures r.Done? ==> forall i :: 0 <= i < |w.cards| && (i !in es || w.cards[i].matched) ==>
      r.world.cards[i] == w.cards[i]
  {
    match GetSingleton(w.states)
    case Err(e) => Threw(w, e)
    case Ok(g) => Done(w.(cards := StampAll(w.cards, es, g.stateVersion)), ())
  }

  /** MarkChanged on a world known to have a GameState. */
  function Mark(w: World, es: seq<nat>): (r: World)
    requires HasState(w)
    requires forall k :: 0 <= k < |es| ==> es[k] < |w.cards|
    ensures r == MarkChanged(w, es).world
    ensures r.states == w.states && r.configs == w.configs && r.pending == w.pending
    ensures |r.cards| == |w.cards|
  {
    w.(cards := StampAll(w.cards, es, State(w).stateVersion))
  }
}
