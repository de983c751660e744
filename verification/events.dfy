/** Game events: the GameWon message the win check sends, the event manager
    that turns each one into a deferred IGameEvents callback, and the older
    event-drain system that copies won-event entities into a sink. */
module Events {

  /** The GameWon message: moves, total cards and the post-bump StateVersion. */
  datatype GameWon = GameWon(moves: int, totalCards: int, stateVersion: int)

  /** One deferred call of `IGameEvents.OnGameWon(moves, totalCards)`. */
  datatype Callback = OnGameWonCall(moves: int, totalCards: int)

  /** The event manager: its queue of deferred callbacks, and every callback
      the IGameEvents receiver has been given so far. */
  datatype EventManager = EventManager(queue: seq<Callback>, delivered: seq<Callback>)

  const NoEvents: EventManager := EventManager([], [])

  /** OnGameWon, the bus hook: it only queues a callback carrying Moves and
      TotalCards. Nothing reaches the receiver, and the StateVersion is not
      forwarded, so two messages that differ only in it queue the same call. */
  function OnGameWon(m: EventManager, e: GameWon): (r: EventManager)
    ensures r.delivered == m.delivered
    ensures |r.queue| == |m.queue| + 1 && r.queue[..|m.queue|] == m.queue
    ensures r.queue[|m.queue|].moves == e.moves && r.queue[|m.queue|].totalCards == e.totalCards
  {
    m.(queue := m.queue + [OnGameWonCall(e.moves, e.totalCards)])
  }

  /** The StateVersion of a GameWon message never reaches the receiver. */
  lemma VersionNotForwarded(m: EventManager, e: GameWon, v: int)
    ensures OnGameWon(m, e) == OnGameWon(m, e.(stateVersion := v))
  {
  }

  /** The hook applied to each sent message in turn. */
  function SendAll(m: EventManager, es: seq<GameWon>): (r: EventManager)
    ensures r.delivered == m.delivered
    ensures |r.queue| == |m.queue| + |es| && r.queue[..|m.queue|] == m.queue
    ensures forall k :: 0 <= k < |es| ==>
      r.queue[|m.queue| + k] == OnGameWonCall(es[k].moves, es[k].totalCards)
    decreases |es|
  {
    if |es| == 0 then m else SendAll(OnGameWon(m, es[0]), es[1..])
  }

  /** Dequeue: take callbacks off the queue until it is empty, invoking each,
      so the receiver gets them all, in the order they were queued. */
  method Dequeue(m: EventManager) returns (r: EventManager)
    ensures r.queue == []
    ensures r.delivered == m.delivered + m.queue
  {
    r := m;
    while |r.queue| > 0
      invariant r.delivered + r.queue == m.delivered + m.queue
      decreases |r.queue|
    {
      var action := r.queue[0];
      assert r.queue == [action] + r.queue[1..];
      r := EventManager(r.queue[1..], r.delivered + [action]);
    }
  }

  // ---------------------------------------------------------------------------
  // The older event drain

  /** An entity carrying EventWon(moves, totalCards) and EventMetadata(stateVersion). */
  datatype WonEntity = WonEntity(moves: int, totalCards: int, stateVersion: int)

  /** A WonEvent in the drain's sink. */
  datatype WonEvent = WonEvent(moves: int, totalCards: int, stateVersion: int)

  function ToEvent(e: WonEntity): WonEvent {
    WonEvent(e.moves, e.totalCards, e.stateVersion)
  }

  /** EventDrainSystem.Update: every won-event entity, in query order, adds one
      event to the sink and is destroyed. */
  method DrainUpdate(entities: seq<WonEntity>, sink: seq<WonEvent>) returns (left: seq<WonEntity>, sink': seq<WonEvent>)
    ensures left == []
    ensures |sink'| == |sink| + |entities| && sink'[..|sink|] == sink
    ensures forall k :: 0 <= k < |entities| ==> sink'[|sink| + k] == ToEvent(entities[k])
  {
    left := entities;
    sink' := sink;
    var i := 0;
    while i < |entities|
      invariant 0 <= i <= |entities|
      invariant left == entities[i..]
      invariant |sink'| == |sink| + i && sink'[..|sink|] == sink
      invariant forall k :: 0 <= k < i ==> sink'[|sink| + k] == ToEvent(entities[k])
    {
      sink' := sink' + [ToEvent(entities[i])];
      left := left[1..];
      i := i + 1;
    }
  }

  /** PopEvents: hands back the sink's contents in insertion order and clears it. */
  function PopEvents(sink: seq<WonEvent>): (r: (seq<WonEvent>, seq<WonEvent>))
    ensures r.1 == [] && r.0 == sink
  {
    (sink, [])
  }

  /** Two pops with no drain in between: the second returns nothing. */
  lemma PopTwice(sink: seq<WonEvent>)
    ensures PopEvents(PopEvents(sink).1).0 == []
  {
  }
}
