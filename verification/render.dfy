/** The snapshot projector: when StateVersion has moved since the last
    rebuild, it projects every card with a grid position, sorts the
    projections by row and then column, and copies the board and game
    counters into a new GameSnapshot. */
module RenderSystem {
  import opened Common
  import opened Ecs

  /** One card as the front end sees it. `stateVersion` is never set by the
      projector and keeps its default 0; `hasChanged` is the adapter's flag. */
  datatype CardSnapshot = CardSnapshot(
    id: int,
    x: int,
    y: int,
    faceUp: bool,
    matched: bool,
    pairKey: Option<int>,
    stateVersion: nat,
    hasChanged: bool)

  datatype GameSnapshot = GameSnapshot(
    cards: seq<CardSnapshot>,
    rows: int,
    columns: int,
    totalCards: int,
    moves: int,
    matchedCards: int,
    isLocked: bool,
    isWon: bool,
    version: int)

  /** The system's own state: the version of the last rebuild and its snapshot. */
  datatype Renderer = Renderer(lastVersion: int, snapshot: GameSnapshot)

  /** The cached snapshot carries the version the cache remembers. */
  predicate Coherent(rd: Renderer) {
    rd.snapshot.version == rd.lastVersion
  }

  const EmptySnapshot: GameSnapshot := GameSnapshot([], 0, 0, 0, 0, 0, false, false, -1)

  /** Before the first update: no version seen, an empty snapshot at version -1. */
  const InitialRenderer: Renderer := Renderer(-1, EmptySnapshot)

  /** A card the Cards query (CardId, GridPosition) visits. */
  predicate Placed(c: Card) {
    c.pos.Some?
  }

  /** Face-up policy: a card is shown face up when Revealed or Matched, and
      only then is its PairKey read, which throws when the card has none. */
  function Project(c: Card): (r: Result<CardSnapshot>)
    requires Placed(c)
    ensures r.Err? <==> (c.revealed || c.matched) && c.pairKey.None?
    ensures r.Err? ==> r.error == MissingComponent
    ensures r.Ok? ==> r.value.faceUp == (c.revealed || c.matched) && r.value.matched == c.matched
    ensures r.Ok? ==> (r.value.pairKey.Some? <==> r.value.faceUp)
    ensures r.Ok? && r.value.faceUp ==> r.value.pairKey == c.pairKey
    ensures r.Ok? ==> r.value.id == c.cardId && r.value.x == c.pos.value.x && r.value.y == c.pos.value.y
    ensures r.Ok? ==> r.value.stateVersion == 0 && !r.value.hasChanged
  {
    var faceUp := c.revealed || c.matched;
    if faceUp && c.pairKey.None? then Err(MissingComponent)
    else
      var key := if faceUp then c.pairKey else None;
      Ok(CardSnapshot(c.cardId, c.pos.value.x, c.pos.value.y, faceUp, c.matched, key, 0, false))
  }

  /** The query pass over the cards, in iteration order; the first throw ends it. */
  function ProjectAll(cards: seq<Card>): (r: Result<seq<CardSnapshot>>)
    ensures r.Err? <==> exists i :: 0 <= i < |cards| && Placed(cards[i]) && Project(cards[i]).Err?
    ensures r.Ok? ==> forall k :: 0 <= k < |r.value| ==> (r.value[k].pairKey.Some? <==> r.value[k].faceUp)
  {
    if |cards| == 0 then Ok([])
    else
      var n := |cards| - 1;
      match ProjectAll(cards[..n])
      case Err(e) => Err(e)
      case Ok(front) =>
        if !Placed(cards[n]) then Ok(front)
        else
          match Project(cards[n])
          case Err(e) => Err(e)
          case Ok(s) => Ok(front + [s])
  }

  /** The placed cards, in iteration order. */
  function PlacedCards(cards: seq<Card>): (ps: seq<Card>)
    ensures forall k :: 0 <= k < |ps| ==> Placed(ps[k])
  {
    if |cards| == 0 then []
    else
      var n := |cards| - 1;
      PlacedCards(cards[..n]) + (if Placed(cards[n]) then [cards[n]] else [])
  }

  /** A successful pass yields exactly one snapshot per placed card, in order. */
  lemma {:induction false} ProjectAllOnePerCard(cards: seq<Card>)
    requires ProjectAll(cards).Ok?
    ensures |ProjectAll(cards).value| == |PlacedCards(cards)|
    ensures forall k :: 0 <= k < |PlacedCards(cards)| ==>
      Project(PlacedCards(cards)[k]) == Ok(ProjectAll(cards).value[k])
  {
    if |cards| > 0 {
      var n := |cards| - 1;
      ProjectAllOnePerCard(cards[..n]);
    }
  }

  // ---------------------------------------------------------------------------
  // Ordering by cell

  /** The comparison of the Sort call: by Y, then by X. */
  predicate CellLe(a: CardSnapshot, b: CardSnapshot) {
    a.y < b.y || (a.y == b.y && a.x <= b.x)
  }

  predicate SortedByCell(s: seq<CardSnapshot>) {
    forall i, j :: 0 <= i < j < |s| ==> CellLe(s[i], s[j])
  }

  function InsertByCell(c: CardSnapshot, s: seq<CardSnapshot>): (r: seq<CardSnapshot>)
    ensures |r| == |s| + 1
    ensures multiset(r) == multiset(s) + multiset{c}
    ensures r[0] == c || (|s| > 0 && r[0] == s[0])
  {
    if |s| == 0 then [c]
    else if CellLe(c, s[0]) then [c] + s
    else
      assert s == [s[0]] + s[1..];
      [s[0]] + InsertByCell(c, s[1..])
  }

  lemma {:induction false} InsertByCellSorted(c: CardSnapshot, s: seq<CardSnapshot>)
    requires SortedByCell(s)
    ensures SortedByCell(InsertByCell(c, s))
  {
    if |s| > 0 && !CellLe(c, s[0]) {
      InsertByCellSorted(c, s[1..]);
    }
  }

  /** The sort of the projections, as an insertion sort. */
  function SortByCell(s: seq<CardSnapshot>): (r: seq<CardSnapshot>)
    ensures |r| == |s| && multiset(r) == multiset(s)
  {
    if |s| == 0 then []
    else
      var n := |s| - 1;
      assert s == s[..n] + [s[n]];
      InsertByCell(s[n], SortByCell(s[..n]))
  }

  lemma {:induction false} SortByCellSorted(s: seq<CardSnapshot>)
    ensures SortedByCell(SortByCell(s))
  {
    if |s| > 0 {
      var n := |s| - 1;
      SortByCellSorted(s[..n]);
      InsertByCellSorted(s[n], SortByCell(s[..n]));
    }
  }

  // ---------------------------------------------------------------------------
  // The system

  /** Update. The GameState lookup throws when there is none; an unchanged
      StateVersion keeps the cached snapshot. Otherwise the card list is
      allocated with TotalCards as its capacity (negative throws), the cards
      are projected and sorted, the Config lookup throws when there is none,
      and the new snapshot copies Config and GameState. The world is only read. */
  function Update(w: World, rd: Renderer): (r: Result<Renderer>)
    ensures !HasState(w) ==> r == Err(InvalidOperation)
    ensures HasState(w) && rd.lastVersion == State(w).stateVersion ==> r == Ok(rd)
    ensures r.Ok? ==> HasState(w) && r.value.lastVersion == State(w).stateVersion
    ensures r.Ok? ==> r.value.snapshot.version == r.value.lastVersion || r == Ok(rd)
    ensures r.Ok? && r != Ok(rd) ==> |w.configs| > 0 && ProjectAll(w.cards).Ok?
    ensures r.Ok? && r != Ok(rd) ==> var s := r.value.snapshot; var g := State(w);
      s.rows == w.configs[0].rows && s.columns == w.configs[0].cols &&
      s.totalCards == g.totalCards && s.moves == g.moves && s.matchedCards == g.matchedCount &&
      s.isLocked == g.isLocked && s.isWon == g.isWon
    ensures r.Ok? && r != Ok(rd) ==> SortedByCell(r.value.snapshot.cards)
    ensures r.Ok? && r != Ok(rd) ==> multiset(r.value.snapshot.cards) == multiset(ProjectAll(w.cards).value)
  {
    match GetSingleton(w.states)
    case Err(e) => Err(e)
    case Ok(g) =>
      if rd.lastVersion == g.stateVersion then Ok(rd)
      else if g.totalCards < 0 then Err(ArgumentOutOfRange)
      else
        match ProjectAll(w.cards)
        case Err(e) => Err(e)
        case Ok(cs) =>
          var sorted := SortByCell(cs);
          SortByCellSorted(cs);
          match GetSingleton(w.configs)
          case Err(e) => Err(e)
          case Ok(config) =>
            Ok(Renderer(g.stateVersion, GameSnapshot(sorted, config.rows, config.cols, g.totalCards,
              g.moves, g.matchedCount, g.isLocked, g.isWon, g.stateVersion)))
  }

  /** A rebuild caches the version, so an immediate second update is a no-op. */
  lemma UpdateIdempotent(w: World, rd: Renderer)
    requires Update(w, rd).Ok?
    ensures Update(w, Update(w, rd).value) == Update(w, rd)
  {
  }

  /** The first update always rebuilds: StateVersion is never -1. */
  lemma FirstUpdateRebuilds(w: World)
    requires Update(w, InitialRenderer).Ok?
    ensures Update(w, InitialRenderer).value.snapshot.version == State(w).stateVersion
    ensures Update(w, InitialRenderer).value.snapshot != EmptySnapshot
  {
  }
}
