/** Board setup: validation of the board size, the paired deck, the seeded
    shuffle, row-major placement with sequential CardIds, and the GameState
    reset. */
module Board {
  import opened Common
  import opened Ecs
  import Shuffle

  /** The unshuffled deck of `pairs` pairs: pair key p at slots 2p and 2p+1. */
  function Deck(pairs: nat): (d: seq<int>)
    ensures |d| == 2 * pairs
  {
    if pairs == 0 then [] else Deck(pairs - 1) + [pairs - 1, pairs - 1]
  }

  lemma {:induction false} DeckLayout(pairs: nat)
    ensures forall i :: 0 <= i < 2 * pairs ==> Deck(pairs)[i] == i / 2
  {
    if pairs > 0 {
      DeckLayout(pairs - 1);
    }
  }

  /** Every pair key below `pairs` occurs exactly twice, and no other value occurs. */
  lemma {:induction false} DeckCounts(pairs: nat, k: int)
    ensures multiset(Deck(pairs))[k] == if 0 <= k < pairs then 2 else 0
  {
    if pairs > 0 {
      DeckCounts(pairs - 1, k);
      var prev := Deck(pairs - 1);
      assert Deck(pairs) == prev + [pairs - 1, pairs - 1];
      var tail := multiset{pairs - 1, pairs - 1};
      assert multiset(Deck(pairs)) == multiset(prev) + tail;
      assert tail[k] == if k == pairs - 1 then 2 else 0;
    }
  }

  /** The card created for deck slot `index`. */
  function NewCard(index: nat, key: int, cols: int): Card
    requires cols > 0
  {
    Card(index, Some(key), Some(Pos(index % cols, index / cols)), false, false, None)
  }

  /** The creation loop: slot i becomes CardId i at (i mod cols, i div cols). */
  function PlaceCards(keys: seq<int>, cols: int): (cards: seq<Card>)
    requires cols > 0
    ensures |cards| == |keys|
    ensures forall i :: 0 <= i < |keys| ==> cards[i] == NewCard(i, keys[i], cols)
  {
    seq(|keys|, i requires 0 <= i < |keys| => NewCard(i, keys[i], cols))
  }

  /** The pair keys present on `cards`, in order. */
  function KeysOf(cards: seq<Card>): seq<int>
  {
    if |cards| == 0 then []
    else KeysOf(cards[..|cards| - 1]) + (match cards[|cards| - 1].pairKey
      case Some(k) => [k]
      case None => [])
  }

  lemma {:induction false} KeysOfPlaced(keys: seq<int>, cols: int)
    requires cols > 0
    ensures KeysOf(PlaceCards(keys, cols)) == keys
  {
    if |keys| > 0 {
      var n := |keys| - 1;
      KeysOfPlaced(keys[..n], cols);
      assert PlaceCards(keys, cols)[..n] == PlaceCards(keys[..n], cols);
      assert keys == keys[..n] + [keys[n]];
    }
  }

  /** The number of cells the C# code computes: `Cols * Rows` as a 32-bit int. */
  function TotalCells(config: Config): int
  {
    Wrap32(config.cols * config.rows)
  }

  /** The cards of a new board: depend only on the configuration and the generator. */
  function DealCards(config: Config, total: nat, rng: Shuffle.Rng): (cards: seq<Card>)
    requires config.cols > 0
    ensures |cards| == 2 * (total / 2)
  {
    PlaceCards(Shuffle.Shuffled(Deck(total / 2), rng, config.seed), config.cols)
  }

  /** The GameState a new board starts from. The C# initializer names only
      FirstFlipped, IsLocked and Moves; TotalCards is set to the board size as
      the tests require, and StateVersion continues from the previous game so
      that a restart is a visible change (see README, Findings). */
  function FreshState(w: World, total: int): (g: GameState)
    ensures g.moves == 0 && !g.isLocked && g.firstFlipped.None? && !g.isWon
    ensures g.totalCards == total && g.matchedCount == 0
    ensures HasState(w) ==> g.stateVersion > State(w).stateVersion
  {
    GameState(0, false, None, false, total, 0, if HasState(w) then State(w).stateVersion + 1 else 0)
  }

  /** ResetGameState. */
  function ResetGameState(w: World, total: int): (r: World)
    ensures HasState(r) && State(r) == FreshState(w, total)
    ensures r.cards == w.cards && r.configs == w.configs && r.pending == w.pending
    ensures |r.states| == if HasState(w) then |w.states| else 1
  {
    w.(states := SetOrCreateSingleton(w.states, FreshState(w, total)))
  }

  /** ResetGameState exactly as the C# source writes it: every field not named
      in the initializer, TotalCards and StateVersion included, reverts to 0. */
  function ResetGameStateAsWritten(w: World): (r: World)
    ensures HasState(r) && State(r) == GameState(0, false, None, false, 0, 0, 0)
    ensures r.cards == w.cards && r.configs == w.configs && r.pending == w.pending
  {
    w.(states := SetOrCreateSingleton(w.states, GameState(0, false, None, false, 0, 0, 0)))
  }

  /** DestroyAnyExistingCards: removes every entity with a CardId and nothing else. */
  function DestroyAnyExistingCards(w: World): (r: World)
    ensures r.cards == [] && r.states == w.states && r.configs == w.configs && r.pending == w.pending
  {
    w.(cards := [])
  }

  /** The checks at the head of BuildBoard; None when the size is accepted. */
  function CheckSize(config: Config): (e: Option<Error>)
    ensures e == Some(ArgumentOutOfRange) <==> config.cols <= 0 || config.rows <= 0
    ensures e == Some(Argument) <==> config.cols > 0 && config.rows > 0 && TotalCells(config) % 2 != 0
    ensures e.None? ==> config.cols > 0 && config.rows > 0 && TotalCells(config) % 2 == 0
  {
    if config.cols <= 0 || config.rows <= 0 then Some(ArgumentOutOfRange)
    else if TotalCells(config) % 2 != 0 then Some(Argument)
    else None
  }

  /** CreateNewCards: destroy the old cards, then deal; a negative wrapped
      size makes the deck allocation throw after the old cards are gone. */
  function CreateNewCards(w: World, config: Config, total: int, rng: Shuffle.Rng): (r: Run<()>)
    requires config.cols > 0
    ensures total < 0 <==> r.Threw?
    ensures r.Threw? ==> r.world == DestroyAnyExistingCards(w) && r.error == Overflow
    ensures r.Done? ==> r.world == w.(cards := DealCards(config, total, rng))
  {
    var cleared := DestroyAnyExistingCards(w);
    if total < 0 then Threw(cleared, Overflow)
    else Done(cleared.(cards := DealCards(config, total, rng)), ())
  }

  /** BuildBoard with the corrected GameState reset. */
  function BuildBoard(w: World, config: Config, rng: Shuffle.Rng): (r: Run<()>)
    ensures CheckSize(config).Some? ==> r == Threw(w, CheckSize(config).value)
    ensures CheckSize(config).None? && TotalCells(config) < 0 ==>
      r == Threw(w.(cards := []), Overflow)
    ensures r.Done? <==> CheckSize(config).None? && TotalCells(config) >= 0
    ensures r.Done? ==> r.world.cards == DealCards(config, TotalCells(config), rng)
    ensures r.Done? ==> HasState(r.world) && State(r.world) == FreshState(w, TotalCells(config))
    ensures r.Done? ==> r.world.configs == w.configs && r.world.pending == w.pending
  {
    match CheckSize(config)
    case Some(e) => Threw(w, e)
    case None =>
      var total := TotalCells(config);
      match CreateNewCards(w, config, total, rng)
      case Threw(w1, e) => Threw(w1, e)
      case Done(w1, _) => Done(ResetGameState(w1, total), ())
  }

  /** BuildBoard as the C# source writes it, with its GameState reset. */
  function BuildBoardAsWritten(w: World, config: Config, rng: Shuffle.Rng): (r: Run<()>)
    ensures r.Done? <==> BuildBoard(w, config, rng).Done?
    ensures r.Done? ==> r.world.cards == BuildBoard(w, config, rng).world.cards
    ensures r.Done? ==> HasState(r.world) && State(r.world).totalCards == 0
    ensures r.Done? ==> State(r.world).stateVersion == 0
  {
    match CheckSize(config)
    case Some(e) => Threw(w, e)
    case None =>
      var total := TotalCells(config);
      match CreateNewCards(w, config, total, rng)
      case Threw(w1, e) => Threw(w1, e)
      case Done(w1, _) => Done(ResetGameStateAsWritten(w1), ())
  }

  // ---------------------------------------------------------------------------
  // Properties of a dealt board

  /** CardIds follow slot order; every card is face down, unmatched, unstamped
      and carries a pair key. */
  predicate FreshCards(cards: seq<Card>) {
    forall i :: 0 <= i < |cards| ==> FreshCardAt(cards, i)
  }

  predicate FreshCardAt(cards: seq<Card>, i: int)
    requires 0 <= i < |cards|
  {
    var c := cards[i];
    c.cardId == i && !c.revealed && !c.matched && c.lastChanged.None? && c.pairKey.Some?
  }

  /** Every card has a cell inside the cols x rows grid. */
  predicate InGrid(cards: seq<Card>, cols: int, rows: int) {
    forall i :: 0 <= i < |cards| ==> CellInGrid(cards[i], cols, rows)
  }

  predicate CellInGrid(c: Card, cols: int, rows: int) {
    c.pos.Some? && 0 <= c.pos.value.x < cols && 0 <= c.pos.value.y < rows
  }

  /** No two cards share a cell. */
  predicate DistinctCells(cards: seq<Card>) {
    forall i, j :: 0 <= i < |cards| && 0 <= j < |cards| && i != j ==> cards[i].pos != cards[j].pos
  }

  lemma DivBelowRows(i: int, cols: int, rows: int)
    requires cols > 0 && 0 <= i < cols * rows
    ensures 0 <= i / cols < rows
  {
  }

  /** Row-major cells of distinct slots differ. */
  lemma RowMajorInjective(i: int, j: int, cols: int)
    requires cols > 0 && 0 <= i && 0 <= j
    requires i % cols == j % cols && i / cols == j / cols
    ensures i == j
  {
    assert i == cols * (i / cols) + i % cols;
    assert j == cols * (j / cols) + j % cols;
  }

  /** The dealt cards carry CardIds 0..total-1 in slot order, each at its
      row-major cell, face down, unmatched and unstamped; for a board whose
      size fits in an int there are exactly cols*rows of them, every cell of
      the grid holds exactly one, and no cell outside the grid holds any. */
  lemma {:induction false} DealtBoardLayout(config: Config, rng: Shuffle.Rng)
    requires config.cols > 0 && config.rows > 0
    requires config.cols * config.rows <= IntMax
    requires (config.cols * config.rows) % 2 == 0
    ensures |DealCards(config, TotalCells(config), rng)| == config.cols * config.rows
    ensures FreshCards(DealCards(config, TotalCells(config), rng))
    ensures InGrid(DealCards(config, TotalCells(config), rng), config.cols, config.rows)
    ensures DistinctCells(DealCards(config, TotalCells(config), rng))
  {
    var cols, rows := config.cols, config.rows;
    var total := TotalCells(config);
    assert total == cols * rows;
    var cards := DealCards(config, total, rng);
    forall i | 0 <= i < |cards|
      ensures 0 <= i / cols < rows
    {
      DivBelowRows(i, cols, rows);
    }
    forall i, j | 0 <= i < |cards| && 0 <= j < |cards| && i != j
      ensures cards[i].pos != cards[j].pos
    {
      if cards[i].pos == cards[j].pos {
        RowMajorInjective(i, j, cols);
      }
    }
  }

  /** Each pair key below total/2 is on exactly two dealt cards; no other key occurs. */
  lemma DealtBoardPairs(config: Config, total: nat, rng: Shuffle.Rng, k: int)
    requires config.cols > 0
    ensures multiset(KeysOf(DealCards(config, total, rng)))[k] == if 0 <= k < total / 2 then 2 else 0
  {
    var shuffled := Shuffle.Shuffled(Deck(total / 2), rng, config.seed);
    KeysOfPlaced(shuffled, config.cols);
    Shuffle.ShuffledPermutes(Deck(total / 2), rng, config.seed);
    DeckCounts(total / 2, k);
  }
}
