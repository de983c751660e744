# Stranne.EcsMemory core, modelled in Dafny

Stranne.EcsMemory is a memory (pairs) game built on an entity-component-system
world. It is deterministic: a board is dealt from a seed. The front end
queues commands: start a new game of `columns x rows` cards, or flip the
card at a cell. On every update the core runs four systems in a fixed
order:

1. the command drain, which deals boards and flips cards;
2. the delayed evaluation (MatchedSystem), which counts a pending
   evaluation down and then settles the two revealed cards as a match or a
   mismatch;
3. the win check, which sends GameWon once every card is matched;
4. the snapshot projector (RenderSystem), which rebuilds the immutable
   GameSnapshot whenever `GameState.StateVersion` has moved.

After the systems, the queued GameWon callbacks are handed to the receiver.
Adapters in front of the core watch the snapshot version to decide what
changed and whether the game has just been won.

The model has one module per part of the program:

- `Common`: option and result types, the exception kinds, 32-bit `int`
  wrap-around and the `int` to `uint` conversion.
- `Ecs`: the world, and the query and singleton helpers every system uses
  (WorldQueryExtensions, WorldSingletonExtensions, WorldStateExtensions,
  WorldChangeTrackingExtensions).
- `Shuffle`: the in-place Fisher–Yates shuffle under a seeded generator.
- `Board`: BoardSetupUtil — deck, shuffle, card creation and the GameState
  reset.
- `Selection`: the two ways the code picks "the two revealed, unmatched
  cards": a streaming scan in MatchEvaluationUtil and a sort in
  MatchedSystem.
- `Matching`: MatchEvaluationUtil — DoesMatch, ApplyMatchResult and the
  immediate match on a second flip.
- `Flip`: FlipUtil — the card lookup by cell and TryFlip.
- `MatchedSystem`, `WinCheckSystem`, `RenderSystem`, `Events`: the systems
  and the event manager.
- `Commands`:
  - the newer command queue: GameCommandQueue validates, runs immediate
    commands and queues the rest, and GameCommandSystem drains it;
  - the older command buffer: CommandProcessingSystem drains it without
    validation.
- `Core`: the facade and its tick. GameCore and MemoryGameCore enqueue into
  the CommandBuffer and tick through SystemManager.
- `Adapters`: the snapshot adapter, the render-model version latch and the
  Godot won-edge detector.
- `Invariants`: the whole-game invariant. Card ids are distinct, at most
  two cards are revealed and unmatched, and two of them means the board is
  locked. The module shows that every step keeps it, from the first update
  through any sequence of inputs.
- `Restart`: what a new board does to the game around it. That includes
  two defects of the GameState reset.

Entities are positions in sequences: a card's entity handle is its index in
`World.cards`, and sequence order is the query iteration order. A singleton
is the first element of its store. An operation that can throw returns
`Run<T>`: either `Done(world, value)` or `Threw(world, error)`. The world
inside `Threw` keeps every change the code made before the throw. For
example:

- TryFlip reveals the card before the Config lookup throws;
- StartNewGame writes the Config before BuildBoard rejects an odd board.

One more effect of a rebuild is proved in `Restart`:

- a PendingEvaluation created before a rebuild survives it (only cards are
  destroyed);
- when it runs out on the next update, it finds no pair on the fresh board;
- it still resets the turn, so the new game starts with one Move already
  counted (`Restart.StalePendingCountsMove`).

## Model

| member | source | states |
|---|---|---|
| Common.Wrap32 | Stranne.EcsMemory.Core/Utils/BoardSetupUtil.cs:15 | An unchecked C# `int` result: always in int range, congruent to the exact value mod 2^32, and equal to it when it fits |
| Common.ToUint32 | Stranne.EcsMemory.Adapter/GameAdapter.cs:15 | An `int` stored into a `uint` field: always in uint range, congruent to the value mod 2^32, unchanged when non-negative, and raised by 2^32 when negative |
| Ecs.TryGetFirst | Stranne.EcsMemory.Core/Extensions/WorldQueryExtensions.cs:7-23 | None exactly when no entity satisfies the query; otherwise the first entity in iteration order that does |
| Ecs.TryGetSingleton | Stranne.EcsMemory.Core/Extensions/WorldSingletonExtensions.cs:22-28 | None exactly when no entity holds the component, otherwise the first holder's value |
| Ecs.GetSingleton | Stranne.EcsMemory.Core/Extensions/WorldSingletonExtensions.cs:6-12 | Throws InvalidOperation exactly when there is no holder; otherwise returns the first holder |
| Ecs.SetOrCreateSingleton | Stranne.EcsMemory.Core/Extensions/WorldSingletonExtensions.cs:14-20 | A later lookup returns the new value; an existing store keeps its size and its other holders, and an empty store gains exactly one entity |
| Ecs.IncrementStateVersion | Stranne.EcsMemory.Core/Extensions/WorldStateExtensions.cs:7-8 | Throws with the world unchanged exactly when there is no GameState; otherwise StateVersion grows by one and nothing else changes |
| Ecs.BumpNStrictlyIncreases | Stranne.EcsMemory.Core/Extensions/WorldStateExtensions.cs:7-8 | n bumps raise StateVersion by exactly n and change no other GameState field and no card |
| Ecs.StampAll | Stranne.EcsMemory.Core/Extensions/WorldChangeTrackingExtensions.cs:51-56 | Each listed card that is not Matched carries the version; every other card is unchanged |
| Ecs.MarkChanged | Stranne.EcsMemory.Core/Extensions/WorldChangeTrackingExtensions.cs:48-57 | Throws exactly when there is no GameState. Otherwise every listed unmatched card is stamped with the current StateVersion; Matched and unlisted cards and the singletons are unchanged |
| Shuffle.SwapPermutes | Stranne.EcsMemory.Core/Utils/BoardSetupUtil.cs:69 | One exchange keeps the multiset of elements |
| Shuffle.ShuffleDownPermutes | Stranne.EcsMemory.Core/Utils/BoardSetupUtil.cs:66-70 | The remaining iterations of the shuffle keep the multiset of elements |
| Shuffle.ShuffledPermutes | Stranne.EcsMemory.Core/Utils/BoardSetupUtil.cs:64-71 | The complete shuffle is a permutation |
| Shuffle.ShuffleInPlace | Stranne.EcsMemory.Core/Utils/BoardSetupUtil.cs:64-71 | The array loop computes the functional shuffle, and the result is a permutation of the input |
| Shuffle.AllEqualUnchanged | Stranne.EcsMemory.Core/Utils/BoardSetupUtil.cs:64-71 | A list whose elements are all equal, in particular one of length at most one, comes back unchanged |
| Board.DeckLayout | Stranne.EcsMemory.Core/Utils/BoardSetupUtil.cs:27-32 | Deck slot i holds pair key i div 2 |
| Board.DeckCounts | Stranne.EcsMemory.Core/Utils/BoardSetupUtil.cs:27-32 | Each key below the pair count occurs exactly twice in the deck, and no other value occurs |
| Board.PlaceCards | Stranne.EcsMemory.Core/Utils/BoardSetupUtil.cs:37-48 | One card per deck slot; slot i gets CardId i and the slot's key |
| Board.KeysOfPlaced | Stranne.EcsMemory.Core/Utils/BoardSetupUtil.cs:37-48 | Reading the keys back off the created cards gives the shuffled deck |
| Board.DealCards | Stranne.EcsMemory.Core/Utils/BoardSetupUtil.cs:23-49 | A new board has 2*(total div 2) cards |
| Board.DealtBoardLayout | Stranne.EcsMemory.Core/Utils/BoardSetupUtil.cs:37-48 | For a board that fits in an int: exactly cols*rows cards with CardIds 0.. in slot order, all face down, unmatched and unstamped. Each card sits at its row-major cell inside the grid, and no two share a cell |
| Board.DealtBoardPairs | Stranne.EcsMemory.Core/Utils/BoardSetupUtil.cs:27-35 | Every pair key below total/2 is on exactly two dealt cards; no other key is dealt |
| Board.FreshState | Stranne.EcsMemory.Core/Utils/BoardSetupUtil.cs:73-79 | The corrected reset state: no moves, unlocked, no first flip, not won, nothing matched, TotalCards is the board size, and StateVersion is above the previous one |
| Board.ResetGameState | Stranne.EcsMemory.Core/Utils/BoardSetupUtil.cs:73-79 | The corrected reset writes the fresh state through SetOrCreateSingleton; cards, Config and evaluations are untouched |
| Board.ResetGameStateAsWritten | Stranne.EcsMemory.Core/Utils/BoardSetupUtil.cs:73-79 | As written, every field the initializer does not name reverts to 0, TotalCards and StateVersion included |
| Board.DestroyAnyExistingCards | Stranne.EcsMemory.Core/Utils/BoardSetupUtil.cs:51-59 | Every card is destroyed and nothing else |
| Board.CheckSize | Stranne.EcsMemory.Core/Utils/BoardSetupUtil.cs:12-17 | ArgumentOutOfRange exactly when a side is not positive; Argument exactly when both are positive but the wrapped cell count is odd; otherwise accepted |
| Board.CreateNewCards | Stranne.EcsMemory.Core/Utils/BoardSetupUtil.cs:23-49 | Throws Overflow, with the old cards already gone, exactly when the wrapped total is negative; otherwise the cards are replaced by the dealt ones |
| Board.BuildBoard | Stranne.EcsMemory.Core/Utils/BoardSetupUtil.cs:10-21 | A rejected size throws with the world unchanged. A negative wrapped size throws after the cards are destroyed. Otherwise the board is dealt and the GameState reset; Config and evaluations are untouched |
| Board.BuildBoardAsWritten | Stranne.EcsMemory.Core/Utils/BoardSetupUtil.cs:10-21 | Same outcome and cards as the corrected build, but TotalCards and StateVersion end at 0 |
| Selection.Candidates | Stranne.EcsMemory.Core/Utils/MatchEvaluationUtil.cs:12-14 | The query hits are exactly the revealed, unmatched cards, in iteration order |
| Selection.RevealedUnmatchedUpdate | Stranne.EcsMemory.Core/Utils/MatchEvaluationUtil.cs:12-14 | Replacing one card changes the revealed-unmatched count by that card's own contribution |
| Selection.NoneRevealedUnmatched | Stranne.EcsMemory.Core/Utils/FlipUtil.cs:41 | The count is 0 exactly when no card is revealed and unmatched, which is the first-flip test |
| Selection.CandidatesSelectable | Stranne.EcsMemory.Core/Utils/MatchEvaluationUtil.cs:20-21 | On cards with distinct CardIds below int.MaxValue, the hits have distinct CardIds below the scan's sentinel |
| Selection.CandidatesByFlags | Stranne.EcsMemory.Core/Utils/MatchEvaluationUtil.cs:12-14 | The hits depend only on each card's CardId, Revealed and Matched |
| Selection.ScanAll | Stranne.EcsMemory.Core/Utils/MatchEvaluationUtil.cs:24-51 | The scan's saturating count is min(hits, 2) |
| Selection.StreamTwoLowest | Stranne.EcsMemory.Core/Utils/MatchEvaluationUtil.cs:16-63 | The streaming selection fails exactly when there are fewer than two hits |
| Selection.ScanKeepsLowestTwo | Stranne.EcsMemory.Core/Utils/MatchEvaluationUtil.cs:24-51 | With distinct CardIds below the sentinel, the scan's locals hold the lowest two hits seen so far, in ascending order |
| Selection.StreamIsLowestTwo | Stranne.EcsMemory.Core/Utils/MatchEvaluationUtil.cs:16-63 | The streaming selection returns the two hits with the lowest CardIds, lowest first |
| Selection.SortById | Stranne.EcsMemory.Core/Systems/MatchedSystem.cs:85 | The sort is a permutation of the hits |
| Selection.SortSorted | Stranne.EcsMemory.Core/Systems/MatchedSystem.cs:85 | The sort leaves the hits ascending by CardId |
| Selection.SortUnique | Stranne.EcsMemory.Core/Systems/MatchedSystem.cs:85 | Sorting keeps CardIds distinct |
| Selection.SortedTwoLowest | Stranne.EcsMemory.Core/Systems/MatchedSystem.cs:71-89 | The sort-based selection fails exactly when there are fewer than two hits |
| Selection.SortedIsLowestTwo | Stranne.EcsMemory.Core/Systems/MatchedSystem.cs:71-89 | The first two sorted hits are the two lowest |
| Selection.SortedPairCards | Stranne.EcsMemory.Core/Systems/MatchedSystem.cs:71-89 | With two or more revealed, unmatched cards, the sort-based selection picks two such cards, and distinct CardIds make them two different cards |
| Selection.StreamEqualsSorted | Stranne.EcsMemory.Core/Utils/MatchEvaluationUtil.cs:16-63 | The streaming scan and the MatchedSystem sort select the same pair |
| Selection.SelectionOrderIndependent | Stranne.EcsMemory.Core/Systems/MatchedSystem.cs:71-89 | Any iteration order over the same hits yields the same pair, for both selections |
| Matching.DoesMatch | Stranne.EcsMemory.Core/Utils/MatchEvaluationUtil.cs:65-73 | True exactly when both cards carry a PairKey and the keys are equal; the relation is symmetric |
| Matching.ApplyMatchResult | Stranne.EcsMemory.Core/Utils/MatchEvaluationUtil.cs:75-112 | Throws exactly without a GameState. Otherwise StateVersion grows by one, and a match adds 2 to MatchedCount with every other GameState field unchanged |
| Matching.ApplyMatchEffect | Stranne.EcsMemory.Core/Utils/MatchEvaluationUtil.cs:77-96 | A match tags both cards Matched, stamped with the version read before the bump; no other card changes |
| Matching.ApplyMismatchEffect | Stranne.EcsMemory.Core/Utils/MatchEvaluationUtil.cs:97-111 | A mismatch hides both cards and stamps them with the bumped version; no other card changes |
| Matching.ImmediatePair | Stranne.EcsMemory.Core/Utils/MatchEvaluationUtil.cs:114-130 | There is no pair exactly when fewer than two cards are revealed and unmatched |
| Matching.TryHandleImmediateMatch | Stranne.EcsMemory.Core/Utils/MatchEvaluationUtil.cs:114-130 | Without a pair, or when the pair does not match, nothing changes. A resolution counts one move, unlocks the board, adds 2 to MatchedCount and bumps StateVersion; the two selected cards become Matched, keep Revealed and carry the version from before the bump, and no other card changes; a throw changes nothing |
| Matching.ImmediatePairCards | Stranne.EcsMemory.Core/Utils/MatchEvaluationUtil.cs:16-63 | With selectable ids and two or more revealed, unmatched cards, the pair is two distinct live such cards |
| Matching.ImmediateMatchOutcome | Stranne.EcsMemory.Core/Utils/MatchEvaluationUtil.cs:114-130 | Under the same conditions, and with a GameState, the immediate evaluation never throws, and it resolves exactly when the selected pair matches |
| Flip.FindCardAt | Stranne.EcsMemory.Core/Utils/FlipUtil.cs:69-84 | None exactly when no keyed card is on the cell; otherwise a card on the cell with none after it, so the last one in iteration order wins |
| Flip.FindCardAtUnique | Stranne.EcsMemory.Core/Utils/FlipUtil.cs:69-84 | On a board with distinct cells, the lookup finds the one card on the cell |
| Flip.FlipReveal | Stranne.EcsMemory.Core/Utils/FlipUtil.cs:43-45 | The flipped card is revealed and stamped with the bumped version; only StateVersion changes in the GameState, and no other card changes |
| Flip.SecondFlip | Stranne.EcsMemory.Core/Utils/FlipUtil.cs:53-61 | A second flip succeeds or throws InvalidOperation/InvalidEntity; StateVersion never goes back |
| Flip.TryFlip | Stranne.EcsMemory.Core/Utils/FlipUtil.cs:20-67 | Throws without a GameState. It reports Skipped, with nothing changed, exactly when the board is locked, the cell is empty, or the card is matched or revealed. A success raises StateVersion |
| Flip.FlipFirstEffect | Stranne.EcsMemory.Core/Utils/FlipUtil.cs:41-46 | A first flip only reveals: the board stays unlocked, Moves is unchanged, and no evaluation is scheduled |
| Flip.RevealCounts | Stranne.EcsMemory.Core/Utils/FlipUtil.cs:43 | Revealing a hidden, unmatched card raises the revealed-unmatched count by one |
| Flip.TryFlipIsSecond | Stranne.EcsMemory.Core/Utils/FlipUtil.cs:41-61 | A flip that is neither skipped nor first continues as a second flip on the revealed world |
| Flip.SecondFlipEvaluation | Stranne.EcsMemory.Core/Utils/FlipUtil.cs:56-57 | A second flip's immediate evaluation never throws, and resolves exactly when the pair matches |
| Flip.FlipSecondMatchEffect | Stranne.EcsMemory.Core/Utils/FlipUtil.cs:53-57 | A matching second flip counts one move, adds 2 to MatchedCount, leaves the board unlocked and schedules nothing. The two selected cards end Matched and Revealed, stamped with the reveal's version, and every other card is as the reveal left it |
| Flip.FlipSecondPendingEffect | Stranne.EcsMemory.Core/Utils/FlipUtil.cs:53-61 | A non-matching second flip locks the board and schedules one evaluation with Config's delay; Moves is unchanged |
| Flip.FlipSecondNoConfig | Stranne.EcsMemory.Core/Utils/FlipUtil.cs:60 | Without a Config, a non-matching second flip throws after the reveal and the lock |
| MatchedSystem.PendingPair | Stranne.EcsMemory.Core/Systems/MatchedSystem.cs:71-89 | No pair exactly when fewer than two cards are revealed and unmatched; otherwise two such cards, distinct when CardIds are |
| MatchedSystem.PendingPairIsImmediatePair | Stranne.EcsMemory.Core/Systems/MatchedSystem.cs:71-89 | On selectable ids the delayed evaluation settles the pair the immediate one looked at |
| MatchedSystem.Resolve | Stranne.EcsMemory.Core/Systems/MatchedSystem.cs:27-46 | A missing PairKey throws before any change. Equal keys add 2 to MatchedCount; without a GameState that throws after the tags. Different keys leave GameState alone |
| MatchedSystem.ResetTurn | Stranne.EcsMemory.Core/Systems/MatchedSystem.cs:91-99 | Counts one move, clears FirstFlipped, unlocks and bumps StateVersion; throws without a GameState; no card changes |
| MatchedSystem.Countdown | Stranne.EcsMemory.Core/Systems/MatchedSystem.cs:23 | The decrement is unchecked: one less, wrapping int.MinValue to int.MaxValue |
| MatchedSystem.Settle | Stranne.EcsMemory.Core/Systems/MatchedSystem.cs:27-50 | A settled evaluation counts one move, adds 2 to MatchedCount on a match, unlocks, bumps StateVersion and is destroyed; a throw leaves it in place |
| MatchedSystem.Update | Stranne.EcsMemory.Core/Systems/MatchedSystem.cs:16-51 | Nothing to do without an evaluation; while the first counter stays positive only it changes; otherwise it settles |
| MatchedSystem.CountdownOnly | Stranne.EcsMemory.Core/Systems/MatchedSystem.cs:21-25 | From UpdatesLeft = m, the first k < m updates only lower the counter by one each |
| MatchedSystem.ResolvesOnMthUpdate | Stranne.EcsMemory.Core/Systems/MatchedSystem.cs:21-25 | After m-1 updates the counter reads 1, so the m-th update settles |
| MatchedSystem.ResolveMatchCards | Stranne.EcsMemory.Core/Systems/MatchedSystem.cs:32-40 | Settling a match tags both cards Matched; no other card changes |
| MatchedSystem.ResolveMismatchCards | Stranne.EcsMemory.Core/Systems/MatchedSystem.cs:41-46 | Settling a mismatch hides both cards; no other card changes |
| MatchedSystem.ResolveNothingCards | Stranne.EcsMemory.Core/Systems/MatchedSystem.cs:27-50 | With fewer than two revealed, unmatched cards the turn is still reset, but no card changes |
| WinCheckSystem.Update | Stranne.EcsMemory.Core/Systems/WinCheckSystem.cs:13-28 | Throws exactly without a GameState. GameWon is sent exactly when the game is not yet won, TotalCards != 0 and MatchedCount >= TotalCards. It then locks, marks the game won and bumps StateVersion, and the message carries Moves, TotalCards and the new version. Otherwise nothing changes |
| WinCheckSystem.UpdateIdempotent | Stranne.EcsMemory.Core/Systems/WinCheckSystem.cs:16-19 | A second check right after the first changes nothing and sends nothing |
| WinCheckSystem.AtMostOneWin | Stranne.EcsMemory.Core/Systems/WinCheckSystem.cs:13-28 | Any number of checks send at most one GameWon, and none once the game is won |
| Events.OnGameWon | Stranne.EcsMemory.Core/Events/EventManager.cs:23-29 | Queues one callback carrying Moves and TotalCards behind the existing ones; nothing is delivered yet |
| Events.VersionNotForwarded | Stranne.EcsMemory.Core/Events/EventManager.cs:23-29 | The message's StateVersion does not reach the receiver |
| Events.SendAll | Stranne.EcsMemory.Core/Events/EventManager.cs:23-29 | Each message queues its callback, in order |
| Events.Dequeue | Stranne.EcsMemory.Core/Events/EventManager.cs:17-21 | Every queued callback reaches the receiver, in queue order, and the queue ends empty |
| Events.DrainUpdate | Stranne.EcsMemory.Core/Systems/EventDrainSystem.cs:14-21 | Every won-event entity adds its event to the sink, in query order, and is destroyed |
| Events.PopEvents | Stranne.EcsMemory.Core/Systems/EventDrainSystem.cs:23-28 | Returns the sink's contents in insertion order and clears it |
| Events.PopTwice | Stranne.EcsMemory.Core/Systems/EventDrainSystem.cs:23-28 | A second pop with no drain in between returns nothing |
| RenderSystem.Project | Stranne.EcsMemory.Core/Systems/RenderSystem.cs:44-59 | A card is face up exactly when revealed or matched, and only then shows its PairKey; a face-up card without a key throws. The snapshot carries the card's id and cell, StateVersion left at 0 and no HasChanged flag |
| RenderSystem.ProjectAll | Stranne.EcsMemory.Core/Systems/RenderSystem.cs:42-60 | The pass throws exactly when some placed card throws |
| RenderSystem.ProjectAllOnePerCard | Stranne.EcsMemory.Core/Systems/RenderSystem.cs:42-60 | A successful pass gives exactly one snapshot per placed card, in iteration order |
| RenderSystem.SortByCell | Stranne.EcsMemory.Core/Systems/RenderSystem.cs:61 | The sort is a permutation |
| RenderSystem.SortByCellSorted | Stranne.EcsMemory.Core/Systems/RenderSystem.cs:61 | The sort orders the snapshots by Y, then by X |
| RenderSystem.Update | Stranne.EcsMemory.Core/Systems/RenderSystem.cs:33-81 | Throws without a GameState. An unchanged StateVersion keeps the cache. A rebuild copies Config and GameState, holds the projected cards sorted by cell, and caches the version |
| RenderSystem.UpdateIdempotent | Stranne.EcsMemory.Core/Systems/RenderSystem.cs:36-37 | A second update right after one that succeeded changes nothing |
| RenderSystem.FirstUpdateRebuilds | Stranne.EcsMemory.Core/Systems/RenderSystem.cs:13-31 | The first update always rebuilds, because StateVersion is never -1 |
| Commands.Validate | Stranne.EcsMemory.Core/Commands/Base/GameCommandQueue.cs:32-45 | A new game needs both sides in 1..10 and an even cell count; a flip needs both coordinates in 0..10; any other command passes |
| Commands.ValidatedBoardBuilds | Stranne.EcsMemory.Core/Commands/Base/GameCommandQueue.cs:32-45 | A validated new game passes BuildBoard's own checks, with no wrap-around |
| Commands.StartNewGameExecute | Stranne.EcsMemory.Core/Commands/Handlers/StartNewGameHandler.cs:11-17 | The Config is always overwritten first. The handler succeeds exactly when BuildBoard does, with BuildBoard's cards and a fresh GameState |
| Commands.FlipCardAtExecute | Stranne.EcsMemory.Core/Commands/Handlers/FlipCardAtHandler.cs:10-14 | Skipped with nothing changed exactly when TryFlip skips; throws without a GameState |
| Commands.ExecuteCommand | Stranne.EcsMemory.Core/Commands/Base/GameCommandQueue.cs:47-81 | Never Deferred; an unknown command fails with nothing changed; a handler exception becomes Failed and keeps the handler's partial changes |
| Commands.Enqueue | Stranne.EcsMemory.Core/Commands/Abstractions/CommandBuffer.cs:6 | The command goes at the tail and the earlier commands keep their places |
| Commands.TryDequeue | Stranne.EcsMemory.Core/Commands/Abstractions/CommandBuffer.cs:8 | Nothing exactly when the buffer is empty; otherwise the head, and the rest is what stays |
| Commands.EnqueueDequeue | Stranne.EcsMemory.Core/Commands/Abstractions/CommandBuffer.cs:6-8 | The buffer is first-in first-out |
| Commands.Route | Stranne.EcsMemory.Core/Commands/Base/GameCommandQueue.cs:12-27 | Invalid commands fail with nothing changed; immediate ones run now and are never queued; other valid ones are queued at the tail as Deferred |
| Commands.ProcessCommandAsWritten | Stranne.EcsMemory.Core/Commands/StartNewGame.cs:5 | No command type carries the immediate marker, so every valid command is queued and the world is untouched |
| Commands.ProcessCommand | Stranne.EcsMemory.Core/Commands/Base/GameCommandQueue.cs:12-27 | With a new game marked immediate, a valid new game runs now and everything else follows the queue rules |
| Commands.AsWrittenNewGameDeferred | Stranne.EcsMemory.Core/Commands/StartNewGame.cs:5 | As written, a valid new game is Deferred, the cards are unchanged and the command waits at the tail of the queue |
| Commands.CorrectedNewGameImmediate | Stranne.EcsMemory.Core.Tests/GameCoreTest.cs:21-36 | Corrected, a valid new game succeeds at once: cols*rows dealt cards and an unchanged queue |
| Commands.ExecuteAllStep | Stranne.EcsMemory.Core/Systems/GameCommandSystem.cs:10-16 | The reference drain peels off one command at a time |
| Commands.Drain | Stranne.EcsMemory.Core/Systems/GameCommandSystem.cs:10-16 | Dequeues n+1 times and ends empty. Each command runs exactly once in FIFO order, equal to the reference fold, and a Failed result does not stop the loop |
| Commands.Handle | Stranne.EcsMemory.Core/Systems/CommandProcessingSystem.cs:17-37 | A new game writes the Config with the fixed delay of 10 and then builds the board; a flip is TryFlip with its result ignored; any other command throws NotImplemented |
| Commands.ProcessBuffer | Stranne.EcsMemory.Core/Systems/CommandProcessingSystem.cs:17-37 | A clean drain empties the buffer; the first exception escapes and leaves every later command queued |
| Commands.OddBoardEscapes | Stranne.EcsMemory.Core/Systems/CommandProcessingSystem.cs:23-28 | Unvalidated, an odd board throws ArgumentException out of the drain after the Config is written, and keeps the cards and the later commands |
| Commands.OversizeBoardBuiltUnvalidated | Stranne.EcsMemory.Core/Systems/CommandProcessingSystem.cs:23-28 | A 12x2 board, which validation rejects, is built by the older drain |
| Core.StartNewGame | Stranne.EcsMemory.Core/MemoryGameCore.cs:36-37 | Appends exactly one command at the tail of the buffer, behind any earlier ones; the world, snapshot and events are untouched until the next update |
| Core.FlipCardAt | Stranne.EcsMemory.Core/MemoryGameCore.cs:39-40 | Appends exactly one command at the tail of the buffer, behind any earlier ones; nothing else changes |
| Core.Snapshot | Stranne.EcsMemory.Core/Systems/SystemManager.cs:33 | The facade hands out the projector's cached snapshot; a coherent cache carries the version the projector last saw |
| Core.SnapshotAfterTick | Stranne.EcsMemory.Core/Systems/SystemManager.cs:33 | After a tick that ends cleanly, the exposed snapshot carries the world's current StateVersion |
| Core.RunSystems | Stranne.EcsMemory.Core/Systems/SystemManager.cs:23-28 | After the drain: a clean pass leaves the projector in step with StateVersion, and a throw keeps the old snapshot. A callback is queued exactly when the evaluation and win check fire GameWon, and it stays queued even when the projector then throws |
| Core.Tick | Stranne.EcsMemory.Core/Systems/SystemManager.cs:35-40 | A clean tick empties the buffer and syncs the projector. A drain exception stops the tick with the drain's world, leftover commands and untouched events. No queued callback is ever dropped: the old queue is a prefix of the new one |
| Core.Update | Stranne.EcsMemory.Core/MemoryGameCore.cs:42-46 | One tick, then every queued callback is delivered in order. An exception leaves before the hand-over, and the callbacks stay queued, so the next update that ends cleanly delivers them first |
| Core.HandleNotAhead | Stranne.EcsMemory.Core/Systems/CommandProcessingSystem.cs:17-37 | A command never moves StateVersion below the projector's cache |
| Core.DrainNotAhead | Stranne.EcsMemory.Core/Systems/CommandProcessingSystem.cs:17-37 | A clean drain never moves StateVersion below the projector's cache |
| Core.TickKeepsNotAhead | Stranne.EcsMemory.Core/Systems/SystemManager.cs:35-40 | A clean tick keeps the cache not ahead of StateVersion and ends exactly in step with it |
| Core.WinShownSameTick | Stranne.EcsMemory.Core/Systems/SystemManager.cs:23-28 | A win is visible in the tick that fires it: the snapshot shows won and locked at the new version, and exactly one callback is queued |
| Core.WinKeptAcrossRenderThrow | Stranne.EcsMemory.Core/Events/EventManager.cs:23-29 | With every card matched and no Config, the update throws at the projector, yet the game is won and the OnGameWon(0, 2) callback stays queued; the win check will not send it again |
| Core.UpdateBeforeStartThrows | Stranne.EcsMemory.Core/Systems/WinCheckSystem.cs:15 | An update before any new game throws InvalidOperation |
| Core.ScheduledCountsSameTick | Stranne.EcsMemory.Core/Systems/SystemManager.cs:23-28 | An evaluation scheduled by a flip is counted down in the same tick |
| Core.SystemsCountDown | Stranne.EcsMemory.Core/Systems/MatchedSystem.cs:21-25 | The systems lower the first counter by one when it does not run out |
| Core.NewGameShownNextTick | Stranne.EcsMemory.Core/MemoryGameCore.cs:36-46 | A new game and one update give the dealt cards, an empty buffer and a snapshot of cols*rows face-down cards with fresh counters |
| Core.NewGameDrain | Stranne.EcsMemory.Core/Systems/CommandProcessingSystem.cs:23-28 | Draining one valid new game deals the board and resets GameState, keeping pending evaluations |
| Core.FreshBoardSystems | Stranne.EcsMemory.Core/Systems/RenderSystem.cs:33-81 | On a fresh board nothing is pending, no win is due, and the projector rebuilds with every card face down |
| Core.FaceDownProjection | Stranne.EcsMemory.Core/Systems/RenderSystem.cs:42-60 | Placed face-down cards project without a throw, one face-down snapshot each |
| Core.PlacedAll | Stranne.EcsMemory.Core/Systems/RenderSystem.cs:15 | When every card has a cell, the Cards query visits them all |
| Adapters.FlagCard | Stranne.EcsMemory.Adapter/GameAdapter.cs:32-36 | A card is flagged when it already was or its StateVersion is above the last version handed out; no other field changes |
| Adapters.GetGameSnapshot | Stranne.EcsMemory.Adapter/GameAdapter.cs:29-40 | Flags land on the cached snapshot, and the adapter stores the snapshot's version converted to `uint`. Only the flags differ from the snapshot, and the world, buffer and events are untouched |
| Adapters.HasSnapshotChanged | Stranne.EcsMemory.Adapter/GameAdapter.cs:26-27 | The `int` version and the `uint` field are compared as widened values: a negative version always reports a change, and a stored conversion of an int-range version reports one exactly when the version is negative |
| Adapters.GetSettlesChanged | Stranne.EcsMemory.Adapter/GameAdapter.cs:26-27 | After a snapshot at a version in int range is handed out, HasSnapshotChanged is false until the next rebuild. After the initial -1 snapshot it stays true |
| Adapters.EarlySnapshotWraps | Stranne.EcsMemory.Adapter/GameAdapter.cs:38 | Asked before the first update, the adapter hands out the initial snapshot, stores uint.MaxValue and keeps reporting a change |
| Adapters.NoCardFlagged | Stranne.EcsMemory.Adapter/GameAdapter.cs:32-36 | The projector never sets a card's StateVersion, and no `uint` is above the stored one, so the adapter never flags a card, whatever it stored before |
| Adapters.SecondCallFlagsNothing | Stranne.EcsMemory.Adapter/GameAdapter.cs:29-40 | For an `int` snapshot version, a second call with no update in between returns the same snapshot and adapter |
| Adapters.StartNewGame | Stranne.EcsMemory.Adapter/GameAdapter.cs:42-49 | Forwards and only queues; the change indicator is unaffected |
| Adapters.FlipCardAt | Stranne.EcsMemory.Adapter/GameAdapter.cs:42-49 | Forwards and only queues; the change indicator is unaffected |
| Adapters.Update | Stranne.EcsMemory.Adapter/GameAdapter.cs:42-49 | Forwards one update. After a clean one, a change is reported exactly when StateVersion differs from the last version handed out |
| Adapters.HasRenderModelChanged | Stranne.EcsMemory.Adapter/MemoryAdapter.cs:31-36 | Reports exactly when the observed version differs from the last, then remembers it |
| Adapters.LatchReportsOnce | Stranne.EcsMemory.Adapter/MemoryAdapter.cs:31-36 | Asked twice about the same version, the latch reports at most once |
| Adapters.FirstBoardNotReported | Stranne.EcsMemory.Adapter/MemoryAdapter.cs:12 | The latch starts at 0, which is the version of a first board, so that first board is not reported |
| Adapters.WonStep | Stranne.EcsMemory.GodotAdapter/MemoryAdapter.cs:29-38 | Won fires exactly when the snapshot is won and the previous one was not, carrying Moves and the card count; the flag follows the snapshot |
| Adapters.NoRiseNoWon | Stranne.EcsMemory.GodotAdapter/MemoryAdapter.cs:29-38 | When the game never turns won, Won never fires |
| Adapters.WonOncePerStretch | Stranne.EcsMemory.GodotAdapter/MemoryAdapter.cs:29-38 | A stretch of won snapshots fires Won once, or never if already won |
| Adapters.WonEventsAppend | Stranne.EcsMemory.GodotAdapter/MemoryAdapter.cs:37 | The events of a run split at any point, the second part starting from the flag the first left |
| Adapters.WonFiresAgain | Stranne.EcsMemory.GodotAdapter/MemoryAdapter.cs:34-37 | A won stretch, a lost one and another won one give exactly two events |
| Invariants.DealtKeepsInv | Stranne.EcsMemory.Core/Utils/BoardSetupUtil.cs:37-48 | A dealt board has distinct selectable CardIds and no revealed card |
| Invariants.FlipKeepsInv | Stranne.EcsMemory.Core/Utils/FlipUtil.cs:20-67 | A flip, even one that throws, keeps at most two revealed unmatched cards, and two means locked |
| Invariants.ResolveKeepsInv | Stranne.EcsMemory.Core/Systems/MatchedSystem.cs:27-46 | Settling keeps the invariant, and a completed settlement leaves fewer than two revealed unmatched cards |
| Invariants.MatchedKeepsInv | Stranne.EcsMemory.Core/Systems/MatchedSystem.cs:16-51 | The delayed evaluation keeps the invariant |
| Invariants.HandleKeepsInv | Stranne.EcsMemory.Core/Systems/CommandProcessingSystem.cs:17-37 | Every drained command keeps the invariant, thrown or not |
| Invariants.DrainKeepsInv | Stranne.EcsMemory.Core/Systems/CommandProcessingSystem.cs:17-37 | A whole drain keeps the invariant |
| Invariants.TickKeepsInv | Stranne.EcsMemory.Core/Systems/SystemManager.cs:35-40 | A tick keeps the invariant |
| Invariants.PlayKeepsInv | Stranne.EcsMemory.Core/MemoryGameCore.cs:36-46 | Any sequence of new games, flips and updates keeps the invariant |
| Invariants.AtMostTwoRevealed | Stranne.EcsMemory.Core/Utils/FlipUtil.cs:24-25 | From a new facade, at most two cards are ever revealed and unmatched, and two means the board is locked |
| Restart.AsWrittenNeverWon | Stranne.EcsMemory.Core/Utils/BoardSetupUtil.cs:73-79 | As written, even with every card matched the win check sends nothing |
| Restart.CorrectedWins | Stranne.EcsMemory.Core/Systems/WinCheckSystem.cs:16-26 | Corrected, once every card is matched the win check sends GameWon with the board size and marks the game won and locked |
| Restart.StalePendingCountsMove | Stranne.EcsMemory.Core/Utils/BoardSetupUtil.cs:51-59 | An evaluation from the old board survives a rebuild and, on the next update, counts one Move on the new board |
| Restart.AsWrittenRebuildKeepsCache | Stranne.EcsMemory.Core/Utils/BoardSetupUtil.cs:73-79 | As written, a rebuild resets StateVersion to 0, and a projector that cached version 0 keeps its old snapshot |
| Restart.AsWrittenRestartNotShown | Stranne.EcsMemory.Core/Utils/BoardSetupUtil.cs:73-79 | As written, after a first board is shown, a new game of another size deals its cards, but the next projection keeps the first board with its old card count |
| Restart.CorrectedRestartShown | Stranne.EcsMemory.Core/Systems/RenderSystem.cs:36-37 | Corrected, the next projection after a rebuild shows the new board: one face-down snapshot per card at a new version |
| Restart.CorrectedRestartScenario | Stranne.EcsMemory.Core/Systems/RenderSystem.cs:36-37 | Corrected, the same sequence shows the second board: its card count, rows and columns, all face down |

## Left out

- Logging, `Dispose`, the Godot scenes, and the Selectable tag. The tag is
  never queried by the modelled code.
- Persistence: `GameCore.Create` from JSON, `Serialize`/`Deserialize`
  (GameCore.cs:44-45, 59-72) and `GameAdapter.Save`/`Load`. They are
  foreign serialisation calls.
- The `float deltaTime` argument of every update. It is never read.
- The ConcurrentQueue threading of CommandBuffer and EventManager. Both are
  modelled as sequential FIFO queues.
- The DateTimeOffset in the Godot adapter's win info. It is a clock read.
- `System.Random`. It is an oracle parameter `Rng(seed, k, n)` in `[0, n)`,
  because the .NET generator's arithmetic is not the point of the model.
- `List.Sort` is unstable in .NET. It is modelled as a stable insertion
  sort. Both selections use it only on distinct CardIds, where every sort
  agrees, and the snapshot sort only on distinct cells of a dealt board.
- Ecs.IncrementStateVersion: StateVersion is a C# `int` but is modelled as
  `nat`. Overflow after 2^31 bumps is not modelled. Moves and MatchedCount
  are unbounded `int` for the same reason.
- RenderSystem.Project: the projector never sets a card snapshot's
  `StateVersion`, so it keeps its default 0, not the card's last-changed
  version. GameAdapter's per-card diff therefore never flags a card
  (`Adapters.NoCardFlagged`).
- Board.FreshState: the corrected reset continues StateVersion from the old
  game (old + 1, or 0 when no GameState existed). This is a modelling
  choice: the source restarts at 0. The model keeps StateVersion rising, so
  every rebuild is projected (Findings row 2).
- The adapters' `CurrentStateVersion` is taken to be the `int` snapshot
  version. The comparison in HasSnapshotChanged widens both sides, and the
  store into the `uint` field converts as `Common.ToUint32` does.
- The source-generated EventBus dispatch from WinCheckSystem to
  `EventManager.OnGameWon`. It is modelled as a direct call.
- The adapters name `RenderModel` and `CurrentStateVersion`, which the core
  shown here does not expose. They are modelled as the GameSnapshot and its
  `Version`.
- Entity recycling and Arch's archetype iteration order. Entities are
  sequence positions in creation order.
- Invariants.PlayKeepsInv: the play sequence tracks the world only; the
  callback hand-over to the receiver is not part of it.
- Invariants.AtMostTwoRevealed: only one direction of the guarded locking
  rule is proved (two revealed means locked). The converse also needs the
  won state and pending evaluations, and is not stated.
- The facades as written enqueue into the CommandBuffer and tick through
  CommandProcessingSystem (the older generation). The GameCommandQueue
  generation is modelled on its own in `Commands`, because no facade in
  this source wires it up.

## Findings

| source | as written | input that shows it | evidently intended | confidence | as-written member | corrected member |
|---|---|---|---|---|---|---|
| Stranne.EcsMemory.Core/Utils/BoardSetupUtil.cs:73-79 | ResetGameState builds a fresh GameState naming only FirstFlipped, IsLocked and Moves, so TotalCards is 0 after every build | any accepted board, e.g. 2x2; after all four cards match, WinCheckSystem sees TotalCards == 0 and never fires | TotalCards is the board size, as Stranne.EcsMemory.Core.Tests/Utils/BoardSetupUtilTest.cs:39 and Stranne.EcsMemory.Core.Tests/Commands/Handlers/StartNewGameHandlerTest.cs:92 assert and the win check expects | high, not executed | Restart.AsWrittenNeverWon | Restart.CorrectedWins |
| Stranne.EcsMemory.Core/Utils/BoardSetupUtil.cs:73-79 | the same initializer also resets StateVersion to 0 | a first 2x2 board is built at version 0 and shown; a new 4x4 game before any flip builds sixteen cards at version 0 again, so RenderSystem keeps showing the four-card snapshot until the first flip | a new board is projected on the next update; the model keeps StateVersion rising across restarts to get that | low, not executed; the intent is inferred | Restart.AsWrittenRestartNotShown | Restart.CorrectedRestartShown |
| Stranne.EcsMemory.Core/Commands/StartNewGame.cs:5 | the StartNewGame record does not implement IImmediateCommand, so GameCommandQueue.ProcessCommand queues it and returns Deferred | ProcessCommand(StartNewGame(2, 2, 3)) on an empty world: Deferred, no cards, one queued command | a new game runs immediately, as GameCoreTest.cs:21-36 expects (no queued command, four cards) | medium, not executed | Commands.AsWrittenNewGameDeferred | Commands.CorrectedNewGameImmediate |

Each disagreement has an as-written member and a corrected one (the last two
columns). The board build and command routing use the corrected definitions
(`Board.BuildBoard`, `Board.ResetGameState`, `Commands.ProcessCommand`), so the
Core, Invariants and Adapters lemmas are about the corrected program.
