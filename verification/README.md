# Card-match gameplay engine, modelled in Dafny

This project models the gameplay core of a Unity memory game, in which the
player turns up cards two at a time and tries to find matching pairs. The
model covers:

- the card catalogue and the 104-card deck, with its shuffle and deal
  (`CardsManager`, `Constants`);
- the card object (`Card`, `CardData`): its face, its active flag, clicks,
  flips and hint flips;
- the reveal evaluator (`GameResultEvaluator`), a FIFO queue of revealed
  cards drained two at a time. Each pair is classified as a match or a
  no-match, its listeners are told in registration order, and the game ends
  once no card is active;
- the counters and registries (`ScoreManager`, `TurnsManager`,
  `PowerUpManager`, `RevealAllCardsPowerUp`);
- the session (`CardsGridManager`): deal size, initial counters, three
  power-ups, listener order, grid layout indices, the game-complete popup;
- the save snapshot (`GameState`, `GameGridStateData`, `CardStateData`) and
  `SaveAndLoadGameData`, which captures a session and rebuilds one;
- the main menu (`StartGame`, `GameConfig`) and the screen stack (`UIManager`).

## How it is modelled

- Every class becomes an immutable datatype, and every method a pure
  function from the old state to the new one.
- Listener notifications come back as a trace of events, in order.
- C# `int` is `CSharpInt.Int32`. Unity runs unchecked, so `score += amount`,
  `turn++` and `Rows * Cols` wrap around (`CSharpInt.Wrap`).
- Cards are named by their grid position, and the evaluator queue holds
  positions.
- The evaluator's listeners are the two the session registers,
  `GridManager` (the `CardsGridManager`) and `CardsManager`. Their reactions
  act on the engine state (`Evaluator.Engine`).
- `Random.Range(i, n)` is a caller-supplied draw sequence `picks` with
  `i <= picks[i] < n` (`Deck.IsDraw`).
- The save file is an `Option<GameState>`, where `None` means the file is
  missing.
- The code reads fields it cannot reach at
  `SaveAndLoadGameData.cs:74-77` and `CardsManager.cs:60-66`, and calls a
  `SetGridData` that does not exist at `GameState.cs:52`. The model goes
  through the public accessors instead (`Row`, `Col`, `CardsData`, and the
  `CardStateData` getters).

The central result is `Play.WellFormed`, the invariant every click keeps:
- the grid manager and then the cards manager are registered;
- at most one card waits in the queue, and it is exactly the active face-up
  card;
- twice the score equals the number of matched cards.

From this invariant the model derives:
- the exact effect of each kind of click;
- that the popup appears exactly on the click that clears the board;
- that saving and then loading gives back an equivalent session in which
  matched cards lie face down.

## Behaviour of the code worth knowing

- A load does not check the number of saved cards against `rows * cols`;
  the board simply becomes the saved list.
- `AddScore` accepts any amount, including a negative one.
- Saving and loading is not an exact round trip: a matched card comes back
  face down (`SaveGame.MatchedCardsComeBackFaceDown`).
- The deal takes a prefix of the paired deck, so an odd card count leaves
  one face single (`Deck.OddDealLeavesOneFaceUnpaired`). The menu offers
  only even sizes (`StartGame.PlayDealsPairedCards`).

## Model

Source cells cite the game's C# scripts by path and line.

| member | source | states |
|---|---|---|
| CSharpInt.Wrap | CardMatch/Assets/CardMatchingGame/Scripts/GamePlay/ScoreManager.cs:84-89 | unchecked `int` arithmetic: the result is the unique 32-bit value congruent to the exact sum, and equals it when it is in range |
| CSharpInt.IncrementWraps | CardMatch/Assets/CardMatchingGame/Scripts/GamePlay/TurnsManager.cs:82-87 | `turn++` is exact below `int.MaxValue` and wraps to `int.MinValue` at it |
| Constants.CatalogueShape | CardMatch/Assets/CardMatchingGame/Scripts/GamePlay/Constants.cs:20-65 | four distinct suits (hearts, diamonds, clubs, spades) and thirteen distinct ranks (A … K), so the deck holds 4·13·2 = 104 cards |
| Constants.ScreenIdsDistinct | CardMatch/Assets/CardMatchingGame/Scripts/GamePlay/Constants.cs:74-84 | the home, game-complete and no-saved-game screen ids are pairwise different |
| Cards.MatchIsIrreflexive | CardMatch/Assets/CardMatchingGame/Scripts/GamePlay/Card.cs:260-263 | a card never matches itself, since matching demands different ids |
| Cards.MatchIsSymmetric | CardMatch/Assets/CardMatchingGame/Scripts/GamePlay/Card.cs:260-263 | the order of the two compared cards does not matter |
| Cards.Matches | CardMatch/Assets/CardMatchingGame/Scripts/GamePlay/Card.cs:260-263 | two card data match exactly when their ids differ and their suit and rank are equal; matching data are never the same value |
| Cards.Init | CardMatch/Assets/CardMatchingGame/Scripts/GamePlay/Card.cs:80-86 | the card takes the new identity and lies face down whatever its previous face; its active flag is untouched |
| Cards.Instantiate | CardMatch/Assets/CardMatchingGame/Scripts/GamePlay/CardsManager.cs:167-176 | a card object made for a deal is active, face down and carries the given identity |
| Cards.FlipCard | CardMatch/Assets/CardMatchingGame/Scripts/GamePlay/Card.cs:144-162 | the face toggles exactly once, identity and active flag stay, and the flip reports `Flipped` and then the face-up or face-down end according to the new face |
| Cards.FlipCardTwice | CardMatch/Assets/CardMatchingGame/Scripts/GamePlay/Card.cs:144-162 | two flips restore the card |
| Cards.OnCardClicked | CardMatch/Assets/CardMatchingGame/Scripts/GamePlay/Card.cs:131-139 | a face-down card turns face up and reports click, flip and face-up end; a face-up card ignores the click |
| Cards.ClickRevealsOnlyHiddenCards | CardMatch/Assets/CardMatchingGame/Scripts/GamePlay/Card.cs:131-139 | a click reaches the evaluator exactly when the card was face down, the card then shows its front, and a second click does nothing |
| Cards.FlipCardForHint | CardMatch/Assets/CardMatchingGame/Scripts/GamePlay/Card.cs:167-178 | the hint flip changes no card state and tells no listener |
| Cards.SetCardFrontFacing | CardMatch/Assets/CardMatchingGame/Scripts/GamePlay/Card.cs:183-190 | the card shows its front and reports a click and a finished face-up flip |
| Deck.GenerateUniqueRandomCards | CardMatch/Assets/CardMatchingGame/Scripts/GamePlay/CardsManager.cs:146-162 | 104 cards with ids 0, 1, 2, … in generation order: suit by suit, rank by rank, two copies each |
| Deck.DeckPairAt | CardMatch/Assets/CardMatchingGame/Scripts/GamePlay/CardsManager.cs:151-159 | deck positions 2p and 2p+1 share the p-th (suit, rank) |
| Deck.PairKeyInjective | CardMatch/Assets/CardMatchingGame/Scripts/GamePlay/CardsManager.cs:151-159 | different pairs of the deck show different faces |
| Deck.DeckMatchesArePartners | CardMatch/Assets/CardMatchingGame/Scripts/GamePlay/CardsManager.cs:151-159 | two deck cards match exactly when they are the two halves of one adjacent pair |
| Deck.EachFaceTwice | CardMatch/Assets/CardMatchingGame/Scripts/GamePlay/CardsManager.cs:151-159 | every (suit, rank) of the catalogue occurs exactly twice in the deck |
| Deck.Swap | CardMatch/Assets/CardMatchingGame/Scripts/GamePlay/CardsManager.cs:183-189 | one swap exchanges two positions, leaves the rest, and keeps the multiset and distinct ids |
| Deck.Shuffle | CardMatch/Assets/CardMatchingGame/Scripts/GamePlay/CardsManager.cs:181-191 | the shuffle returns a permutation of its input (same length, same multiset) and keeps ids distinct |
| Deck.ShuffleCardsData | CardMatch/Assets/CardMatchingGame/Scripts/GamePlay/CardsManager.cs:181-191 | the in-place swap loop computes the shuffle, hence a permutation |
| Deck.Deal | CardMatch/Assets/CardMatchingGame/Scripts/GamePlay/CardsManager.cs:26-35 | the deal fails exactly when the count is negative or above 104; otherwise it yields that many active face-down cards whose identities are the shuffled deck prefix, a permutation of the prefix |
| Deck.DealtCardsArePaired | CardMatch/Assets/CardMatchingGame/Scripts/GamePlay/CardsManager.cs:32-34 | for an even count every face on the board occurs 0 or 2 times and every dealt card has a partner |
| Deck.OddDealLeavesOneFaceUnpaired | CardMatch/Assets/CardMatchingGame/Scripts/GamePlay/CardsManager.cs:32-34 | for an odd count some face occurs exactly once on the board |
| Grid.OnMatchFound | CardMatch/Assets/CardMatchingGame/Scripts/GamePlay/CardsManager.cs:108-112 | exactly the two matched cards become inactive; faces, identities and all other cards stay |
| Grid.OnNoMatch | CardMatch/Assets/CardMatchingGame/Scripts/GamePlay/CardsManager.cs:117-121 | exactly the two given cards flip (one card given twice flips back); nothing else changes |
| Grid.NoMatchTwiceRestores | CardMatch/Assets/CardMatchingGame/Scripts/GamePlay/CardsManager.cs:117-121 | repeating the no-match flips restores the board |
| Grid.RevealAllUnMatchedHiddenCards | CardMatch/Assets/CardMatchingGame/Scripts/GamePlay/CardsManager.cs:85-95 | the hint touches exactly the active face-down cards, in board order, and changes no card |
| Grid.CheckForGameFinish | CardMatch/Assets/CardMatchingGame/Scripts/GamePlay/GameResultEvaluator.cs:134-144 | the game is finished exactly when no card is active |
| Grid.FinishedIffAllInactive | CardMatch/Assets/CardMatchingGame/Scripts/GamePlay/GameResultEvaluator.cs:134-144 | finished exactly when the count of inactive cards is the board size |
| Grid.MatchAndNoMatchCounts | CardMatch/Assets/CardMatchingGame/Scripts/GamePlay/CardsManager.cs:108-121 | a match of two distinct active cards adds two inactive cards; a no-match adds none |
| Listeners.Broadcast | CardMatch/Assets/CardMatchingGame/Scripts/GamePlay/ScoreManager.cs:87 | a delegate call reaches every subscriber once, in subscription order, with the same value |
| Listeners.RemoveFirst | CardMatch/Assets/CardMatchingGame/Scripts/GamePlay/GameResultEvaluator.cs:63-66 | `List.Remove` drops the first registration of the item only, or nothing when absent |
| Listeners.RemoveLast | CardMatch/Assets/CardMatchingGame/Scripts/GamePlay/ScoreManager.cs:63-66 | delegate `-=` drops the most recent subscription of the handler only, or nothing when absent |
| Score.New | CardMatch/Assets/CardMatchingGame/Scripts/GamePlay/ScoreManager.cs:32-35 | the constructor ignores its argument: score 0, no listeners |
| Score.AddScoreListner | CardMatch/Assets/CardMatchingGame/Scripts/GamePlay/ScoreManager.cs:54-57 | the listener is subscribed after the others and the score stays |
| Score.RemoveListner | CardMatch/Assets/CardMatchingGame/Scripts/GamePlay/ScoreManager.cs:63-66 | the latest subscription of the listener goes and the score stays |
| Score.RemoveAllListner | CardMatch/Assets/CardMatchingGame/Scripts/GamePlay/ScoreManager.cs:71-74 | no listeners remain and the score stays |
| Score.AddScore | CardMatch/Assets/CardMatchingGame/Scripts/GamePlay/ScoreManager.cs:84-89 | the score becomes the wrapped sum with no sign check, and every listener hears the new score |
| Score.SetScore | CardMatch/Assets/CardMatchingGame/Scripts/GamePlay/ScoreManager.cs:95-99 | the score becomes the given value and every listener hears it |
| Score.AddScoreIsSetScore | CardMatch/Assets/CardMatchingGame/Scripts/GamePlay/ScoreManager.cs:84-99 | adding equals setting the wrapped sum; adding 1 below the maximum raises the score by exactly one |
| Score.OnDestroy | CardMatch/Assets/CardMatchingGame/Scripts/GamePlay/ScoreManager.cs:108-112 | no listeners remain and the score stays |
| Turns.New | CardMatch/Assets/CardMatchingGame/Scripts/GamePlay/TurnsManager.cs:31-34 | the turn count is the argument and no one is subscribed or told |
| Turns.AddTurnsListner | CardMatch/Assets/CardMatchingGame/Scripts/GamePlay/TurnsManager.cs:53-56 | the listener is subscribed after the others and the count stays |
| Turns.RemoveListner | CardMatch/Assets/CardMatchingGame/Scripts/GamePlay/TurnsManager.cs:62-65 | the latest subscription of the listener goes and the count stays |
| Turns.RemoveAllListner | CardMatch/Assets/CardMatchingGame/Scripts/GamePlay/TurnsManager.cs:70-73 | no listeners remain and the count stays |
| Turns.IncreamentTurnCount | CardMatch/Assets/CardMatchingGame/Scripts/GamePlay/TurnsManager.cs:82-87 | the count goes up by one (wrapping) and every listener hears the new count |
| Turns.SetTurns | CardMatch/Assets/CardMatchingGame/Scripts/GamePlay/TurnsManager.cs:93-97 | the count becomes the given value and every listener hears it |
| Turns.IncrementIsSetToSuccessor | CardMatch/Assets/CardMatchingGame/Scripts/GamePlay/TurnsManager.cs:82-97 | incrementing equals setting the successor; below the maximum it is exactly one more |
| Turns.OnDestroy | CardMatch/Assets/CardMatchingGame/Scripts/GamePlay/TurnsManager.cs:106-110 | no listeners remain and the count stays |
| PowerUps.PowerUpName | CardMatch/Assets/CardMatchingGame/Scripts/GamePlay/PowerUp/RevealAllCardPowerUp.cs:20-23 | the reveal power-up is called "Reveal All Cards" |
| PowerUps.Activate | CardMatch/Assets/CardMatchingGame/Scripts/GamePlay/PowerUp/RevealAllCardPowerUp.cs:34-37 | activation hints exactly the active face-down cards and changes no card |
| PowerUps.Deactivate | CardMatch/Assets/CardMatchingGame/Scripts/GamePlay/PowerUp/PowerUp.cs:29 | deactivation changes nothing |
| PowerUps.Init | CardMatch/Assets/CardMatchingGame/Scripts/GamePlay/PowerUp/PowerUpManager.cs:47-50 | the list is replaced wholesale and the count becomes its length |
| PowerUps.DeactivatePowerUp | CardMatch/Assets/CardMatchingGame/Scripts/GamePlay/PowerUp/PowerUpManager.cs:74-81 | a registered power-up loses its first registration; an unregistered one changes nothing |
| PowerUps.ActivatePowerUp | CardMatch/Assets/CardMatchingGame/Scripts/GamePlay/PowerUp/PowerUpManager.cs:55-63 | with none left nothing happens; otherwise the head fires a hint of exactly the active face-down cards and is removed, the count drops by one and the rest keep their order |
| PowerUps.PowerUpCount | CardMatch/Assets/CardMatchingGame/Scripts/GamePlay/PowerUp/PowerUpManager.cs:91 | the count is the length of the active list |
| Evaluator.Deliver | CardMatch/Assets/CardMatchingGame/Scripts/GamePlay/CardsGridManager.cs:138-166 | the grid manager adds a point and a turn on a match and a turn on a no-match; the cards manager deactivates (match) or flips (no-match) exactly the two cards; one delivery is logged |
| Evaluator.Notify | CardMatch/Assets/CardMatchingGame/Scripts/GamePlay/GameResultEvaluator.cs:153-192 | every registered listener hears the notification once, in registration order |
| Evaluator.Outcome | CardMatch/Assets/CardMatchingGame/Scripts/GamePlay/GameResultEvaluator.cs:104-125 | a pair is a match exactly when the card data are equal, otherwise a no-match |
| Evaluator.Evaluate | CardMatch/Assets/CardMatchingGame/Scripts/GamePlay/GameResultEvaluator.cs:104-129 | the trace is: evaluation started, then the outcome, then game finished only after a match that left no active card; only the two cards change |
| Evaluator.EvaluateOldest | CardMatch/Assets/CardMatchingGame/Scripts/GamePlay/GameResultEvaluator.cs:91-98 | the two oldest queued cards are taken and their evaluation-started round comes first |
| Evaluator.Drain | CardMatch/Assets/CardMatchingGame/Scripts/GamePlay/GameResultEvaluator.cs:91-98 | draining keeps the listeners, the board size and every card's identity |
| Evaluator.DrainLeavesSuffix | CardMatch/Assets/CardMatchingGame/Scripts/GamePlay/GameResultEvaluator.cs:91-98 | draining consumes pairs in FIFO order and leaves the last card of an odd queue, nothing of an even one |
| Evaluator.DrainStartsWithOldestPair | CardMatch/Assets/CardMatchingGame/Scripts/GamePlay/GameResultEvaluator.cs:93-97 | the first thing a drain announces is the evaluation of the two oldest cards |
| Evaluator.StartedComesFirst | CardMatch/Assets/CardMatchingGame/Scripts/GamePlay/GameResultEvaluator.cs:96-97 | every listener hears evaluation-started before any outcome of that pair |
| Evaluator.OnCardRevealed | CardMatch/Assets/CardMatchingGame/Scripts/GamePlay/GameResultEvaluator.cs:83-99 | a card is queued only if face up; afterwards at most one card waits, the newest, according to the parity of the queue |
| Evaluator.OnCardEvents | CardMatch/Assets/CardMatchingGame/Scripts/GamePlay/GameResultEvaluator.cs:206-232 | only a finished face-up flip reaches the evaluator; other card events change nothing |
| Evaluator.Click | CardMatch/Assets/CardMatchingGame/Scripts/GamePlay/Card.cs:62-139 | an inactive card (click handler unsubscribed) or a face-up card ignores the click; a hidden active card turns face up and is revealed |
| Evaluator.AddListener | CardMatch/Assets/CardMatchingGame/Scripts/GamePlay/GameResultEvaluator.cs:55-58 | the listener is registered last and nothing else changes |
| Evaluator.RemoveListener | CardMatch/Assets/CardMatchingGame/Scripts/GamePlay/GameResultEvaluator.cs:63-66 | the first registration of the listener goes and nothing else changes |
| Evaluator.OnDisable | CardMatch/Assets/CardMatchingGame/Scripts/GamePlay/GameResultEvaluator.cs:201-204 | no result listener remains and nothing else changes |
| Play.NotifyStandard | CardMatch/Assets/CardMatchingGame/Scripts/GamePlay/CardsGridManager.cs:79-81 | with the session's registration the grid manager reacts before the cards manager |
| Play.EvaluateStandard | CardMatch/Assets/CardMatchingGame/Scripts/GamePlay/CardsGridManager.cs:146-158 | one evaluation: a match adds a point and a turn and deactivates both cards, a no-match adds a turn and flips both |
| Play.QueuedIsTheFaceUpCard | CardMatch/Assets/CardMatchingGame/Scripts/GamePlay/GameResultEvaluator.cs:85-88 | in play, the waiting card is the one active face-up card, never a hidden card |
| Play.FirstRevealStep | CardMatch/Assets/CardMatchingGame/Scripts/GamePlay/GameResultEvaluator.cs:83-99 | a first reveal only turns the card up and queues it; nobody is notified |
| Play.DrainPair | CardMatch/Assets/CardMatchingGame/Scripts/GamePlay/GameResultEvaluator.cs:91-97 | a queue of two is one evaluation of those two, oldest first |
| Play.SecondRevealStep | CardMatch/Assets/CardMatchingGame/Scripts/GamePlay/GameResultEvaluator.cs:91-97 | a second reveal evaluates the waiting card with the new one and empties the queue |
| Play.ScoreIsSmall | CardMatch/Assets/CardMatchingGame/Scripts/GamePlay/CardsGridManager.cs:146-150 | in play the score counts matched pairs of at most 104 cards, so a point never wraps |
| Play.EvaluateMatch | CardMatch/Assets/CardMatchingGame/Scripts/GamePlay/CardsGridManager.cs:146-150 | a matching pair leaves the board, score and turns go up by one |
| Play.MatchStep | CardMatch/Assets/CardMatchingGame/Scripts/GamePlay/CardsGridManager.cs:146-150 | the click completing a match: both cards inactive and face up, score + 1, turns + 1, queue empty |
| Play.EvaluateMatchTrace | CardMatch/Assets/CardMatchingGame/Scripts/GamePlay/GameResultEvaluator.cs:104-118 | the notifications of a match, grid manager first, with game finished exactly when no active card is left |
| Play.MatchTrace | CardMatch/Assets/CardMatchingGame/Scripts/GamePlay/GameResultEvaluator.cs:104-118 | the same for the click completing a match |
| Play.EvaluateNoMatch | CardMatch/Assets/CardMatchingGame/Scripts/GamePlay/CardsGridManager.cs:155-158 | a non-matching pair turns face down, turns + 1, score unchanged, only started and no-match heard |
| Play.NoMatchStep | CardMatch/Assets/CardMatchingGame/Scripts/GamePlay/GameResultEvaluator.cs:119-125 | the same for the click completing a no-match |
| Play.RevealKeepsWellFormed | CardMatch/Assets/CardMatchingGame/Scripts/GamePlay/GameResultEvaluator.cs:85-88 | the state after a first reveal keeps the play invariant |
| Play.MatchKeepsWellFormed | CardMatch/Assets/CardMatchingGame/Scripts/GamePlay/CardsGridManager.cs:146-150 | the state after a match keeps the play invariant (two more inactive cards, one more point) |
| Play.NoMatchKeepsWellFormed | CardMatch/Assets/CardMatchingGame/Scripts/GamePlay/CardsGridManager.cs:155-158 | the state after a no-match keeps the play invariant |
| Play.ClickMatchKeepsWellFormed | CardMatch/Assets/CardMatchingGame/Scripts/GamePlay/GameResultEvaluator.cs:106-117 | a click completing a match keeps the play invariant |
| Play.ClickNoMatchKeepsWellFormed | CardMatch/Assets/CardMatchingGame/Scripts/GamePlay/GameResultEvaluator.cs:119-125 | a click completing a no-match keeps the play invariant |
| Play.ClickKeepsWellFormed | CardMatch/Assets/CardMatchingGame/Scripts/GamePlay/GameResultEvaluator.cs:83-99 | no click leads out of the play invariant: at most one card waits, it is the face-up active one, twice the score is the matched count |
| Play.FinishedIffFullScore | CardMatch/Assets/CardMatchingGame/Scripts/GamePlay/GameResultEvaluator.cs:134-144 | in play the game is over exactly when twice the score is the board size |
| Play.NothingAfterFinish | CardMatch/Assets/CardMatchingGame/Scripts/GamePlay/Card.cs:62-70 | once every card is matched no click has any effect |
| Config.Default | CardMatch/Assets/CardMatchingGame/Scripts/GamePlay/GameConfig.cs:30-35 | a new config is 2 by 2 and does not load a saved game |
| Config.Assign | CardMatch/Assets/CardMatchingGame/Scripts/GamePlay/GameConfig.cs:44-66 | each setter stores any value without validation and changes only its own property |
| Config.GettersReturnLastAssignment | CardMatch/Assets/CardMatchingGame/Scripts/GamePlay/GameConfig.cs:44-66 | after any run of setter calls each getter returns the value its setter stored last, or the initial value |
| Screens.PushScreen | CardMatch/Assets/CardMatchingGame/Scripts/UI/UIManager.cs:42-46 | the screen goes on top and is shown; the stack grows by one and the rest stays |
| Screens.PopScreen | CardMatch/Assets/CardMatchingGame/Scripts/UI/UIManager.cs:52-63 | no-op on an empty stack; otherwise the top goes and is hidden, and the new top, if any, is shown |
| Screens.HandleBackPress | CardMatch/Assets/CardMatchingGame/Scripts/UI/UIManager.cs:69-80 | no-op on an empty stack; pops exactly when the top screen does not handle the back press |
| Screens.PushThenPop | CardMatch/Assets/CardMatchingGame/Scripts/UI/UIManager.cs:42-63 | a pop undoes a push: the stack returns, and so does visibility when the pushed screen was hidden and the old top shown |
| Screens.BackPressPops | CardMatch/Assets/CardMatchingGame/Scripts/UI/UIScreen.cs:43-46 | with the default answer every back press removes the top and keeps the order of the rest |
| StartGame.Start | CardMatch/Assets/CardMatchingGame/Scripts/GamePlay/StartGame.cs:29-37 | the menu starts at 2 by 2 with the home screen pushed |
| StartGame.OnDropDownValueChanged | CardMatch/Assets/CardMatchingGame/Scripts/GamePlay/StartGame.cs:47-76 | indices 0 to 5 select 2×2, 2×3, 3×4, 3×6, 4×4, 4×6; any other index changes nothing |
| StartGame.OnToggleValueChanged | CardMatch/Assets/CardMatchingGame/Scripts/GamePlay/StartGame.cs:98-101 | the load flag takes the given value and the size stays |
| StartGame.OnPlayButtonClicked | CardMatch/Assets/CardMatchingGame/Scripts/GamePlay/StartGame.cs:81-92 | the config carries the menu's rows, cols and load flag |
| StartGame.SizeStaysOffered | CardMatch/Assets/CardMatchingGame/Scripts/GamePlay/StartGame.cs:47-76 | whatever the player does, the chosen size stays one the dropdown offers |
| StartGame.OfferedSizesArePairable | CardMatch/Assets/CardMatchingGame/Scripts/GamePlay/StartGame.cs:51-74 | every offered size has an even cell count between 1 and 24, with no 32-bit wrap |
| StartGame.PlayDealsPairedCards | CardMatch/Assets/CardMatchingGame/Scripts/GamePlay/StartGame.cs:81-92 | a game started from any reachable menu state deals successfully and every dealt card has a partner |
| SaveGame.NewGridData | CardMatch/Assets/CardMatchingGame/Scripts/SaveGame/GameGridStateData.cs:33-37 | row and col are stored verbatim and the card list is unset |
| SaveGame.SetCardsData | CardMatch/Assets/CardMatchingGame/Scripts/SaveGame/GameGridStateData.cs:51-55 | the card list is the one assigned last; row and col never change |
| SaveGame.NewGameState | CardMatch/Assets/CardMatchingGame/Scripts/SaveGame/GameState.cs:36-39 | zero score, turns and power count, with grid data of the given size |
| SaveGame.SetGridData | CardMatch/Assets/CardMatchingGame/Scripts/SaveGame/GameState.cs:50-53 | only the card list is replaced |
| SaveGame.SetScore | CardMatch/Assets/CardMatchingGame/Scripts/SaveGame/GameState.cs:59-62 | only the score changes |
| SaveGame.SetTurns | CardMatch/Assets/CardMatchingGame/Scripts/SaveGame/GameState.cs:68-71 | only the turns change |
| SaveGame.SetPowerCount | CardMatch/Assets/CardMatchingGame/Scripts/SaveGame/GameState.cs:77-80 | only the power count changes |
| SaveGame.SettersCommute | CardMatch/Assets/CardMatchingGame/Scripts/SaveGame/GameState.cs:50-80 | setters of different fields commute and the last write to a field wins |
| SaveGame.CaptureCard | CardMatch/Assets/CardMatchingGame/Scripts/SaveGame/SaveAndLoadGameData.cs:113-117 | an entry copies id, suit and rank, is matched exactly when the card is inactive, and keeps the current face |
| SaveGame.CaptureCards | CardMatch/Assets/CardMatchingGame/Scripts/SaveGame/SaveAndLoadGameData.cs:109-118 | one entry per card, in grid order |
| SaveGame.Save | CardMatch/Assets/CardMatchingGame/Scripts/SaveGame/SaveAndLoadGameData.cs:104-128 | the snapshot holds one entry per card in order, the current score, turns and power-up count, and keeps its grid size |
| SaveGame.ConfigurePowerUps | CardMatch/Assets/CardMatchingGame/Scripts/SaveGame/SaveAndLoadGameData.cs:85-94 | exactly `count` reveal power-ups, none for a count of zero or below |
| SaveGame.RestoreCard | CardMatch/Assets/CardMatchingGame/Scripts/GamePlay/CardsManager.cs:58-67 | a rebuilt card has the saved identity, is active exactly when unmatched, and shows the saved face only when unmatched |
| SaveGame.InstantiateCards | CardMatch/Assets/CardMatchingGame/Scripts/GamePlay/CardsManager.cs:56-68 | one rebuilt card per entry, in order |
| SaveGame.Rereport | CardMatch/Assets/CardMatchingGame/Scripts/GamePlay/CardsManager.cs:72-79 | re-reporting the face-up cards keeps the listeners, the board size and every identity |
| SaveGame.RereportNone | CardMatch/Assets/CardMatchingGame/Scripts/GamePlay/CardsManager.cs:72-79 | with no face-up card left the loop changes nothing |
| SaveGame.ReportFaceUp | CardMatch/Assets/CardMatchingGame/Scripts/GamePlay/Card.cs:183-190 | setting a face-up card front facing with nothing queued queues it and notifies nobody |
| SaveGame.RevealIntoEmptyQueue | CardMatch/Assets/CardMatchingGame/Scripts/GamePlay/GameResultEvaluator.cs:83-99 | revealing a face-up card into an empty queue only queues it |
| SaveGame.RereportOne | CardMatch/Assets/CardMatchingGame/Scripts/GamePlay/CardsManager.cs:72-79 | with exactly one face-up card the loop queues it and evaluates nothing |
| SaveGame.InstantiateFromSavedData | CardMatch/Assets/CardMatchingGame/Scripts/GamePlay/CardsManager.cs:52-80 | the board becomes the saved cards, in order and with their identities, and the listeners stay |
| SaveGame.InstantiateQuiet | CardMatch/Assets/CardMatchingGame/Scripts/GamePlay/CardsManager.cs:52-80 | when at most one unmatched entry was saved face up, the board is exactly the rebuilt cards and that card alone waits in the queue |
| SaveGame.ConfigureSavedData | CardMatch/Assets/CardMatchingGame/Scripts/SaveGame/SaveAndLoadGameData.cs:65-78 | a missing file or card list fails; otherwise the snapshot is adopted, score and turns are set before the cards are rebuilt, the saved number of power-ups is re-created, and the config takes the saved size |
| SaveGame.Open | CardMatch/Assets/CardMatchingGame/Scripts/SaveGame/SaveAndLoadGameData.cs:36-55 | a fresh snapshot of the configured size, and a load exactly when the config asks for it |
| SaveGame.RestoreOfCapture | CardMatch/Assets/CardMatchingGame/Scripts/GamePlay/CardsManager.cs:63-67 | a saved and rebuilt card keeps identity and matched flag; only an unmatched card keeps its face |
| SaveGame.SaveThenLoad | CardMatch/Assets/CardMatchingGame/Scripts/SaveGame/SaveAndLoadGameData.cs:65-78 | saving in play and loading into a fresh engine restores score, turns, power count, queue, identities and matched flags, puts matched cards face down, and satisfies the play invariant |
| SaveGame.MatchedCardsComeBackFaceDown | CardMatch/Assets/CardMatchingGame/Scripts/GamePlay/CardsManager.cs:63-67 | the round trip is not exact: a matched card that showed its front comes back face down |
| Session.Init | CardMatch/Assets/CardMatchingGame/Scripts/GamePlay/CardsGridManager.cs:69-100 | the session fails with `DealFailed` exactly when the 32-bit cell count cannot be dealt; with a deal in hand and a load requested it fails with `LoadFailed` when the save file or its card list is missing; a new game has Rows·Cols cards, score and turns 0 with the HUD subscribed, grid manager then cards manager registered, and three power-ups |
| Session.NewGameIsWellFormed | CardMatch/Assets/CardMatchingGame/Scripts/GamePlay/CardsGridManager.cs:69-100 | a new game satisfies the play invariant with every card face down and active |
| Session.ResumeSavedGame | CardMatch/Assets/CardMatchingGame/Scripts/GamePlay/CardsGridManager.cs:87-94 | resuming a game saved in play gives back its counters, power count, size and queue, with matched cards face down, under the play invariant |
| Session.CreateGrid | CardMatch/Assets/CardMatchingGame/Scripts/GamePlay/CardsGridManager.cs:109-129 | the row-by-row layout places every card index below min(count, rows·cols) exactly once, in order |
| Session.OnCardClick | CardMatch/Assets/CardMatchingGame/Scripts/GamePlay/CardsGridManager.cs:163-166 | a click runs the engine step and pushes the game-complete popup exactly when the grid manager hears game finished |
| Session.ActiveCardBlocksFinish | CardMatch/Assets/CardMatchingGame/Scripts/GamePlay/GameResultEvaluator.cs:134-144 | a board with an active card is not finished |
| Session.FirstRevealNeverFinishes | CardMatch/Assets/CardMatchingGame/Scripts/GamePlay/GameResultEvaluator.cs:111-117 | a first reveal never announces or reaches the end of the game |
| Session.MatchFinishesIffCleared | CardMatch/Assets/CardMatchingGame/Scripts/GamePlay/GameResultEvaluator.cs:111-117 | a match announces game finished exactly when it leaves no active card |
| Session.NoMatchNeverFinishes | CardMatch/Assets/CardMatchingGame/Scripts/GamePlay/GameResultEvaluator.cs:119-125 | a no-match never announces or reaches the end of the game |
| Session.PopupExactlyWhenBoardCleared | CardMatch/Assets/CardMatchingGame/Scripts/GamePlay/CardsGridManager.cs:163-166 | in play the popup goes up exactly on the click that deactivates the last active card |
| Session.OnSaveBtnClicked | CardMatch/Assets/CardMatchingGame/Scripts/GamePlay/CardsGridManager.cs:184-187 | the save button updates only the snapshot, with the live score, turns, power count and one entry per card |
| Session.OnClickPowerUp | CardMatch/Assets/CardMatchingGame/Scripts/GamePlay/CardsGridManager.cs:192-195 | a power-up use changes only the power-up list, lowering the count by one when any is left, and hints only active face-down cards |
| Session.ThreeHintsPerSession | CardMatch/Assets/CardMatchingGame/Scripts/GamePlay/CardsGridManager.cs:87-92 | three power-ups allow exactly three hints; a fourth use does nothing |
| Session.DestroyGame | CardMatch/Assets/CardMatchingGame/Scripts/GamePlay/CardsGridManager.cs:53-60 | destroying the grid (`DestroyGame`, lines 212-215, runs `OnDestroy`): no card is left on the board or in the queue, every result listener and counter subscription is dropped, only the counters' values remain, and the screens are untouched |
| Session.OnHomeBtnClicked | CardMatch/Assets/CardMatchingGame/Scripts/GamePlay/CardsGridManager.cs:175-179 | leaving pushes the home screen and then destroys the grid, with the same teardown as `DestroyGame` |
| Session.OnPopupHomeClicked | CardMatch/Assets/CardMatchingGame/Scripts/UI/GameCompletePopup.cs:87-103 | the popup's home button pops the popup, pushes the home screen and, through the grid manager's `OnClickHomeButton` (CardsGridManager.cs:200-203), destroys the grid exactly as the home button does |
| Session.PopupHomeEndsTheWonGame | CardMatch/Assets/CardMatchingGame/Scripts/UI/GameCompletePopup.cs:95-101 | with the game-complete popup on top (where a winning click puts it), its home button leaves the screens below with the shown home screen on top, hides the popup unless it is stacked again below, and ends the session as the home button does |
| Session.LeavingEndsTheSession | CardMatch/Assets/CardMatchingGame/Scripts/GamePlay/CardsGridManager.cs:175-179 | after leaving nothing is left to play: the game counts as finished, a second press only pushes another home screen, and a hint has no card to show |

## Left out

- Animation and rendering: DOTween rotations, `FLIP_DURATION`, sprites and the floating-point grid positions of `CreateGrid`. Only the index mapping of the layout is modelled.
- The settle pauses (`Task.Delay`) and the `clickable.enabled` gate. Each evaluation is one atomic step, so overlapping `async` evaluations are not modelled.
- Evaluator.OnCardRevealed: in the code, a no-match flip on a card that was queued twice turns it face up again and reports it once more. The model ignores that second report, because a card is queued twice only when a face-up card is clicked, which `Card.OnCardClicked` refuses.
- Randomness: `Random.Range` is the `picks` parameter. Uniformity of the shuffle is a probabilistic property and is not stated.
- File I/O and JSON (`File.ReadAllText`, `File.WriteAllText`, `JsonUtility`): the snapshot is an in-memory value, and a malformed file is not modelled.
- Audio, HUD text, toasts, faders and the screen factory lookup: these are UI plumbing without game state. The game-complete popup's home button is modelled (`Session.OnPopupHomeClicked`); its registration of the grid manager is taken as given.
- The card-event listener registration of the evaluator (`GameResultEvaluator.Init`) and of the card listeners: every card is taken to report to the evaluator.
- Singleton `Instance` wiring: state is passed explicitly.
- SaveGame.InstantiateFromSavedData: requires an empty evaluator queue. It is only called while a session is set up, before any reveal, and queued positions of destroyed cards have no meaning in an index model.
- SaveGame.ConfigureSavedData: on a missing card list the model returns only the failure. In the code the exception comes after the score and turns are set (and their listeners told), the power-up list is replaced, `Rows` and `Cols` are overwritten with the saved size, and `DestroyAllCards` has destroyed and cleared the dealt board. The exception then aborts `CardsGridManager.Init` before `hudManager.AddListener` and `CreateGrid`. None of this half-built state is modelled. A missing save file fails before any change, as modelled.
- SaveGame.Save: requires at most `int.MaxValue` power-ups, the capacity of a C# `List`.
- Session.CreateGrid: requires `rows * cols` to fit in an `int`, so the index computation never wraps. Every offered size is far below that.
- Session.Init: the HUD's own listener registration and `UpdatePowerUpCount` are not modelled; they only refresh text. The game-complete popup's registration of the grid manager (CardsGridManager.cs:83-85) is not a step of `Init` here; it is what lets `Session.OnPopupHomeClicked` end the session.
- The main menu's other buttons and the no-saved-game popup (`MainMenuScreen`, `NoSavedGamePopup`): only the identifier of that popup is modelled.
- Session.DestroyGame (behind `Session.OnHomeBtnClicked` and `Session.OnPopupHomeClicked`): the destruction of the grid object, its child card objects and the card listeners (`CardsManager.OnDestroy`) is modelled only as an empty board and queue; the returned `Game` is the ended session's value, which the code no longer holds.
- PowerUps.PowerUp: power-ups are values, not objects compared by reference. The registry removes only its head, where both identities agree.
