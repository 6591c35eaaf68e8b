/** `CardsGridManager`: one game session. It deals the board, wires the
    counters, the evaluator and the power-ups together, optionally resumes a
    saved game, and routes clicks, saves and power-up use. */
module Session {
  import opened CSharpInt
  import opened Results
  import opened Cards
  import opened Constants
  import opened Evaluator
  import Config
  import Deck
  import Grid
  import Score
  import Turns
  import PowerUps
  import SaveGame
  import Screens
  import Play

  /** The HUD's score and turns callbacks. */
  const HUD_SCORE: nat := 0
  const HUD_TURNS: nat := 1

  /** The number of reveal power-ups a new session gets. */
  const POWER_UPS_PER_SESSION: nat := 3

  /** The game-complete popup; it does not handle the back button. */
  const GAME_COMPLETE: Screens.Screen := Screens.Screen(GAME_COMPLETE_POPUP, false)
  const HOME: Screens.Screen := Screens.Screen(HOME_SCREEN, false)

  datatype Game = Game(
    engine: Engine,
    powerUps: PowerUps.PowerUpManager,
    save: SaveGame.GameState,
    config: Config.GameConfig,
    ui: Screens.UIManager)

  datatype SessionError =
    | DealFailed                          // `GetRange` throws: the size is negative or beyond the deck
    | LoadFailed(error: SaveGame.LoadError)

  function CellCount(config: Config.GameConfig): Int32 {
    Wrap(config.rows * config.cols)
  }

  /** `Init`: deal `Rows * Cols` cards (a 32-bit product), start both
      counters at 0 with the HUD subscribed, register the grid manager and
      then the cards manager with the evaluator, hand out three power-ups,
      and let the save manager resume a saved game if the config asks. */
  function Init(config: Config.GameConfig, picks: seq<int>, file: Option<SaveGame.GameState>, ui: Screens.UIManager): (r: Result<Game, SessionError>)
    requires 0 <= CellCount(config) <= DECK_SIZE ==> Deck.IsDraw(picks, CellCount(config))
    ensures r == Failure(DealFailed) <==> CellCount(config) < 0 || DECK_SIZE < CellCount(config)
    ensures r.Success? ==> r.value.ui == ui
    ensures r.Success? && !config.loadSavedGame ==>
      && r.value.config == config
      && |r.value.engine.cards| == CellCount(config)
      && r.value.engine.queue == [] && r.value.engine.listeners == [GridManager, CardsManager]
      && r.value.engine.score.score == 0 && r.value.engine.turns.turn == 0
      && r.value.engine.score.listeners == [HUD_SCORE] && r.value.engine.turns.listeners == [HUD_TURNS]
      && PowerUps.PowerUpCount(r.value.powerUps) == POWER_UPS_PER_SESSION
      && r.value.save == SaveGame.NewGameState(config.rows, config.cols)
    ensures 0 <= CellCount(config) <= DECK_SIZE && config.loadSavedGame && file.None? ==>
      r == Failure(LoadFailed(SaveGame.SaveFileMissing))
    ensures 0 <= CellCount(config) <= DECK_SIZE && config.loadSavedGame && file.Some? && file.value.gridData.cardsData.None? ==>
      r == Failure(LoadFailed(SaveGame.CardListMissing))
  {
    var dealt := Deck.Deal(CellCount(config), picks);
    if dealt.Failure? then
      Failure(DealFailed)
    else
      var score := Score.AddScoreListner(Score.New(0), HUD_SCORE);
      var turns := Turns.AddTurnsListner(Turns.New(0), HUD_TURNS);
      var evaluator := Engine(dealt.value, [], [], score, turns);
      var engine := AddListener(AddListener(evaluator, GridManager), CardsManager);
      var powerUps := PowerUps.Init(PowerUps.PowerUpManager([]), seq(POWER_UPS_PER_SESSION, _ => PowerUps.RevealAllCards));
      var loaded := SaveGame.Open(config, engine, powerUps, file);
      if loaded.Failure? then
        Failure(LoadFailed(loaded.error))
      else
        var s := loaded.value;
        Success(Game(s.engine, s.powerUps, s.state, s.config, ui))
  }

  /** A new (not resumed) game starts in a well-formed state, with every
      card face down and active. */
  lemma NewGameIsWellFormed(config: Config.GameConfig, picks: seq<int>, file: Option<SaveGame.GameState>, ui: Screens.UIManager)
    requires 0 <= CellCount(config) <= DECK_SIZE && Deck.IsDraw(picks, CellCount(config))
    requires !config.loadSavedGame
    ensures Init(config, picks, file, ui).Success?
    ensures Play.WellFormed(Init(config, picks, file, ui).value.engine)
    ensures var cards := Init(config, picks, file, ui).value.engine.cards;
      forall k :: 0 <= k < |cards| ==> cards[k].face == BackFace && cards[k].active
  {
    var cards := Deck.Deal(CellCount(config), picks).value;
    Grid.FinishedIffAllInactive(cards);
    NoneInactive(cards);
  }

  lemma {:induction false} NoneInactive(cards: seq<Card>)
    requires forall k :: 0 <= k < |cards| ==> cards[k].active
    ensures Grid.InactiveCount(cards) == 0
    decreases |cards|
  {
    if |cards| > 0 {
      NoneInactive(cards[1..]);
    }
  }

  /** Resuming a game saved from a well-formed session: the deal for the
      configured size must succeed first (it happens before the load), then
      the session continues from the snapshot, well formed, with the saved
      score, turns, power-up count and grid size, and the matched cards face
      down. */
  lemma ResumeSavedGame(config: Config.GameConfig, picks: seq<int>, ui: Screens.UIManager,
                        e: Engine, gs: SaveGame.GameState, powerUps: PowerUps.PowerUpManager)
    requires 0 <= CellCount(config) <= DECK_SIZE && Deck.IsDraw(picks, CellCount(config))
    requires config.loadSavedGame
    requires Play.WellFormed(e) && PowerUps.PowerUpCount(powerUps) <= MAX_VALUE
    ensures var r := Init(config, picks, Some(SaveGame.Save(gs, e, powerUps)), ui);
      && r.Success?
      && Play.WellFormed(r.value.engine)
      && r.value.engine.score.score == e.score.score && r.value.engine.turns.turn == e.turns.turn
      && PowerUps.PowerUpCount(r.value.powerUps) == PowerUps.PowerUpCount(powerUps)
      && r.value.config.rows == gs.gridData.row && r.value.config.cols == gs.gridData.col
      && r.value.engine.queue == e.queue
      && |r.value.engine.cards| == |e.cards|
      && (forall k :: 0 <= k < |e.cards| ==>
            r.value.engine.cards[k].face == (if e.cards[k].active then e.cards[k].face else BackFace))
  {
    var dealt := Deck.Deal(CellCount(config), picks);
    var score := Score.AddScoreListner(Score.New(0), HUD_SCORE);
    var turns := Turns.AddTurnsListner(Turns.New(0), HUD_TURNS);
    var engine := AddListener(AddListener(Engine(dealt.value, [], [], score, turns), GridManager), CardsManager);
    var spare := PowerUps.Init(PowerUps.PowerUpManager([]), seq(POWER_UPS_PER_SESSION, _ => PowerUps.RevealAllCards));
    SaveGame.SaveThenLoad(e, gs, powerUps, config, engine, spare);
  }

  /** `CreateGrid` (the index part): visit the cells row by row and place the
      card at index `i * cols + j` when there is one. Every card index below
      the cell count is placed exactly once, in order. */
  method CreateGrid(rows: Int32, cols: Int32, count: nat) returns (placed: seq<nat>)
    requires rows <= 0 || cols <= 0 || rows * cols <= MAX_VALUE
    ensures var cells := if rows <= 0 || cols <= 0 then 0 else rows * cols;
      |placed| == (if count < cells then count else cells)
    ensures forall k :: 0 <= k < |placed| ==> placed[k] == k
  {
    placed := [];
    if cols <= 0 {
      return;
    }
    var i: int := 0;
    while i < rows
      invariant rows <= 0 ==> i == 0
      invariant rows > 0 ==> 0 <= i <= rows
      invariant |placed| == if count < i * cols then count else i * cols
      invariant forall k :: 0 <= k < |placed| ==> placed[k] == k
    {
      var j: int := 0;
      while j < cols
        invariant 0 <= j <= cols
        invariant |placed| == if count < i * cols + j then count else i * cols + j
        invariant forall k :: 0 <= k < |placed| ==> placed[k] == k
      {
        var index := i * cols + j;
        if index < count {
          placed := placed + [index];
        }
        j := j + 1;
      }
      assert i * cols + cols == (i + 1) * cols;
      i := i + 1;
    }
  }

  /** Whether the grid manager was told the game is finished. */
  predicate HeardGameFinished(log: seq<Event>) {
    (GridManager, GameFinished) in Deliveries(log)
  }

  /** A click during play; the grid manager answers a game-finished
      notification by pushing the game-complete popup. */
  function OnCardClick(g: Game, i: nat): (r: (Game, seq<Event>))
    requires QueueOnBoard(g.engine) && i < |g.engine.cards|
    ensures (r.0.engine, r.1) == Click(g.engine, i)
    ensures r.0.ui == if HeardGameFinished(r.1) then Screens.PushScreen(g.ui, GAME_COMPLETE) else g.ui
    ensures r.0.(engine := g.engine, ui := g.ui) == g
  {
    var (engine, log) := Click(g.engine, i);
    var ui := if HeardGameFinished(log) then Screens.PushScreen(g.ui, GAME_COMPLETE) else g.ui;
    (g.(engine := engine, ui := ui), log)
  }

  lemma ActiveCardBlocksFinish(cards: seq<Card>, i: nat)
    requires i < |cards| && cards[i].active
    ensures !Grid.CheckForGameFinish(cards)
  {
  }

  lemma FirstRevealNeverFinishes(e: Engine, i: nat)
    requires Play.WellFormed(e) && i < |e.cards| && e.cards[i].active && e.cards[i].face == BackFace
    requires e.queue == []
    ensures !HeardGameFinished(Click(e, i).1) && !Grid.CheckForGameFinish(Click(e, i).0.cards)
  {
    Play.FirstRevealStep(e, i);
    ActiveCardBlocksFinish(Click(e, i).0.cards, i);
  }

  lemma MatchFinishesIffCleared(e: Engine, i: nat)
    requires Play.WellFormed(e) && i < |e.cards| && e.cards[i].active && e.cards[i].face == BackFace
    requires |e.queue| == 1 && Matches(e.cards[e.queue[0]].data, e.cards[i].data)
    ensures HeardGameFinished(Click(e, i).1) <==> Grid.CheckForGameFinish(Click(e, i).0.cards)
  {
    Play.MatchTrace(e, i);
  }

  lemma NoMatchNeverFinishes(e: Engine, i: nat)
    requires Play.WellFormed(e) && i < |e.cards| && e.cards[i].active && e.cards[i].face == BackFace
    requires |e.queue| == 1 && !Matches(e.cards[e.queue[0]].data, e.cards[i].data)
    ensures !HeardGameFinished(Click(e, i).1) && !Grid.CheckForGameFinish(Click(e, i).0.cards)
  {
    Play.NoMatchStep(e, i);
    var after := Click(e, i).0.cards;
    assert after[i].active;
    ActiveCardBlocksFinish(after, i);
  }

  /** In a well-formed session the game-complete popup goes up on exactly
      the click that deactivates the last active card. */
  lemma PopupExactlyWhenBoardCleared(g: Game, i: nat)
    requires Play.WellFormed(g.engine) && i < |g.engine.cards|
    ensures var r := OnCardClick(g, i).0;
      (r.ui == Screens.PushScreen(g.ui, GAME_COMPLETE)) <==>
        (!Grid.CheckForGameFinish(g.engine.cards) && Grid.CheckForGameFinish(r.engine.cards))
  {
    var e := g.engine;
    var r := OnCardClick(g, i).0;
    assert |Screens.PushScreen(g.ui, GAME_COMPLETE).stack| == |g.ui.stack| + 1;
    if !e.cards[i].active || e.cards[i].face == FrontFace {
      assert Click(e, i) == (e, []);
    } else {
      ActiveCardBlocksFinish(e.cards, i);
      if e.queue == [] {
        FirstRevealNeverFinishes(e, i);
      } else if Matches(e.cards[e.queue[0]].data, e.cards[i].data) {
        MatchFinishesIffCleared(e, i);
      } else {
        NoMatchNeverFinishes(e, i);
      }
    }
  }

  /** `OnSaveBtnClicked`: take a snapshot; play goes on untouched. */
  function OnSaveBtnClicked(g: Game): (r: Game)
    requires PowerUps.PowerUpCount(g.powerUps) <= MAX_VALUE
    ensures r.(save := g.save) == g
    ensures r.save.score == g.engine.score.score && r.save.turns == g.engine.turns.turn
    ensures r.save.powerCount == PowerUps.PowerUpCount(g.powerUps)
    ensures r.save.gridData.cardsData.Some? && |r.save.gridData.cardsData.value| == |g.engine.cards|
  {
    g.(save := SaveGame.Save(g.save, g.engine, g.powerUps))
  }

  /** `OnClickPowerUp`: spend the oldest power-up on a hint. The board and
      the evaluator are untouched, so a well-formed session stays so. */
  function OnClickPowerUp(g: Game): (r: (Game, seq<nat>))
    ensures r.0.(powerUps := g.powerUps) == g
    ensures PowerUps.PowerUpCount(g.powerUps) == 0 ==> r == (g, [])
    ensures PowerUps.PowerUpCount(g.powerUps) > 0 ==>
      PowerUps.PowerUpCount(r.0.powerUps) == PowerUps.PowerUpCount(g.powerUps) - 1
    ensures forall n :: n in r.1 ==> n < |g.engine.cards| && g.engine.cards[n].active && g.engine.cards[n].face == BackFace
  {
    var (powerUps, cards, hinted) := PowerUps.ActivatePowerUp(g.powerUps, g.engine.cards);
    (g.(powerUps := powerUps), hinted)
  }

  /** A new session can spend exactly its three power-ups: after three uses
      a fourth does nothing. */
  lemma ThreeHintsPerSession(g: Game)
    requires PowerUps.PowerUpCount(g.powerUps) == POWER_UPS_PER_SESSION
    ensures var third := OnClickPowerUp(OnClickPowerUp(OnClickPowerUp(g).0).0).0;
      PowerUps.PowerUpCount(third.powerUps) == 0 && OnClickPowerUp(third) == (third, [])
  {
  }

  /** `DestroyGame`: the grid object is destroyed. It takes its child card
      objects with it, and its `OnDestroy` drops every result listener and
      counter subscription. The result is the ended session: no card is left
      on the board or in the queue, and only the counters' last values
      remain. The screens are not touched. */
  function DestroyGame(g: Game): (r: Game)
    ensures r.engine.cards == [] && r.engine.queue == []
    ensures r.engine.listeners == [] && r.engine.score.listeners == [] && r.engine.turns.listeners == []
    ensures r.engine.score.score == g.engine.score.score && r.engine.turns.turn == g.engine.turns.turn
    ensures r.(engine := g.engine) == g
  {
    var engine := OnDisable(g.engine);
    var engine := engine.(score := Score.OnDestroy(engine.score), turns := Turns.OnDestroy(engine.turns));
    g.(engine := engine.(cards := [], queue := []))
  }

  /** `OnHomeBtnClicked`: push the home screen and destroy the grid. */
  function OnHomeBtnClicked(g: Game): (r: Game)
    ensures r.ui == Screens.PushScreen(g.ui, HOME)
    ensures r.engine.cards == [] && r.engine.queue == []
    ensures r.engine.listeners == [] && r.engine.score.listeners == [] && r.engine.turns.listeners == []
    ensures r.engine.score.score == g.engine.score.score && r.engine.turns.turn == g.engine.turns.turn
    ensures r.(engine := g.engine, ui := g.ui) == g
  {
    DestroyGame(g.(ui := Screens.PushScreen(g.ui, HOME)))
  }

  /** The game-complete popup's home button: the popup pops itself, pushes
      the home screen, and tells its one listener, the grid manager, whose
      `OnClickHomeButton` destroys the grid. */
  function OnPopupHomeClicked(g: Game): (r: Game)
    ensures r.ui == Screens.PushScreen(Screens.PopScreen(g.ui), HOME)
    ensures r.engine == DestroyGame(g).engine
    ensures r.(engine := g.engine, ui := g.ui) == g
  {
    DestroyGame(g.(ui := Screens.PushScreen(Screens.PopScreen(g.ui), HOME)))
  }

  /** Leaving a won game through its popup (on top of the stack, as
      `OnCardClick` leaves it) ends the session as the home button does, and
      the popup gives way to the home screen on top of the screens below it. */
  lemma PopupHomeEndsTheWonGame(g: Game)
    requires |g.ui.stack| > 0 && g.ui.stack[|g.ui.stack| - 1] == GAME_COMPLETE
    ensures var left := OnPopupHomeClicked(g);
      && left.ui.stack == g.ui.stack[..|g.ui.stack| - 1] + [HOME]
      && HOME in left.ui.shown
      && (GAME_COMPLETE !in g.ui.stack[..|g.ui.stack| - 1] ==> GAME_COMPLETE !in left.ui.shown)
      && left.engine == OnHomeBtnClicked(g).engine
  {
  }

  /** After leaving, nothing is left to play: the game counts as finished,
      a second press only pushes another home screen, and no hint has a card
      to show. */
  lemma LeavingEndsTheSession(g: Game)
    ensures var left := OnHomeBtnClicked(g);
      && Grid.CheckForGameFinish(left.engine.cards)
      && OnHomeBtnClicked(left) == left.(ui := Screens.PushScreen(left.ui, HOME))
      && OnClickPowerUp(left).1 == []
  {
  }
}
