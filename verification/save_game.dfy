/** The save snapshot (`GameState`, `GameGridStateData`, `CardStateData`)
    and `SaveAndLoadGameData`: capturing the session into a snapshot, and
    rebuilding the session from one. The snapshot file is an in-memory value:
    `None` stands for a missing file. */
module SaveGame {
  import opened CSharpInt
  import opened Results
  import opened Cards
  import opened Evaluator
  import Config
  import Score
  import Turns
  import PowerUps
  import Grid
  import Play

  /** One saved card; there are no setters, so an entry never changes. */
  datatype CardStateData = CardStateData(id: int, suit: string, rank: string, isMatched: bool, cardFace: CardFace)

  /** The saved grid: its dimensions, fixed at construction, and the card
      list, which is unset (`null`) until assigned. */
  datatype GameGridStateData = GameGridStateData(row: Int32, col: Int32, cardsData: Option<seq<CardStateData>>)

  datatype GameState = GameState(score: Int32, turns: Int32, powerCount: Int32, gridData: GameGridStateData)

  function NewGridData(row: Int32, col: Int32): (g: GameGridStateData)
    ensures g.row == row && g.col == col && g.cardsData.None?
  {
    GameGridStateData(row, col, None)
  }

  /** The `CardsData` setter: replaces the card list, never the dimensions. */
  function SetCardsData(g: GameGridStateData, cards: seq<CardStateData>): (r: GameGridStateData)
    ensures r.cardsData == Some(cards) && r.row == g.row && r.col == g.col
  {
    g.(cardsData := Some(cards))
  }

  /** `new GameState(rows, cols)`: zero counters and an empty grid record. */
  function NewGameState(rows: Int32, cols: Int32): (gs: GameState)
    ensures gs.score == 0 && gs.turns == 0 && gs.powerCount == 0
    ensures gs.gridData.row == rows && gs.gridData.col == cols && gs.gridData.cardsData.None?
  {
    GameState(0, 0, 0, NewGridData(rows, cols))
  }

  function SetGridData(gs: GameState, cards: seq<CardStateData>): (r: GameState)
    ensures r.gridData.cardsData == Some(cards)
    ensures r.gridData.(cardsData := gs.gridData.cardsData) == gs.gridData
    ensures r.(gridData := gs.gridData) == gs
  {
    gs.(gridData := SetCardsData(gs.gridData, cards))
  }

  function SetScore(gs: GameState, score: Int32): (r: GameState)
    ensures r.score == score && r.(score := gs.score) == gs
  {
    gs.(score := score)
  }

  function SetTurns(gs: GameState, turns: Int32): (r: GameState)
    ensures r.turns == turns && r.(turns := gs.turns) == gs
  {
    gs.(turns := turns)
  }

  function SetPowerCount(gs: GameState, count: Int32): (r: GameState)
    ensures r.powerCount == count && r.(powerCount := gs.powerCount) == gs
  {
    gs.(powerCount := count)
  }

  /** Setters of different fields commute, and a second write to the same
      field hides the first. */
  lemma SettersCommute(gs: GameState, score: Int32, turns: Int32, count: Int32, cards: seq<CardStateData>, score2: Int32)
    ensures SetScore(SetTurns(gs, turns), score) == SetTurns(SetScore(gs, score), turns)
    ensures SetPowerCount(SetGridData(gs, cards), count) == SetGridData(SetPowerCount(gs, count), cards)
    ensures SetScore(SetScore(gs, score2), score) == SetScore(gs, score)
  {
  }

  /** The entry `Save` writes for one card object: its identity, whether it
      is matched (its game object inactive) and its current face. */
  function CaptureCard(c: Card): (s: CardStateData)
    ensures s.id == c.data.id && s.suit == c.data.suit && s.rank == c.data.rank
    ensures s.isMatched <==> !c.active
    ensures s.cardFace == c.face
  {
    CardStateData(c.data.id, c.data.suit, c.data.rank, !c.active, c.face)
  }

  function CaptureCards(cards: seq<Card>): (r: seq<CardStateData>)
    ensures |r| == |cards|
    ensures forall k :: 0 <= k < |cards| ==> r[k] == CaptureCard(cards[k])
  {
    seq(|cards|, k requires 0 <= k < |cards| => CaptureCard(cards[k]))
  }

  /** `Save` (the snapshot part): one entry per card in grid order, then the
      score, the turn count and the number of unspent power-ups. The grid
      dimensions of the held state are kept. A `List` never holds more than
      `int.MaxValue` entries, hence the bound on the power-up list. */
  function Save(gs: GameState, e: Engine, powerUps: PowerUps.PowerUpManager): (r: GameState)
    requires PowerUps.PowerUpCount(powerUps) <= MAX_VALUE
    ensures r.gridData.row == gs.gridData.row && r.gridData.col == gs.gridData.col
    ensures r.gridData.cardsData.Some? && |r.gridData.cardsData.value| == |e.cards|
    ensures forall k :: 0 <= k < |e.cards| ==> r.gridData.cardsData.value[k] == CaptureCard(e.cards[k])
    ensures r.score == e.score.score && r.turns == e.turns.turn
    ensures r.powerCount == PowerUps.PowerUpCount(powerUps)
  {
    var withCards := SetGridData(gs, CaptureCards(e.cards));
    var withScore := SetScore(withCards, e.score.score);
    var withTurns := SetTurns(withScore, e.turns.turn);
    SetPowerCount(withTurns, PowerUps.PowerUpCount(powerUps))
  }

  /** `ConfigurePowerUps`: `count` fresh reveal power-ups; none when `count`
      is zero or negative. */
  function ConfigurePowerUps(count: Int32): (r: seq<PowerUps.PowerUp>)
    ensures |r| == if count <= 0 then 0 else count
    ensures forall k :: 0 <= k < |r| ==> r[k] == PowerUps.RevealAllCards
  {
    if count <= 0 then [] else seq(count, _ => PowerUps.RevealAllCards)
  }

  /** One card rebuilt from its entry: initialised face down, active unless
      matched, and given its saved face only when unmatched. */
  function RestoreCard(s: CardStateData): (c: Card)
    ensures c.data == CardData(s.id, s.suit, s.rank)
    ensures c.active <==> !s.isMatched
    ensures c.face == if s.isMatched then BackFace else s.cardFace
  {
    var built := Instantiate(CardData(s.id, s.suit, s.rank)).(active := !s.isMatched);
    if s.isMatched then built else built.(face := s.cardFace)
  }

  function InstantiateCards(states: seq<CardStateData>): (r: seq<Card>)
    ensures |r| == |states|
    ensures forall k :: 0 <= k < |states| ==> r[k] == RestoreCard(states[k])
  {
    seq(|states|, k requires 0 <= k < |states| => RestoreCard(states[k]))
  }

  /** The second loop of `InstantiateFromSavedData`, from position `k` on:
      every card then showing its front is set front facing, which reports
      it to the evaluator. Earlier reports may already have flipped or
      deactivated later cards, so each card's face is read when reached. */
  function Rereport(e: Engine, k: nat): (r: (Engine, seq<Event>))
    requires QueueOnBoard(e) && k <= |e.cards|
    ensures QueueOnBoard(r.0)
    ensures r.0.listeners == e.listeners && |r.0.cards| == |e.cards|
    ensures forall j :: 0 <= j < |e.cards| ==> r.0.cards[j].data == e.cards[j].data
    decreases |e.cards| - k
  {
    if k == |e.cards| then
      (e, [])
    else if e.cards[k].face == FrontFace then
      var shown := SetCardFrontFacing(e.cards[k]);
      var step := OnCardEvents(e.(cards := e.cards[k := shown.0]), k, shown.1);
      assert forall j :: 0 <= j < |e.cards| ==> step.0.cards[j].data == e.cards[j].data;
      var rest := Rereport(step.0, k + 1);
      (rest.0, step.1 + rest.1)
    else
      Rereport(e, k + 1)
  }

  /** With no card showing its front from `k` on, the rest of the loop does
      nothing. */
  lemma {:induction false} RereportNone(e: Engine, k: nat)
    requires QueueOnBoard(e) && k <= |e.cards|
    requires forall j :: k <= j < |e.cards| ==> e.cards[j].face == BackFace
    ensures Rereport(e, k) == (e, [])
    decreases |e.cards| - k
  {
    if k < |e.cards| {
      RereportNone(e, k + 1);
    }
  }

  /** Revealing a face-up card into an empty queue only queues it. */
  lemma RevealIntoEmptyQueue(e: Engine, m: nat)
    requires QueueOnBoard(e) && e.queue == [] && m < |e.cards| && e.cards[m].face == FrontFace
    ensures OnCardRevealed(e, m) == (e.(queue := [m]), [])
  {
    assert [] + [m] == [m];
  }

  /** Setting an already face-up card front facing, with nothing queued,
      queues it. */
  lemma ReportFaceUp(e: Engine, m: nat)
    requires QueueOnBoard(e) && e.queue == [] && m < |e.cards| && e.cards[m].face == FrontFace
    ensures var shown := SetCardFrontFacing(e.cards[m]);
      OnCardEvents(e.(cards := e.cards[m := shown.0]), m, shown.1) == (e.(queue := [m]), [])
  {
    assert e.cards[m := SetCardFrontFacing(e.cards[m]).0] == e.cards;
    RevealIntoEmptyQueue(e, m);
  }

  /** With exactly one card `m` showing its front from `k` on and nothing
      queued, the loop queues `m` and evaluates nothing. */
  lemma {:induction false} RereportOne(e: Engine, k: nat, m: nat)
    requires QueueOnBoard(e) && e.queue == [] && k <= m < |e.cards|
    requires e.cards[m].face == FrontFace
    requires forall j :: k <= j < |e.cards| && j != m ==> e.cards[j].face == BackFace
    ensures Rereport(e, k) == (e.(queue := [m]), [])
    decreases |e.cards| - k
  {
    if k < m {
      RereportOne(e, k + 1, m);
    } else {
      ReportFaceUp(e, m);
      RereportNone(e.(queue := [m]), k + 1);
      var none: seq<Event> := [];
      assert none + none == none;
    }
  }

  /** `InstantiateFromSavedData`: replace the cards by the saved ones, then
      re-report the face-up ones. It is only reached while setting up a
      session, before any card has been revealed, so the queue is empty. */
  function InstantiateFromSavedData(e: Engine, states: seq<CardStateData>): (r: (Engine, seq<Event>))
    requires e.queue == []
    ensures QueueOnBoard(r.0)
    ensures r.0.listeners == e.listeners && |r.0.cards| == |states|
    ensures forall k :: 0 <= k < |states| ==> r.0.cards[k].data == CardData(states[k].id, states[k].suit, states[k].rank)
  {
    Rereport(e.(cards := InstantiateCards(states)), 0)
  }

  /** When at most one unmatched entry was saved face up, restoring queues
      exactly that card and triggers no evaluation: the cards are the rebuilt
      ones and the counters are untouched. */
  lemma InstantiateQuiet(e: Engine, states: seq<CardStateData>, queued: seq<nat>)
    requires e.queue == [] && |queued| <= 1
    requires forall k :: 0 <= k < |states| ==> (!states[k].isMatched && states[k].cardFace == FrontFace <==> k in queued)
    requires forall k :: 0 <= k < |queued| ==> queued[k] < |states|
    ensures InstantiateFromSavedData(e, states) == (e.(cards := InstantiateCards(states), queue := queued), [])
  {
    var restored := e.(cards := InstantiateCards(states));
    if |queued| == 0 {
      RereportNone(restored, 0);
    } else {
      assert queued == [queued[0]];
      RereportOne(restored, 0, queued[0]);
    }
  }

  datatype LoadError =
    | SaveFileMissing   // `File.ReadAllText` throws
    | CardListMissing   // the loaded grid has no card list: the `foreach` throws

  /** Everything a load (or a fresh start) leaves behind. */
  datatype Session = Session(
    state: GameState,
    config: Config.GameConfig,
    engine: Engine,
    powerUps: PowerUps.PowerUpManager,
    log: seq<Event>)

  /** `ConfigureSavedData`: adopt the loaded snapshot, set the score and the
      turn count (telling their listeners), re-create the saved number of
      power-ups, take the saved grid size into the config, and rebuild the
      cards. The counters are set before the cards are rebuilt, so a snapshot
      with two unmatched face-up cards is evaluated, and scored, on load.
      A failure returns only the error, not the half-applied changes the
      code leaves behind when the card list is missing. */
  function ConfigureSavedData(file: Option<GameState>, config: Config.GameConfig, e: Engine, powerUps: PowerUps.PowerUpManager): (r: Result<Session, LoadError>)
    requires e.queue == []
    ensures file.None? ==> r == Failure(SaveFileMissing)
    ensures file.Some? && file.value.gridData.cardsData.None? ==> r == Failure(CardListMissing)
    ensures file.Some? && file.value.gridData.cardsData.Some? ==> r.Success?
    ensures r.Success? ==>
      var gs := file.value;
      && r.value.state == gs
      && r.value.engine == InstantiateFromSavedData(
           e.(score := e.score.(score := gs.score), turns := e.turns.(turn := gs.turns)),
           gs.gridData.cardsData.value).0
      && PowerUps.PowerUpCount(r.value.powerUps) == (if gs.powerCount <= 0 then 0 else gs.powerCount)
      && r.value.config == config.(rows := gs.gridData.row, cols := gs.gridData.col)
      && r.value.engine.listeners == e.listeners
      && |r.value.engine.cards| == |gs.gridData.cardsData.value|
  {
    if file.None? then
      Failure(SaveFileMissing)
    else
      var gs := file.value;
      var (score, scoreNotes) := Score.SetScore(e.score, gs.score);
      var (turns, turnsNotes) := Turns.SetTurns(e.turns, gs.turns);
      var manager := PowerUps.Init(powerUps, ConfigurePowerUps(gs.powerCount));
      var resized := config.(rows := gs.gridData.row, cols := gs.gridData.col);
      if gs.gridData.cardsData.None? then
        Failure(CardListMissing)
      else
        var (engine, log) := InstantiateFromSavedData(e.(score := score, turns := turns), gs.gridData.cardsData.value);
        Success(Session(gs, resized, engine, manager, ScoreTrace(scoreNotes) + TurnsTrace(turnsNotes) + log))
  }

  /** The `SaveAndLoadGameData` constructor: a blank snapshot of the
      configured size, replaced by the saved one when the config asks for it. */
  function Open(config: Config.GameConfig, e: Engine, powerUps: PowerUps.PowerUpManager, file: Option<GameState>): (r: Result<Session, LoadError>)
    requires config.loadSavedGame ==> e.queue == []
    ensures !config.loadSavedGame ==> r == Success(Session(NewGameState(config.rows, config.cols), config, e, powerUps, []))
    ensures config.loadSavedGame ==> r == ConfigureSavedData(file, config, e, powerUps)
  {
    if config.loadSavedGame then
      ConfigureSavedData(file, config, e, powerUps)
    else
      Success(Session(NewGameState(config.rows, config.cols), config, e, powerUps, []))
  }

  /** The card a restore gives back for a live card: the same identity and
      matched flag; the face survives only on unmatched cards. */
  lemma RestoreOfCapture(c: Card)
    ensures RestoreCard(CaptureCard(c)).data == c.data
    ensures RestoreCard(CaptureCard(c)).active == c.active
    ensures RestoreCard(CaptureCard(c)).face == if c.active then c.face else BackFace
    ensures c.active ==> RestoreCard(CaptureCard(c)) == c
  {
  }

  /** Saving a well-formed session and loading the snapshot into a freshly
      set-up engine gives back the same score, turns, power-up count, queue
      and cards, except that matched cards come back face down; the restored
      session is well-formed again, and the config takes the snapshot's grid
      size. */
  lemma SaveThenLoad(e: Engine, gs: GameState, powerUps: PowerUps.PowerUpManager, config: Config.GameConfig, blank: Engine, spare: PowerUps.PowerUpManager)
    requires Play.WellFormed(e) && PowerUps.PowerUpCount(powerUps) <= MAX_VALUE
    requires blank.queue == [] && blank.listeners == STANDARD_LISTENERS
    ensures var r := ConfigureSavedData(Some(Save(gs, e, powerUps)), config, blank, spare);
      && r.Success?
      && r.value.engine.score.score == e.score.score
      && r.value.engine.turns.turn == e.turns.turn
      && PowerUps.PowerUpCount(r.value.powerUps) == PowerUps.PowerUpCount(powerUps)
      && r.value.config.rows == gs.gridData.row && r.value.config.cols == gs.gridData.col
      && r.value.engine.queue == e.queue
      && |r.value.engine.cards| == |e.cards|
      && (forall k :: 0 <= k < |e.cards| ==>
            && r.value.engine.cards[k].data == e.cards[k].data
            && r.value.engine.cards[k].active == e.cards[k].active
            && r.value.engine.cards[k].face == (if e.cards[k].active then e.cards[k].face else BackFace))
      && Play.WellFormed(r.value.engine)
  {
    var snapshot := Save(gs, e, powerUps);
    var states := snapshot.gridData.cardsData.value;
    assert states == CaptureCards(e.cards);
    var start := blank.(score := Score.SetScore(blank.score, e.score.score).0, turns := Turns.SetTurns(blank.turns, e.turns.turn).0);
    forall k | 0 <= k < |states|
      ensures !states[k].isMatched && states[k].cardFace == FrontFace <==> k in e.queue
    {
      assert states[k] == CaptureCard(e.cards[k]);
    }
    InstantiateQuiet(start, states, e.queue);
    var cards := InstantiateCards(states);
    forall k | 0 <= k < |e.cards|
      ensures cards[k].data == e.cards[k].data && cards[k].active == e.cards[k].active
      ensures cards[k].face == (if e.cards[k].active then e.cards[k].face else BackFace)
    {
      RestoreOfCapture(e.cards[k]);
    }
    Grid.InactiveCountOfFlags(cards, e.cards);
  }

  /** The round trip is not exact: a matched card keeps showing its front in
      play (matching only deactivates it) but comes back face down. */
  lemma MatchedCardsComeBackFaceDown(e: Engine, gs: GameState, powerUps: PowerUps.PowerUpManager, config: Config.GameConfig, blank: Engine, spare: PowerUps.PowerUpManager, k: nat)
    requires Play.WellFormed(e) && PowerUps.PowerUpCount(powerUps) <= MAX_VALUE
    requires blank.queue == [] && blank.listeners == STANDARD_LISTENERS
    requires k < |e.cards| && !e.cards[k].active && e.cards[k].face == FrontFace
    ensures var r := ConfigureSavedData(Some(Save(gs, e, powerUps)), config, blank, spare);
      r.Success? && r.value.engine.cards != e.cards
  {
    SaveThenLoad(e, gs, powerUps, config, blank, spare);
    var r := ConfigureSavedData(Some(Save(gs, e, powerUps)), config, blank, spare);
    assert r.value.engine.cards[k].face == BackFace;
  }
}
