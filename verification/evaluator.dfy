/** `GameResultEvaluator` together with the two game-result listeners the
    session registers with it (`CardsGridManager`, `CardsManager`). Every
    evaluation runs to completion in one step: the settle pauses between the
    evaluation and its notifications are not modelled. */
module Evaluator {
  import opened CSharpInt
  import opened Cards
  import opened Listeners
  import Grid
  import Score
  import Turns

  /** The `IGameResultListner` implementations a session registers. */
  datatype ResultListener = GridManager | CardsManager

  /** The registration order of `CardsGridManager.Init`: the grid manager
      first, then the cards manager. */
  const STANDARD_LISTENERS: seq<ResultListener> := [GridManager, CardsManager]

  /** The notifications of `IGameResultListner`; cards are grid positions. */
  datatype ResultEvent =
    | EvaluationStarted(first: nat, second: nat)
    | MatchFound(first: nat, second: nat)
    | NoMatch(first: nat, second: nat)
    | GameFinished

  /** One entry of the observable trace: a result notification reaching a
      listener, or a score / turns delegate call. */
  datatype Event =
    | Delivered(to: ResultListener, event: ResultEvent)
    | ScoreChanged(note: Note)
    | TurnsChanged(note: Note)

  /** The evaluator with the state its listeners own: the card objects of the
      cards manager, the FIFO queue of revealed cards, the registered
      listeners, and the score and turn counters of the grid manager. */
  datatype Engine = Engine(
    cards: seq<Card>,
    queue: seq<nat>,
    listeners: seq<ResultListener>,
    score: Score.ScoreManager,
    turns: Turns.TurnsManager)

  predicate InBounds(ev: ResultEvent, n: nat) {
    ev.GameFinished? || (ev.first < n && ev.second < n)
  }

  /** Whether delivering `ev` may change the card at position `k`. */
  predicate Touches(ev: ResultEvent, k: nat) {
    (ev.MatchFound? || ev.NoMatch?) && (k == ev.first || k == ev.second)
  }

  /** Every queued card is on the board. */
  predicate QueueOnBoard(e: Engine) {
    forall k :: 0 <= k < |e.queue| ==> e.queue[k] < |e.cards|
  }

  /** The result notifications in a trace, in order. */
  function Deliveries(log: seq<Event>): (r: seq<(ResultListener, ResultEvent)>)
    ensures |r| <= |log|
  {
    if |log| == 0 then []
    else if log[0].Delivered? then [(log[0].to, log[0].event)] + Deliveries(log[1..])
    else Deliveries(log[1..])
  }

  lemma {:induction false} DeliveriesAppend(a: seq<Event>, b: seq<Event>)
    ensures Deliveries(a + b) == Deliveries(a) + Deliveries(b)
    decreases |a|
  {
    if |a| == 0 {
      assert a + b == b;
    } else {
      assert (a + b)[0] == a[0];
      assert (a + b)[1..] == a[1..] + b;
      DeliveriesAppend(a[1..], b);
    }
  }

  lemma {:induction false} NoDeliveries(log: seq<Event>)
    requires forall k :: 0 <= k < |log| ==> !log[k].Delivered?
    ensures Deliveries(log) == []
    decreases |log|
  {
    if |log| > 0 {
      NoDeliveries(log[1..]);
    }
  }

  /** Every listener of `ls`, in order, hearing `ev`. */
  function Announce(ls: seq<ResultListener>, ev: ResultEvent): (r: seq<(ResultListener, ResultEvent)>)
    ensures |r| == |ls|
    ensures forall k :: 0 <= k < |r| ==> r[k] == (ls[k], ev)
  {
    seq(|ls|, k requires 0 <= k < |ls| => (ls[k], ev))
  }

  function ScoreTrace(notes: seq<Note>): (r: seq<Event>)
    ensures |r| == |notes| && forall k :: 0 <= k < |r| ==> r[k] == ScoreChanged(notes[k])
  {
    seq(|notes|, k requires 0 <= k < |notes| => ScoreChanged(notes[k]))
  }

  function TurnsTrace(notes: seq<Note>): (r: seq<Event>)
    ensures |r| == |notes| && forall k :: 0 <= k < |r| ==> r[k] == TurnsChanged(notes[k])
  {
    seq(|notes|, k requires 0 <= k < |notes| => TurnsChanged(notes[k]))
  }

  /** One listener's reaction to one notification.
      `CardsGridManager`: a match adds one to the score and one turn, a
      no-match adds one turn; the game-finished popup is a screen push left to
      the session. `CardsManager`: a match deactivates both cards, a no-match
      flips both back (their face-down reports are ignored by the evaluator). */
  function Deliver(e: Engine, l: ResultListener, ev: ResultEvent): (r: (Engine, seq<Event>))
    requires InBounds(ev, |e.cards|)
    ensures Deliveries(r.1) == [(l, ev)]
    ensures r.0.listeners == e.listeners && r.0.queue == e.queue && |r.0.cards| == |e.cards|
    ensures forall k :: 0 <= k < |e.cards| ==> r.0.cards[k].data == e.cards[k].data
    ensures forall k :: 0 <= k < |e.cards| && !Touches(ev, k) ==> r.0.cards[k] == e.cards[k]
    ensures ev.EvaluationStarted? || ev.GameFinished? ==> r.0 == e
    ensures l == GridManager ==> r.0.cards == e.cards
    ensures l == CardsManager ==> r.0.score == e.score && r.0.turns == e.turns
    ensures l == GridManager && ev.MatchFound? ==>
      r.0.score.score == Wrap(e.score.score + 1) && r.0.turns.turn == Wrap(e.turns.turn + 1)
    ensures l == GridManager && ev.NoMatch? ==>
      r.0.score == e.score && r.0.turns.turn == Wrap(e.turns.turn + 1)
    ensures l == CardsManager && ev.MatchFound? ==> r.0.cards == Grid.OnMatchFound(e.cards, ev.first, ev.second)
    ensures l == CardsManager && ev.NoMatch? ==> r.0.cards == Grid.OnNoMatch(e.cards, ev.first, ev.second)
  {
    var head := [Delivered(l, ev)];
    assert Deliveries(head) == [(l, ev)];
    match l
    case GridManager =>
      if ev.MatchFound? then
        var (score, scoreNotes) := Score.AddScore(e.score, 1);
        var (turns, turnNotes) := Turns.IncreamentTurnCount(e.turns);
        var tail := ScoreTrace(scoreNotes) + TurnsTrace(turnNotes);
        NoDeliveries(tail);
        DeliveriesAppend(head, tail);
        (e.(score := score, turns := turns), head + tail)
      else if ev.NoMatch? then
        var (turns, turnNotes) := Turns.IncreamentTurnCount(e.turns);
        var tail := TurnsTrace(turnNotes);
        NoDeliveries(tail);
        DeliveriesAppend(head, tail);
        (e.(turns := turns), head + tail)
      else
        (e, head)
    case CardsManager =>
      if ev.MatchFound? then
        (e.(cards := Grid.OnMatchFound(e.cards, ev.first, ev.second)), head)
      else if ev.NoMatch? then
        (e.(cards := Grid.OnNoMatch(e.cards, ev.first, ev.second)), head)
      else
        (e, head)
  }

  /** The `Notify…` loops: hand `ev` to each listener of `ls` in turn. */
  function Notify(e: Engine, ls: seq<ResultListener>, ev: ResultEvent): (r: (Engine, seq<Event>))
    requires InBounds(ev, |e.cards|)
    ensures Deliveries(r.1) == Announce(ls, ev)
    ensures r.0.listeners == e.listeners && r.0.queue == e.queue && |r.0.cards| == |e.cards|
    ensures forall k :: 0 <= k < |e.cards| ==> r.0.cards[k].data == e.cards[k].data
    ensures forall k :: 0 <= k < |e.cards| && !Touches(ev, k) ==> r.0.cards[k] == e.cards[k]
    ensures ev.EvaluationStarted? || ev.GameFinished? ==> r.0 == e
    decreases |ls|
  {
    if |ls| == 0 then
      (e, [])
    else
      var (first, firstLog) := Deliver(e, ls[0], ev);
      var (rest, restLog) := Notify(first, ls[1..], ev);
      DeliveriesAppend(firstLog, restLog);
      assert Announce(ls, ev) == [(ls[0], ev)] + Announce(ls[1..], ev);
      (rest, firstLog + restLog)
  }

  /** The outcome `EvaluateRevealedCards` reports for two cards. */
  function Outcome(e: Engine, a: nat, b: nat): (ev: ResultEvent)
    requires a < |e.cards| && b < |e.cards|
    ensures ev.MatchFound? <==> Matches(e.cards[a].data, e.cards[b].data)
    ensures ev.MatchFound? || ev.NoMatch?
    ensures ev.first == a && ev.second == b
  {
    if Matches(e.cards[a].data, e.cards[b].data) then MatchFound(a, b) else NoMatch(a, b)
  }

  /** One dequeued pair: announce the evaluation, then the outcome, then, after
      a match that left no active card, the end of the game. */
  function Evaluate(e: Engine, a: nat, b: nat): (r: (Engine, seq<Event>))
    requires a < |e.cards| && b < |e.cards|
    ensures r.0.listeners == e.listeners && r.0.queue == e.queue && |r.0.cards| == |e.cards|
    ensures forall k :: 0 <= k < |e.cards| ==> r.0.cards[k].data == e.cards[k].data
    ensures forall k :: 0 <= k < |e.cards| && k != a && k != b ==> r.0.cards[k] == e.cards[k]
    ensures Deliveries(r.1) ==
      Announce(e.listeners, EvaluationStarted(a, b))
      + Announce(e.listeners, Outcome(e, a, b))
      + (if Outcome(e, a, b).MatchFound? && Grid.CheckForGameFinish(r.0.cards)
         then Announce(e.listeners, GameFinished) else [])
  {
    var (started, startedLog) := Notify(e, e.listeners, EvaluationStarted(a, b));
    var (decided, decidedLog) := Notify(started, started.listeners, Outcome(e, a, b));
    DeliveriesAppend(startedLog, decidedLog);
    if Outcome(e, a, b).MatchFound? && Grid.CheckForGameFinish(decided.cards) then
      var (finished, finishedLog) := Notify(decided, decided.listeners, GameFinished);
      DeliveriesAppend(startedLog + decidedLog, finishedLog);
      (finished, startedLog + decidedLog + finishedLog)
    else
      (decided, startedLog + decidedLog)
  }

  /** What is left of `n` queued cards once they are taken two at a time. */
  function Parity(n: nat): (r: nat)
    ensures r <= 1 && r <= n
  {
    if n < 2 then n else Parity(n - 2)
  }

  /** One turn of the `while (queue.Count >= 2)` loop: dequeue the two
      oldest cards and evaluate them. */
  function EvaluateOldest(e: Engine): (r: (Engine, seq<Event>))
    requires QueueOnBoard(e) && |e.queue| >= 2
    ensures QueueOnBoard(r.0)
    ensures r.0.listeners == e.listeners && r.0.queue == e.queue[2..] && |r.0.cards| == |e.cards|
    ensures forall k :: 0 <= k < |e.cards| ==> r.0.cards[k].data == e.cards[k].data
    ensures |Deliveries(r.1)| >= |e.listeners|
    ensures Deliveries(r.1)[..|e.listeners|] == Announce(e.listeners, EvaluationStarted(e.queue[0], e.queue[1]))
  {
    StartedComesFirst(e.(queue := e.queue[2..]), e.queue[0], e.queue[1]);
    Evaluate(e.(queue := e.queue[2..]), e.queue[0], e.queue[1])
  }

  /** The `while (queue.Count >= 2)` loop of `OnCardRevealed`: evaluate the
      two oldest queued cards until at most one is left. */
  function Drain(e: Engine): (r: (Engine, seq<Event>))
    requires QueueOnBoard(e)
    ensures QueueOnBoard(r.0)
    ensures r.0.listeners == e.listeners && |r.0.cards| == |e.cards|
    ensures forall k :: 0 <= k < |e.cards| ==> r.0.cards[k].data == e.cards[k].data
    decreases |e.queue|
  {
    if |e.queue| < 2 then
      (e, [])
    else
      var evaluated := EvaluateOldest(e);
      var rest := Drain(evaluated.0);
      (rest.0, evaluated.1 + rest.1)
  }

  /** The queue is drained two at a time from the front: what remains is
      the newest card when the count was odd, nothing when it was even. */
  lemma {:induction false} DrainLeavesSuffix(e: Engine)
    requires QueueOnBoard(e)
    ensures var r := Drain(e).0;
      |r.queue| == Parity(|e.queue|) && r.queue == e.queue[|e.queue| - |r.queue|..]
    decreases |e.queue|
  {
    if |e.queue| >= 2 {
      var evaluated := EvaluateOldest(e).0;
      DrainLeavesSuffix(evaluated);
      DrainUnfold(e);
      SuffixOfTail(e.queue, |Drain(e).0.queue|);
    }
  }

  /** One turn of the drain loop, as an equation. */
  lemma DrainUnfold(e: Engine)
    requires QueueOnBoard(e) && |e.queue| >= 2
    ensures Drain(e).0 == Drain(EvaluateOldest(e).0).0
    ensures EvaluateOldest(e).0.queue == e.queue[2..]
  {
  }

  lemma SuffixOfTail<T>(q: seq<T>, m: nat)
    requires m + 2 <= |q|
    ensures q[2..][|q| - 2 - m..] == q[|q| - m..]
  {
  }

  /** Pairs leave the queue oldest first: the first announcement of a drain
      is the evaluation of the two cards queued earliest. */
  lemma DrainStartsWithOldestPair(e: Engine)
    requires QueueOnBoard(e) && |e.queue| >= 2
    ensures |Deliveries(Drain(e).1)| >= |e.listeners|
    ensures Deliveries(Drain(e).1)[..|e.listeners|] == Announce(e.listeners, EvaluationStarted(e.queue[0], e.queue[1]))
  {
    var evaluated := EvaluateOldest(e);
    var rest := Drain(evaluated.0);
    assert Drain(e).1 == evaluated.1 + rest.1;
    DeliveriesAppend(evaluated.1, rest.1);
    assert Deliveries(evaluated.1 + rest.1)[..|e.listeners|] == Deliveries(evaluated.1)[..|e.listeners|];
  }

  /** The trace of an evaluation opens with its evaluation-started round. */
  lemma StartedComesFirst(e: Engine, a: nat, b: nat)
    requires a < |e.cards| && b < |e.cards|
    ensures |Deliveries(Evaluate(e, a, b).1)| >= |e.listeners|
    ensures Deliveries(Evaluate(e, a, b).1)[..|e.listeners|] == Announce(e.listeners, EvaluationStarted(a, b))
  {
    var d := Deliveries(Evaluate(e, a, b).1);
    var started := Announce(e.listeners, EvaluationStarted(a, b));
    assert d[..|started|] == started;
  }

  /** `OnCardRevealed`: queue the card if it shows its front, then drain. */
  function OnCardRevealed(e: Engine, i: nat): (r: (Engine, seq<Event>))
    requires QueueOnBoard(e) && i < |e.cards|
    ensures QueueOnBoard(r.0)
    ensures r.0.listeners == e.listeners && |r.0.cards| == |e.cards|
    ensures forall k :: 0 <= k < |e.cards| ==> r.0.cards[k].data == e.cards[k].data
    ensures |r.0.queue| <= 1
    ensures var q := if e.cards[i].face == FrontFace then e.queue + [i] else e.queue;
      |r.0.queue| == Parity(|q|) && r.0.queue == q[|q| - |r.0.queue|..]
  {
    var q := if e.cards[i].face == FrontFace then e.queue + [i] else e.queue;
    DrainLeavesSuffix(e.(queue := q));
    Drain(e.(queue := q))
  }

  /** The evaluator's `ICardEventsListner` side: only a finished face-up
      flip matters; clicks, flips and face-down reports are ignored. */
  function OnCardEvents(e: Engine, i: nat, events: seq<CardEvent>): (r: (Engine, seq<Event>))
    requires QueueOnBoard(e) && i < |e.cards|
    ensures QueueOnBoard(r.0)
    ensures r.0.listeners == e.listeners && |r.0.cards| == |e.cards|
    ensures forall k :: 0 <= k < |e.cards| ==> r.0.cards[k].data == e.cards[k].data
    ensures FaceUpFinished !in events ==> r == (e, [])
    ensures FaceUpFinished in events ==> r == OnCardRevealed(e, i)
  {
    if FaceUpFinished in events then OnCardRevealed(e, i) else (e, [])
  }

  /** A click on the card at position `i`. An inactive card's click handler
      is unsubscribed, so only active cards respond; the card reports to the
      evaluator, which queues it and evaluates a complete pair. */
  function Click(e: Engine, i: nat): (r: (Engine, seq<Event>))
    requires QueueOnBoard(e) && i < |e.cards|
    ensures QueueOnBoard(r.0)
    ensures r.0.listeners == e.listeners && |r.0.cards| == |e.cards|
    ensures forall k :: 0 <= k < |e.cards| ==> r.0.cards[k].data == e.cards[k].data
    ensures !e.cards[i].active || e.cards[i].face == FrontFace ==> r == (e, [])
    ensures e.cards[i].active && e.cards[i].face == BackFace ==>
      r == OnCardRevealed(e.(cards := e.cards[i := e.cards[i].(face := FrontFace)]), i)
  {
    if !e.cards[i].active then
      (e, [])
    else
      var (clicked, events) := Cards.OnCardClicked(e.cards[i]);
      var next := e.(cards := e.cards[i := clicked]);
      assert e.cards[i].face == FrontFace ==> next == e;
      OnCardEvents(next, i, events)
  }

  /** `AddListener`: register a result listener after the existing ones. */
  function AddListener(e: Engine, l: ResultListener): (r: Engine)
    ensures r.listeners == e.listeners + [l]
    ensures r.(listeners := e.listeners) == e
  {
    e.(listeners := e.listeners + [l])
  }

  /** `RemoveListener`: `List.Remove`, dropping the first registration only. */
  function RemoveListener(e: Engine, l: ResultListener): (r: Engine)
    ensures l !in e.listeners ==> r == e
    ensures l in e.listeners ==> DroppedFirst(e.listeners, l, r.listeners)
    ensures r.(listeners := e.listeners) == e
  {
    e.(listeners := RemoveFirst(e.listeners, l))
  }

  /** `OnDisable`: forget every result listener. */
  function OnDisable(e: Engine): (r: Engine)
    ensures r.listeners == []
    ensures r.(listeners := e.listeners) == e
  {
    e.(listeners := [])
  }
}
