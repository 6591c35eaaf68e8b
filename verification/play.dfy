/** The engine as a session drives it: the standard listener registration,
    the invariant that clicks preserve, and the exact effect of each kind of
    click. */
module Play {
  import opened CSharpInt
  import opened Cards
  import opened Constants
  import opened Evaluator
  import Grid
  import Score
  import Turns

  /** The states a session passes through between clicks: the standard
      listeners are registered; at most one card waits in the queue, and it
      is exactly the active card showing its front; every match scored one
      point for two deactivated cards. */
  predicate WellFormed(e: Engine) {
    && QueueOnBoard(e)
    && |e.queue| <= 1
    && |e.cards| <= DECK_SIZE
    && e.listeners == STANDARD_LISTENERS
    && (forall k :: 0 <= k < |e.cards| ==> (e.cards[k].active && e.cards[k].face == FrontFace <==> k in e.queue))
    && 2 * e.score.score == Grid.InactiveCount(e.cards)
  }

  /** With the standard registration a notification reaches the grid manager
      first and the cards manager second. */
  lemma NotifyStandard(e: Engine, ev: ResultEvent)
    requires InBounds(ev, |e.cards|)
    ensures Notify(e, STANDARD_LISTENERS, ev).0 == Deliver(Deliver(e, GridManager, ev).0, CardsManager, ev).0
  {
    var first := Deliver(e, GridManager, ev).0;
    assert STANDARD_LISTENERS[1..] == [CardsManager];
    assert [CardsManager][1..] == [];
    assert Notify(first, [CardsManager], ev).0 == Deliver(first, CardsManager, ev).0;
  }

  /** What one evaluation does under the standard registration: a match adds a
      point and a turn and deactivates both cards; a no-match adds a turn and
      flips both cards. The queue is left alone. */
  lemma EvaluateStandard(e: Engine, a: nat, b: nat)
    requires a < |e.cards| && b < |e.cards| && e.listeners == STANDARD_LISTENERS
    ensures var r := Evaluate(e, a, b).0;
      && r.queue == e.queue && r.listeners == e.listeners
      && r.turns == Turns.IncreamentTurnCount(e.turns).0
      && (Matches(e.cards[a].data, e.cards[b].data) ==>
            r.cards == Grid.OnMatchFound(e.cards, a, b) && r.score == Score.AddScore(e.score, 1).0)
      && (!Matches(e.cards[a].data, e.cards[b].data) ==>
            r.cards == Grid.OnNoMatch(e.cards, a, b) && r.score == e.score)
  {
    NotifyStandard(e, EvaluationStarted(a, b));
    var started := Notify(e, e.listeners, EvaluationStarted(a, b)).0;
    assert started == e;
    NotifyStandard(started, Outcome(e, a, b));
    var decided := Notify(started, started.listeners, Outcome(e, a, b)).0;
    if Outcome(e, a, b).MatchFound? && Grid.CheckForGameFinish(decided.cards) {
      assert Notify(decided, decided.listeners, GameFinished).0 == decided;
    }
  }

  /** The face-up active card that waits in the queue, if any. */
  lemma QueuedIsTheFaceUpCard(e: Engine, i: nat)
    requires WellFormed(e) && i < |e.cards| && e.cards[i].active && e.cards[i].face == BackFace
    ensures i !in e.queue
    ensures |e.queue| == 1 ==>
      e.queue[0] != i && e.queue[0] < |e.cards| && e.cards[e.queue[0]].active && e.cards[e.queue[0]].face == FrontFace
  {
  }

  /** Clicking a hidden card with nothing queued only turns it face up and
      queues it; no listener hears anything. */
  lemma FirstRevealStep(e: Engine, i: nat)
    requires WellFormed(e) && i < |e.cards| && e.cards[i].active && e.cards[i].face == BackFace
    requires e.queue == []
    ensures Click(e, i) == (e.(cards := e.cards[i := e.cards[i].(face := FrontFace)], queue := [i]), [])
  {
  }

  /** Draining a queue of exactly two cards is one evaluation of them. */
  lemma DrainPair(e: Engine)
    requires QueueOnBoard(e) && |e.queue| == 2
    ensures Drain(e) == Evaluate(e.(queue := []), e.queue[0], e.queue[1])
  {
    assert e.(queue := e.queue[2..]) == e.(queue := []);
    var step := EvaluateOldest(e);
    assert Drain(step.0) == (step.0, []);
    assert step.1 + [] == step.1;
  }

  /** Clicking a hidden card while another waits evaluates the pair, oldest
      first, and empties the queue. */
  lemma SecondRevealStep(e: Engine, i: nat)
    requires WellFormed(e) && i < |e.cards| && e.cards[i].active && e.cards[i].face == BackFace
    requires |e.queue| == 1
    ensures var shown := e.(cards := e.cards[i := e.cards[i].(face := FrontFace)], queue := []);
      Click(e, i) == Evaluate(shown, e.queue[0], i)
  {
    QueuedIsTheFaceUpCard(e, i);
    var flipped := e.(cards := e.cards[i := e.cards[i].(face := FrontFace)]);
    var revealed := flipped.(queue := [e.queue[0], i]);
    assert flipped.queue + [i] == revealed.queue;
    DrainPair(revealed);
  }

  /** A well-formed score is small: it counts matched pairs of a board of at
      most 104 cards, so adding a point never wraps. */
  lemma ScoreIsSmall(e: Engine)
    requires WellFormed(e)
    ensures 0 <= e.score.score <= DECK_SIZE / 2 && e.score.score < MAX_VALUE
  {
    CatalogueShape();
  }

  /** A match of the waiting card `j` with the just-revealed card `i`, on
      the board as it is after the reveal. */
  lemma EvaluateMatch(e: Engine, j: nat, i: nat)
    requires WellFormed(e) && i < |e.cards| && e.cards[i].active && e.cards[i].face == BackFace
    requires j < |e.cards| && e.queue == [j] && Matches(e.cards[j].data, e.cards[i].data)
    ensures var shown := e.(cards := e.cards[i := e.cards[i].(face := FrontFace)], queue := []);
      var r := Evaluate(shown, j, i).0;
      && r.queue == []
      && (forall k :: 0 <= k < |e.cards| ==>
            r.cards[k] == if k == i || k == j then e.cards[k].(face := FrontFace, active := false) else e.cards[k])
      && r.score.score == e.score.score + 1
      && r.turns.turn == Wrap(e.turns.turn + 1)
  {
    QueuedIsTheFaceUpCard(e, i);
    var shown := e.(cards := e.cards[i := e.cards[i].(face := FrontFace)], queue := []);
    EvaluateStandard(shown, j, i);
    ScoreIsSmall(e);
    Score.AddScoreIsSetScore(e.score, 1);
  }

  /** The second card of a matching pair: both cards leave the board, the
      score and the turn count each go up by one, and the queue empties. */
  lemma MatchStep(e: Engine, i: nat)
    requires WellFormed(e) && i < |e.cards| && e.cards[i].active && e.cards[i].face == BackFace
    requires |e.queue| == 1 && Matches(e.cards[e.queue[0]].data, e.cards[i].data)
    ensures var j := e.queue[0];
      var r := Click(e, i).0;
      && r.queue == []
      && (forall k :: 0 <= k < |e.cards| ==>
            r.cards[k] == if k == i || k == j then e.cards[k].(face := FrontFace, active := false) else e.cards[k])
      && r.score.score == e.score.score + 1
      && r.turns.turn == Wrap(e.turns.turn + 1)
  {
    SecondRevealStep(e, i);
    EvaluateMatch(e, e.queue[0], i);
  }

  /** The notifications of a match of the waiting card `j` with the
      just-revealed card `i`. */
  lemma EvaluateMatchTrace(e: Engine, j: nat, i: nat)
    requires WellFormed(e) && i < |e.cards| && e.cards[i].active && e.cards[i].face == BackFace
    requires j < |e.cards| && e.queue == [j] && Matches(e.cards[j].data, e.cards[i].data)
    ensures var shown := e.(cards := e.cards[i := e.cards[i].(face := FrontFace)], queue := []);
      var r := Evaluate(shown, j, i);
      Deliveries(r.1) ==
        [(GridManager, EvaluationStarted(j, i)), (CardsManager, EvaluationStarted(j, i)),
         (GridManager, MatchFound(j, i)), (CardsManager, MatchFound(j, i))]
        + (if Grid.CheckForGameFinish(r.0.cards) then [(GridManager, GameFinished), (CardsManager, GameFinished)] else [])
  {
    QueuedIsTheFaceUpCard(e, i);
  }

  /** The notifications of a match: the grid manager hears each one before
      the cards manager, and the game-finished round follows exactly when no
      active card is left. */
  lemma MatchTrace(e: Engine, i: nat)
    requires WellFormed(e) && i < |e.cards| && e.cards[i].active && e.cards[i].face == BackFace
    requires |e.queue| == 1 && Matches(e.cards[e.queue[0]].data, e.cards[i].data)
    ensures var j := e.queue[0];
      var r := Click(e, i);
      Deliveries(r.1) ==
        [(GridManager, EvaluationStarted(j, i)), (CardsManager, EvaluationStarted(j, i)),
         (GridManager, MatchFound(j, i)), (CardsManager, MatchFound(j, i))]
        + (if Grid.CheckForGameFinish(r.0.cards) then [(GridManager, GameFinished), (CardsManager, GameFinished)] else [])
  {
    SecondRevealStep(e, i);
    EvaluateMatchTrace(e, e.queue[0], i);
  }

  /** A no-match of the waiting card `j` with the just-revealed card `i`. */
  lemma EvaluateNoMatch(e: Engine, j: nat, i: nat)
    requires WellFormed(e) && i < |e.cards| && e.cards[i].active && e.cards[i].face == BackFace
    requires j < |e.cards| && e.queue == [j] && !Matches(e.cards[j].data, e.cards[i].data)
    ensures var shown := e.(cards := e.cards[i := e.cards[i].(face := FrontFace)], queue := []);
      var r := Evaluate(shown, j, i);
      && r.0.queue == []
      && (forall k :: 0 <= k < |e.cards| ==>
            r.0.cards[k] == if k == i || k == j then e.cards[k].(face := BackFace) else e.cards[k])
      && r.0.score == e.score
      && r.0.turns.turn == Wrap(e.turns.turn + 1)
      && Deliveries(r.1) ==
           [(GridManager, EvaluationStarted(j, i)), (CardsManager, EvaluationStarted(j, i)),
            (GridManager, NoMatch(j, i)), (CardsManager, NoMatch(j, i))]
  {
    QueuedIsTheFaceUpCard(e, i);
    var shown := e.(cards := e.cards[i := e.cards[i].(face := FrontFace)], queue := []);
    EvaluateStandard(shown, j, i);
  }

  /** The second card of a non-matching pair: both cards turn face down
      again, the turn count goes up by one, the score stays, and only the
      evaluation-started and no-match rounds are heard. */
  lemma NoMatchStep(e: Engine, i: nat)
    requires WellFormed(e) && i < |e.cards| && e.cards[i].active && e.cards[i].face == BackFace
    requires |e.queue| == 1 && !Matches(e.cards[e.queue[0]].data, e.cards[i].data)
    ensures var j := e.queue[0];
      var r := Click(e, i);
      && r.0.queue == []
      && (forall k :: 0 <= k < |e.cards| ==>
            r.0.cards[k] == if k == i || k == j then e.cards[k].(face := BackFace) else e.cards[k])
      && r.0.score == e.score
      && r.0.turns.turn == Wrap(e.turns.turn + 1)
      && Deliveries(r.1) ==
           [(GridManager, EvaluationStarted(j, i)), (CardsManager, EvaluationStarted(j, i)),
            (GridManager, NoMatch(j, i)), (CardsManager, NoMatch(j, i))]
  {
    SecondRevealStep(e, i);
    EvaluateNoMatch(e, e.queue[0], i);
  }

  /** The state after a first reveal is well formed. */
  lemma RevealKeepsWellFormed(e: Engine, i: nat, r: Engine)
    requires WellFormed(e) && i < |e.cards| && e.cards[i].active && e.cards[i].face == BackFace
    requires e.queue == [] && r == e.(cards := e.cards[i := e.cards[i].(face := FrontFace)], queue := [i])
    ensures WellFormed(r)
  {
    Grid.InactiveCountOfFlags(r.cards, e.cards);
  }

  /** The state after a match is well formed. */
  lemma MatchKeepsWellFormed(e: Engine, j: nat, i: nat, r: Engine)
    requires WellFormed(e) && i < |e.cards| && e.cards[i].active && e.cards[i].face == BackFace
    requires e.queue == [j] && j < |e.cards|
    requires r.queue == [] && r.listeners == e.listeners && |r.cards| == |e.cards|
    requires forall k :: 0 <= k < |e.cards| ==>
      r.cards[k] == if k == i || k == j then e.cards[k].(face := FrontFace, active := false) else e.cards[k]
    requires r.score.score == e.score.score + 1
    ensures WellFormed(r)
  {
    QueuedIsTheFaceUpCard(e, i);
    Grid.InactiveCountOfFlags(r.cards, Grid.OnMatchFound(e.cards, j, i));
    Grid.MatchAndNoMatchCounts(e.cards, j, i);
  }

  /** The state after a no-match is well formed. */
  lemma NoMatchKeepsWellFormed(e: Engine, j: nat, i: nat, r: Engine)
    requires WellFormed(e) && i < |e.cards| && e.cards[i].active && e.cards[i].face == BackFace
    requires e.queue == [j] && j < |e.cards|
    requires r.queue == [] && r.listeners == e.listeners && |r.cards| == |e.cards|
    requires forall k :: 0 <= k < |e.cards| ==>
      r.cards[k] == if k == i || k == j then e.cards[k].(face := BackFace) else e.cards[k]
    requires r.score == e.score
    ensures WellFormed(r)
  {
    Grid.InactiveCountOfFlags(r.cards, e.cards);
  }

  lemma ClickMatchKeepsWellFormed(e: Engine, i: nat)
    requires WellFormed(e) && i < |e.cards| && e.cards[i].active && e.cards[i].face == BackFace
    requires |e.queue| == 1 && Matches(e.cards[e.queue[0]].data, e.cards[i].data)
    ensures WellFormed(Click(e, i).0)
  {
    MatchStep(e, i);
    MatchKeepsWellFormed(e, e.queue[0], i, Click(e, i).0);
  }

  lemma ClickNoMatchKeepsWellFormed(e: Engine, i: nat)
    requires WellFormed(e) && i < |e.cards| && e.cards[i].active && e.cards[i].face == BackFace
    requires |e.queue| == 1 && !Matches(e.cards[e.queue[0]].data, e.cards[i].data)
    ensures WellFormed(Click(e, i).0)
  {
    NoMatchStep(e, i);
    NoMatchKeepsWellFormed(e, e.queue[0], i, Click(e, i).0);
  }

  /** A click never leads out of the well-formed states. */
  lemma ClickKeepsWellFormed(e: Engine, i: nat)
    requires WellFormed(e) && i < |e.cards|
    ensures WellFormed(Click(e, i).0)
  {
    if e.cards[i].active && e.cards[i].face == BackFace {
      if e.queue == [] {
        FirstRevealStep(e, i);
        RevealKeepsWellFormed(e, i, Click(e, i).0);
      } else if Matches(e.cards[e.queue[0]].data, e.cards[i].data) {
        ClickMatchKeepsWellFormed(e, i);
      } else {
        ClickNoMatchKeepsWellFormed(e, i);
      }
    }
  }

  /** In a well-formed state the game is over exactly when the score accounts
      for every card on the board. */
  lemma FinishedIffFullScore(e: Engine)
    requires WellFormed(e)
    ensures Grid.CheckForGameFinish(e.cards) <==> 2 * e.score.score == |e.cards|
  {
    Grid.FinishedIffAllInactive(e.cards);
  }

  /** Once every card is matched, clicks change nothing and notify nobody. */
  lemma NothingAfterFinish(e: Engine, i: nat)
    requires QueueOnBoard(e) && i < |e.cards| && Grid.CheckForGameFinish(e.cards)
    ensures Click(e, i) == (e, [])
  {
  }
}
