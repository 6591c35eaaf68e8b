/** `ScoreManager`: the score counter and its change listeners. */
module Score {
  import opened CSharpInt
  import opened Listeners

  datatype ScoreManager = ScoreManager(score: Int32, listeners: seq<Handle>)

  /** `new ScoreManager(score)`: the argument is ignored. The constructor
      calls `SetScore(0)` before anyone has subscribed, so no one is told. */
  function New(score: Int32): (r: ScoreManager)
    ensures r.score == 0 && r.listeners == []
  {
    SetScore(ScoreManager(0, []), 0).0
  }

  function AddScoreListner(m: ScoreManager, listener: Handle): (r: ScoreManager)
    ensures r.score == m.score && r.listeners == m.listeners + [listener]
  {
    m.(listeners := m.listeners + [listener])
  }

  /** Delegate removal drops the most recent subscription of `listener`. */
  function RemoveListner(m: ScoreManager, listener: Handle): (r: ScoreManager)
    ensures r.score == m.score
    ensures listener !in m.listeners ==> r.listeners == m.listeners
    ensures listener in m.listeners ==> DroppedLast(m.listeners, listener, r.listeners)
  {
    m.(listeners := RemoveLast(m.listeners, listener))
  }

  function RemoveAllListner(m: ScoreManager): (r: ScoreManager)
    ensures r.score == m.score && r.listeners == []
  {
    m.(listeners := [])
  }

  /** Add `amount` (of either sign, 32-bit wrap-around) and tell every
      listener the new score. */
  function AddScore(m: ScoreManager, amount: Int32): (r: (ScoreManager, seq<Note>))
    ensures r.0.score == Wrap(m.score + amount) && r.0.listeners == m.listeners
    ensures r.1 == Broadcast(m.listeners, r.0.score)
  {
    var next := m.(score := Wrap(m.score + amount));
    (next, Broadcast(next.listeners, next.score))
  }

  /** Replace the score and tell every listener the new score. */
  function SetScore(m: ScoreManager, score: Int32): (r: (ScoreManager, seq<Note>))
    ensures r.0.score == score && r.0.listeners == m.listeners
    ensures r.1 == Broadcast(m.listeners, score)
  {
    (m.(score := score), Broadcast(m.listeners, score))
  }

  /** Adding is setting the wrapped sum; in particular adding 1 below the
      maximum raises the score by exactly one. */
  lemma AddScoreIsSetScore(m: ScoreManager, amount: Int32)
    ensures AddScore(m, amount) == SetScore(m, Wrap(m.score + amount))
    ensures amount == 1 && m.score < MAX_VALUE ==> AddScore(m, amount).0.score == m.score + 1
  {
    IncrementWraps(m.score);
  }

  /** `OnDestroy`: drop every listener, keep the score. */
  function OnDestroy(m: ScoreManager): (r: ScoreManager)
    ensures r.score == m.score && r.listeners == []
  {
    RemoveAllListner(m.(listeners := []))
  }
}
