/** `TurnsManager`: the turn counter and its change listeners. */
module Turns {
  import opened CSharpInt
  import opened Listeners

  datatype TurnsManager = TurnsManager(turn: Int32, listeners: seq<Handle>)

  /** `new TurnsManager(turn)`: store the argument; nobody is notified. */
  function New(turn: Int32): (r: TurnsManager)
    ensures r.turn == turn && r.listeners == []
  {
    TurnsManager(turn, [])
  }

  function AddTurnsListner(m: TurnsManager, listener: Handle): (r: TurnsManager)
    ensures r.turn == m.turn && r.listeners == m.listeners + [listener]
  {
    m.(listeners := m.listeners + [listener])
  }

  /** Delegate removal drops the most recent subscription of `listener`. */
  function RemoveListner(m: TurnsManager, listener: Handle): (r: TurnsManager)
    ensures r.turn == m.turn
    ensures listener !in m.listeners ==> r.listeners == m.listeners
    ensures listener in m.listeners ==> DroppedLast(m.listeners, listener, r.listeners)
  {
    m.(listeners := RemoveLast(m.listeners, listener))
  }

  function RemoveAllListner(m: TurnsManager): (r: TurnsManager)
    ensures r.turn == m.turn && r.listeners == []
  {
    m.(listeners := [])
  }

  /** `IncreamentTurnCount`: one more turn (32-bit wrap-around), announced
      to every listener. */
  function IncreamentTurnCount(m: TurnsManager): (r: (TurnsManager, seq<Note>))
    ensures r.0.turn == Wrap(m.turn + 1) && r.0.listeners == m.listeners
    ensures m.turn < MAX_VALUE ==> r.0.turn == m.turn + 1
    ensures r.1 == Broadcast(m.listeners, r.0.turn)
  {
    IncrementWraps(m.turn);
    var next := m.(turn := Wrap(m.turn + 1));
    (next, Broadcast(next.listeners, next.turn))
  }

  /** `SetTurns`: replace the count and announce it. */
  function SetTurns(m: TurnsManager, turns: Int32): (r: (TurnsManager, seq<Note>))
    ensures r.0.turn == turns && r.0.listeners == m.listeners
    ensures r.1 == Broadcast(m.listeners, turns)
  {
    (m.(turn := turns), Broadcast(m.listeners, turns))
  }

  /** An increment is a set to the successor. */
  lemma IncrementIsSetToSuccessor(m: TurnsManager)
    ensures IncreamentTurnCount(m) == SetTurns(m, Wrap(m.turn + 1))
  {
  }

  /** `OnDestroy`: drop every listener, keep the count. */
  function OnDestroy(m: TurnsManager): (r: TurnsManager)
    ensures r.turn == m.turn && r.listeners == []
  {
    RemoveAllListner(m)
  }
}
