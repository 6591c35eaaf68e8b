/** `StartGame`: the main menu's grid-size choice, the load toggle, and the
    config handed to a new session. */
module StartGame {
  import opened CSharpInt
  import opened Constants
  import Config
  import Screens
  import Deck

  /** The menu's fields: the chosen grid size and the load-saved-game flag.
      Before `Start` runs the fields hold their zero defaults. */
  datatype Menu = Menu(rows: Int32, cols: Int32, isOn: bool)

  function Unstarted(): (m: Menu)
    ensures m.rows == 0 && m.cols == 0 && !m.isOn
  {
    Menu(0, 0, false)
  }

  /** The main menu screen; it does not handle the back button itself. */
  const HOME: Screens.Screen := Screens.Screen(HOME_SCREEN, false)

  /** `Start`: a 2 by 2 grid, and the home screen pushed on the screen stack. */
  function Start(m: Menu, ui: Screens.UIManager): (r: (Menu, Screens.UIManager))
    ensures r.0.rows == 2 && r.0.cols == 2 && r.0.isOn == m.isOn
    ensures r.1 == Screens.PushScreen(ui, HOME)
  {
    (m.(rows := 2, cols := 2), Screens.PushScreen(ui, HOME))
  }

  /** The sizes the dropdown offers, by dropdown index, as (rows, cols). */
  const GRID_SIZES: seq<(int, int)> := [(2, 2), (2, 3), (3, 4), (3, 6), (4, 4), (4, 6)]

  /** `OnDropDownValueChanged`: an index the dropdown offers selects its
      size; any other index changes nothing (the switch has no default). */
  function OnDropDownValueChanged(m: Menu, value: int): (r: Menu)
    ensures r.isOn == m.isOn
    ensures 0 <= value < |GRID_SIZES| ==> (r.rows, r.cols) == GRID_SIZES[value]
    ensures !(0 <= value < |GRID_SIZES|) ==> r == m
  {
    match value
    case 0 => m.(rows := 2, cols := 2)
    case 1 => m.(rows := 2, cols := 3)
    case 2 => m.(rows := 3, cols := 4)
    case 3 => m.(rows := 3, cols := 6)
    case 4 => m.(rows := 4, cols := 4)
    case 5 => m.(rows := 4, cols := 6)
    case _ => m
  }

  function OnToggleValueChanged(m: Menu, isOn: bool): (r: Menu)
    ensures r.isOn == isOn && r.rows == m.rows && r.cols == m.cols
  {
    m.(isOn := isOn)
  }

  /** The config `OnPlayButtonClicked` builds for the new session. */
  function OnPlayButtonClicked(m: Menu): (c: Config.GameConfig)
    ensures c.rows == m.rows && c.cols == m.cols && c.loadSavedGame == m.isOn
  {
    var blank := Config.Default();
    var withRows := Config.Assign(blank, Config.SetRows(m.rows));
    var withCols := Config.Assign(withRows, Config.SetCols(m.cols));
    Config.Assign(withCols, Config.SetLoadSavedGame(m.isOn))
  }

  /** What the player can do on the menu before pressing play. */
  datatype MenuInput = DropDown(value: int) | Toggle(isOn: bool)

  function Handle(m: Menu, input: MenuInput): Menu {
    match input
    case DropDown(value) => OnDropDownValueChanged(m, value)
    case Toggle(isOn) => OnToggleValueChanged(m, isOn)
  }

  function HandleAll(m: Menu, inputs: seq<MenuInput>): Menu
    decreases |inputs|
  {
    if |inputs| == 0 then m else HandleAll(Handle(m, inputs[0]), inputs[1..])
  }

  /** Whether the menu's size is one the dropdown offers. */
  predicate Offered(m: Menu) {
    exists k :: 0 <= k < |GRID_SIZES| && GRID_SIZES[k] == (m.rows as int, m.cols as int)
  }

  /** After `Start`, whatever the player does, the size stays one the
      dropdown offers. */
  lemma {:induction false} SizeStaysOffered(m: Menu, inputs: seq<MenuInput>)
    requires Offered(m)
    ensures Offered(HandleAll(m, inputs))
    decreases |inputs|
  {
    if |inputs| > 0 {
      var next := Handle(m, inputs[0]);
      if inputs[0].DropDown? && 0 <= inputs[0].value < |GRID_SIZES| {
        assert GRID_SIZES[inputs[0].value] == (next.rows as int, next.cols as int);
      }
      SizeStaysOffered(next, inputs[1..]);
    }
  }

  /** Every offered size has an even cell count of at most 24, well inside
      the 104-card deck. */
  lemma OfferedSizesArePairable(m: Menu)
    requires Offered(m)
    ensures 0 < m.rows * m.cols <= 24 && (m.rows * m.cols) % 2 == 0
    ensures Wrap(m.rows * m.cols) == m.rows * m.cols
  {
    var k :| 0 <= k < |GRID_SIZES| && GRID_SIZES[k] == (m.rows as int, m.cols as int);
    assert k == 0 || k == 1 || k == 2 || k == 3 || k == 4 || k == 5;
  }

  /** So the game started from any menu state the player can reach deals
      successfully, and every dealt card has a partner to match. */
  lemma PlayDealsPairedCards(inputs: seq<MenuInput>, ui: Screens.UIManager, picks: seq<int>)
    ensures var c := OnPlayButtonClicked(HandleAll(Start(Unstarted(), ui).0, inputs));
      0 < c.rows * c.cols <= 24 && (c.rows * c.cols) % 2 == 0
    ensures var c := OnPlayButtonClicked(HandleAll(Start(Unstarted(), ui).0, inputs));
      Deck.IsDraw(picks, c.rows * c.cols) ==>
        var dealt := Deck.Deal(Wrap(c.rows * c.cols), picks);
        && dealt.Success?
        && forall i :: 0 <= i < |dealt.value| ==> Deck.HasPartner(Deck.Identities(dealt.value), i)
  {
    var started := Start(Unstarted(), ui).0;
    assert GRID_SIZES[0] == (started.rows as int, started.cols as int);
    SizeStaysOffered(started, inputs);
    var m := HandleAll(started, inputs);
    OfferedSizesArePairable(m);
    CatalogueShape();
    if Deck.IsDraw(picks, m.rows * m.cols) {
      Deck.DealtCardsArePaired(m.rows * m.cols, picks);
    }
  }
}
