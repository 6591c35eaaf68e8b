/** `UIManager`: a stack of screens, each with a visibility flag. */
module Screens {
  /** A screen object: its id and what its `OnBackPressed` override answers. */
  datatype Screen = Screen(id: int, handlesBack: bool)

  /** The screen stack (top last) and the screens whose game objects are
      active. */
  datatype UIManager = UIManager(stack: seq<Screen>, shown: set<Screen>)

  function Empty(): (ui: UIManager)
    ensures ui.stack == [] && ui.shown == {}
  {
    UIManager([], {})
  }

  /** `PushScreen`: put the screen on top and show it. The screen below is
      not hidden. */
  function PushScreen(ui: UIManager, s: Screen): (r: UIManager)
    ensures r.stack == ui.stack + [s]
    ensures r.shown == ui.shown + {s}
  {
    UIManager(ui.stack + [s], ui.shown + {s})
  }

  /** `PopScreen`: nothing on an empty stack; otherwise remove and hide the
      top, then show the screen that is now on top, if any. */
  function PopScreen(ui: UIManager): (r: UIManager)
    ensures |ui.stack| == 0 ==> r == ui
    ensures |ui.stack| > 0 ==> r.stack == ui.stack[..|ui.stack| - 1]
    ensures |ui.stack| > 0 ==> forall s :: s in r.shown <==>
      (s in ui.shown && s != ui.stack[|ui.stack| - 1]) || (|r.stack| > 0 && s == r.stack[|r.stack| - 1])
  {
    if |ui.stack| == 0 then
      ui
    else
      var top := ui.stack[|ui.stack| - 1];
      var below := ui.stack[..|ui.stack| - 1];
      var hidden := ui.shown - {top};
      UIManager(below, if |below| > 0 then hidden + {below[|below| - 1]} else hidden)
  }

  /** `HandleBackPress`: ask the top screen first; pop only if it declined. */
  function HandleBackPress(ui: UIManager): (r: UIManager)
    ensures |ui.stack| == 0 ==> r == ui
    ensures |ui.stack| > 0 && ui.stack[|ui.stack| - 1].handlesBack ==> r == ui
    ensures |ui.stack| > 0 && !ui.stack[|ui.stack| - 1].handlesBack ==> r == PopScreen(ui)
  {
    if |ui.stack| == 0 then ui
    else if ui.stack[|ui.stack| - 1].handlesBack then ui
    else PopScreen(ui)
  }

  /** The top of a non-empty stack is shown. */
  predicate TopShown(ui: UIManager) {
    |ui.stack| > 0 ==> ui.stack[|ui.stack| - 1] in ui.shown
  }

  /** Popping what was just pushed restores the stack, and restores the
      visibility too when the pushed screen was hidden and the old top shown. */
  lemma PushThenPop(ui: UIManager, s: Screen)
    ensures PopScreen(PushScreen(ui, s)).stack == ui.stack
    ensures s !in ui.shown && TopShown(ui) ==> PopScreen(PushScreen(ui, s)) == ui
  {
    var pushed := PushScreen(ui, s);
    assert pushed.stack[..|pushed.stack| - 1] == ui.stack;
    if s !in ui.shown && TopShown(ui) {
      var r := PopScreen(pushed);
      assert r.shown == ui.shown;
    }
  }

  /** With every screen declining the back press (the default), a back press
      is a pop: the stack shrinks by one and keeps the order of the rest. */
  lemma BackPressPops(ui: UIManager)
    requires forall k :: 0 <= k < |ui.stack| ==> !ui.stack[k].handlesBack
    ensures |ui.stack| > 0 ==> HandleBackPress(ui).stack == ui.stack[..|ui.stack| - 1]
    ensures |HandleBackPress(ui).stack| == if |ui.stack| == 0 then 0 else |ui.stack| - 1
  {
  }
}
