/**
 The spell-category selector (`magicSystem.setupCategories` in js/main.js).

 Every `.category-btn` carries a `data-category`; so does every
 `.spells-category` panel. A click on a button clears "active" on every
 button and marks the clicked one, then hides every panel and shows (with
 display "grid") the first panel in document order whose category matches.
 A button without the attribute reads its category as the text "undefined",
 so its category here is already that string. The selector is built from
 the category without escaping, so categories are taken to hold no `"`,
 `\` or line break, as the page's own markup does.
 */
module MagicSystem {

  import opened Flags

  /** A panel's inline `style.display`: not set yet, "none" or "grid". */
  datatype Display = FromStylesheet | Hidden | Grid

  /** The "active" classes of the buttons and panels, and the panels' displays, in document order. */
  datatype Ui = Ui(buttonActive: seq<bool>, panelActive: seq<bool>, display: seq<Display>)

  predicate Fits(ui: Ui, buttons: seq<string>, panels: seq<string>)
  {
    |ui.buttonActive| == |buttons| && |ui.panelActive| == |ui.display| == |panels|
  }

  /**
   The panel `querySelector('.spells-category[data-category="c"]')` finds:
   the first one in document order with category `c`, or -1 when none has it.
   */
  function FirstMatch(panels: seq<string>, c: string): (r: int)
    ensures -1 <= r < |panels|
    ensures r >= 0 ==> panels[r] == c && forall j :: 0 <= j < r ==> panels[j] != c
    ensures r == -1 <==> forall j :: 0 <= j < |panels| ==> panels[j] != c
    decreases |panels|
  {
    if panels == [] then -1
    else if panels[0] == c then 0
    else
      var k := FirstMatch(panels[1..], c);
      if k < 0 then -1 else k + 1
  }

  /** The page after a click on button `b`: it depends on nothing but `b`. */
  function ClickResult(ui: Ui, buttons: seq<string>, panels: seq<string>, b: nat): (r: Ui)
    requires Fits(ui, buttons, panels) && b < |buttons|
    ensures Fits(r, buttons, panels)
  {
    var target := FirstMatch(panels, buttons[b]);
    Ui(seq(|buttons|, k => k == b),
       seq(|panels|, k => k == target),
       seq(|panels|, k => if k == target then Grid else Hidden))
  }

  /** After a click exactly the clicked button is active. */
  lemma ClickedButtonOnly(ui: Ui, buttons: seq<string>, panels: seq<string>, b: nat)
    requires Fits(ui, buttons, panels) && b < |buttons|
    ensures Marked(ClickResult(ui, buttons, panels, b).buttonActive) == {b}
  {
  }

  /**
   After a click the panel shown is the first whose category matches the
   button; it is also the only active one, and every other panel is hidden.
   When no panel matches, every panel is hidden and inactive.
   */
  lemma {:induction false} MatchingPanelOnly(ui: Ui, buttons: seq<string>, panels: seq<string>, b: nat)
    requires Fits(ui, buttons, panels) && b < |buttons|
    ensures var r := ClickResult(ui, buttons, panels, b);
      && (forall k :: 0 <= k < |panels| ==> r.panelActive[k] == (r.display[k] == Grid))
      && (forall k :: 0 <= k < |panels| ==> r.display[k] in {Hidden, Grid})
      && (forall k :: 0 <= k < |panels| && r.display[k] == Grid ==> panels[k] == buttons[b])
      && (forall k, j :: 0 <= j < k < |panels| && r.display[k] == Grid ==> panels[j] != buttons[b])
      && |Marked(r.panelActive)| <= 1
      && (Marked(r.panelActive) == {} <==> buttons[b] !in panels)
  {
    var r := ClickResult(ui, buttons, panels, b);
    var t := FirstMatch(panels, buttons[b]);
    if t >= 0 {
      forall k: nat ensures k in Marked(r.panelActive) <==> k == t {
        if k < |panels| { assert k in Marked(r.panelActive) <==> r.panelActive[k]; }
      }
      assert Marked(r.panelActive) == {t};
      assert panels[t] == buttons[b] && buttons[b] in panels;
    } else {
      forall k: nat ensures k !in Marked(r.panelActive) {
        if k < |panels| { assert k in Marked(r.panelActive) <==> r.panelActive[k]; }
      }
      assert Marked(r.panelActive) == {};
      assert forall j :: 0 <= j < |panels| ==> panels[j] != buttons[b];
    }
  }

  /** Only the last click matters, so clicking the same button again changes nothing. */
  lemma LastClickWins(ui: Ui, buttons: seq<string>, panels: seq<string>, a: nat, b: nat)
    requires Fits(ui, buttons, panels) && a < |buttons| && b < |buttons|
    ensures ClickResult(ClickResult(ui, buttons, panels, a), buttons, panels, b)
         == ClickResult(ui, buttons, panels, b)
    ensures ClickResult(ClickResult(ui, buttons, panels, b), buttons, panels, b)
         == ClickResult(ui, buttons, panels, b)
  {
  }

  /** The selector: the buttons' and panels' flags, which the click handler updates in place. */
  class CategorySelector {
    /** The `data-category` of each button and of each panel, in document order. */
    const buttons: seq<string>
    const panels: seq<string>
    const buttonActive: array<bool>
    const panelActive: array<bool>
    const panelDisplay: array<Display>

    ghost predicate Valid()
      reads this
    {
      && buttonActive.Length == |buttons|
      && panelActive.Length == panelDisplay.Length == |panels|
      && buttonActive != panelActive
    }

    function State(): Ui
      reads this, buttonActive, panelActive, panelDisplay
    {
      Ui(buttonActive[..], panelActive[..], panelDisplay[..])
    }

    /** `setupCategories` over the page as it was loaded. */
    constructor (buttons: seq<string>, panels: seq<string>, initial: Ui)
      requires Fits(initial, buttons, panels)
      ensures Valid() && fresh(buttonActive) && fresh(panelActive) && fresh(panelDisplay)
      ensures this.buttons == buttons && this.panels == panels
      ensures State() == initial
    {
      this.buttons := buttons;
      this.panels := panels;
      buttonActive := new bool[|buttons|](k requires 0 <= k < |buttons| => initial.buttonActive[k]);
      panelActive := new bool[|panels|](k requires 0 <= k < |panels| => initial.panelActive[k]);
      panelDisplay := new Display[|panels|](k requires 0 <= k < |panels| => initial.display[k]);
    }

    /** The click handler of button `b`. */
    method Click(b: nat)
      requires Valid() && b < |buttons|
      modifies buttonActive, panelActive, panelDisplay
      ensures Valid()
      ensures State() == ClickResult(old(State()), buttons, panels, b)
    {
      for i := 0 to buttonActive.Length
        invariant forall k :: 0 <= k < i ==> !buttonActive[k]
      {
        buttonActive[i] := false;
      }
      buttonActive[b] := true;

      for i := 0 to panelActive.Length
        invariant forall k :: 0 <= k < buttonActive.Length ==> buttonActive[k] == (k == b)
        invariant forall k :: 0 <= k < i ==> !panelActive[k] && panelDisplay[k] == Hidden
      {
        panelActive[i] := false;
        panelDisplay[i] := Hidden;
      }

      var target := FirstMatch(panels, buttons[b]);
      if target >= 0 {
        panelActive[target] := true;
        panelDisplay[target] := Grid;
      }
      assert buttonActive[..] == seq(|buttons|, k => k == b);
      assert panelActive[..] == seq(|panels|, k => k == target);
    }
  }
}
