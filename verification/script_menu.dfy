/** The mobile menu of script.js: the button toggles the panel's `hidden` class and nothing else. */
module ScriptMenu {

  /** Whether the panel is hidden after `n` clicks on the button, starting from `hidden`. */
  function AfterClicks(hidden: bool, n: nat): bool {
    if n == 0 then hidden else !AfterClicks(hidden, n - 1)
  }

  /** Only the parity of the number of clicks matters. */
  lemma {:induction false} ClickParity(hidden: bool, n: nat)
    ensures AfterClicks(hidden, n) == if n % 2 == 0 then hidden else !hidden
  {
    if n > 0 {
      ClickParity(hidden, n - 1);
    }
  }

  /** Two more clicks restore the panel. */
  lemma {:induction false} TwoClicksRestore(hidden: bool, n: nat)
    ensures AfterClicks(hidden, n + 2) == AfterClicks(hidden, n)
  {
    ClickParity(hidden, n);
    ClickParity(hidden, n + 2);
  }

  class Menu {
    var hidden: bool

    constructor (hidden: bool)
      ensures this.hidden == hidden
    {
      this.hidden := hidden;
    }

    /** `mobileMenu.classList.toggle('hidden')`. */
    method OnButtonClick()
      modifies this
      ensures hidden == AfterClicks(old(hidden), 1)
    {
      hidden := !hidden;
    }
  }
}
