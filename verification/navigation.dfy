/**
 * The mobile navigation menu (src/main.js:6-29). One boolean, "is the menu
 * open", drives the menu's `hidden` class, the two icons' `hidden` classes
 * and the button's `aria-expanded` attribute; the click handler reads the
 * boolean back from that attribute.
 */
module Navigation {

  /** `String(b)` for a boolean. */
  function BoolText(b: bool): (text: string)
    ensures text == "true" <==> b
    ensures text == "true" || text == "false"
  {
    if b then "true" else "false"
  }

  /** The narrowest viewport the `(min-width: 768px)` query matches. */
  const DesktopWidth := 768

  class Menu {
    var menuHidden: bool
    var iconOpenHidden: bool
    var iconCloseHidden: bool
    var ariaExpanded: string

    /** The four flags as `setMenuOpen(isOpen)` leaves them. */
    predicate Shows(isOpen: bool)
      reads this
    {
      menuHidden == !isOpen && iconOpenHidden == isOpen && iconCloseHidden == !isOpen
      && ariaExpanded == BoolText(isOpen)
    }

    /** What the click handler reads: open exactly when `aria-expanded` is
        the text "true". */
    function IsOpen(): (open: bool)
      reads this
      ensures Shows(true) ==> open
      ensures Shows(false) ==> !open
    {
      ariaExpanded == "true"
    }

    /** The flags agree with the state read back from the attribute. */
    predicate Consistent()
      reads this
    {
      Shows(IsOpen())
    }

    /** The page's markup decides the starting flags. */
    constructor (menuHidden: bool, iconOpenHidden: bool, iconCloseHidden: bool, ariaExpanded: string)
      ensures this.menuHidden == menuHidden && this.iconOpenHidden == iconOpenHidden
      ensures this.iconCloseHidden == iconCloseHidden && this.ariaExpanded == ariaExpanded
    {
      this.menuHidden := menuHidden;
      this.iconOpenHidden := iconOpenHidden;
      this.iconCloseHidden := iconCloseHidden;
      this.ariaExpanded := ariaExpanded;
    }

    /** `setMenuOpen(isOpen)` (src/main.js:11-16): whatever came before,
        the flags now agree with `isOpen`, and reading it back gives
        `isOpen`. */
    method SetOpen(isOpen: bool)
      modifies this
      ensures Shows(isOpen) && Consistent()
      ensures IsOpen() == isOpen
    {
      menuHidden := !isOpen;
      iconOpenHidden := isOpen;
      iconCloseHidden := !isOpen;
      ariaExpanded := BoolText(isOpen);
    }

    /** The button's click handler (src/main.js:18-21) flips the state read
        from `aria-expanded`. */
    method Click()
      modifies this
      ensures IsOpen() == !old(IsOpen())
      ensures Shows(!old(IsOpen())) && Consistent()
    {
      var isOpen := ariaExpanded == "true";
      SetOpen(!isOpen);
    }

    /** The resize handler (src/main.js:23-25): a viewport at least 768
        pixels wide closes the menu, a narrower one changes nothing. */
    method Resize(width: int)
      modifies this
      ensures width >= DesktopWidth ==> Shows(false) && !IsOpen()
      ensures width < DesktopWidth ==> unchanged(this)
    {
      if width >= DesktopWidth {
        SetOpen(false);
      }
    }

    /** The menu's keydown handler (src/main.js:27-29): Escape closes the
        menu, any other key changes nothing. */
    method KeyDown(key: string)
      modifies this
      ensures key == "Escape" ==> Shows(false) && !IsOpen()
      ensures key != "Escape" ==> unchanged(this)
    {
      if key == "Escape" {
        SetOpen(false);
      }
    }
  }

  /** Two clicks bring an open or closed menu back to where it was. */
  method ClickTwice(m: Menu)
    requires m.Consistent()
    modifies m
    ensures m.IsOpen() == old(m.IsOpen())
    ensures m.menuHidden == old(m.menuHidden) && m.iconOpenHidden == old(m.iconOpenHidden)
    ensures m.iconCloseHidden == old(m.iconCloseHidden) && m.ariaExpanded == old(m.ariaExpanded)
  {
    m.Click();
    m.Click();
  }
}
