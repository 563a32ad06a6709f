/**
 * The scroll-to-top button (src/main.js:73-82): it is shown, as a flex
 * box, exactly while the page is scrolled more than 400 pixels down.
 */
module ScrollTop {

  /** The scroll offset beyond which the button shows. */
  const ShowAfter := 400

  class ToTopButton {
    var hidden: bool
    var flex: bool

    /** The button shows and lays out as flex, never one without the other. */
    predicate Valid()
      reads this
    {
      hidden != flex
    }

    /** Page load runs `toggleToTop()` once (src/main.js:81), so the
        markup's flags are overwritten straight away. */
    constructor (scrollY: int)
      ensures Valid()
      ensures flex <==> scrollY > ShowAfter
    {
      var show := scrollY > ShowAfter;
      hidden := !show;
      flex := show;
    }

    /** `toggleToTop()` (src/main.js:75-79), run on every scroll event:
        shown exactly when `scrollY > 400`. */
    method Toggle(scrollY: int)
      modifies this
      ensures Valid()
      ensures flex <==> scrollY > ShowAfter
      ensures hidden <==> scrollY <= ShowAfter
    {
      var show := scrollY > ShowAfter;
      hidden := !show;
      flex := show;
    }
  }
}
