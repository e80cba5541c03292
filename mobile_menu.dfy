/**
 * The phone-size navigation menu: a button that opens and closes it, links
 * that close it when followed, the Escape key, and a press anywhere outside
 * both the menu and its button.
 */
module MobileMenu {
  /** Where a mouse press lands. */
  datatype Target = InMenu | OnButton | Outside

  class Menu {
    var isOpen: bool

    constructor ()
      ensures !isOpen
    {
      isOpen := false;
    }

    /** `toggleMenu` */
    method Toggle()
      modifies this
      ensures isOpen == !old(isOpen)
    {
      isOpen := !isOpen;
    }

    /** `handleLinkClick`, on every section link and on "Book Now". Links are shown only while open. */
    method LinkClick()
      requires isOpen
      modifies this
      ensures !isOpen
    {
      isOpen := false;
    }

    /** The Escape listener: Escape closes, every other key does nothing. */
    method KeyDown(key: string)
      modifies this
      ensures key == "Escape" ==> !isOpen
      ensures key != "Escape" ==> isOpen == old(isOpen)
    {
      if key == "Escape" {
        isOpen := false;
      }
    }

    /**
     * The click-outside listener. It closes the menu only when the menu is
     * rendered (its ref is set only while open) and the press is outside both
     * the menu and the button; a press on the button leaves the flag to the
     * button's own click.
     */
    method MouseDown(target: Target)
      modifies this
      ensures isOpen == (old(isOpen) && target != Outside)
    {
      if isOpen && target != InMenu && target != OnButton {
        isOpen := false;
      }
    }
  }

  /** Toggling twice changes nothing. */
  method ToggleTwice(m: Menu)
    modifies m
    ensures m.isOpen == old(m.isOpen)
  {
    m.Toggle();
    m.Toggle();
  }

  /** A press on the button first passes the outside listener unchanged, then the click toggles. */
  method PressButton(m: Menu)
    modifies m
    ensures m.isOpen == !old(m.isOpen)
  {
    m.MouseDown(OnButton);
    m.Toggle();
  }

  /** Once closed, no press outside and no key reopens the menu; only the button does. */
  method ClosedStaysClosed(m: Menu, target: Target, key: string)
    requires !m.isOpen
    modifies m
    ensures !m.isOpen
  {
    m.MouseDown(target);
    m.KeyDown(key);
  }
}
