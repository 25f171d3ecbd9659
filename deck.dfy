/**
 * The `Deck` object of index.js: a navigator over the slides a document
 * query found, holding the current and previous index, writing the page
 * location and each slide's display style, and logging the "slide" events
 * it emits. Every method is proved to move the deck's state exactly as the
 * matching function of DeckSpec does.
 */
module Deck {
  import opened Wrappers
  import NumberText
  import opened DeckSpec

  /** The browser window, of which the deck only writes `location`. */
  class Window {
    var location: string

    constructor (location: string)
      ensures this.location == location
    {
      this.location := location;
    }
  }

  class Deck {
    const selector: string
    /** `style.display` of each slide found, in document order. */
    const slides: array<string>
    const n: nat
    const window: Window
    var current: int
    var past: Option<int>
    /** The "slide" events emitted so far, oldest first. */
    var events: seq<SlideEvent>

    ghost predicate Valid()
      reads this
    {
      n == slides.Length && WellFormedHistory(n, current, past, events)
    }

    /** The deck's state as a DeckState value. */
    ghost function State(): DeckState
      reads this, slides, window
    {
      DeckState(current, past, slides[..], window.location, events)
    }

    /**
     * `new Deck(options)`: `document` stands for `document.querySelectorAll`,
     * giving the display style of every slide the selector matches. No slide
     * is shown or hidden and the location is not written.
     */
    constructor (options: Option<Options>, document: string -> seq<string>, window: Window)
      ensures Valid() && fresh(slides) && this.window == window
      ensures selector == EffectiveSelector(options)
      ensures n == |document(selector)|
      ensures State() == Initial(document(selector), window.location)
    {
      var chosen := EffectiveSelector(options);
      var elements := document(chosen);
      selector := chosen;
      slides := new string[|elements|](k requires 0 <= k < |elements| => elements[k]);
      n := |elements|;
      current := 0;
      past := None;
      events := [];
      this.window := window;
    }

    method Nth(i: int)
      requires Valid()
      modifies this, slides, window
      ensures Valid()
      ensures State() == DeckSpec.Nth(old(State()), i)
    {
      if i == current {
        return;
      }
      if i < 0 {
        return;
      }
      if i > n - 1 {
        return;
      }
      NthPreservesWellFormed(State(), i);
      past := Some(current);
      current := i;
      Goto(i);
      Show(i);
      events := events + [Slide(current, past.value)];
    }

    method Next()
      requires Valid()
      modifies this, slides, window
      ensures Valid()
      ensures State() == DeckSpec.Next(old(State()))
    {
      Nth(current + 1);
    }

    method Prev()
      requires Valid()
      modifies this, slides, window
      ensures Valid()
      ensures State() == DeckSpec.Prev(old(State()))
    {
      Nth(current - 1);
    }

    method Last()
      requires Valid()
      modifies this, slides, window
      ensures Valid()
      ensures State() == DeckSpec.Last(old(State()))
    {
      Nth(n - 1);
    }

    method First()
      requires Valid()
      modifies this, slides, window
      ensures Valid()
      ensures State() == DeckSpec.First(old(State()))
    {
      Nth(0);
    }

    /** Writes `"#" + i` to the window's location; nothing else changes. */
    method Goto(i: int)
      modifies window
      ensures State() == DeckSpec.Goto(old(State()), i)
    {
      window.location := "#" + NumberText.IntToString(i);
    }

    /** Sets slide `i` to "block" and every other slide to "none". */
    method Show(i: int)
      modifies slides
      ensures State() == DeckSpec.Show(old(State()), i)
    {
      var k := 0;
      while k < slides.Length
        invariant 0 <= k <= slides.Length
        invariant forall j :: 0 <= j < k ==> slides[j] == (if j == i then Block else Hidden)
      {
        slides[k] := if i == k then Block else Hidden;
        k := k + 1;
      }
      assert slides[..] == Render(slides.Length, i);
    }
  }
}
