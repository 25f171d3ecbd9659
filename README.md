# Deck: a verified model of a slide-deck navigator

`Deck` (index.js) drives a browser slide show. At construction it queries the
document for the slide elements (selector `options.selector`, or
`"article.slide"` when that is missing or empty) and starts at index 0.
`nth(i)` is the one navigation primitive: it ignores a request for the slide
already current or for an index outside `0..n-1`; otherwise it records the old
index in `past`, makes `i` current, writes `"#" + i` to `window.location`,
sets slide `i` to `display: block` and every other slide to `display: none`,
and emits a `"slide"` event with `(current, past)`. `next`, `prev`, `first`
and `last` call `nth` with `current+1`, `current-1`, `0` and `n-1`.

The model has four modules:

- `Wrappers`: `Option`, used for `past`, which is `undefined` until the first
  navigation, and for the optional options object and selector.
- `NumberText`: the decimal text of an integer that `"#" + i` produces, and a
  parser that inverts it. Round trips are proved in both directions.
- `DeckSpec`: the deck's observable state as a value `DeckState` (indices,
  display style per slide, location, event log). Each public operation is a
  function on it that follows the branches of index.js. The lemmas state what
  navigation promises, including an invariant kept by every sequence of
  client calls.
- `Deck`: the class itself. It has the source's fields. `slides` is an
  `array<string>` of display styles. `window` is an injected object that
  holds `location`. `events` is the log of emitted events. The document query
  is a function passed to the constructor. Each method is proved to change
  the state exactly as the matching `DeckSpec` function does. The navigation
  methods are also proved to keep the object invariant `Valid()`. `Goto` and
  `Show` cannot affect it, because `Valid()` reads only the deck's own fields
  and those two methods change only the window and the slides array.
  `selector`, `slides`, `n` and `window` are `const`, so no navigation can
  change them.

## Model

| member | source | states |
|---|---|---|
| `NumberText.NatToString` | index.js:144 | the decimal text of a natural number is non-empty, all digits, and starts with '0' only for 0 itself |
| `NumberText.IntToString` | index.js:144 | the text of an integer is non-empty and starts with '-' exactly when the integer is negative |
| `NumberText.NatRoundTrip` | index.js:144 | reading back the digits of a natural number gives the number |
| `NumberText.CanonicalRoundTrip` | index.js:144 | every digit string without leading zeros is the text of the number it denotes |
| `NumberText.IntRoundTrip` | index.js:144 | parsing the text of any integer gives that integer back |
| `NumberText.ParsedIsPrinted` | index.js:144 | any text the parser accepts is exactly the printed form of the value it yields |
| `DeckSpec.GivenSelector` | index.js:32-34 | the selector read from the options: the given one when the options carry a selector, and non-empty only when one was given |
| `DeckSpec.EffectiveSelector` | index.js:32-34 | the selector is never empty; it is the given selector whenever that is non-empty, and otherwise the default "article.slide" of index.js:54-56 |
| `DeckSpec.Initial` | index.js:37-40 | a new deck is at index 0 with no previous index and no events, keeps the queried display styles and the page location, and satisfies the deck invariant |
| `DeckSpec.LocationFor` | index.js:143-146 | the location written for a slide starts with '#' followed by at least one character |
| `DeckSpec.LocationNamesIndex` | index.js:143-146 | the location written for slide i names slide i |
| `DeckSpec.LocationIndexIff` | index.js:143-146 | a location names slide i if and only if it is the text "#" + i |
| `DeckSpec.LocationInjective` | index.js:143-146 | two slides get the same location only if they are the same slide |
| `DeckSpec.Render` | index.js:157-162 | show(i) gives every slide "block" or "none", and a slide is "block" exactly when its position is i |
| `DeckSpec.CountVisibleRender` | index.js:157-162 | after show(i) exactly one slide is visible if i is a slide position, and none otherwise |
| `DeckSpec.Goto` | index.js:143-146 | goto(i) changes only the location, which becomes "#" + i and names slide i |
| `DeckSpec.Show` | index.js:157-162 | show(i) changes only the display styles: "block" at position i and "none" everywhere else, so one slide is visible when i is a slide and none otherwise |
| `DeckSpec.Emit` | index.js:130 | emitting appends exactly the event (current, past) to the log and changes nothing else |
| `DeckSpec.Nth` | index.js:116-132 | nth never changes the number of slides, and it changes the state if and only if i differs from current and lies in 0..n-1 |
| `DeckSpec.Next` | index.js:66-68 | next changes the state exactly when current+1 is a slide, and then current+1 becomes current and the old current becomes past |
| `DeckSpec.Prev` | index.js:78-80 | prev changes the state exactly when current-1 is a slide, and then current-1 becomes current and the old current becomes past |
| `DeckSpec.First` | index.js:103-105 | on a non-empty deck first ends at slide 0, and it changes the state exactly when the deck is non-empty and not already at 0 |
| `DeckSpec.Last` | index.js:91-93 | on a non-empty deck last ends at slide n-1, and it changes the state exactly when the deck is non-empty and not already at n-1 |
| `DeckSpec.NthToCurrentIsNoop` | index.js:117-119 | nth(current) leaves current, past, display, location and events unchanged |
| `DeckSpec.NthOutOfRangeIsNoop` | index.js:120-125 | nth(i) with i < 0 or i > n-1 changes nothing, so on a deck with no slides every nth is ignored |
| `DeckSpec.NthMoves` | index.js:126-128 | a successful nth(i) makes i current, sets past to the old current, and sets the location to "#" + i, which names i |
| `DeckSpec.NthShowsOnlyTarget` | index.js:129 | after a successful nth(i), slide k is "block" iff k == i, every other slide is "none", and exactly one slide is visible |
| `DeckSpec.NthEmitsOnce` | index.js:130 | a successful nth(i) appends exactly the event (i, old current); an ignored call appends nothing |
| `DeckSpec.NextAdvances` | index.js:66-68 | next from slide k with k+1 a slide makes k+1 current, k past, and emits (k+1, k) |
| `DeckSpec.PrevRetreats` | index.js:78-80 | prev from slide k > 0 makes k-1 current, k past, and emits (k-1, k) |
| `DeckSpec.EndsAreNoops` | index.js:66-80 | next on the last slide and prev on slide 0 change nothing |
| `DeckSpec.FirstAndLastReachEnds` | index.js:91-105 | from any position first makes 0 current and last makes n-1 current, leaving one slide visible whenever they move |
| `DeckSpec.InitialWellFormed` | index.js:37-40 | a new deck is at index 0 with no previous index and no events, which satisfies the deck invariant |
| `DeckSpec.NthPreservesWellFormed` | index.js:116-132 | nth keeps the invariant: indices in range and distinct once set, last event reporting them, event log a walk from slide 0 |
| `DeckSpec.StepPreservesWellFormed` | index.js:66-162 | every public call keeps the invariant and the number of slides |
| `DeckSpec.RunPreservesWellFormed` | index.js:66-162 | any sequence of public calls keeps the invariant and the number of slides |
| `DeckSpec.ReachableInBounds` | index.js:116-127 | for any call sequence on a new deck: current is 0 until some navigation succeeds, and afterwards it is always in 0..n-1 |
| `DeckSpec.ThreeSlideWalk` | index.js:66-68 | with three slides, next gives current 1, past 0, event (1, 0), slide 1 alone visible and location "#1"; two more nexts stop at slide 2 after events (1, 0), (2, 1) |
| `Deck.Window.constructor` | index.js:144 | the window whose location the deck writes starts with the given location |
| `Deck.Deck.constructor` | index.js:29-41 | the selector is the effective one, the slides are what the query returns for it, n is their count, current is 0, past is unset, and no event has been emitted |
| `Deck.Deck.Nth` | index.js:116-132 | the new state is DeckSpec.Nth of the old one, and the object invariant holds |
| `Deck.Deck.Next` | index.js:66-68 | the new state is DeckSpec.Nth of the old one at current+1 |
| `Deck.Deck.Prev` | index.js:78-80 | the new state is DeckSpec.Nth of the old one at current-1 |
| `Deck.Deck.Last` | index.js:91-93 | the new state is DeckSpec.Nth of the old one at n-1 |
| `Deck.Deck.First` | index.js:103-105 | the new state is DeckSpec.Nth of the old one at 0 |
| `Deck.Deck.Goto` | index.js:143-146 | only the location changes, and it becomes "#" + i |
| `Deck.Deck.Show` | index.js:157-162 | only the display styles change, to "block" for position i and "none" for every other slide |

## Left out

- `document.querySelectorAll` and CSS selector matching are host code. The
  constructor takes the query as a function from selector to the display
  styles of the matching elements, in document order.
- The slide elements' identity is not modelled. The deck copies their display
  styles into an array it owns, so two decks over the same elements do not
  see each other's `show`.
- The `emitter` library is not part of this model. `emit("slide", current, past)`
  becomes an append to the deck's event log. `on`, `off`, listener order,
  listener exceptions and listeners that call back into the deck are not
  modelled. The same goes for the `Emitter.call(this)` initialisation.
- Assigning to `window.location` also navigates the page and adds to the
  history, and reading `window.location` back gives a `Location` object. Only
  the string written is kept.
- JavaScript number semantics are not modelled. Indices are mathematical
  integers, so non-integer, `NaN` or string arguments compared with `===` are
  out of scope, and so is a non-string `options.selector`.
- NumberText.IntToString: gives plain decimal digits for every integer,
  whereas JavaScript switches to exponent notation from 10^21 in magnitude.
- The `return this` chaining is not modelled; the methods return nothing.
- Prototype inheritance from `Emitter.prototype` and the `defaults` object on
  the prototype are not modelled. The default selector is the constant
  `DeckSpec.DefaultSelector`.
