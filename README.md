# ClientPosts: a verified model of the football player list page

The page `app/page.tsx` (component `ClientPosts`) fetches a list of player
records once, shows them as a grid of cards, lets the user narrow the grid by
playing position through a selector, and opens a detail overlay for one player.
This project models the logic inside that page:

- the **position filter** that the filter effect applies (`trim().toLowerCase()`
  on both sides, JavaScript truthiness of the selection, order-preserving
  `Array.prototype.filter`), in modules `Text` and `PositionFilter`;
- the **option list** of the selector, `Array.from(new Set(posts.map(p => p.position)))`,
  in module `PositionList`;
- the **view state**: the five `useState` cells and the handlers and effects
  that overwrite them. Module `View` gives each state change as a function on a
  `State` value and proves the properties of the page over them. Module `Page`
  holds the class `ClientPosts`, whose fields are the five cells and whose
  methods are specified by those functions.
- `Scenarios` proves the rules on small concrete lists.

React effects are modelled as synchronous steps. An effect runs after the
state change that touches one of its dependencies. `View.Step` handles one
event (a completed fetch, a selector change, a "Detail Player" click, a close
click) and then runs the filter effect when `posts` or `selectedPosition`
changed. React skips an effect whose dependencies are unchanged; the model
runs it anyway, and `View.FilterEffectSettles` proves that on a settled state
the effect changes nothing, so the two agree.

The events allow more runs than the page can make. The page fetches once, on
mount (app/page.tsx:34-42), and a detail click comes from a rendered card
(app/page.tsx:88-98), and the selector offers only `""` and the raw positions
(app/page.tsx:76-83); `Fetched` may occur any number of times, `DetailClicked`
may carry any post and `PositionChanged` any string. The invariants are proved for all those
runs, so they hold in particular for the runs the page makes.

Three behaviours of the code a reader might not expect:

- The option list removes duplicate **raw** position strings, so `"GK"` and
  `"gk"` are two options (`Scenarios.OptionsKeepRawPositions`). It does not
  dedupe normalised values.
- "No filter" is JavaScript falsiness of `selectedPosition`: `null` and `""`.
  A selection made only of blanks is truthy. It then keeps only the players
  whose position is blank (`PositionFilter.BlankSelectionShowsBlankPositions`).
- `filteredPosts` is not always equal to the filter of `posts`. Right after
  `Load` with a truthy selection, it holds the whole fetched list until the
  effect runs. The invariant holds in every state reached through `View.Step`
  (`View.ReachableStatesKeepInvariant`).

## Model

| member | source | states |
|---|---|---|
| Text.Trim | app/page.tsx:46-48 | `trim()`: the input without its leading and trailing white space; characterised by `Text.TrimIsSliceBetweenWhiteSpace` |
| Text.ToLower | app/page.tsx:46-48 | `toLowerCase()`: every character lower-cased in place by `Text.LowerChar`; related to its inputs by `Text.ToLowerEqualIff` |
| Text.Normalize | app/page.tsx:46-48 | `trim().toLowerCase()`, the comparison key on both sides; characterised by `Text.NormalizeEqualIff` and `Text.NormalizeEmptyIffBlank` |
| Text.LowerChar | app/page.tsx:46-48 | the lower-cased character is a case variant of the original that is not an ASCII capital, so a capital becomes its small letter and anything else stays |
| Text.LowerCharMergesOnlyCasePairs | app/page.tsx:46-48 | two characters lower-case alike exactly when they are equal or an ASCII capital and its small letter |
| Text.ToLowerEqualIff | app/page.tsx:46-48 | two strings of equal length lower-case alike exactly when they agree up to ASCII case at every position |
| Text.LowerCharKeepsWhiteSpace | app/page.tsx:46-48 | `toLowerCase()` leaves white space exactly where it was |
| Text.LeadingWhiteSpace | app/page.tsx:46-48 | the count of leading characters that `trim()` removes: all of them are white space and the next one is not |
| Text.TrailingWhiteSpace | app/page.tsx:46-48 | the count of trailing characters that `trim()` removes: all of them are white space and the one before is not |
| Text.TrimIsSliceBetweenWhiteSpace | app/page.tsx:46-48 | `trim()` returns a slice of the input that neither starts nor ends with white space, with only white space before and after it |
| Text.ToLowerIdempotent | app/page.tsx:46-48 | lower-casing twice is lower-casing once |
| Text.TrimIdempotent | app/page.tsx:46-48 | trimming twice is trimming once |
| Text.TrimCommutesWithLower | app/page.tsx:46-48 | trimming and lower-casing commute |
| Text.NormalizeIdempotent | app/page.tsx:46-48 | `trim().toLowerCase()` applied twice equals applying it once |
| Text.NormalizeIgnoresCase | app/page.tsx:46-49 | lower-casing before normalising changes nothing, so the comparison ignores ASCII case |
| Text.NormalizeEqualIff | app/page.tsx:46-49 | a position and a selection compare equal exactly when their trimmed forms have the same length and agree up to ASCII case position by position |
| Text.NormalizeEmptyIffBlank | app/page.tsx:46-49 | a string normalises to `""` exactly when it is all white space |
| PositionFilter.HasPosition | app/page.tsx:47-49 | the `filter` callback: the post's normalised position equals the already normalised selection |
| PositionFilter.FilterByPosition | app/page.tsx:47-50 | `posts.filter(...)` with that callback; characterised by `PositionFilter.SelectionShowsExactlyMatchingPosts` |
| PositionFilter.IsTruthy | app/page.tsx:45 | JavaScript truthiness of the selection: neither `null` nor `""` |
| PositionFilter.VisiblePosts | app/page.tsx:44-54 | what the filter effect stores; characterised by `PositionFilter.SelectionShowsExactlyMatchingPosts` and `PositionFilter.NoSelectionShowsAll` |
| PositionFilter.Filter | app/page.tsx:47-50 | `filter` keeps an element exactly when it is in the input and the callback accepts it, and never lengthens the list |
| PositionFilter.KeptFrom | app/page.tsx:47-50 | the indices from a start position whose element the callback accepts are valid and strictly increasing |
| PositionFilter.KeptFromAreTheMatches | app/page.tsx:47-50 | an index from the start position on is listed exactly when the callback accepts the element there |
| PositionFilter.KeptIndicesAreTheMatches | app/page.tsx:47-50 | an index is among the kept ones exactly when the callback accepts the element there |
| PositionFilter.FilterFromAtKeptIndices | app/page.tsx:47-50 | the `i`-th element that `filter` keeps is the input element at the `i`-th accepted index |
| PositionFilter.FilterIsKeptSubsequence | app/page.tsx:47-50 | the filtered list is the input's elements at the accepted indices, in increasing index order |
| PositionFilter.FilterCounts | app/page.tsx:47-50 | each element occurs in the result as often as in the input if accepted, otherwise not at all |
| PositionFilter.FilterIdempotent | app/page.tsx:47-50 | filtering a filtered list with the same callback returns it unchanged |
| PositionFilter.NoSelectionShowsAll | app/page.tsx:45-54 | a `null` selection and the "All" value `""` both leave `posts` unchanged |
| PositionFilter.SelectionShowsExactlyMatchingPosts | app/page.tsx:45-51 | with a non-empty selection, the result is the ordered subsequence of exactly the posts whose normalised position equals the normalised selection, each with its multiplicity |
| PositionFilter.SelectionCountsMatchingPosts | app/page.tsx:45-51 | with a non-empty selection, each post is shown as often as it is loaded when its normalised position matches, and never otherwise |
| PositionFilter.VisibleIdempotent | app/page.tsx:44-54 | applying the same selection to what is shown changes nothing |
| PositionFilter.NormalisedSelectionShowsSame | app/page.tsx:45-50 | a selection and its normalised form show the same posts, unless normalisation leaves `""` |
| PositionFilter.BlankSelectionShowsBlankPositions | app/page.tsx:45-50 | a non-empty all-blank selection keeps exactly the posts whose position is all blank |
| PositionList.Positions | app/page.tsx:79 | `posts.map(post => post.position)` |
| PositionList.PositionOptions | app/page.tsx:79 | the selector's options after "All"; characterised by `PositionList.PositionOptionsAreDistinctRawPositions` |
| PositionList.Distinct | app/page.tsx:79 | `Array.from(new Set(xs))` has no duplicates and holds exactly the elements of `xs` |
| PositionList.FirstIndex | app/page.tsx:79 | the first index at which a value occurs |
| PositionList.DistinctInFirstSeenOrder | app/page.tsx:79 | the distinct values are listed in the order of their first occurrence |
| PositionList.NoDuplicatesCountsOnce | app/page.tsx:79 | in a list without duplicates each member occurs exactly once |
| PositionList.PositionOptionsAreDistinctRawPositions | app/page.tsx:79 | every raw position of the posts is an option exactly once, nothing else is, in first-seen order |
| PositionList.NoPostsNoOptions | app/page.tsx:78-79 | there are no options besides "All" exactly when there are no posts |
| View.Initial | app/page.tsx:28-32 | the five `useState` initial values; see `View.InitialIsEmptyAndClosed` |
| View.Load | app/page.tsx:36-38 | `setPosts` and `setFilteredPosts` with the fetched list; see `View.LoadPublishes` |
| View.SelectPosition | app/page.tsx:76 | the selector's `onChange`: the selection becomes the chosen value |
| View.FilterEffect | app/page.tsx:44-55 | the filter effect: `filteredPosts` becomes `VisiblePosts` of the posts and the selection; see `View.FilterEffectSettles` |
| View.ToggleModal | app/page.tsx:57-60 | `toggleModal`: store the post, invert the flag; see `View.ToggleFrame` |
| View.CloseModal | app/page.tsx:62-65 | `closeModal`: clear the post, lower the flag; see `View.CloseModalCloses` |
| View.Overlay | app/page.tsx:88-104 | the post the overlay shows, if a card is rendered and the flag is up with a post stored; see `View.OverlayFollowsFlag` |
| View.Step | app/page.tsx:36-65 | one event, then the filter effect when `posts` or `selectedPosition` changed; see `View.StepKeepsInvariant` |
| View.Run | app/page.tsx:36-65 | a sequence of events, one `View.Step` each; see `View.RunKeepsInvariant` |
| View.InitialIsEmptyAndClosed | app/page.tsx:28-32 | the initial state has no posts, nothing shown, no options, no selection and a closed overlay, and satisfies the invariant |
| View.MountEffectChangesNothing | app/page.tsx:44-55 | the filter effect's first run leaves the initial state unchanged |
| View.LoadPublishes | app/page.tsx:36-38 | loading sets `posts` and `filteredPosts` to the fetched list and touches nothing else; with no truthy selection the state is then settled |
| View.FirstLoadOverlayClosed | app/page.tsx:28-38 | after the first load the overlay is closed and every fetched post is shown |
| View.FilterEffectSettles | app/page.tsx:44-55 | after the effect the shown list is the filter of the posts by the selection; re-running it changes nothing, and on a settled state it is a no-op |
| View.SettledShowsMatchingPosts | app/page.tsx:44-55 | in a settled state with a truthy selection, a post is shown exactly when it is loaded and its normalised position matches, with its multiplicity |
| View.ChoosingAllShowsEverything | app/page.tsx:76-78 | choosing "All" shows every post in order |
| View.ChoosingAnOptionShowsSomePost | app/page.tsx:76-79 | choosing any offered option leaves at least one post shown |
| View.ToggleFrame | app/page.tsx:57-60 | a detail click stores the clicked post, inverts the flag, and leaves posts, shown posts and selection unchanged |
| View.ToggleTwiceRestoresVisibility | app/page.tsx:57-60 | two detail clicks restore the visibility flag and keep the second post |
| View.ToggleOpensOrCloses | app/page.tsx:57-60 | from closed a click on a shown card shows that card's post; from open a click on any card hides the overlay while storing that card's post |
| View.CloseModalCloses | app/page.tsx:62-65 | closing from any state clears the post and the flag, is idempotent, and changes nothing else |
| View.OverlayFollowsFlag | app/page.tsx:88-104 | when the flag is raised only with a stored post, the overlay shows exactly when the flag is up and at least one card is rendered, and it shows the stored post; with an empty grid it never shows |
| View.StepKeepsInvariant | app/page.tsx:36-65 | every event keeps the shown list settled and keeps a post stored behind a raised flag |
| View.RunKeepsInvariant | app/page.tsx:36-65 | any sequence of events keeps that invariant |
| View.ReachableStatesKeepInvariant | app/page.tsx:28-65 | every state reachable from the initial one satisfies that invariant |
| Page.ClientPosts.State | app/page.tsx:28-32 | the five state cells as one `View.State` value, by which every method is specified |
| Page.ClientPosts.constructor | app/page.tsx:28-32 | mounting gives every cell its initial value |
| Page.ClientPosts.Load | app/page.tsx:36-38 | both list cells become the fetched list and nothing else changes |
| Page.ClientPosts.SelectPosition | app/page.tsx:76 | the selection becomes the chosen value and nothing else changes |
| Page.ClientPosts.RunFilterEffect | app/page.tsx:44-55 | the shown list becomes the filter of the posts by the current selection |
| Page.ClientPosts.ToggleModal | app/page.tsx:57-60 | stores the post, inverts the flag, changes nothing else |
| Page.ClientPosts.CloseModal | app/page.tsx:62-65 | clears the stored post and lowers the flag, changes nothing else |
| Page.ClientPosts.OverlayPost | app/page.tsx:88-104 | returns the overlay of the current state; under the invariant it shows a post exactly when the flag is up and the grid has a card, and what it shows is the stored post |
| Page.ClientPosts.Handle | app/page.tsx:36-65 | one event performs its handler and then the filter effect when needed, and keeps the invariant |
| Scenarios.SelectionIgnoresCaseAndSpace | app/page.tsx:45-50 | selecting `" gk "` from a "GK" and an "ST" player shows only the "GK" player |
| Scenarios.OptionsKeepRawPositions | app/page.tsx:79 | positions "GK", "gk", "GK" give the options "GK", "gk" |
| Scenarios.BlankSelectionIsNotAll | app/page.tsx:45-50 | selecting `" "` hides a player whose position is "GK" |
| Scenarios.DetailThenClose | app/page.tsx:57-65 | after a load and a detail click on a fetched post the overlay shows the post; after close it shows nothing and stores no post |
| Scenarios.EmptyGridHidesOverlay | app/page.tsx:88-104 | with the flag up and a post stored, a grid emptied by a later fetch shows no overlay |

## Left out

- `getPosts`, the network request and JSON parsing (app/page.tsx:21-25): a completed fetch is the event `Fetched` carrying an already parsed list. A failed fetch is an unhandled rejection in the page and changes no state, so no event models it.
- The asynchrony of effects, React's batching of setters and its re-rendering: effects are synchronous steps after the state change that triggers them.
- The JSX markup, styling, the `Inter` font setup and the `next/image` import (app/page.tsx:2-6, 67-155), including the list of fields the overlay displays.
- The card `key` string (app/page.tsx:89), a rendering concern whose uniqueness the page does not guarantee.
- Text.ToLower: lower-cases ASCII capitals only; the Unicode case mapping of `toLowerCase` (for example accented capitals) is not modelled.
- Text.IsWhiteSpace: follows the ECMAScript white space and line terminator code points as of Unicode 15; strings are sequences of Unicode scalar values, so lone UTF-16 surrogates are not representable.
- Page.ClientPosts.OverlayPost: the page renders one copy of the overlay inside each card (app/page.tsx:88-104); the model returns the single post all copies show, not how many copies there are.
