/**
 * The five `useState` cells of the ClientPosts component as one value, and each
 * state change of app/page.tsx as a function on it.  These functions are the
 * specification of the class Page.ClientPosts.
 *
 * React runs an effect after the render that follows a change of one of its
 * dependencies.  Here that is a separate step, FilterEffect, which Step runs
 * after every event that changes `posts` or `selectedPosition`.
 */
module View {
  import opened Nullable
  import opened Posts
  import Text
  import PositionFilter
  import PositionList

  datatype State = State(
    posts: seq<Post>,
    filteredPosts: seq<Post>,
    selectedPosition: Option<string>,
    selectedPost: Option<Post>,
    isModalVisible: bool
  )

  /** The initial values given to `useState`. */
  function Initial(): State {
    State([], [], None, None, false)
  }

  /** The second half of the load effect, once the fetched list has arrived. */
  function Load(s: State, fetched: seq<Post>): State {
    s.(posts := fetched, filteredPosts := fetched)
  }

  /** The `onChange` handler of the selector. */
  function SelectPosition(s: State, value: string): State {
    s.(selectedPosition := Some(value))
  }

  /** The filter effect, which depends on `selectedPosition` and `posts`. */
  function FilterEffect(s: State): State {
    s.(filteredPosts := PositionFilter.VisiblePosts(s.posts, s.selectedPosition))
  }

  /** The "Detail Player" button: store the post, invert the visibility flag. */
  function ToggleModal(s: State, post: Post): State {
    s.(selectedPost := Some(post), isModalVisible := !s.isModalVisible)
  }

  /** The close button of the overlay. */
  function CloseModal(s: State): State {
    s.(selectedPost := None, isModalVisible := false)
  }

  /**
   * The post the overlay shows, if any.  The render condition `isModalVisible && selectedPost`
   * sits inside every card of `filteredPosts.map`, so with an empty grid nothing is shown.
   */
  function Overlay(s: State): Option<Post> {
    if s.filteredPosts != [] && s.isModalVisible && s.selectedPost.Some? then s.selectedPost else None
  }

  /** The selector's options besides "All". */
  function Options(s: State): seq<string> {
    PositionList.PositionOptions(s.posts)
  }

  /** What the effect would store is what is stored. */
  ghost predicate Settled(s: State) {
    s.filteredPosts == PositionFilter.VisiblePosts(s.posts, s.selectedPosition)
  }

  /** The overlay flag is raised only with a post to show. */
  ghost predicate OverlayConsistent(s: State) {
    s.isModalVisible ==> s.selectedPost.Some?
  }

  ghost predicate Invariant(s: State) {
    Settled(s) && OverlayConsistent(s)
  }

  /** What the user and the network can do to the page. */
  datatype Event =
    | Fetched(fetched: seq<Post>)
    | PositionChanged(value: string)
    | DetailClicked(post: Post)
    | CloseClicked

  /** One event, followed by the filter effect when the event touched one of its dependencies. */
  function Step(s: State, e: Event): State {
    match e
    case Fetched(fetched) => FilterEffect(Load(s, fetched))
    case PositionChanged(value) => FilterEffect(SelectPosition(s, value))
    case DetailClicked(post) => ToggleModal(s, post)
    case CloseClicked => CloseModal(s)
  }

  function Run(s: State, events: seq<Event>): State
    decreases |events|
  {
    if events == [] then s else Run(Step(s, events[0]), events[1..])
  }

  /** Before any load: no posts, nothing shown, no options, no selection, overlay closed. */
  lemma InitialIsEmptyAndClosed()
    ensures Initial().posts == [] && Initial().filteredPosts == [] && Options(Initial()) == []
    ensures Initial().selectedPosition == None && Overlay(Initial()) == None
    ensures Invariant(Initial())
  {
    PositionList.NoPostsNoOptions([]);
  }

  /** The filter effect's first run, after the first render, leaves the initial state as it is. */
  lemma MountEffectChangesNothing()
    ensures FilterEffect(Initial()) == Initial()
  {
  }

  /**
   * Loading publishes the fetched list as both `posts` and `filteredPosts` and
   * touches nothing else; with no truthy selection the state is then already settled.
   */
  lemma LoadPublishes(s: State, fetched: seq<Post>)
    ensures Load(s, fetched).posts == fetched && Load(s, fetched).filteredPosts == fetched
    ensures Load(s, fetched).(posts := s.posts, filteredPosts := s.filteredPosts) == s
    ensures !PositionFilter.IsTruthy(s.selectedPosition) ==> Settled(Load(s, fetched))
  {
  }

  /** The first load leaves the overlay closed, whatever was fetched. */
  lemma FirstLoadOverlayClosed(fetched: seq<Post>)
    ensures Overlay(Step(Initial(), Fetched(fetched))) == None
    ensures Step(Initial(), Fetched(fetched)).filteredPosts == fetched
  {
  }

  /**
   * After the filter effect the state is settled, and running the effect again
   * changes nothing; on a settled state the effect is a no-op, so running it when
   * React would skip it (no dependency changed) makes no difference.
   */
  lemma FilterEffectSettles(s: State)
    ensures Settled(FilterEffect(s))
    ensures FilterEffect(FilterEffect(s)) == FilterEffect(s)
    ensures Settled(s) ==> FilterEffect(s) == s
  {
  }

  /**
   * A settled state with a truthy selection shows the ordered subsequence of the
   * posts whose normalised position is the normalised selection, and all of them.
   */
  lemma SettledShowsMatchingPosts(s: State)
    requires Settled(s) && PositionFilter.IsTruthy(s.selectedPosition)
    ensures forall p :: p in s.filteredPosts <==>
              p in s.posts && Text.Normalize(p.position) == Text.Normalize(s.selectedPosition.value)
    ensures forall p :: multiset(s.filteredPosts)[p] ==
              if Text.Normalize(p.position) == Text.Normalize(s.selectedPosition.value) then multiset(s.posts)[p] else 0
  {
    forall p {
      PositionFilter.SelectionCountsMatchingPosts(s.posts, s.selectedPosition.value, p);
    }
  }

  /** Choosing "All" shows every post, in order. */
  lemma ChoosingAllShowsEverything(s: State)
    ensures Step(s, PositionChanged("")).filteredPosts == s.posts
  {
  }

  /** Choosing one of the offered options never leaves the grid empty. */
  lemma ChoosingAnOptionShowsSomePost(s: State, option: string)
    requires option in Options(s)
    ensures Step(s, PositionChanged(option)).filteredPosts != []
  {
    PositionList.PositionOptionsAreDistinctRawPositions(s.posts);
    assert multiset(Options(s))[option] > 0;
    var p :| p in s.posts && p.position == option;
    if option != "" {
      PositionFilter.SelectionCountsMatchingPosts(s.posts, option, p);
      assert p in Step(s, PositionChanged(option)).filteredPosts;
    }
  }

  /** Toggling touches only the overlay fields, and always remembers the clicked post. */
  lemma ToggleFrame(s: State, post: Post)
    ensures ToggleModal(s, post).posts == s.posts
    ensures ToggleModal(s, post).filteredPosts == s.filteredPosts
    ensures ToggleModal(s, post).selectedPosition == s.selectedPosition
    ensures ToggleModal(s, post).selectedPost == Some(post)
    ensures ToggleModal(s, post).isModalVisible != s.isModalVisible
  {
  }

  /** Two clicks, on the same card or on two different cards, restore the visibility flag. */
  lemma ToggleTwiceRestoresVisibility(s: State, first: Post, second: Post)
    ensures ToggleModal(ToggleModal(s, first), second).isModalVisible == s.isModalVisible
    ensures ToggleModal(ToggleModal(s, first), second).selectedPost == Some(second)
  {
  }

  /**
   * From a closed overlay a click on a shown card opens it on that card's post; from an
   * open overlay a click on ANY card closes it, while still storing that card's post.
   */
  lemma ToggleOpensOrCloses(s: State, post: Post)
    requires post in s.filteredPosts
    ensures !s.isModalVisible ==> Overlay(ToggleModal(s, post)) == Some(post)
    ensures s.isModalVisible ==> Overlay(ToggleModal(s, post)) == None && ToggleModal(s, post).selectedPost == Some(post)
  {
  }

  /** Closing works from any state, is idempotent and touches only the overlay fields. */
  lemma CloseModalCloses(s: State)
    ensures Overlay(CloseModal(s)) == None
    ensures CloseModal(s).selectedPost == None && !CloseModal(s).isModalVisible
    ensures CloseModal(CloseModal(s)) == CloseModal(s)
    ensures CloseModal(s).posts == s.posts && CloseModal(s).filteredPosts == s.filteredPosts
    ensures CloseModal(s).selectedPosition == s.selectedPosition
  {
  }

  /**
   * With the flag raised only when a post is stored, the overlay shows exactly when
   * the flag is up and the grid has a card to carry it, and it shows the stored post.
   */
  lemma OverlayFollowsFlag(s: State)
    requires OverlayConsistent(s)
    ensures Overlay(s).Some? <==> s.isModalVisible && s.filteredPosts != []
    ensures Overlay(s).Some? ==> Overlay(s) == s.selectedPost
    ensures s.filteredPosts == [] ==> Overlay(s) == None
  {
  }

  lemma StepKeepsInvariant(s: State, e: Event)
    requires Invariant(s)
    ensures Invariant(Step(s, e))
  {
  }

  /**
   * Every state the page reaches from its initial state is settled (the grid shows
   * the filter of the posts by the current selection) and has a post behind a raised
   * overlay flag.
   */
  lemma {:induction false} RunKeepsInvariant(s: State, events: seq<Event>)
    requires Invariant(s)
    ensures Invariant(Run(s, events))
    decreases |events|
  {
    if events != [] {
      StepKeepsInvariant(s, events[0]);
      RunKeepsInvariant(Step(s, events[0]), events[1..]);
    }
  }

  lemma ReachableStatesKeepInvariant(events: seq<Event>)
    ensures Invariant(Run(Initial(), events))
  {
    InitialIsEmptyAndClosed();
    RunKeepsInvariant(Initial(), events);
  }
}
