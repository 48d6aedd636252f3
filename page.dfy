/**
 * The ClientPosts component of app/page.tsx: its five state cells are fields,
 * its setters, handlers and effects are methods that overwrite them.  Each method
 * is specified by the transition of module View that it performs.
 */
module Page {
  import opened Nullable
  import opened Posts
  import Text
  import PositionFilter
  import View

  class ClientPosts {
    var posts: seq<Post>
    var filteredPosts: seq<Post>
    var selectedPosition: Option<string>
    var selectedPost: Option<Post>
    var isModalVisible: bool

    /** The five cells as one value. */
    function State(): View.State
      reads this
    {
      View.State(posts, filteredPosts, selectedPosition, selectedPost, isModalVisible)
    }

    /** Mounting: every `useState` gets its initial value. */
    constructor ()
      ensures State() == View.Initial()
      ensures View.Invariant(State())
    {
      posts := [];
      filteredPosts := [];
      selectedPosition := None;
      selectedPost := None;
      isModalVisible := false;
    }

    /** `setPosts(fetchedPosts); setFilteredPosts(fetchedPosts);` */
    method Load(fetched: seq<Post>)
      modifies this
      ensures State() == View.Load(old(State()), fetched)
      ensures posts == fetched && filteredPosts == fetched
    {
      posts := fetched;
      filteredPosts := fetched;
    }

    /** `setSelectedPosition(e.target.value)` */
    method SelectPosition(value: string)
      modifies this
      ensures State() == View.SelectPosition(old(State()), value)
    {
      selectedPosition := Some(value);
    }

    /** The filter effect: recompute `filteredPosts` from `posts` and `selectedPosition`. */
    method RunFilterEffect()
      modifies this
      ensures State() == View.FilterEffect(old(State()))
      ensures View.Settled(State())
    {
      if selectedPosition.Some? && selectedPosition.value != "" {
        var trimmedSelectedPosition := Text.Normalize(selectedPosition.value);
        var newFilteredPosts := PositionFilter.FilterByPosition(posts, trimmedSelectedPosition);
        filteredPosts := newFilteredPosts;
      } else {
        filteredPosts := posts;
      }
    }

    /** `setSelectedPost(post); setIsModalVisible(!isModalVisible);` */
    method ToggleModal(post: Post)
      modifies this
      ensures State() == View.ToggleModal(old(State()), post)
      ensures selectedPost == Some(post) && isModalVisible == !old(isModalVisible)
    {
      selectedPost := Some(post);
      isModalVisible := !isModalVisible;
    }

    /** `setSelectedPost(null); setIsModalVisible(false);` */
    method CloseModal()
      modifies this
      ensures State() == View.CloseModal(old(State()))
      ensures selectedPost == None && !isModalVisible
    {
      selectedPost := None;
      isModalVisible := false;
    }

    /** The overlay: `isModalVisible && selectedPost`, rendered inside each card of `filteredPosts.map`. */
    method OverlayPost() returns (shown: Option<Post>)
      ensures shown == View.Overlay(State())
      ensures View.Invariant(State()) ==> (shown.Some? <==> isModalVisible && filteredPosts != [])
      ensures shown.Some? ==> shown == selectedPost
    {
      if filteredPosts != [] && isModalVisible && selectedPost.Some? {
        shown := selectedPost;
      } else {
        shown := None;
      }
    }

    /** One event: its handler, then the filter effect if `posts` or `selectedPosition` changed. */
    method Handle(e: View.Event)
      modifies this
      ensures State() == View.Step(old(State()), e)
      ensures View.Invariant(old(State())) ==> View.Invariant(State())
    {
      ghost var before := State();
      match e {
        case Fetched(fetched) =>
          Load(fetched);
          RunFilterEffect();
        case PositionChanged(value) =>
          SelectPosition(value);
          RunFilterEffect();
        case DetailClicked(post) =>
          ToggleModal(post);
        case CloseClicked =>
          CloseModal();
      }
      if View.Invariant(before) {
        View.StepKeepsInvariant(before, e);
      }
    }
  }
}
