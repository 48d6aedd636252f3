/**
 * The body of the filter effect of app/page.tsx: with a truthy selection, keep
 * the posts whose trimmed, lower-cased position equals the trimmed,
 * lower-cased selection; with `null` or `""` (the "All" option), keep them all.
 */
module PositionFilter {
  import opened Nullable
  import opened Posts
  import Text

  /** The callback handed to `posts.filter`; `wanted` is the selection already normalised. */
  predicate HasPosition(p: Post, wanted: string) {
    Text.Normalize(p.position) == wanted
  }

  /** `Array.prototype.filter`: the elements for which `keep` holds, each kept or dropped in turn. */
  function Filter<T(!new)>(xs: seq<T>, keep: T -> bool): (r: seq<T>)
    ensures |r| <= |xs|
    ensures forall x :: x in r <==> x in xs && keep(x)
  {
    if xs == [] then []
    else (if keep(xs[0]) then [xs[0]] else []) + Filter(xs[1..], keep)
  }

  /** `posts.filter(...)` with the callback of the filter effect. */
  function FilterByPosition(posts: seq<Post>, wanted: string): seq<Post> {
    Filter(posts, p => HasPosition(p, wanted))
  }

  /** JavaScript truthiness of a `string | null`: neither `null` nor the empty string. */
  predicate IsTruthy(selected: Option<string>) {
    selected.Some? && selected.value != ""
  }

  /** What the filter effect stores into `filteredPosts`. */
  function VisiblePosts(posts: seq<Post>, selected: Option<string>): seq<Post> {
    if IsTruthy(selected) then FilterByPosition(posts, Text.Normalize(selected.value)) else posts
  }

  /** `idx` lists, in increasing order, positions of `s` whose elements, in that order, make up `r`. */
  ghost predicate IsOrderedSelection<T>(r: seq<T>, s: seq<T>, idx: seq<nat>) {
    && |idx| == |r|
    && (forall i :: 0 <= i < |idx| ==> idx[i] < |s| && r[i] == s[idx[i]])
    && (forall i, j :: 0 <= i < j < |idx| ==> idx[i] < idx[j])
  }

  /** The indices `j >= k` of `xs` whose element `keep` accepts, in increasing order. */
  ghost function KeptFrom<T(!new)>(xs: seq<T>, keep: T -> bool, k: nat): (idx: seq<nat>)
    requires k <= |xs|
    ensures forall i :: 0 <= i < |idx| ==> k <= idx[i] < |xs|
    ensures forall i, j :: 0 <= i < j < |idx| ==> idx[i] < idx[j]
    decreases |xs| - k
  {
    if k == |xs| then [] else (if keep(xs[k]) then [k] else []) + KeptFrom(xs, keep, k + 1)
  }

  /** The indices of the elements for which `keep` holds, in increasing order. */
  ghost function KeptIndices<T(!new)>(xs: seq<T>, keep: T -> bool): seq<nat> {
    KeptFrom(xs, keep, 0)
  }

  lemma {:induction false} KeptFromAreTheMatches<T(!new)>(xs: seq<T>, keep: T -> bool, k: nat)
    requires k <= |xs|
    ensures forall j :: j in KeptFrom(xs, keep, k) <==> k <= j < |xs| && keep(xs[j])
    decreases |xs| - k
  {
    if k < |xs| {
      KeptFromAreTheMatches(xs, keep, k + 1);
    }
  }

  /** An index is kept exactly when `keep` holds of the element there. */
  lemma KeptIndicesAreTheMatches<T(!new)>(xs: seq<T>, keep: T -> bool)
    ensures forall j :: 0 <= j < |xs| ==> (j in KeptIndices(xs, keep) <==> keep(xs[j]))
    ensures forall j :: j in KeptIndices(xs, keep) ==> j < |xs|
  {
    KeptFromAreTheMatches(xs, keep, 0);
  }

  /** Filtering the suffix from `k` picks the elements at the kept indices from `k` on, one by one. */
  lemma {:induction false} FilterFromAtKeptIndices<T(!new)>(xs: seq<T>, keep: T -> bool, k: nat)
    requires k <= |xs|
    ensures |Filter(xs[k..], keep)| == |KeptFrom(xs, keep, k)|
    ensures forall i :: 0 <= i < |KeptFrom(xs, keep, k)| ==> Filter(xs[k..], keep)[i] == xs[KeptFrom(xs, keep, k)[i]]
    decreases |xs| - k
  {
    if k < |xs| {
      FilterFromAtKeptIndices(xs, keep, k + 1);
      assert xs[k..][0] == xs[k] && xs[k..][1..] == xs[k + 1..];
    }
  }

  /**
   * The filter's result is the elements of `xs` at the kept indices, in increasing
   * order of index: an order-preserving subsequence.
   */
  lemma FilterIsKeptSubsequence<T(!new)>(xs: seq<T>, keep: T -> bool)
    ensures IsOrderedSelection(Filter(xs, keep), xs, KeptIndices(xs, keep))
  {
    FilterFromAtKeptIndices(xs, keep, 0);
    assert xs[0..] == xs;
  }

  /** An element occurs in the result as often as in the input when `keep` holds of it, otherwise never. */
  lemma {:induction false} FilterCounts<T(!new)>(xs: seq<T>, keep: T -> bool, x: T)
    ensures multiset(Filter(xs, keep))[x] == if keep(x) then multiset(xs)[x] else 0
  {
    if xs != [] {
      FilterCounts(xs[1..], keep, x);
      assert xs == [xs[0]] + xs[1..];
    }
  }

  /** Filtering an already filtered list with the same predicate changes nothing. */
  lemma {:induction false} FilterIdempotent<T(!new)>(xs: seq<T>, keep: T -> bool)
    ensures Filter(Filter(xs, keep), keep) == Filter(xs, keep)
  {
    if xs != [] {
      FilterIdempotent(xs[1..], keep);
      if keep(xs[0]) {
        var rest := Filter(xs[1..], keep);
        var r := [xs[0]] + rest;
        assert r[0] == xs[0] && r[1..] == rest;
        assert Filter(xs, keep) == r;
        assert Filter(r, keep) == [xs[0]] + Filter(rest, keep);
      } else {
        assert Filter(xs, keep) == Filter(xs[1..], keep);
      }
    }
  }

  /** A `null` selection and the "All" option (value `""`) both show every post, in order. */
  lemma NoSelectionShowsAll(posts: seq<Post>)
    ensures VisiblePosts(posts, None) == posts
    ensures VisiblePosts(posts, Some("")) == posts
  {
  }

  /**
   * With a truthy selection, what is shown is the ordered subsequence of the posts
   * whose normalised position equals the normalised selection, and every such post.
   */
  lemma SelectionShowsExactlyMatchingPosts(posts: seq<Post>, selected: string)
    requires selected != ""
    ensures var keep := (p: Post) => HasPosition(p, Text.Normalize(selected));
            && IsOrderedSelection(VisiblePosts(posts, Some(selected)), posts, KeptIndices(posts, keep))
            && forall j :: 0 <= j < |posts| ==>
                 (j in KeptIndices(posts, keep) <==> Text.Normalize(posts[j].position) == Text.Normalize(selected))
  {
    var wanted := Text.Normalize(selected);
    var keep := (p: Post) => HasPosition(p, wanted);
    assert VisiblePosts(posts, Some(selected)) == Filter(posts, keep);
    FilterIsKeptSubsequence(posts, keep);
    KeptIndicesAreTheMatches(posts, keep);
  }

  /** With a truthy selection, each post is shown as often as it is loaded if its position matches, else never. */
  lemma SelectionCountsMatchingPosts(posts: seq<Post>, selected: string, p: Post)
    requires selected != ""
    ensures multiset(VisiblePosts(posts, Some(selected)))[p] ==
              if Text.Normalize(p.position) == Text.Normalize(selected) then multiset(posts)[p] else 0
  {
    var wanted := Text.Normalize(selected);
    var keep := (p: Post) => HasPosition(p, wanted);
    assert VisiblePosts(posts, Some(selected)) == Filter(posts, keep);
    FilterCounts(posts, keep, p);
  }

  /** Re-applying the same selection to what is shown changes nothing. */
  lemma VisibleIdempotent(posts: seq<Post>, selected: Option<string>)
    ensures VisiblePosts(VisiblePosts(posts, selected), selected) == VisiblePosts(posts, selected)
  {
    if IsTruthy(selected) {
      var wanted := Text.Normalize(selected.value);
      FilterIdempotent(posts, p => HasPosition(p, wanted));
    }
  }

  /** Selecting a value or its normalised form shows the same posts, unless normalising leaves nothing. */
  lemma NormalisedSelectionShowsSame(posts: seq<Post>, selected: string)
    requires Text.Normalize(selected) != ""
    ensures VisiblePosts(posts, Some(Text.Normalize(selected))) == VisiblePosts(posts, Some(selected))
  {
    Text.NormalizeIdempotent(selected);
  }

  /**
   * A selection made only of white space is truthy, so it does not mean "All": it
   * shows just the posts whose position is blank.
   */
  lemma BlankSelectionShowsBlankPositions(posts: seq<Post>, selected: string)
    requires selected != ""
    requires forall i :: 0 <= i < |selected| ==> Text.IsWhiteSpace(selected[i])
    ensures forall p :: p in VisiblePosts(posts, Some(selected)) <==>
              p in posts && forall i :: 0 <= i < |p.position| ==> Text.IsWhiteSpace(p.position[i])
  {
    Text.NormalizeEmptyIffBlank(selected);
    forall p | p in posts {
      Text.NormalizeEmptyIffBlank(p.position);
    }
  }
}
