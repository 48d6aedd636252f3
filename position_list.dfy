/**
 * The options of the position selector: `Array.from(new Set(posts.map(p => p.position)))`.
 * A JavaScript `Set` keeps its elements in insertion order and ignores a value it
 * already holds, so the options are the raw positions, each once, in the order
 * they are first seen.  No trimming or case folding happens here.
 */
module PositionList {
  import opened Posts

  /** `posts.map(post => post.position)` */
  function Positions(posts: seq<Post>): seq<string> {
    seq(|posts|, i requires 0 <= i < |posts| => posts[i].position)
  }

  ghost predicate NoDuplicates<T>(xs: seq<T>) {
    forall i, j :: 0 <= i < j < |xs| ==> xs[i] != xs[j]
  }

  /** `Array.from(new Set(xs))`: adds the elements one by one, skipping those already present. */
  function Distinct<T(==,!new)>(xs: seq<T>): (r: seq<T>)
    ensures NoDuplicates(r)
    ensures forall x :: x in r <==> x in xs
  {
    if xs == [] then []
    else
      var d := Distinct(xs[..|xs| - 1]);
      var x := xs[|xs| - 1];
      if x in d then d else d + [x]
  }

  /** Where `x` occurs first in `xs`. */
  function FirstIndex<T(==)>(xs: seq<T>, x: T): (i: nat)
    requires x in xs
    ensures i < |xs| && xs[i] == x
    ensures forall j :: 0 <= j < i ==> xs[j] != x
  {
    if xs[0] == x then 0 else 1 + FirstIndex(xs[1..], x)
  }

  lemma FirstIndexInPrefix<T>(xs: seq<T>, k: nat, x: T)
    requires k <= |xs| && x in xs[..k]
    ensures FirstIndex(xs, x) == FirstIndex(xs[..k], x)
  {
    var i := FirstIndex(xs[..k], x);
    assert xs[i] == x;
    assert forall j :: 0 <= j < i ==> xs[j] == xs[..k][j];
  }

  /** The elements of `Distinct(xs)` appear in the order of their first occurrence in `xs`. */
  lemma {:induction false} DistinctInFirstSeenOrder<T(!new)>(xs: seq<T>)
    ensures forall i, j :: 0 <= i < j < |Distinct(xs)| ==>
              FirstIndex(xs, Distinct(xs)[i]) < FirstIndex(xs, Distinct(xs)[j])
  {
    if xs != [] {
      var n := |xs| - 1;
      var prefix := xs[..n];
      DistinctInFirstSeenOrder(prefix);
      var d := Distinct(prefix);
      var x := xs[n];
      forall y | y in d
        ensures FirstIndex(xs, y) == FirstIndex(prefix, y) < n
      {
        FirstIndexInPrefix(xs, n, y);
      }
      if x !in d {
        assert x !in prefix;
        assert forall j :: 0 <= j < n ==> xs[j] == prefix[j];
        assert FirstIndex(xs, x) == n;
      }
    }
  }

  /** A list with no duplicates has every element exactly once. */
  lemma {:induction false} NoDuplicatesCountsOnce<T>(xs: seq<T>, x: T)
    requires NoDuplicates(xs)
    ensures multiset(xs)[x] == if x in xs then 1 else 0
  {
    if xs != [] {
      var n := |xs| - 1;
      assert xs == xs[..n] + [xs[n]];
      assert xs[n] !in xs[..n];
      NoDuplicatesCountsOnce(xs[..n], x);
    }
  }

  /** The selector's option values, after the implicit "All" option. */
  function PositionOptions(posts: seq<Post>): seq<string> {
    Distinct(Positions(posts))
  }

  /**
   * The options hold every raw position of the posts exactly once and nothing
   * else, in the order in which each position first occurs among the posts.
   */
  lemma PositionOptionsAreDistinctRawPositions(posts: seq<Post>)
    ensures forall o :: multiset(PositionOptions(posts))[o] == if exists p :: p in posts && p.position == o then 1 else 0
    ensures forall i, j :: 0 <= i < j < |PositionOptions(posts)| ==>
              FirstIndex(Positions(posts), PositionOptions(posts)[i]) < FirstIndex(Positions(posts), PositionOptions(posts)[j])
  {
    var opts := PositionOptions(posts);
    forall o
      ensures multiset(opts)[o] == if exists p :: p in posts && p.position == o then 1 else 0
    {
      NoDuplicatesCountsOnce(opts, o);
      if o in Positions(posts) {
        var i :| 0 <= i < |posts| && Positions(posts)[i] == o;
        assert posts[i] in posts;
      }
      if exists p :: p in posts && p.position == o {
        var p :| p in posts && p.position == o;
        var i :| 0 <= i < |posts| && posts[i] == p;
        assert Positions(posts)[i] == o;
      }
    }
    DistinctInFirstSeenOrder(Positions(posts));
  }

  /** No posts, no options besides "All". */
  lemma NoPostsNoOptions(posts: seq<Post>)
    ensures PositionOptions(posts) == [] <==> posts == []
  {
    if posts != [] {
      assert Positions(posts)[0] == posts[0].position;
    }
  }
}
