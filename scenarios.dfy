/** Concrete runs of the page that pin down the comparison rules on small data. */
module Scenarios {
  import opened Nullable
  import opened Posts
  import Text
  import PositionFilter
  import PositionList
  import View

  function Player(firstName: string, position: string): Post {
    Post("", firstName, "", "", "", "", "", "", position)
  }

  lemma LeadingSpacedGk()
    ensures Text.LeadingWhiteSpace(" gk ") == 1
  {
    assert " gk "[1..] == "gk ";
    assert Text.LeadingWhiteSpace("gk ") == 0;
  }

  lemma TrailingSpacedGk()
    ensures Text.TrailingWhiteSpace(" gk ") == 1
  {
    assert " gk "[..3] == " gk";
    assert Text.TrailingWhiteSpace(" gk") == 0;
  }

  lemma NormalizeSpacedLowerGk()
    ensures Text.Normalize(" gk ") == "gk"
  {
    LeadingSpacedGk();
    TrailingSpacedGk();
    assert Text.Trim(" gk ") == " gk "[1..3] == "gk";
    assert "gk"[1..] == "k";
    assert Text.ToLower("gk") == "gk";
  }

  lemma NormalizeGK()
    ensures Text.Normalize("GK") == "gk"
  {
    assert Text.LeadingWhiteSpace("GK") == 0;
    assert Text.TrailingWhiteSpace("GK") == 0;
    assert Text.Trim("GK") == "GK"[0..2] == "GK";
    assert "GK"[1..] == "K";
    assert Text.ToLower("GK") == "gk";
  }

  lemma NormalizeST()
    ensures Text.Normalize("ST") == "st"
  {
    assert Text.LeadingWhiteSpace("ST") == 0;
    assert Text.TrailingWhiteSpace("ST") == 0;
    assert Text.Trim("ST") == "ST"[0..2] == "ST";
    assert "ST"[1..] == "T";
    assert Text.ToLower("ST") == "st";
  }

  /** The filter ignores case and surrounding white space: " gk " selects the "GK" player only. */
  lemma SelectionIgnoresCaseAndSpace()
    ensures PositionFilter.VisiblePosts([Player("A", "GK"), Player("B", "ST")], Some(" gk ")) == [Player("A", "GK")]
  {
    var a, b := Player("A", "GK"), Player("B", "ST");
    NormalizeSpacedLowerGk();
    NormalizeGK();
    NormalizeST();
    assert "st" != "gk" by { assert "st"[0] != "gk"[0]; }
    var keep := (p: Post) => PositionFilter.HasPosition(p, "gk");
    assert [a, b][1..] == [b];
    assert PositionFilter.Filter([b], keep) == [];
    assert PositionFilter.Filter([a, b], keep) == [a];
  }

  lemma PositionsOfThree()
    ensures PositionList.Positions([Player("A", "GK"), Player("B", "gk"), Player("C", "GK")]) == ["GK", "gk", "GK"]
  {
  }

  lemma DistinctOfOne()
    ensures PositionList.Distinct(["GK"]) == ["GK"]
  {
    assert ["GK"][..0] == [];
  }

  lemma DistinctOfTwo()
    ensures PositionList.Distinct(["GK", "gk"]) == ["GK", "gk"]
  {
    assert ["GK", "gk"][..1] == ["GK"];
    DistinctOfOne();
    assert "gk" != "GK" by { assert "gk"[0] != "GK"[0]; }
    assert "gk" !in ["GK"];
  }

  lemma DistinctOfThree()
    ensures PositionList.Distinct(["GK", "gk", "GK"]) == ["GK", "gk"]
  {
    assert ["GK", "gk", "GK"][..2] == ["GK", "gk"];
    DistinctOfTwo();
    assert "GK" in ["GK", "gk"];
  }

  /** The options do not fold case: "GK" and "gk" are two options, in first-seen order, each once. */
  lemma OptionsKeepRawPositions()
    ensures PositionList.PositionOptions([Player("A", "GK"), Player("B", "gk"), Player("C", "GK")]) == ["GK", "gk"]
  {
    PositionsOfThree();
    DistinctOfThree();
  }

  /** A selection of blanks is not "All": it hides every player with a non-blank position. */
  lemma BlankSelectionIsNotAll()
    ensures PositionFilter.VisiblePosts([Player("A", "GK")], Some(" ")) == []
  {
    assert !PositionFilter.HasPosition(Player("A", "GK"), "");
  }

  /** Open a player's detail, then dismiss it: the overlay is closed and forgets the player. */
  lemma DetailThenClose(fetched: seq<Post>, post: Post)
    requires post in fetched
    ensures var s := View.Run(View.Initial(), [View.Fetched(fetched), View.DetailClicked(post)]);
            View.Overlay(s) == Some(post) && View.Overlay(View.Step(s, View.CloseClicked)) == None
            && View.Step(s, View.CloseClicked).selectedPost == None
  {
    var s1 := View.Step(View.Initial(), View.Fetched(fetched));
    var s2 := View.Step(s1, View.DetailClicked(post));
    assert View.Run(View.Initial(), [View.Fetched(fetched), View.DetailClicked(post)]) == View.Run(s1, [View.DetailClicked(post)]);
    assert View.Run(s1, [View.DetailClicked(post)]) == View.Run(s2, []);
  }

  /**
   * A second fetch that brings no players empties the grid: the flag is still up and the
   * player still stored, but no card is left to carry the overlay, so nothing is shown.
   * The page fetches only once, on mount; this state arises only in the wider set of
   * runs the events allow, and shows that the overlay needs a rendered card.
   */
  lemma EmptyGridHidesOverlay(p: Post)
    ensures var s := View.Run(View.Initial(), [View.Fetched([p]), View.DetailClicked(p), View.Fetched([])]);
            s.isModalVisible && s.selectedPost == Some(p) && View.Overlay(s) == None
  {
    var s1 := View.Step(View.Initial(), View.Fetched([p]));
    var s2 := View.Step(s1, View.DetailClicked(p));
    var s3 := View.Step(s2, View.Fetched([]));
    var events := [View.Fetched([p]), View.DetailClicked(p), View.Fetched([])];
    assert events[1..] == [View.DetailClicked(p), View.Fetched([])];
    assert events[1..][1..] == [View.Fetched([])];
    assert View.Run(View.Initial(), events) == View.Run(s1, events[1..]);
    assert View.Run(s1, events[1..]) == View.Run(s2, [View.Fetched([])]);
    assert View.Run(s2, [View.Fetched([])]) == View.Run(s3, []);
  }
}
