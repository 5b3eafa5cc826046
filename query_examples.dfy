/** The two GetCats scenarios of the controller's tests, worked out on their
    table of two cats: cat "1" tagged "Playful", cat "2" tagged "Calm". */
module QueryExamples {
  import opened Wrappers
  import opened Text
  import opened Entities
  import opened Query

  function Table(): seq<Cat> {
    [ Cat(1, "1", 100, 100, "url1", 0, [Tag(1, "Playful")]),
      Cat(2, "2", 200, 200, "url2", 0, [Tag(2, "Calm")]) ]
  }

  /** GET api/cats?tag=Playful&page=1&pageSize=10 answers with the one
      matching cat, cat "1". */
  lemma FilterByTagListsOnlyMatches()
    ensures var r := GetCats(Table(), Some("Playful"), 1, 10);
      r.Ok? && r.response.total == 1 && |r.response.data| == 1 && r.response.data[0].catId == "1"
  {
    PlayfulRequest();
    PlayfulListing();
    assert Offset(1, 10) == 0;
  }

  /** GET api/cats?tag=&page=2&pageSize=1 answers with the second cat by Id,
      cat "2", out of two. */
  lemma SecondPageOfOne()
    ensures var r := GetCats(Table(), Some(""), 2, 1);
      r.Ok? && r.response.total == 2 && |r.response.data| == 1 && r.response.data[0].catId == "2"
  {
    var cats := Table();
    assert RequestedFilter(Some("")) == None;
    assert Filter(cats, None) == cats by {
      assert cats[1..] == [cats[1]];
      assert cats[1..][1..] == [];
    }
    TableSorted();
    assert Offset(2, 1) == 1;
    assert GetCats(cats, Some(""), 2, 1) == Ok(Answer(cats, None, 2, 1));
  }

  /** A tag of 26 cat-face emoji is 26 characters but 52 UTF-16 code units,
      so it is refused as too long. */
  lemma EmojiTagTooLong()
    ensures GetCats(Table(), Some(seq(26, _ => '\U{1F431}')), 1, 10) == BadRequest(TagTooLong)
  {
    var t: string := seq(26, _ => '\U{1F431}');
    assert !IsWhiteSpace(t[0]) && !IsWhiteSpace(t[25]);
    assert !IsBlank(t);
    Utf16LengthBounds(t);
  }

  lemma PlayfulRequest()
    ensures GetCats(Table(), Some("Playful"), 1, 10) == Ok(Answer(Table(), Some("Playful"), 1, 10))
  {
    assert !IsWhiteSpace("Playful"[0]);
    assert !IsWhiteSpace("Playful"[6]);
    assert IsTrimmed("Playful");
  }

  lemma PlayfulListing()
    ensures Filter(Table(), Some("Playful")) == [Table()[0]]
    ensures Listing(Table(), Some("Playful")) == [Table()[0]]
  {
    var cats := Table();
    assert Matches(cats[0], Some("Playful")) && !Matches(cats[1], Some("Playful")) by {
      assert cats[0].tags[0].name == "Playful";
      assert cats[1].tags == [Tag(2, "Calm")];
      assert |Fold("Calm")| != |Fold("Playful")|;
    }
    assert cats[1..] == [cats[1]];
    assert cats[1..][1..] == [];
    assert [cats[0]][1..] == [];
  }

  /** The table is already in Id order. */
  lemma TableSorted()
    ensures SortById(Table()) == Table()
  {
    var cats := Table();
    assert cats[1..] == [cats[1]];
    assert [cats[1]][1..] == [];
    assert InsertPos(cats[0], [cats[1]]) == 0;
  }
}
