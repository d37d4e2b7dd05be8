/**
  Concrete requests against the seed collection, each pinned to the reply and
  the collection the handlers produce.
 */
module Scenarios {
  import opened Text
  import opened Posts
  import opened Sorting
  import opened Service

  lemma FirstPostMatchesFirst()
    ensures Matches(Seed[0], "first", "")
  {
    assert Lower("First post") == "first post";
    assert "first" <= Lower("First post")[0..];
  }

  lemma SecondPostMissesFirst()
    ensures !Matches(Seed[1], "first", "")
  {
    var h := Lower("Second post");
    assert h == "second post";
    assert Lower("first") == "first";
    assert forall i :: 0 <= i < |h| ==> h[i] != 'f';
    if Contains(h, "first") {
      ContainsFirstChar(h, "first");
    }
  }

  /** A title search for "first" finds only the post titled "First post". */
  lemma SearchFirstInSeed()
    ensures SearchPosts(Seed, "first", "").reply == Ok([Seed[0]])
  {
    var r := SearchPosts(Seed, "first", "").reply.value;
    FirstPostMatchesFirst();
    SecondPostMissesFirst();
    assert multiset(Seed) == multiset{Seed[0], Seed[1]};
    assert multiset(r) == multiset{Seed[0]} by {
      forall q ensures multiset(r)[q] == multiset{Seed[0]}[q] {
        if q != Seed[0] && q != Seed[1] {
          assert multiset(Seed)[q] == 0;
        }
      }
    }
    assert |r| == |multiset(r)| == 1;
    assert r[0] in multiset(r);
    assert r == [Seed[0]];
  }

  /** Creating a post on the seed assigns id 3 and appends it. */
  lemma CreateOnSeed()
    ensures AddPost(Seed, Payload(Some("T"), Some("C"))) ==
            Step(Ok(Post(3, "T", "C")), Seed + [Post(3, "T", "C")])
  {
  }

  /** A create request with neither field names both, title first. */
  lemma CreateMissingBoth()
    ensures AddPost(Seed, Payload(None, None)) == Step(Err(MissingFields([Title, Content])), Seed)
  {
  }

  /** A create request on an empty collection finds no id to extend. */
  lemma CreateOnEmpty()
    ensures AddPost([], Payload(Some("T"), Some("C"))) == Step(Err(NoIdToExtend), [])
  {
  }

  /** Deleting an id no post carries is refused and changes nothing. */
  lemma DeleteAbsentFromSeed()
    ensures DeletePost(Seed, 9999) == Step(Err(NotFound(9999)), Seed)
  {
  }

  /** Replacing the content of post 1 keeps its id and title. */
  lemma UpdateContentOfSeed()
    ensures UpdatePost(Seed, 1, Payload(None, Some("new text"))) ==
            Step(Ok(Post(1, "First post", "new text")), [Post(1, "First post", "new text"), Seed[1]])
  {
    assert HasId(Seed, 1) by { assert Seed[0].id == 1; }
    assert FirstIndex(Seed, 1) == 0;
  }

  /** Sorting the seed by title, descending, puts "Second post" first. */
  lemma SortSeedByTitleDescending()
    ensures ListPosts(Seed, Some("title"), Some("desc")) == Step(Ok([Seed[1], Seed[0]]), [Seed[1], Seed[0]])
  {
    assert Lower("First post") == "first post";
    assert Lower("Second post") == "second post";
    assert Less("first post", "second post");
    assert Sort(Title, true, [Seed[1]]) == [Seed[1]];
    assert Insert(Title, true, Seed[0], [Seed[1]]) == [Seed[1], Seed[0]];
  }

  /** A bad sort field is reported even when the direction is bad too. */
  lemma SortFieldCheckedFirst()
    ensures ListPosts(Seed, Some("id"), Some("up")) == Step(Err(InvalidSortField), Seed)
  {
  }
}
