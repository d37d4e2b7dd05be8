/**
  The five request handlers of the post service, each a pure function from the
  current collection (and the request's arguments) to a reply and the
  collection after the request.
 */
module Service {
  import opened Text
  import opened Seqs
  import opened Posts
  import opened Sorting

  /** A query argument counts as given when it is present and non-empty:
      Python treats both `None` and `""` as false. */
  predicate Given(arg: Option<string>) {
    arg.Some? && |arg.value| > 0
  }

  predicate BadSortField(sort: Option<string>) {
    Given(sort) && ParseField(sort.value).None?
  }

  predicate BadDirection(direction: Option<string>) {
    Given(direction) && direction.value != "asc" && direction.value != "desc"
  }

  /** `reverse=(direction == 'desc')`. */
  predicate Descending(direction: Option<string>) {
    direction == Some("desc")
  }

  // ---------------------------------------------------------------------------
  // GET /api/posts

  /** Lists the collection, first sorting it in place when a sort field is given. */
  function ListPosts(posts: seq<Post>, sort: Option<string>, direction: Option<string>): (r: Step<seq<Post>>)
    ensures BadSortField(sort) ==> r == Step(Err(InvalidSortField), posts)
    ensures !BadSortField(sort) && BadDirection(direction) ==> r == Step(Err(InvalidDirection), posts)
    ensures r.reply.Ok? <==> !BadSortField(sort) && !BadDirection(direction)
    ensures r.reply.Ok? ==> r.reply.value == r.posts
    ensures r.reply.Ok? && !Given(sort) ==> r.posts == posts
    ensures r.reply.Ok? && Given(sort) ==>
              ParseField(sort.value).Some? &&
              SortedStably(posts, r.posts, ParseField(sort.value).value, Descending(direction))
  {
    if BadSortField(sort) then Step(Err(InvalidSortField), posts)
    else if BadDirection(direction) then Step(Err(InvalidDirection), posts)
    else if Given(sort) then
      var f, desc := ParseField(sort.value).value, Descending(direction);
      SortMeetsSpec(f, desc, posts);
      var sorted := Sort(f, desc, posts);
      Step(Ok(sorted), sorted)
    else Step(Ok(posts), posts)
  }

  // ---------------------------------------------------------------------------
  // POST /api/posts

  /** The required keys absent from a create payload, title first. */
  function MissingFieldsOf(p: Payload): seq<Field> {
    (if p.title.None? then [Title] else []) + (if p.content.None? then [Content] else [])
  }

  /** Creates a post from a payload carrying both a title and a content, with an
      id one above the largest id in the collection, and appends it. */
  function AddPost(posts: seq<Post>, p: Payload): (r: Step<Post>)
    ensures r.reply.Err? ==> r.posts == posts
    ensures r.reply.Ok? <==> p.title.Some? && p.content.Some? && |posts| > 0
    ensures (p.title.None? || p.content.None?) <==> r.reply.Err? && r.reply.error.MissingFields?
    ensures r.reply.Err? && r.reply.error.MissingFields? ==>
              var fs := r.reply.error.fields;
              && (forall f :: f in fs <==> Supplied(p, f).None?)
              && (forall i, j :: 0 <= i < j < |fs| ==> fs[i] == Title && fs[j] == Content)
    ensures p.title.Some? && p.content.Some? && |posts| == 0 ==> r.reply == Err(NoIdToExtend)
    ensures r.reply.Ok? ==>
              var q := r.reply.value;
              && r.posts == posts + [q]
              && q.title == p.title.value && q.content == p.content.value
              && (forall i :: 0 <= i < |posts| ==> posts[i].id < q.id)
              && (exists i :: 0 <= i < |posts| && q.id == posts[i].id + 1)
  {
    var missing := MissingFieldsOf(p);
    if |missing| > 0 then Step(Err(MissingFields(missing)), posts)
    else if |posts| == 0 then Step(Err(NoIdToExtend), posts)
    else
      var q := Post(MaxId(posts) + 1, p.title.value, p.content.value);
      Step(Ok(q), posts + [q])
  }

  // ---------------------------------------------------------------------------
  // DELETE /api/posts/<id>

  /** Removes every post carrying `id`; the reply names the deleted id. */
  function DeletePost(posts: seq<Post>, id: int): (r: Step<int>)
    ensures r.reply.Ok? <==> HasId(posts, id)
    ensures r.reply.Err? ==> r.reply.error == NotFound(id) && r.posts == posts
    ensures r.reply.Ok? ==>
              && r.reply.value == id
              && !HasId(r.posts, id)
              && IsSubsequence(r.posts, posts)
              && (forall q :: multiset(r.posts)[q] == if q.id == id then 0 else multiset(posts)[q])
  {
    if !HasId(posts, id) then Step(Err(NotFound(id)), posts)
    else
      var other := (q: Post) => q.id != id;
      KeepIsSubsequence(posts, other);
      KeepMembers(posts, other);
      KeepCounts(posts, other);
      Step(Ok(id), Keep(posts, other))
  }

  // ---------------------------------------------------------------------------
  // PUT /api/posts/<id>

  /** Overwrites the title and/or content of the first post carrying `id` with
      the values the payload supplies; the reply is the stored post. */
  function UpdatePost(posts: seq<Post>, id: int, p: Payload): (r: Step<Post>)
    ensures r.reply.Ok? <==> HasId(posts, id)
    ensures r.reply.Err? ==> r.reply.error == NotFound(id) && r.posts == posts
    ensures r.reply.Ok? ==>
              var k, q := FirstIndex(posts, id), r.reply.value;
              && |r.posts| == |posts|
              && r.posts[k] == q
              && q.id == id
              && (p.title.Some? ==> q.title == p.title.value)
              && (p.title.None? ==> q.title == posts[k].title)
              && (p.content.Some? ==> q.content == p.content.value)
              && (p.content.None? ==> q.content == posts[k].content)
              && (forall j :: 0 <= j < |posts| && j != k ==> r.posts[j] == posts[j])
  {
    if !HasId(posts, id) then Step(Err(NotFound(id)), posts)
    else
      var k := FirstIndex(posts, id);
      var stored := posts[k];
      var q := Post(stored.id,
                    if p.title.Some? then p.title.value else stored.title,
                    if p.content.Some? then p.content.value else stored.content);
      Step(Ok(q), posts[k := q])
  }

  // ---------------------------------------------------------------------------
  // GET /api/posts/search

  /** A post matches when each non-empty query occurs in the corresponding
      field, ignoring case. Python's `'' in s` is always true, so the
      emptiness guards change nothing: matching is plain containment. */
  predicate Matches(q: Post, title: string, content: string)
    ensures Matches(q, title, content) <==>
            Contains(Lower(q.title), Lower(title)) && Contains(Lower(q.content), Lower(content))
  {
    ContainsEmpty(Lower(q.title));
    ContainsEmpty(Lower(q.content));
    var tq, cq := Lower(title), Lower(content);
    && (|tq| == 0 || Contains(Lower(q.title), tq))
    && (|cq| == 0 || Contains(Lower(q.content), cq))
  }

  /** The posts matching both queries, in collection order; an absent query
      argument is the empty string. */
  function SearchPosts(posts: seq<Post>, title: string, content: string): (r: Step<seq<Post>>)
    ensures r.posts == posts && r.reply.Ok?
    ensures IsSubsequence(r.reply.value, posts)
    ensures forall i :: 0 <= i < |r.reply.value| ==> Matches(r.reply.value[i], title, content)
    ensures forall q :: q in posts && Matches(q, title, content) ==> q in r.reply.value
    ensures forall q :: multiset(r.reply.value)[q] == if Matches(q, title, content) then multiset(posts)[q] else 0
  {
    var matching := (q: Post) => Matches(q, title, content);
    var found := Keep(posts, matching);
    KeepIsSubsequence(posts, matching);
    KeepMembers(posts, matching);
    KeepCounts(posts, matching);
    Step(Ok(found), posts)
  }

  /** A search without queries returns the whole collection. */
  lemma SearchWithoutQueriesReturnsAll(posts: seq<Post>)
    ensures SearchPosts(posts, "", "").reply.value == posts
  {
    var found := SearchPosts(posts, "", "").reply.value;
    assert Lower("") == "";
    assert forall q :: Matches(q, "", "");
    assert multiset(found) == multiset(posts);
    assert |found| == |multiset(found)| == |multiset(posts)| == |posts|;
    SubsequenceOfFullLength(found, posts);
  }

  // ---------------------------------------------------------------------------
  // Properties relating several requests

  /** Dropping posts from a collection whose ids are unique leaves them unique. */
  lemma {:induction false} KeepKeepsIdsUnique(posts: seq<Post>, keep: Post -> bool)
    requires UniqueIds(posts)
    ensures UniqueIds(Keep(posts, keep))
    decreases |posts|
  {
    if |posts| > 0 {
      var rest := Keep(posts[1..], keep);
      assert posts == [posts[0]] + posts[1..];
      UniqueIdsCons(posts[0], posts[1..]);
      KeepKeepsIdsUnique(posts[1..], keep);
      if keep(posts[0]) {
        KeepMembers(posts[1..], keep);
        forall q | q in rest ensures q.id != posts[0].id {
          var i :| 0 <= i < |rest| && rest[i] == q;
        }
        UniqueIdsCons(posts[0], rest);
      }
    }
  }

  /** Every request leaves the ids of the collection pairwise distinct. */
  lemma ListKeepsIdsUnique(posts: seq<Post>, sort: Option<string>, direction: Option<string>)
    requires UniqueIds(posts)
    ensures UniqueIds(ListPosts(posts, sort, direction).posts)
  {
    if !BadSortField(sort) && !BadDirection(direction) && Given(sort) {
      SortKeepsIdsUnique(ParseField(sort.value).value, Descending(direction), posts);
    }
  }

  lemma AddKeepsIdsUnique(posts: seq<Post>, p: Payload)
    requires UniqueIds(posts)
    ensures UniqueIds(AddPost(posts, p).posts)
  {
  }

  lemma DeleteKeepsIdsUnique(posts: seq<Post>, id: int)
    requires UniqueIds(posts)
    ensures UniqueIds(DeletePost(posts, id).posts)
  {
    KeepKeepsIdsUnique(posts, (q: Post) => q.id != id);
  }

  lemma UpdateKeepsIdsUnique(posts: seq<Post>, id: int, p: Payload)
    requires UniqueIds(posts)
    ensures UniqueIds(UpdatePost(posts, id, p).posts)
  {
  }

  /** When ids are unique, deleting a present id removes exactly one post. */
  lemma {:induction false} DeleteRemovesOne(posts: seq<Post>, id: int)
    requires UniqueIds(posts) && HasId(posts, id)
    ensures |DeletePost(posts, id).posts| == |posts| - 1
    decreases |posts|
  {
    var other := (q: Post) => q.id != id;
    assert posts == [posts[0]] + posts[1..];
    UniqueIdsCons(posts[0], posts[1..]);
    if posts[0].id == id {
      KeepEverything(posts[1..], other);
    } else {
      var i :| 0 <= i < |posts| && posts[i].id == id;
      assert posts[1..][i - 1].id == id;
      DeleteRemovesOne(posts[1..], id);
    }
  }

  /** A post just created is in every listing that follows. */
  lemma CreatedPostIsListed(posts: seq<Post>, p: Payload, sort: Option<string>, direction: Option<string>)
    requires AddPost(posts, p).reply.Ok?
    requires !BadSortField(sort) && !BadDirection(direction)
    ensures var created := AddPost(posts, p);
            created.reply.value in ListPosts(created.posts, sort, direction).reply.value
  {
    var created := AddPost(posts, p);
    var listed := ListPosts(created.posts, sort, direction);
    assert created.reply.value in created.posts;
    assert created.reply.value in multiset(created.posts);
  }

  /** Repeating a sorted listing does not reorder the collection again. */
  lemma ListIdempotent(posts: seq<Post>, sort: Option<string>, direction: Option<string>)
    ensures var once := ListPosts(posts, sort, direction);
            ListPosts(once.posts, sort, direction) == once
  {
    var once := ListPosts(posts, sort, direction);
    if once.reply.Ok? && Given(sort) {
      var f, desc := ParseField(sort.value).value, Descending(direction);
      SortMeetsSpec(f, desc, posts);
      SortIsTheStableSort(f, desc, once.posts, once.posts);
    }
  }

  /** Repeating an update changes nothing further. */
  lemma UpdateIdempotent(posts: seq<Post>, id: int, p: Payload)
    ensures var once := UpdatePost(posts, id, p);
            UpdatePost(once.posts, id, p).posts == once.posts
  {
  }

  /** An update whose payload supplies neither field leaves the collection as it was. */
  lemma EmptyUpdateChangesNothing(posts: seq<Post>, id: int)
    ensures UpdatePost(posts, id, Payload(None, None)).posts == posts
  {
  }

  /** Deleting the post just created gives back the collection as it was
      before the create. */
  lemma CreateThenDeleteRestores(posts: seq<Post>, p: Payload)
    requires AddPost(posts, p).reply.Ok?
    ensures var created := AddPost(posts, p);
            DeletePost(created.posts, created.reply.value.id) == Step(Ok(created.reply.value.id), posts)
  {
    var created := AddPost(posts, p);
    var q := created.reply.value;
    var other := (x: Post) => x.id != q.id;
    assert created.posts[|posts|] == q;
    KeepSnoc(posts, q, other);
    KeepEverything(posts, other);
  }

  /** Updating a post back to its previous title and content undoes the update. */
  lemma UpdateThenRestore(posts: seq<Post>, id: int, p: Payload)
    requires HasId(posts, id)
    ensures var before := posts[FirstIndex(posts, id)];
            var changed := UpdatePost(posts, id, p).posts;
            UpdatePost(changed, id, Payload(Some(before.title), Some(before.content))).posts == posts
  {
  }

  /** Every failure falls into the error taxonomy: bad list arguments and
      missing create fields are invalid arguments, an unknown id is a missing
      resource, and only a create on an empty collection is a server fault. */
  lemma FailureKinds(posts: seq<Post>, sort: Option<string>, direction: Option<string>, p: Payload, id: int)
    ensures ListPosts(posts, sort, direction).reply.Err? ==>
              Kind(ListPosts(posts, sort, direction).reply.error) == InvalidArgument
    ensures AddPost(posts, p).reply.Err? ==>
              Kind(AddPost(posts, p).reply.error) ==
              (if p.title.Some? && p.content.Some? then ServerFault else InvalidArgument)
    ensures DeletePost(posts, id).reply.Err? ==> Kind(DeletePost(posts, id).reply.error) == Missing
    ensures UpdatePost(posts, id, p).reply.Err? ==> Kind(UpdatePost(posts, id, p).reply.error) == Missing
  {
  }
}
