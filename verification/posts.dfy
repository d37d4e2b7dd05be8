/**
  The data model of the post service: a post record, the request payloads,
  the error taxonomy, and the facts about ids that the handlers rely on.
 */
module Posts {

  /** A stored post. The service only ever reads and writes these three fields. */
  datatype Post = Post(id: int, title: string, content: string)

  /** The two text fields a client may sort by, search in, or supply. */
  datatype Field = Title | Content

  function FieldValue(p: Post, f: Field): string {
    match f
    case Title => p.title
    case Content => p.content
  }

  datatype Option<+T> = None | Some(value: T)

  /** The field named by a `sort` query argument, if it names one. */
  function ParseField(name: string): (r: Option<Field>)
    ensures r == Some(Title) <==> name == "title"
    ensures r == Some(Content) <==> name == "content"
  {
    if name == "title" then Some(Title)
    else if name == "content" then Some(Content)
    else None
  }

  /** A JSON request body, reduced to the two keys the handlers look at:
      `None` means the key is absent from the body. */
  datatype Payload = Payload(title: Option<string>, content: Option<string>)

  function Supplied(p: Payload, f: Field): Option<string> {
    match f
    case Title => p.title
    case Content => p.content
  }

  /** Why a request fails. */
  datatype Failure =
    | InvalidSortField              // `sort` is neither "title" nor "content"
    | InvalidDirection              // `direction` is neither "asc" nor "desc"
    | MissingFields(fields: seq<Field>)
    | NotFound(id: int)
    | NoIdToExtend                  // `max` over an empty collection raises

  /** The error taxonomy the failures fall into. */
  datatype ErrorKind = InvalidArgument | Missing | ServerFault

  function Kind(e: Failure): ErrorKind {
    match e
    case InvalidSortField => InvalidArgument
    case InvalidDirection => InvalidArgument
    case MissingFields(_) => InvalidArgument
    case NotFound(_) => Missing
    case NoIdToExtend => ServerFault
  }

  datatype Result<+T> = Ok(value: T) | Err(error: Failure)

  /** What a handler produces: its reply and the collection after the request. */
  datatype Step<+T> = Step(reply: Result<T>, posts: seq<Post>)

  /** The collection the service starts with. */
  const Seed: seq<Post> := [
    Post(1, "First post", "This is the first post."),
    Post(2, "Second post", "This is the second post.")
  ]

  predicate HasId(posts: seq<Post>, id: int) {
    exists i :: 0 <= i < |posts| && posts[i].id == id
  }

  /** The invariant the service is meant to keep: no two posts share an id. */
  predicate UniqueIds(posts: seq<Post>) {
    forall i, j :: 0 <= i < j < |posts| ==> posts[i].id != posts[j].id
  }

  lemma SeedIdsUnique()
    ensures UniqueIds(Seed)
  {
  }

  /** Uniqueness of ids, read off the first post and the rest. */
  lemma UniqueIdsCons(a: Post, rest: seq<Post>)
    ensures UniqueIds([a] + rest) <==>
            (forall q :: q in rest ==> q.id != a.id) && UniqueIds(rest)
  {
    var s := [a] + rest;
    assert forall i :: 0 <= i < |rest| ==> s[i + 1] == rest[i];
    if UniqueIds(s) {
      forall q | q in rest ensures q.id != a.id {
        var j :| 0 <= j < |rest| && rest[j] == q;
        assert s[0].id != s[j + 1].id;
      }
    }
  }

  /** The position of the first post carrying `id`: the post the `for ... break`
      search of the update handler stops at. */
  function FirstIndex(posts: seq<Post>, id: int): (k: nat)
    requires HasId(posts, id)
    ensures k < |posts| && posts[k].id == id
    ensures forall j :: 0 <= j < k ==> posts[j].id != id
    decreases |posts|
  {
    if posts[0].id == id then 0
    else
      var i :| 0 <= i < |posts| && posts[i].id == id;
      assert posts[1..][i - 1].id == id;
      1 + FirstIndex(posts[1..], id)
  }

  /** The largest id in a non-empty collection. */
  function MaxId(posts: seq<Post>): (m: int)
    requires |posts| > 0
    ensures forall i :: 0 <= i < |posts| ==> posts[i].id <= m
    ensures exists i :: 0 <= i < |posts| && posts[i].id == m
    decreases |posts|
  {
    if |posts| == 1 then posts[0].id
    else
      var rest := MaxId(posts[1..]);
      var i :| 0 <= i < |posts| - 1 && posts[1..][i].id == rest;
      assert posts[i + 1].id == rest;
      if posts[0].id >= rest then posts[0].id else rest
  }
}
