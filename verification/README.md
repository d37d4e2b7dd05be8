# Masterblog post service, modelled in Dafny

The Masterblog API is a small Flask service that keeps an in-memory, ordered
collection of blog posts (`id`, `title`, `content`). It has five request
handlers: list the posts (optionally sorting the stored collection in place),
create a post, delete a post by id, update a post's title and/or content, and
search the posts by case-insensitive substrings of title and content.

This project models those handlers as pure functions. Each one takes the
current collection (`seq<Post>`) and the request's arguments. It returns a
`Step`: the reply (`Ok(value)` or `Err(failure)`) and the collection after the
request. The process-wide `POSTS` list becomes an explicit value threaded from
one request to the next.

Modules:

- `Text` (`text.dfy`): ASCII `str.lower()`, substring containment
  (`needle in haystack`), and Python's ordering of strings (`<`), with the
  order facts the sort needs.
- `Seqs` (`seqs.dfy`): order-preserving filtering (`Keep`) and subsequences.
- `Posts` (`posts.dfy`): the post record, payloads, failures and their kinds,
  the seed collection, id uniqueness, the first-index search and the maximum id.
- `Sorting` (`sorting.dfy`): the specification of the stable, keyed,
  optionally reversed `list.sort` (`SortedStably`), an insertion sort meeting
  it, and a proof that the specification has exactly one solution.
- `Service` (`service.dfy`): the five handlers and the properties that relate
  several requests.
- `Scenarios` (`scenarios.dfy`): concrete requests against the seed collection.

Failures are `InvalidSortField`, `InvalidDirection` and `MissingFields(fields)`
(kind `InvalidArgument`, HTTP 400), `NotFound(id)` (kind `Missing`, HTTP 404),
and `NoIdToExtend` (kind `ServerFault`). The last one stands for the
`ValueError` that `max` raises on an empty collection, which Flask turns into
an internal server error.

Three behaviours of the code are easy to misread, and the model keeps them as written:

- Creating a post on an empty collection fails (`NoIdToExtend`). No fallback
  id is invented. The missing-field check still comes first.
- Delete removes every post carrying the id, not just one.
  `Service.DeleteRemovesOne` shows this is exactly one post while ids are
  unique.
- Update changes only the first post carrying the id.

## Model

| member | source | states |
|---|---|---|
| `Service.ListPosts` | backend/backend_app.py:13-30 | A bad sort field fails with `InvalidSortField` whatever the direction. A bad direction fails with `InvalidDirection` when the field is valid or absent. Both failures leave the collection as it was. An absent or empty sort field returns the collection unchanged for any valid direction. A valid field replaces the stored collection with a stable rearrangement sorted by the lowercased field: ascending, or descending for `desc`. The reply is the new stored collection. |
| `Sorting.SortMeetsSpec` | backend/backend_app.py:27-28 | The model's sort meets the whole promise of `list.sort` with a key and `reverse`. It is a permutation, sorted by the lowercased key in the requested direction, and stable. |
| `Sorting.SortPermutes` | backend/backend_app.py:27-28 | Sorting rearranges the collection: it is a permutation of the old one, with no post lost or added. |
| `Sorting.SortSorted` | backend/backend_app.py:27-28 | After sorting, no post's lowercased key belongs strictly before the key of an earlier post. Keys are non-decreasing for ascending and non-increasing for `reverse`. |
| `Sorting.SortWithKey` | backend/backend_app.py:27-28 | Sorting is stable, also under `reverse`. For every key, the posts with that key keep the relative order they had before the sort. |
| `Sorting.SortIsTheStableSort` | backend/backend_app.py:27-28 | Any sequence that is a permutation, sorted and stable in that sense equals the model's sort. So the model gives the same order as Python's sort, whatever algorithm Python uses. |
| `Service.ListIdempotent` | backend/backend_app.py:26-30 | Repeating a list request with the same arguments returns the same reply. It does not reorder the stored collection again. |
| `Posts.ParseField` | backend/backend_app.py:19 | Only the names `title` and `content` are accepted as sort fields. |
| `Service.AddPost` | backend/backend_app.py:33-51 | The request fails with `MissingFields` exactly when `title` or `content` is absent. The failure lists exactly the absent names, title before content, and the collection is unchanged. A complete payload on a non-empty collection appends exactly one post at the end. The new post has the supplied title and content, and an id one above the largest existing id, so it exceeds every existing id. A complete payload on an empty collection fails with `NoIdToExtend`. |
| `Posts.MaxId` | backend/backend_app.py:49 | The computed maximum is at least every id in the collection and is the id of some post. |
| `Service.CreatedPostIsListed` | backend/backend_app.py:49-51 | A post that was just created appears in the reply of any valid list request that follows, sorted or not. |
| `Service.CreateThenDeleteRestores` | backend/backend_app.py:49-71 | Deleting the id of the post just created succeeds and gives back exactly the collection from before the create. |
| `Service.DeletePost` | backend/backend_app.py:54-72 | Deleting an absent id fails with `NotFound(id)` and changes nothing. Deleting a present id leaves no post with that id. Every other post keeps its number of occurrences. The survivors form a subsequence of the old collection, so their order is kept. |
| `Service.DeleteRemovesOne` | backend/backend_app.py:67-71 | While ids are unique, deleting a present id shortens the collection by exactly one. |
| `Posts.FirstIndex` | backend/backend_app.py:81-85 | The search for the post to update stops at a post carrying the id, and no earlier post carries it. |
| `Service.UpdatePost` | backend/backend_app.py:75-102 | Updating an absent id fails with `NotFound(id)` and changes nothing. Otherwise only the first post carrying the id changes, and it keeps its id. Its title is replaced exactly when the payload supplies a title, and its content exactly when the payload supplies a content. Every other position is untouched, and the reply equals the stored post. |
| `Service.UpdateIdempotent` | backend/backend_app.py:90-94 | Sending the same update twice gives the same collection as sending it once. |
| `Service.EmptyUpdateChangesNothing` | backend/backend_app.py:90-94 | An update payload with neither `title` nor `content` leaves the collection unchanged. |
| `Service.UpdateThenRestore` | backend/backend_app.py:81-94 | Updating a post and then sending its previous title and content restores the collection exactly. |
| `Service.SearchPosts` | backend/backend_app.py:105-125 | Search never changes the collection and always succeeds. Its result is a subsequence of the collection, in the original order. Every returned post matches both queries, and every matching post is returned, as often as it occurs. |
| `Service.SearchWithoutQueriesReturnsAll` | backend/backend_app.py:107-125 | A search with both queries absent or empty returns the whole collection, in order. |
| `Service.Matches` | backend/backend_app.py:113-122 | A post matches when the lowercased title query occurs in its lowercased title and the lowercased content query occurs in its lowercased content. An empty query matches every post, so the emptiness guards make no difference. |
| `Service.ListKeepsIdsUnique` | backend/backend_app.py:27-28 | Sorting never makes two posts share an id. |
| `Service.AddKeepsIdsUnique` | backend/backend_app.py:49-50 | Creating a post never makes two posts share an id. |
| `Service.DeleteKeepsIdsUnique` | backend/backend_app.py:67-71 | Deleting posts never makes two posts share an id. |
| `Service.UpdateKeepsIdsUnique` | backend/backend_app.py:90-94 | Updating a post never makes two posts share an id. |
| `Posts.SeedIdsUnique` | backend/backend_app.py:7-10 | The seed collection starts with unique ids. |
| `Service.FailureKinds` | backend/backend_app.py:19-88 | Bad list arguments and missing create fields are `InvalidArgument` failures (HTTP 400). An unknown id in delete or update is `Missing` (HTTP 404). A complete create on an empty collection is the only `ServerFault`. |
| `Scenarios.SearchFirstInSeed` | backend/backend_app.py:112-125 | On the seed, a title search for `first` returns exactly the post titled `First post`. |
| `Scenarios.CreateOnSeed` | backend/backend_app.py:49-51 | On the seed, creating a post assigns id 3 and appends it. |
| `Scenarios.CreateMissingBoth` | backend/backend_app.py:41-47 | A create payload with neither field fails, naming `title` and then `content`. |
| `Scenarios.CreateOnEmpty` | backend/backend_app.py:49 | A complete create payload on an empty collection fails with `NoIdToExtend`, because `max` has no id to extend. The collection stays empty. |
| `Scenarios.DeleteAbsentFromSeed` | backend/backend_app.py:59-65 | Deleting id 9999 from the seed fails with `NotFound(9999)` and leaves the seed unchanged. |
| `Scenarios.UpdateContentOfSeed` | backend/backend_app.py:91-100 | Replacing the content of post 1 keeps its id and title, and the reply has all three fields. |
| `Scenarios.SortSeedByTitleDescending` | backend/backend_app.py:27-28 | Sorting the seed by title, descending, puts `Second post` first. |
| `Scenarios.SortFieldCheckedFirst` | backend/backend_app.py:19-24 | A bad sort field is reported even when the direction is bad too. |

## Left out

- Flask plumbing is not modelled: routing, `request.args` and
  `request.get_json` parsing, `jsonify`, and HTTP status codes. Failures are
  an error datatype with an `ErrorKind`.
- CORS setup and `app.run` (backend/backend_app.py:1-5, 128-129) are
  framework and network concerns.
- The global mutable `POSTS` and concurrent requests are not modelled. The
  collection is passed explicitly, and each request is one atomic step.
- `str.lower()` is modelled for ASCII letters only. Full Unicode case mapping
  is out of scope.
- Error message texts are not modelled. Only the failure, the missing-field
  list and the id it names are.
- A create payload keeps only `title` and `content`. The source stores any
  extra keys of the JSON body verbatim and overwrites a client-supplied `id`;
  the model keeps neither.
- JSON values other than strings for `title` and `content` are not modelled.
  In the source, a later sort by that field, or a non-empty search query on
  it, would raise on such a value.
- A missing, non-JSON or non-object request body is not modelled. Recent
  Flask rejects a missing or non-JSON body in `get_json`. A JSON `null` or
  number body makes the membership test at backend/backend_app.py:42 or :91
  raise. A JSON string or array body is searched as a string or list at :42,
  :44, :91 and :93. It then fails with missing fields, changes nothing, or
  raises where it is indexed by key at :49, :92 or :94.
- The `<int:id>` route converter admits only non-negative integers. The
  handlers here accept any integer id, which includes every id the route can
  pass.
- Python's sort algorithm (Timsort) is replaced by an insertion sort.
  `Sorting.SortIsTheStableSort` shows the two give the same result.
