/**
  `posts.sort(key=lambda post: post[field].lower(), reverse=desc)`: Python's
  stable sort by a lowercased text field. With `reverse=True` the order of the
  keys is reversed while posts with equal keys still keep their previous
  relative order.

  `SortedStably` is the specification of that call; `Sort` is one function
  meeting it (a stable insertion sort), and `SortIsTheStableSort` shows the
  specification admits no other result.
 */
module Sorting {
  import opened Text
  import opened Seqs
  import opened Posts

  /** The sort key of a post. */
  function Key(f: Field, p: Post): string {
    Lower(FieldValue(p, f))
  }

  /** Key `a` must come strictly before key `b` in the requested direction. */
  predicate Before(desc: bool, a: string, b: string) {
    if desc then Less(b, a) else Less(a, b)
  }

  lemma BeforeIrreflexive(desc: bool, a: string)
    ensures !Before(desc, a, a)
  {
    LessIrreflexive(a);
  }

  lemma BeforeAsymmetric(desc: bool, a: string, b: string)
    requires Before(desc, a, b)
    ensures !Before(desc, b, a)
  {
    if desc { LessAsymmetric(b, a); } else { LessAsymmetric(a, b); }
  }

  /** Two keys neither of which comes before the other are equal. */
  lemma BeforeTotal(desc: bool, a: string, b: string)
    requires !Before(desc, a, b) && !Before(desc, b, a)
    ensures a == b
  {
    LessTotal(a, b);
  }

  /** "Not before" is transitive: `c <= b <= a` gives `c <= a`. */
  lemma NotBeforeTransitive(desc: bool, a: string, b: string, c: string)
    requires !Before(desc, a, b) && !Before(desc, b, c)
    ensures !Before(desc, a, c)
  {
    LessTotal(a, b);
    LessTotal(b, c);
    if a != b && b != c {
      if desc { LessTransitive(a, b, c); } else { LessTransitive(c, b, a); }
      BeforeAsymmetric(desc, c, a);
    } else if a == b {
      if b != c { BeforeAsymmetric(desc, c, b); }
      else { BeforeIrreflexive(desc, a); }
    } else {
      BeforeAsymmetric(desc, c, a);
    }
  }

  /** No post has a key that belongs strictly before the key of an earlier post. */
  predicate Sorted(s: seq<Post>, f: Field, desc: bool) {
    forall i, j :: 0 <= i < j < |s| ==> !Before(desc, Key(f, s[j]), Key(f, s[i]))
  }

  /** The posts of `s` whose key is `k`, in their order in `s`. */
  function WithKey(s: seq<Post>, f: Field, k: string): seq<Post> {
    Keep(s, (p: Post) => Key(f, p) == k)
  }

  /** Posts with equal keys appear in `after` in the order they had in `before`. */
  ghost predicate Stable(before: seq<Post>, after: seq<Post>, f: Field) {
    forall k :: WithKey(after, f, k) == WithKey(before, f, k)
  }

  /** What the in-place stable sort promises about the collection it rearranges. */
  ghost predicate SortedStably(before: seq<Post>, after: seq<Post>, f: Field, desc: bool) {
    && multiset(after) == multiset(before)
    && Sorted(after, f, desc)
    && Stable(before, after, f)
  }

  /** Puts `x` in front of the first post of `t` that does not belong strictly
      before it, so `x` lands ahead of every post with an equal key. */
  function Insert(f: Field, desc: bool, x: Post, t: seq<Post>): seq<Post> {
    if |t| == 0 then [x]
    else if Before(desc, Key(f, t[0]), Key(f, x)) then [t[0]] + Insert(f, desc, x, t[1..])
    else [x] + t
  }

  function Sort(f: Field, desc: bool, s: seq<Post>): seq<Post> {
    if |s| == 0 then [] else Insert(f, desc, s[0], Sort(f, desc, s[1..]))
  }

  lemma {:induction false} InsertPermutes(f: Field, desc: bool, x: Post, t: seq<Post>)
    ensures multiset(Insert(f, desc, x, t)) == multiset(t) + multiset{x}
    decreases |t|
  {
    if |t| > 0 {
      assert t == [t[0]] + t[1..];
      if Before(desc, Key(f, t[0]), Key(f, x)) {
        InsertPermutes(f, desc, x, t[1..]);
      }
    }
  }

  lemma {:induction false} SortPermutes(f: Field, desc: bool, s: seq<Post>)
    ensures multiset(Sort(f, desc, s)) == multiset(s)
    decreases |s|
  {
    if |s| > 0 {
      var rest := Sort(f, desc, s[1..]);
      SortPermutes(f, desc, s[1..]);
      InsertPermutes(f, desc, s[0], rest);
      assert s == [s[0]] + s[1..];
      calc {
        multiset(Sort(f, desc, s));
        multiset(Insert(f, desc, s[0], rest));
        multiset(rest) + multiset{s[0]};
        multiset(s[1..]) + multiset{s[0]};
        multiset(s);
      }
    }
  }

  /** A post may be put in front of a sorted sequence whose keys do not belong
      before its own. */
  lemma SortedCons(f: Field, desc: bool, a: Post, u: seq<Post>)
    requires Sorted(u, f, desc)
    requires forall q :: q in u ==> !Before(desc, Key(f, q), Key(f, a))
    ensures Sorted([a] + u, f, desc)
  {
  }

  lemma {:induction false} InsertSorted(f: Field, desc: bool, x: Post, t: seq<Post>)
    requires Sorted(t, f, desc)
    ensures Sorted(Insert(f, desc, x, t), f, desc)
    decreases |t|
  {
    if |t| == 0 {
    } else if Before(desc, Key(f, t[0]), Key(f, x)) {
      var rest := Insert(f, desc, x, t[1..]);
      assert Sorted(t[1..], f, desc) by {
        forall i, j | 0 <= i < j < |t| - 1
          ensures !Before(desc, Key(f, t[1..][j]), Key(f, t[1..][i]))
        {
          assert t[1..][j] == t[j + 1] && t[1..][i] == t[i + 1];
        }
      }
      InsertSorted(f, desc, x, t[1..]);
      InsertPermutes(f, desc, x, t[1..]);
      forall q | q in rest
        ensures !Before(desc, Key(f, q), Key(f, t[0]))
      {
        assert q in multiset(rest);
        if q == x {
          BeforeAsymmetric(desc, Key(f, t[0]), Key(f, x));
        } else {
          assert q in t[1..];
          var j :| 0 <= j < |t| - 1 && t[1..][j] == q;
          assert t[j + 1] == q;
        }
      }
      SortedCons(f, desc, t[0], rest);
    } else {
      forall q | q in t
        ensures !Before(desc, Key(f, q), Key(f, x))
      {
        var j :| 0 <= j < |t| && t[j] == q;
        if j > 0 {
          NotBeforeTransitive(desc, Key(f, t[j]), Key(f, t[0]), Key(f, x));
        }
      }
      SortedCons(f, desc, x, t);
    }
  }

  lemma {:induction false} SortSorted(f: Field, desc: bool, s: seq<Post>)
    ensures Sorted(Sort(f, desc, s), f, desc)
    decreases |s|
  {
    if |s| > 0 {
      SortSorted(f, desc, s[1..]);
      InsertSorted(f, desc, s[0], Sort(f, desc, s[1..]));
    }
  }

  /** The key classes of a sequence, read off its first post and the rest. */
  lemma WithKeyCons(f: Field, a: Post, u: seq<Post>, k: string)
    ensures WithKey([a] + u, f, k) == (if Key(f, a) == k then [a] else []) + WithKey(u, f, k)
  {
  }

  /** Inserting `x` adds it at the front of its own key class and leaves every
      other key class alone. */
  lemma {:induction false} InsertWithKey(f: Field, desc: bool, x: Post, t: seq<Post>, k: string)
    ensures WithKey(Insert(f, desc, x, t), f, k) ==
            (if Key(f, x) == k then [x] else []) + WithKey(t, f, k)
    decreases |t|
  {
    if |t| == 0 {
      WithKeyCons(f, x, t, k);
      assert [x] + t == [x];
    } else if Before(desc, Key(f, t[0]), Key(f, x)) {
      InsertWithKey(f, desc, x, t[1..], k);
      WithKeyCons(f, t[0], Insert(f, desc, x, t[1..]), k);
      WithKeyCons(f, t[0], t[1..], k);
      assert t == [t[0]] + t[1..];
      if Key(f, x) == k && Key(f, t[0]) == k {
        BeforeIrreflexive(desc, k);
      }
    } else {
      WithKeyCons(f, x, t, k);
    }
  }

  lemma {:induction false} SortWithKey(f: Field, desc: bool, s: seq<Post>, k: string)
    ensures WithKey(Sort(f, desc, s), f, k) == WithKey(s, f, k)
    decreases |s|
  {
    if |s| > 0 {
      SortWithKey(f, desc, s[1..], k);
      InsertWithKey(f, desc, s[0], Sort(f, desc, s[1..]), k);
      WithKeyCons(f, s[0], s[1..], k);
      assert s == [s[0]] + s[1..];
    }
  }

  /** `Sort` does what the stable sort promises. */
  lemma SortMeetsSpec(f: Field, desc: bool, s: seq<Post>)
    ensures SortedStably(s, Sort(f, desc, s), f, desc)
  {
    SortPermutes(f, desc, s);
    SortSorted(f, desc, s);
    forall k ensures WithKey(Sort(f, desc, s), f, k) == WithKey(s, f, k) {
      SortWithKey(f, desc, s, k);
    }
  }

  /** The key class of the first post of a sequence starts with that post. */
  lemma HeadKeyClass(f: Field, s: seq<Post>)
    requires |s| > 0
    ensures WithKey(s, f, Key(f, s[0])) != [] && WithKey(s, f, Key(f, s[0]))[0] == s[0]
  {
  }

  /** Two sorted sequences with the same key classes are the same sequence. */
  lemma {:induction false} SortedStableUnique(f: Field, desc: bool, b: seq<Post>, c: seq<Post>)
    requires Sorted(b, f, desc) && Sorted(c, f, desc)
    requires forall k :: WithKey(b, f, k) == WithKey(c, f, k)
    ensures b == c
    decreases |b|
  {
    if |b| == 0 || |c| == 0 {
      // A post on one side would have an empty key class on the other.
      if |b| > 0 {
        HeadKeyClass(f, b);
        assert false;
      } else if |c| > 0 {
        HeadKeyClass(f, c);
        assert false;
      }
    } else {
      assert b == [b[0]] + b[1..] && c == [c[0]] + c[1..];
      var kb, kc := Key(f, b[0]), Key(f, c[0]);
      // The head of `b` has a key no post of `c` belongs strictly before,
      // and symmetrically, so both heads have the same key.
      WithKeyCons(f, b[0], b[1..], kb);
      WithKeyCons(f, c[0], c[1..], kc);
      KeyClassHead(f, desc, c, kb);
      KeyClassHead(f, desc, b, kc);
      if kb != kc {
        BeforeTotal(desc, kb, kc);
      }
      // So both heads are the first post of the same key class.
      assert WithKey(b, f, kb) == WithKey(c, f, kb);
      assert b[0] == WithKey(b, f, kb)[0] == WithKey(c, f, kc)[0] == c[0];
      forall k ensures WithKey(b[1..], f, k) == WithKey(c[1..], f, k) {
        WithKeyCons(f, b[0], b[1..], k);
        WithKeyCons(f, c[0], c[1..], k);
        var head := if Key(f, b[0]) == k then [b[0]] else [];
        assert WithKey(b, f, k) == head + WithKey(b[1..], f, k);
        assert WithKey(c, f, k) == head + WithKey(c[1..], f, k);
        assert WithKey(b[1..], f, k) == WithKey(b, f, k)[|head|..];
        assert WithKey(c[1..], f, k) == WithKey(c, f, k)[|head|..];
      }
      assert Sorted(b[1..], f, desc) by {
        forall i, j | 0 <= i < j < |b| - 1
          ensures !Before(desc, Key(f, b[1..][j]), Key(f, b[1..][i]))
        {
          assert b[1..][j] == b[j + 1] && b[1..][i] == b[i + 1];
        }
      }
      assert Sorted(c[1..], f, desc) by {
        forall i, j | 0 <= i < j < |c| - 1
          ensures !Before(desc, Key(f, c[1..][j]), Key(f, c[1..][i]))
        {
          assert c[1..][j] == c[j + 1] && c[1..][i] == c[i + 1];
        }
      }
      SortedStableUnique(f, desc, b[1..], c[1..]);
    }
  }

  /** A key that occurs in a sorted sequence does not belong strictly before
      the key of its first post. */
  lemma KeyClassHead(f: Field, desc: bool, s: seq<Post>, k: string)
    requires Sorted(s, f, desc) && |s| > 0
    requires WithKey(s, f, k) != []
    ensures !Before(desc, k, Key(f, s[0]))
  {
    KeepMembers(s, (p: Post) => Key(f, p) == k);
    var y := WithKey(s, f, k)[0];
    var j :| 0 <= j < |s| && s[j] == y;
    if j == 0 {
      BeforeIrreflexive(desc, k);
    }
  }

  lemma {:induction false} InsertKeepsIdsUnique(f: Field, desc: bool, x: Post, t: seq<Post>)
    requires UniqueIds(t)
    requires forall q :: q in t ==> q.id != x.id
    ensures UniqueIds(Insert(f, desc, x, t))
    decreases |t|
  {
    if |t| == 0 {
      UniqueIdsCons(x, t);
      assert [x] + t == [x];
    } else if Before(desc, Key(f, t[0]), Key(f, x)) {
      var rest := Insert(f, desc, x, t[1..]);
      UniqueIdsCons(t[0], t[1..]);
      assert t == [t[0]] + t[1..];
      InsertKeepsIdsUnique(f, desc, x, t[1..]);
      InsertPermutes(f, desc, x, t[1..]);
      forall q | q in rest ensures q.id != t[0].id {
        assert q in multiset(rest);
      }
      UniqueIdsCons(t[0], rest);
    } else {
      UniqueIdsCons(x, t);
    }
  }

  /** Reordering the collection cannot make two posts share an id. */
  lemma {:induction false} SortKeepsIdsUnique(f: Field, desc: bool, s: seq<Post>)
    requires UniqueIds(s)
    ensures UniqueIds(Sort(f, desc, s))
    decreases |s|
  {
    if |s| > 0 {
      assert s == [s[0]] + s[1..];
      UniqueIdsCons(s[0], s[1..]);
      SortKeepsIdsUnique(f, desc, s[1..]);
      SortPermutes(f, desc, s[1..]);
      forall q | q in Sort(f, desc, s[1..]) ensures q.id != s[0].id {
        assert q in multiset(Sort(f, desc, s[1..]));
      }
      InsertKeepsIdsUnique(f, desc, s[0], Sort(f, desc, s[1..]));
    }
  }

  /** The specification pins the result down: any rearrangement meeting it is
      exactly what `Sort` computes. */
  lemma SortIsTheStableSort(f: Field, desc: bool, s: seq<Post>, b: seq<Post>)
    requires SortedStably(s, b, f, desc)
    ensures b == Sort(f, desc, s)
  {
    SortMeetsSpec(f, desc, s);
    SortedStableUnique(f, desc, b, Sort(f, desc, s));
  }
}
