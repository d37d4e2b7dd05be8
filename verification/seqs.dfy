/**
  Order-preserving filtering of a sequence, the shape shared by the delete
  handler (keep every post whose id differs) and the search handler (keep
  every post that matches both queries).
 */
module Seqs {

  /** The elements of `s` satisfying `keep`, in their original order. */
  function Keep<T>(s: seq<T>, keep: T -> bool): seq<T> {
    if |s| == 0 then []
    else (if keep(s[0]) then [s[0]] else []) + Keep(s[1..], keep)
  }

  /** `r` can be obtained from `s` by deleting elements. */
  predicate IsSubsequence<T(==)>(r: seq<T>, s: seq<T>)
    decreases |s|
  {
    |r| == 0 ||
    (|s| > 0 &&
     ((r[0] == s[0] && IsSubsequence(r[1..], s[1..])) || IsSubsequence(r, s[1..])))
  }

  /** Filtering deletes elements and reorders none. */
  lemma {:induction false} KeepIsSubsequence<T>(s: seq<T>, keep: T -> bool)
    ensures IsSubsequence(Keep(s, keep), s)
    decreases |s|
  {
    if |s| > 0 {
      KeepIsSubsequence(s[1..], keep);
      var r := Keep(s, keep);
      if keep(s[0]) {
        assert r[0] == s[0] && r[1..] == Keep(s[1..], keep);
      } else {
        assert r == Keep(s[1..], keep);
      }
    }
  }

  /** Every element satisfying `keep` survives with all its occurrences;
      every other element disappears. */
  lemma {:induction false} KeepCount<T>(s: seq<T>, keep: T -> bool, x: T)
    ensures multiset(Keep(s, keep))[x] == if keep(x) then multiset(s)[x] else 0
    decreases |s|
  {
    if |s| > 0 {
      KeepCount(s[1..], keep, x);
      assert s == [s[0]] + s[1..];
      assert multiset(s) == multiset{s[0]} + multiset(s[1..]);
    }
  }

  lemma KeepCounts<T>(s: seq<T>, keep: T -> bool)
    ensures forall x :: multiset(Keep(s, keep))[x] == if keep(x) then multiset(s)[x] else 0
  {
    forall x ensures multiset(Keep(s, keep))[x] == if keep(x) then multiset(s)[x] else 0 {
      KeepCount(s, keep, x);
    }
  }

  /** Soundness and completeness of the filter, as membership facts. */
  lemma KeepMembers<T>(s: seq<T>, keep: T -> bool)
    ensures forall i :: 0 <= i < |Keep(s, keep)| ==> keep(Keep(s, keep)[i]) && Keep(s, keep)[i] in s
    ensures forall x :: x in s && keep(x) ==> x in Keep(s, keep)
  {
  }

  /** A filter that rejects nothing returns its input. */
  lemma {:induction false} KeepEverything<T>(s: seq<T>, keep: T -> bool)
    requires forall i :: 0 <= i < |s| ==> keep(s[i])
    ensures Keep(s, keep) == s
    decreases |s|
  {
    if |s| > 0 {
      KeepEverything(s[1..], keep);
      assert s == [s[0]] + s[1..];
    }
  }

  /** Filtering a sequence with one more element at the end. */
  lemma {:induction false} KeepSnoc<T>(s: seq<T>, x: T, keep: T -> bool)
    ensures Keep(s + [x], keep) == Keep(s, keep) + (if keep(x) then [x] else [])
    decreases |s|
  {
    if |s| == 0 {
      assert s + [x] == [x];
    } else {
      var t := s + [x];
      var head := if keep(s[0]) then [s[0]] else [];
      assert t[0] == s[0] && t[1..] == s[1..] + [x];
      KeepSnoc(s[1..], x, keep);
      calc {
        Keep(t, keep);
        head + Keep(s[1..] + [x], keep);
        head + (Keep(s[1..], keep) + (if keep(x) then [x] else []));
        (head + Keep(s[1..], keep)) + (if keep(x) then [x] else []);
      }
    }
  }

  lemma {:induction false} SubsequenceNoLonger<T>(r: seq<T>, s: seq<T>)
    requires IsSubsequence(r, s)
    ensures |r| <= |s|
    decreases |s|
  {
    if |r| > 0 {
      if r[0] == s[0] && IsSubsequence(r[1..], s[1..]) {
        SubsequenceNoLonger(r[1..], s[1..]);
      } else {
        SubsequenceNoLonger(r, s[1..]);
      }
    }
  }

  /** A subsequence as long as the sequence is the sequence itself. */
  lemma {:induction false} SubsequenceOfFullLength<T>(r: seq<T>, s: seq<T>)
    requires IsSubsequence(r, s) && |r| == |s|
    ensures r == s
    decreases |s|
  {
    if |r| > 0 {
      if r[0] == s[0] && IsSubsequence(r[1..], s[1..]) {
        SubsequenceOfFullLength(r[1..], s[1..]);
        assert r == [r[0]] + r[1..] && s == [s[0]] + s[1..];
      } else {
        SubsequenceNoLonger(r, s[1..]);
        assert false;
      }
    }
  }
}
