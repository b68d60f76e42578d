/** Generic sequence operations that the Swift standard library supplies: `filter`
    (and through it `removeAll(where:)`) and `remove(atOffsets:)`. */
module Seqs {

  /** `a` can be obtained from `b` by deleting elements, keeping the order of the rest. */
  ghost predicate IsSubsequence<T>(a: seq<T>, b: seq<T>)
    decreases |b|
  {
    a == [] ||
    (b != [] && ((a[0] == b[0] && IsSubsequence(a[1..], b[1..])) || IsSubsequence(a, b[1..])))
  }

  lemma {:induction false} SubsequenceNotLonger<T>(a: seq<T>, b: seq<T>)
    requires IsSubsequence(a, b)
    ensures |a| <= |b|
    decreases |b|
  {
    if a != [] {
      if a[0] == b[0] && IsSubsequence(a[1..], b[1..]) {
        SubsequenceNotLonger(a[1..], b[1..]);
      } else {
        SubsequenceNotLonger(a, b[1..]);
      }
    }
  }

  /** Every sequence is a subsequence of itself. */
  lemma {:induction false} SubsequenceIsSelf<T>(s: seq<T>)
    ensures IsSubsequence(s, s)
  {
    if s != [] {
      SubsequenceIsSelf(s[1..]);
    }
  }

  /** Every element of a subsequence is an element of the sequence it came from. */
  lemma {:induction false} SubsequenceMembers<T>(a: seq<T>, b: seq<T>, x: T)
    requires IsSubsequence(a, b) && x in a
    ensures x in b
    decreases |b|
  {
    if a[0] == b[0] && IsSubsequence(a[1..], b[1..]) {
      if x != a[0] {
        SubsequenceMembers(a[1..], b[1..], x);
      }
    } else {
      SubsequenceMembers(a, b[1..], x);
    }
  }

  /** Swift's `filter`: the elements of `s` that satisfy `p`, in their original order. */
  function Filter<T>(s: seq<T>, p: T -> bool): (r: seq<T>)
    ensures |r| <= |s|
    ensures forall i :: 0 <= i < |r| ==> r[i] in s && p(r[i])
    ensures forall i :: 0 <= i < |s| && p(s[i]) ==> s[i] in r
  {
    if s == [] then []
    else (if p(s[0]) then [s[0]] else []) + Filter(s[1..], p)
  }

  /** Filtering keeps every copy of a value that satisfies `p` and no copy of one that
      does not. */
  lemma {:induction false} FilterCounts<T>(s: seq<T>, p: T -> bool, x: T)
    ensures multiset(Filter(s, p))[x] == if p(x) then multiset(s)[x] else 0
  {
    if s != [] {
      assert s == [s[0]] + s[1..];
      FilterCounts(s[1..], p, x);
    }
  }

  lemma {:induction false} FilterIsSubsequence<T>(s: seq<T>, p: T -> bool)
    ensures IsSubsequence(Filter(s, p), s)
  {
    if s != [] {
      FilterIsSubsequence(s[1..], p);
      var rest := Filter(s[1..], p);
      if p(s[0]) {
        assert Filter(s, p) == [s[0]] + rest;
        assert (([s[0]] + rest)[1..]) == rest;
      } else {
        assert Filter(s, p) == rest;
        if rest != [] {
          assert IsSubsequence(rest, s[1..]);
        }
      }
    }
  }

  /** A filter whose predicate holds of every element keeps the whole sequence. */
  lemma {:induction false} FilterAll<T>(s: seq<T>, p: T -> bool)
    requires forall i :: 0 <= i < |s| ==> p(s[i])
    ensures Filter(s, p) == s
  {
    if s != [] {
      FilterAll(s[1..], p);
    }
  }

  /** Swift's `remove(atOffsets:)`: the elements of `s` whose positions are not in
      `offsets`. Every offset must be a valid position (the library traps otherwise). */
  function RemoveAtOffsets<T>(s: seq<T>, offsets: set<nat>): (r: seq<T>)
    requires forall o :: o in offsets ==> o < |s|
    ensures |r| == |s| - |offsets|
    decreases |s|
  {
    if s == [] then
      assert offsets == {};
      []
    else
      var n := |s| - 1;
      RemoveAtOffsets(s[..n], offsets - {n}) + (if n in offsets then [] else [s[n]])
  }

  /** Removing positions never adds an element or a copy of one. */
  lemma {:induction false} RemoveAtOffsetsShrinks<T>(s: seq<T>, offsets: set<nat>)
    requires forall o :: o in offsets ==> o < |s|
    ensures multiset(RemoveAtOffsets(s, offsets)) <= multiset(s)
    decreases |s|
  {
    if s != [] {
      var n := |s| - 1;
      assert s == s[..n] + [s[n]];
      RemoveAtOffsetsShrinks(s[..n], offsets - {n});
    }
  }

  /** How many removed offsets lie before position `i`. */
  function CountBelow(offsets: set<nat>, i: nat): nat {
    |set o | o in offsets && o < i|
  }

  /** An element that is not removed moves left by the number of removed elements before it:
      together with the length of the result this determines it completely. */
  lemma {:induction false} RemoveAtOffsetsKeeps<T>(s: seq<T>, offsets: set<nat>, i: nat)
    requires forall o :: o in offsets ==> o < |s|
    requires i < |s| && i !in offsets
    ensures CountBelow(offsets, i) <= i
    ensures i - CountBelow(offsets, i) < |RemoveAtOffsets(s, offsets)|
    ensures RemoveAtOffsets(s, offsets)[i - CountBelow(offsets, i)] == s[i]
    decreases |s|
  {
    var n := |s| - 1;
    var rest := offsets - {n};
    var prefix := RemoveAtOffsets(s[..n], rest);
    assert RemoveAtOffsets(s, offsets) == prefix + (if n in offsets then [] else [s[n]]);
    if i == n {
      assert rest == offsets;
      assert (set o | o in offsets && o < i) == offsets;
    } else {
      RemoveAtOffsetsKeeps(s[..n], rest, i);
      assert (set o | o in rest && o < i) == (set o | o in offsets && o < i);
    }
  }

  /** No offsets: nothing is removed. */
  lemma RemoveAtNoOffsets<T>(s: seq<T>)
    ensures RemoveAtOffsets(s, {}) == s
  {
    if s != [] {
      RemoveAtNoOffsets(s[..|s| - 1]);
    }
  }
}
