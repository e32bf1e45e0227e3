/** Order-preserving operations on sequences: the array methods the note list
    relies on (`filter`, `unshift`, `splice(i, 1)`), stated as functions. */
module Sequences {

  /** The elements of `s` for which `keep` holds, in their original order
      (what `Array.prototype.filter` returns). */
  function Select<T>(s: seq<T>, keep: T -> bool): (r: seq<T>)
    ensures |r| <= |s|
    ensures forall j :: 0 <= j < |r| ==> keep(r[j])
  {
    if s == [] then []
    else Select(s[..|s| - 1], keep) + (if keep(s[|s| - 1]) then [s[|s| - 1]] else [])
  }

  /** The positions in `s` of the elements that `Select(s, keep)` keeps. */
  function Positions<T>(s: seq<T>, keep: T -> bool): (p: seq<nat>)
    ensures |p| == |Select(s, keep)|
    ensures forall j :: 0 <= j < |p| ==> p[j] < |s| && s[p[j]] == Select(s, keep)[j]
    ensures forall a, b :: 0 <= a < b < |p| ==> p[a] < p[b]
  {
    if s == [] then []
    else
      var init := s[..|s| - 1];
      var p0 := Positions(init, keep);
      assert forall j :: 0 <= j < |p0| ==> s[p0[j]] == init[p0[j]];
      p0 + (if keep(s[|s| - 1]) then [|s| - 1] else [])
  }

  /** `r` is obtained from `s` by dropping elements, the survivors sitting at
      the strictly increasing positions `p` of `s`. */
  ghost predicate SubsequenceAt<T>(r: seq<T>, s: seq<T>, p: seq<nat>) {
    |p| == |r| &&
    (forall j :: 0 <= j < |p| ==> p[j] < |s| && s[p[j]] == r[j]) &&
    (forall a, b :: 0 <= a < b < |p| ==> p[a] < p[b])
  }

  lemma SelectIsSubsequence<T>(s: seq<T>, keep: T -> bool)
    ensures SubsequenceAt(Select(s, keep), s, Positions(s, keep))
  {
  }

  /** Every copy of a kept value survives, and no copy of a dropped one does. */
  lemma {:induction false} SelectCount<T>(s: seq<T>, keep: T -> bool, x: T)
    ensures multiset(Select(s, keep))[x] == if keep(x) then multiset(s)[x] else 0
  {
    if s != [] {
      var init, last := s[..|s| - 1], s[|s| - 1];
      assert s == init + [last];
      SelectCount(init, keep, x);
    }
  }

  lemma SelectMember<T>(s: seq<T>, keep: T -> bool, x: T)
    ensures x in Select(s, keep) <==> x in s && keep(x)
  {
  }

  /** Two tests that agree everywhere select the same elements. */
  lemma {:induction false} SelectExt<T>(s: seq<T>, p: T -> bool, q: T -> bool)
    requires forall x :: p(x) == q(x)
    ensures Select(s, p) == Select(s, q)
  {
    if s != [] {
      SelectExt(s[..|s| - 1], p, q);
    }
  }

  /** A test that every element passes selects the whole sequence. */
  lemma {:induction false} SelectKeepsAll<T>(s: seq<T>, keep: T -> bool)
    requires forall j :: 0 <= j < |s| ==> keep(s[j])
    ensures Select(s, keep) == s
  {
    if s != [] {
      var init := s[..|s| - 1];
      assert forall j :: 0 <= j < |init| ==> init[j] == s[j];
      SelectKeepsAll(init, keep);
      assert s == init + [s[|s| - 1]];
    }
  }

  /** When every element passes, the kept positions are 0, 1, 2, ... */
  lemma {:induction false} PositionsOfAll<T>(s: seq<T>, keep: T -> bool)
    requires forall j :: 0 <= j < |s| ==> keep(s[j])
    ensures |Positions(s, keep)| == |s|
    ensures forall j :: 0 <= j < |s| ==> Positions(s, keep)[j] == j
  {
    if s != [] {
      var init := s[..|s| - 1];
      assert forall j :: 0 <= j < |init| ==> init[j] == s[j];
      PositionsOfAll(init, keep);
    }
  }

  lemma {:induction false} SelectAppend<T>(a: seq<T>, b: seq<T>, keep: T -> bool)
    ensures Select(a + b, keep) == Select(a, keep) + Select(b, keep)
  {
    if b == [] {
      assert a + b == a;
    } else {
      var b0 := b[..|b| - 1];
      assert (a + b)[..|a + b| - 1] == a + b0;
      SelectAppend(a, b0, keep);
    }
  }

  /** Filtering twice is filtering once by the conjunction of the two tests. */
  lemma {:induction false} SelectSelect<T>(s: seq<T>, p: T -> bool, q: T -> bool, both: T -> bool)
    requires forall x :: both(x) == (p(x) && q(x))
    ensures Select(Select(s, p), q) == Select(s, both)
  {
    if s != [] {
      var init, last := s[..|s| - 1], s[|s| - 1];
      SelectSelect(init, p, q, both);
      var tail := if p(last) then [last] else [];
      SelectAppend(Select(init, p), tail, q);
      assert Select(tail, q) == if both(last) then [last] else [] by {
        if p(last) {
          assert tail[..0] == [];
        }
      }
    }
  }

  /** `a.unshift(x)`: `x` becomes element 0 and everything else moves up one. */
  function Prepend<T>(x: T, s: seq<T>): (r: seq<T>)
    ensures |r| == |s| + 1
    ensures r[0] == x
    ensures forall j :: 0 <= j < |s| ==> r[j + 1] == s[j]
    ensures multiset(r) == multiset(s) + multiset{x}
  {
    [x] + s
  }

  /** `a.splice(i, 1)` for a non-negative index: removes the element at `i`,
      or nothing when `i` is at or past the end. */
  function RemoveAt<T>(s: seq<T>, i: nat): (r: seq<T>)
    ensures i >= |s| ==> r == s
    ensures i < |s| ==> |r| == |s| - 1
    ensures i < |s| ==> forall j :: 0 <= j < i ==> r[j] == s[j]
    ensures i < |s| ==> forall j :: i <= j < |r| ==> r[j] == s[j + 1]
  {
    if i < |s| then s[..i] + s[i + 1..] else s
  }

  /** What `RemoveAt` takes away is exactly one copy of the element at `i`. */
  lemma RemoveAtMultiset<T>(s: seq<T>, i: nat)
    requires i < |s|
    ensures multiset(RemoveAt(s, i)) == multiset(s) - multiset{s[i]}
  {
    assert s == s[..i] + [s[i]] + s[i + 1..];
  }
}
