/** List operations the ledger performs on its ArrayLists, on Dafny sequences. */
module Sequences {

  /** No element occurs twice. */
  predicate Distinct<T(==)>(s: seq<T>) {
    forall i, j :: 0 <= i < j < |s| ==> s[i] != s[j]
  }

  /** `List.indexOf(x)` by reference equality, with |s| standing for "not found" (-1). */
  function FirstIndex<T(==)>(s: seq<T>, x: T): (i: nat)
    ensures i <= |s|
    ensures i < |s| ==> s[i] == x
    ensures forall j :: 0 <= j < i ==> s[j] != x
    ensures i == |s| <==> x !in s
  {
    if s == [] then 0
    else if s[0] == x then 0
    else 1 + FirstIndex(s[1..], x)
  }

  /** s without position i; i == |s| (nothing found) leaves s as it is. */
  function RemoveAt<T>(s: seq<T>, i: nat): (r: seq<T>)
    requires i <= |s|
  {
    if i == |s| then s else s[..i] + s[i + 1..]
  }

  /** `List.remove(Object)`: drops the first occurrence of x, if there is one. */
  function RemoveFirst<T(==)>(s: seq<T>, x: T): seq<T> {
    RemoveAt(s, FirstIndex(s, x))
  }

  /** Removal deletes exactly one occurrence, the first, and keeps everything else in order. */
  lemma RemoveFirstShape<T>(s: seq<T>, x: T)
    ensures x !in s ==> RemoveFirst(s, x) == s
    ensures x in s ==> exists a, b :: s == a + [x] + b && x !in a && RemoveFirst(s, x) == a + b
  {
    var i := FirstIndex(s, x);
    if i < |s| {
      var a, b := s[..i], s[i + 1..];
      assert s == a + [x] + b && x !in a && RemoveFirst(s, x) == a + b;
    }
  }

  /** Removal takes away exactly one copy of x, if there is one. */
  lemma RemoveFirstCount<T>(s: seq<T>, x: T)
    ensures multiset(RemoveFirst(s, x)) == multiset(s) - multiset{x}
  {
    var i := FirstIndex(s, x);
    if i < |s| {
      assert s == s[..i] + [x] + s[i + 1..];
    }
  }

  /** Appending x and then removing x gives the list back when x was not in it already. */
  lemma RemoveFirstAfterAppend<T>(s: seq<T>, x: T)
    requires x !in s
    ensures RemoveFirst(s + [x], x) == s
  {
    assert FirstIndex(s + [x], x) == |s|;
    assert (s + [x])[..|s|] == s;
  }

  /**
   * The elements xs[i] whose companion rs[i] satisfies keep, in their original order:
   * `removeIf`, a filtering loop, or a fold restricted to the matching records.
   */
  function Select<T, R>(xs: seq<T>, rs: seq<R>, keep: R -> bool): seq<T>
    requires |xs| == |rs|
  {
    if xs == [] then []
    else
      Select(xs[..|xs| - 1], rs[..|rs| - 1], keep) +
      (if keep(rs[|rs| - 1]) then [xs[|xs| - 1]] else [])
  }

  /** Appending one element appends it to the selection when its companion satisfies keep. */
  lemma SelectSnoc<T, R>(xs: seq<T>, rs: seq<R>, x: T, r: R, keep: R -> bool)
    requires |xs| == |rs|
    ensures Select(xs + [x], rs + [r], keep) == Select(xs, rs, keep) + (if keep(r) then [x] else [])
  {
    assert (xs + [x])[..|xs|] == xs && (rs + [r])[..|rs|] == rs;
  }

  /** Select of a sequence by its own elements. */
  function Filter<T>(xs: seq<T>, keep: T -> bool): seq<T> {
    Select(xs, xs, keep)
  }

  /** The positions whose companion satisfies keep, ascending: the index map of Select. */
  function Kept<R>(rs: seq<R>, keep: R -> bool): (ix: seq<nat>)
    ensures forall j :: 0 <= j < |ix| ==> ix[j] < |rs| && keep(rs[ix[j]])
    ensures forall j, k :: 0 <= j < k < |ix| ==> ix[j] < ix[k]
    ensures forall i :: 0 <= i < |rs| && keep(rs[i]) ==> i in ix
  {
    if rs == [] then []
    else Kept(rs[..|rs| - 1], keep) + (if keep(rs[|rs| - 1]) then [|rs| - 1] else [])
  }

  /** Select picks xs at the kept positions, in ascending order: an order-preserving subsequence. */
  lemma {:induction false} SelectAt<T, R>(xs: seq<T>, rs: seq<R>, keep: R -> bool)
    requires |xs| == |rs|
    ensures |Select(xs, rs, keep)| == |Kept(rs, keep)|
    ensures forall j :: 0 <= j < |Kept(rs, keep)| ==> Select(xs, rs, keep)[j] == xs[Kept(rs, keep)[j]]
  {
    if xs != [] {
      SelectAt(xs[..|xs| - 1], rs[..|rs| - 1], keep);
    }
  }

  /** x is selected exactly when it sits at a position whose companion satisfies keep. */
  lemma SelectMembership<T, R>(xs: seq<T>, rs: seq<R>, keep: R -> bool, x: T)
    requires |xs| == |rs|
    ensures x in Select(xs, rs, keep) <==> exists i :: 0 <= i < |xs| && keep(rs[i]) && xs[i] == x
  {
    SelectAt(xs, rs, keep);
    var ix := Kept(rs, keep);
    if x in Select(xs, rs, keep) {
      var j :| 0 <= j < |ix| && Select(xs, rs, keep)[j] == x;
      assert keep(rs[ix[j]]) && xs[ix[j]] == x;
    }
    if i :| 0 <= i < |xs| && keep(rs[i]) && xs[i] == x {
      var j :| 0 <= j < |ix| && ix[j] == i;
      assert Select(xs, rs, keep)[j] == x;
    }
  }

  /** When every companion satisfies keep, nothing is dropped. */
  lemma {:induction false} SelectAll<T, R>(xs: seq<T>, rs: seq<R>, keep: R -> bool)
    requires |xs| == |rs|
    requires forall i :: 0 <= i < |rs| ==> keep(rs[i])
    ensures Select(xs, rs, keep) == xs
  {
    if xs != [] {
      SelectAll(xs[..|xs| - 1], rs[..|rs| - 1], keep);
      assert xs == xs[..|xs| - 1] + [xs[|xs| - 1]];
    }
  }

  /** Selecting from a concatenation selects from each part. */
  lemma {:induction false} SelectConcat<T, R>(a: seq<T>, ra: seq<R>, b: seq<T>, rb: seq<R>, keep: R -> bool)
    requires |a| == |ra| && |b| == |rb|
    ensures Select(a + b, ra + rb, keep) == Select(a, ra, keep) + Select(b, rb, keep)
  {
    if b == [] {
      assert a + b == a && ra + rb == ra;
    } else {
      var b', rb' := b[..|b| - 1], rb[..|rb| - 1];
      SelectConcat(a, ra, b', rb', keep);
      assert (a + b)[..|a + b| - 1] == a + b' && (ra + rb)[..|ra + rb| - 1] == ra + rb';
    }
  }

  /** Selecting distinct elements gives distinct elements. */
  lemma SelectDistinct<T, R>(xs: seq<T>, rs: seq<R>, keep: R -> bool)
    requires |xs| == |rs| && Distinct(xs)
    ensures Distinct(Select(xs, rs, keep))
  {
    SelectAt(xs, rs, keep);
    var ix := Kept(rs, keep);
    forall i, j | 0 <= i < j < |ix|
      ensures Select(xs, rs, keep)[i] != Select(xs, rs, keep)[j]
    {
      assert ix[i] < ix[j];
    }
  }

  /** Filtering twice is filtering once by the conjunction. */
  lemma {:induction false} FilterFilter<T>(xs: seq<T>, p: T -> bool, q: T -> bool, pq: T -> bool)
    requires forall x :: pq(x) == (p(x) && q(x))
    ensures Filter(Filter(xs, p), q) == Filter(xs, pq)
  {
    if xs != [] {
      var init, last := xs[..|xs| - 1], xs[|xs| - 1];
      FilterFilter(init, p, q, pq);
      var once := Filter(init, p) + (if p(last) then [last] else []);
      assert Filter(xs, p) == once;
      SelectConcat(Filter(init, p), Filter(init, p), if p(last) then [last] else [], if p(last) then [last] else [], q);
      if p(last) {
        assert Filter([last], q) == Select([], [], q) + (if q(last) then [last] else []);
      }
    }
  }
}
