/** Sequence helpers shared by the network model: duplicate-freedom, first
    positions, first-occurrence de-duplication (the key order of a Python dict
    filled from a sequence), tallies (a counting dict) and subsequences. */
module Seqs {

  /** No element occurs twice in s. */
  predicate NoDup<T(==)>(s: seq<T>) {
    forall i, j :: 0 <= i < j < |s| ==> s[i] != s[j]
  }

  /** The elements of s, as a set. */
  function Elements<T>(s: seq<T>): set<T> {
    set x | x in s
  }

  /** Index of the first occurrence of x in s, or |s| when x does not occur. */
  function Position<T(==)>(s: seq<T>, x: T): (p: nat)
    ensures p <= |s|
    ensures p < |s| <==> x in s
    ensures p < |s| ==> s[p] == x
    ensures x !in s[..p]
  {
    if s == [] then 0
    else if s[0] == x then 0
    else
      var p := 1 + Position(s[1..], x);
      assert s[..p] == [s[0]] + s[1..][..p - 1];
      p
  }

  /** Appending to a sequence does not move the first occurrence of an
      element that is already there. */
  lemma {:induction false} PositionAppend<T>(s: seq<T>, t: seq<T>, x: T)
    requires x in s
    ensures Position(s + t, x) == Position(s, x)
  {
    if s[0] != x {
      assert (s + t)[1..] == s[1..] + t;
      PositionAppend(s[1..], t, x);
    }
  }

  /** xs with x appended unless it is already there: the key order of a
      Python dict after writing key x. */
  function AddIfAbsent<T(==)>(xs: seq<T>, x: T): seq<T> {
    if x in xs then xs else xs + [x]
  }

  /** The distinct elements of s in order of first occurrence: the keys of a
      Python dict that is written once per element of s, in insertion order.
      DistinctKeys states what it holds. */
  function Distinct<T(==)>(s: seq<T>): seq<T> {
    if s == [] then []
    else
      AddIfAbsent(Distinct(s[..|s| - 1]), s[|s| - 1])
  }

  /** Distinct(s) holds every element of s once, and nothing else. */
  lemma {:induction false} DistinctKeys<T(!new)>(s: seq<T>)
    ensures NoDup(Distinct(s))
    ensures forall x :: x in Distinct(s) <==> x in s
  {
    if s != [] {
      var init := s[..|s| - 1];
      assert s == init + [s[|s| - 1]];
      DistinctKeys(init);
    }
  }

  /** The keys of Distinct(s) come in the order in which they first occur in s. */
  lemma {:induction false} DistinctOrder<T(!new)>(s: seq<T>)
    ensures forall i, j :: 0 <= i < j < |Distinct(s)| ==> Position(s, Distinct(s)[i]) < Position(s, Distinct(s)[j])
  {
    if s != [] {
      var init := s[..|s| - 1];
      var last := s[|s| - 1];
      assert s == init + [last];
      DistinctKeys(init);
      DistinctOrder(init);
      var d := Distinct(init);
      forall x | x in init ensures Position(s, x) == Position(init, x) {
        PositionAppend(init, [last], x);
      }
      if last !in d {
        assert Position(s, last) == |s| - 1;
        assert Distinct(s) == d + [last];
        forall i, j | 0 <= i < j < |d| + 1
          ensures Position(s, Distinct(s)[i]) < Position(s, Distinct(s)[j])
        {
          assert Distinct(s)[i] == d[i] && d[i] in d && d[i] in init;
          assert Position(s, d[i]) == Position(init, d[i]) < |init|;
          if j < |d| {
            assert Distinct(s)[j] == d[j] && d[j] in d && d[j] in init;
            assert Position(s, d[j]) == Position(init, d[j]);
          } else {
            assert Distinct(s)[j] == last;
          }
        }
      } else {
        assert Distinct(s) == d;
      }
    }
  }

  /** `counter[x] += 1` on a counting dict whose missing keys read as 0. */
  function Increment<T>(t: map<T, nat>, x: T): map<T, nat> {
    t[x := (if x in t then t[x] else 0) + 1]
  }

  /** The counting dict after `counter[x] += 1` for every element x of s, in
      order. TallyCounts states what it holds. */
  function Tally<T>(s: seq<T>): map<T, nat> {
    if s == [] then map[] else Increment(Tally(s[..|s| - 1]), s[|s| - 1])
  }

  /** The tally has a key for each element that occurs, and counts how often it
      occurs. */
  lemma {:induction false} TallyCounts<T(!new)>(s: seq<T>)
    ensures forall x :: x in Tally(s) <==> x in s
    ensures forall x :: x in Tally(s) ==> Tally(s)[x] == multiset(s)[x] >= 1
  {
    if s != [] {
      var init := s[..|s| - 1];
      assert s == init + [s[|s| - 1]];
      TallyCounts(init);
    }
  }

  /** Counting one more element: the key order gains the element if it is new,
      and its counter goes up by one. */
  lemma CountStep<T(!new)>(s: seq<T>, order: seq<T>, counts: map<T, nat>, x: T)
    requires order == Distinct(s) && counts == Tally(s)
    ensures (if x !in counts then order + [x] else order) == Distinct(s + [x])
    ensures Increment(counts, x) == Tally(s + [x])
  {
    assert (s + [x])[..|s|] == s;
    DistinctKeys(s);
    TallyCounts(s);
  }

  /** A sequence without duplicates has as many elements as its set. */
  lemma {:induction false} NoDupCardinality<T>(s: seq<T>)
    requires NoDup(s)
    ensures |Elements(s)| == |s|
  {
    if s != [] {
      NoDupCardinality(s[1..]);
      assert Elements(s) == {s[0]} + Elements(s[1..]);
      assert s[0] !in Elements(s[1..]);
    }
  }

  /** xs can be obtained from ys by deleting elements (order kept). */
  predicate IsSubseq<T(==)>(xs: seq<T>, ys: seq<T>)
    decreases |ys|
  {
    if xs == [] then true
    else if ys == [] then false
    else (xs[0] == ys[0] && IsSubseq(xs[1..], ys[1..])) || IsSubseq(xs, ys[1..])
  }

  /** Appending one element to both sides, or to the longer side only, keeps a
      subsequence a subsequence. */
  lemma {:induction false} IsSubseqSnoc<T>(xs: seq<T>, ys: seq<T>, x: T)
    requires IsSubseq(xs, ys)
    ensures IsSubseq(xs + [x], ys + [x])
    ensures IsSubseq(xs, ys + [x])
    decreases |ys|
  {
    if ys != [] {
      assert (ys + [x])[1..] == ys[1..] + [x];
      if xs == [] {
        IsSubseqSnoc(xs, ys[1..], x);
      } else {
        assert (xs + [x])[1..] == xs[1..] + [x];
        if xs[0] == ys[0] && IsSubseq(xs[1..], ys[1..]) {
          IsSubseqSnoc(xs[1..], ys[1..], x);
        } else {
          IsSubseqSnoc(xs, ys[1..], x);
        }
      }
    }
  }

  /** Every element of a subsequence is an element of the whole. */
  lemma {:induction false} IsSubseqElements<T>(xs: seq<T>, ys: seq<T>, x: T)
    requires IsSubseq(xs, ys) && x in xs
    ensures x in ys
    decreases |ys|
  {
    if xs[0] == ys[0] && IsSubseq(xs[1..], ys[1..]) {
      if x != xs[0] {
        IsSubseqElements(xs[1..], ys[1..], x);
      }
    } else {
      IsSubseqElements(xs, ys[1..], x);
    }
  }

  /** Two positions i < j of a subsequence sit at two positions i' < j' of the
      whole: deleting elements keeps the relative order. */
  lemma {:induction false} IsSubseqOrder<T>(xs: seq<T>, ys: seq<T>, i: int, j: int)
    requires IsSubseq(xs, ys) && 0 <= i < j < |xs|
    ensures exists i', j' :: 0 <= i' < j' < |ys| && ys[i'] == xs[i] && ys[j'] == xs[j]
    decreases |ys|
  {
    if xs[0] == ys[0] && IsSubseq(xs[1..], ys[1..]) {
      if i == 0 {
        IsSubseqElements(xs[1..], ys[1..], xs[j]);
        var k :| 0 <= k < |ys[1..]| && ys[1..][k] == xs[j];
        assert ys[0] == xs[i] && ys[k + 1] == xs[j];
      } else {
        IsSubseqOrder(xs[1..], ys[1..], i - 1, j - 1);
        var i', j' :| 0 <= i' < j' < |ys[1..]| && ys[1..][i'] == xs[1..][i - 1] && ys[1..][j'] == xs[1..][j - 1];
        assert ys[i' + 1] == xs[i] && ys[j' + 1] == xs[j];
      }
    } else {
      IsSubseqOrder(xs, ys[1..], i, j);
      var i', j' :| 0 <= i' < j' < |ys[1..]| && ys[1..][i'] == xs[i] && ys[1..][j'] == xs[j];
      assert ys[i' + 1] == xs[i] && ys[j' + 1] == xs[j];
    }
  }
}
