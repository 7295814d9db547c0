/** The top-actor list of create_network: `value_counts` over the flattened
    Star cells, then `head(max_actors)`. A name is counted once per Star cell it
    fills; missing cells are not counted. Names with equal counts are ranked by
    their first occurrence in the column-major flattening. */
module Ranking {
  import opened Seqs
  import opened Records

  /** How many cells of the flattening hold name a. */
  function Occurrences(s: seq<string>, a: string): nat {
    multiset(s)[a]
  }

  /** The ranking order: more occurrences first, and among equal counts the
      name seen first in s. */
  predicate Precedes(s: seq<string>, a: string, b: string) {
    Occurrences(s, a) > Occurrences(s, b)
    || (Occurrences(s, a) == Occurrences(s, b) && Position(s, a) < Position(s, b))
  }

  /** r lists its names in strictly decreasing rank. */
  predicate RankedBy(s: seq<string>, r: seq<string>) {
    forall i, j :: 0 <= i < j < |r| ==> Precedes(s, r[i], r[j])
  }

  /** Two different names of s are always ordered one way or the other. */
  lemma PrecedesTotal(s: seq<string>, a: string, b: string)
    requires a in s && b in s && a != b
    ensures Precedes(s, a, b) || Precedes(s, b, a)
  {
  }

  /** Puts x into the ranked list r at its place. */
  function Insert(s: seq<string>, x: string, r: seq<string>): (r': seq<string>)
    requires x in s && x !in r && (forall y :: y in r ==> y in s)
    requires RankedBy(s, r)
    ensures RankedBy(s, r')
    ensures forall y :: y in r' <==> y in r || y == x
    ensures |r'| == |r| + 1
  {
    if r == [] then [x]
    else if Precedes(s, x, r[0]) then [x] + r
    else
      PrecedesTotal(s, x, r[0]);
      var rest := Insert(s, x, r[1..]);
      assert forall y :: y in r[1..] ==> Precedes(s, r[0], y) by {
        forall y | y in r[1..] ensures Precedes(s, r[0], y) {
          var k :| 0 <= k < |r[1..]| && r[1..][k] == y;
          assert r[k + 1] == y;
        }
      }
      [r[0]] + rest
  }

  /** Insertion sort of the distinct names xs by rank. */
  function SortByRank(s: seq<string>, xs: seq<string>): (r: seq<string>)
    requires NoDup(xs) && forall y :: y in xs ==> y in s
    ensures RankedBy(s, r)
    ensures forall y :: y in r <==> y in xs
    ensures |r| == |xs|
  {
    if xs == [] then []
    else
      assert forall y :: y in xs[1..] ==> y in xs;
      Insert(s, xs[0], SortByRank(s, xs[1..]))
  }

  /** `value_counts(...).index`: every distinct name of s, each once, in rank order. */
  function Ranked(s: seq<string>): (r: seq<string>)
    ensures RankedBy(s, r)
    ensures forall y :: y in r <==> y in s
  {
    DistinctKeys(s);
    SortByRank(s, Distinct(s))
  }

  /** The tie rule: of two names of the ranking with equal counts, the one
      that first occurs earlier in s comes first. */
  lemma RankedTieOrder(s: seq<string>, i: int, j: int)
    requires 0 <= i < |Ranked(s)| && 0 <= j < |Ranked(s)|
    requires Occurrences(s, Ranked(s)[i]) == Occurrences(s, Ranked(s)[j])
    ensures i < j <==> Position(s, Ranked(s)[i]) < Position(s, Ranked(s)[j])
  {
    var r := Ranked(s);
    if j < i {
      assert Precedes(s, r[j], r[i]);
    }
  }

  /** A ranked list has no duplicates (the order is strict). */
  lemma RankedNoDup(s: seq<string>, r: seq<string>)
    requires RankedBy(s, r)
    ensures NoDup(r)
  {
  }

  /** The distinct names filling some Star cell. */
  function Names(flat: seq<Option<string>>): set<string> {
    Elements(Present(flat))
  }

  function Min(a: int, b: int): int {
    if a <= b then a else b
  }

  /** `top_actors`: the first maxActors names of the ranking of the flattened
      Star cells. Ordered by non-increasing count; equal counts in order of first
      occurrence; every name it holds is a name of the table. */
  function TopActors(flat: seq<Option<string>>, maxActors: int): (top: seq<string>)
    requires maxActors >= 1
    ensures |top| <= maxActors
    ensures forall a :: a in top ==> a in Names(flat)
    ensures forall i, j :: 0 <= i < j < |top| ==>
              Occurrences(Present(flat), top[i]) >= Occurrences(Present(flat), top[j])
    ensures forall i, j ::
              (0 <= i < j < |top| && Occurrences(Present(flat), top[i]) == Occurrences(Present(flat), top[j]))
              ==> Position(Present(flat), top[i]) < Position(Present(flat), top[j])
  {
    var r := Ranked(Present(flat));
    r[..Min(maxActors, |r|)]
  }

  /** The top list holds min(maxActors, number of distinct names) names, none twice. */
  lemma TopActorsSize(flat: seq<Option<string>>, maxActors: int)
    requires maxActors >= 1
    ensures NoDup(TopActors(flat, maxActors))
    ensures |TopActors(flat, maxActors)| == Min(maxActors, |Names(flat)|)
  {
    var s := Present(flat);
    var r := Ranked(s);
    RankedNoDup(s, r);
    NoDupCardinality(r);
    assert Elements(r) == Names(flat);
  }

  /** Every name kept outranks every name left out; in particular it fills at
      least as many Star cells. */
  lemma TopActorsDominate(flat: seq<Option<string>>, maxActors: int, a: string, b: string)
    requires maxActors >= 1
    requires a in TopActors(flat, maxActors)
    requires b in Names(flat) && b !in TopActors(flat, maxActors)
    ensures Precedes(Present(flat), a, b)
    ensures Occurrences(Present(flat), a) >= Occurrences(Present(flat), b)
  {
    var s := Present(flat);
    var r := Ranked(s);
    var top := TopActors(flat, maxActors);
    assert top == r[..|top|];
    var i :| 0 <= i < |top| && top[i] == a;
    assert b in r;
    var j :| 0 <= j < |r| && r[j] == b;
    assert i < j;
  }

  /** Raising the slider only appends: the top list for a smaller count is a
      prefix of the list for a larger one. */
  lemma TopActorsMonotone(flat: seq<Option<string>>, n: int, n': int)
    requires 1 <= n <= n'
    ensures |TopActors(flat, n)| <= |TopActors(flat, n')|
    ensures TopActors(flat, n) == TopActors(flat, n')[..|TopActors(flat, n)|]
  {
  }
}
