/** The `co_appearances` counter of create_network and the edge weights it
    leaves on the graph. For every entry of `movie_actors`, in key order, and
    every pair of positions i < j of its cast, the ORDERED pair
    (cast[i], cast[j]) is counted. Each counter is then written as the weight of
    the undirected edge between its two names; (a, b) and (b, a) are separate
    counters that write the same edge, so the edge keeps the one written last. */
module Pairs {
  import opened Seqs
  import opened Casts

  /** A key of `co_appearances`: (actor at position i, actor at position j), i < j. */
  type Pair = (string, string)

  /** The pairs the inner loop produces for position i: (c[i], c[j]) for j = i+1 .. |c|-1. */
  function Row(c: seq<string>, i: nat): seq<Pair>
    requires i < |c|
  {
    seq(|c| - i - 1, k requires 0 <= k < |c| - i - 1 => (c[i], c[i + 1 + k]))
  }

  /** The inner loop at position j appends (c[i], c[j]). */
  lemma RowStep(c: seq<string>, i: nat, j: nat)
    requires i < j < |c|
    ensures Row(c, i)[..j - i] == Row(c, i)[..j - i - 1] + [(c[i], c[j])]
  {
    assert Row(c, i)[j - i - 1] == (c[i], c[j]);
  }

  /** The pairs the two loops produce for positions 0 .. i-1 of the outer loop. */
  function RowsBefore(c: seq<string>, i: nat): seq<Pair>
    requires i <= |c|
  {
    if i == 0 then [] else RowsBefore(c, i - 1) + Row(c, i - 1)
  }

  /** Every pair the nested loops of lines 81-85 produce for one cast, in loop order. */
  function CastPairs(c: seq<string>): seq<Pair> {
    RowsBefore(c, |c|)
  }

  /** A pair is produced exactly when it names the actors at two positions
      a < b of the cast, in that order. */
  lemma {:induction false} RowsBeforeMembers(c: seq<string>, i: nat, p: Pair)
    requires i <= |c|
    ensures p in RowsBefore(c, i) <==> exists a, b :: 0 <= a < i && a < b < |c| && p == (c[a], c[b])
  {
    if i > 0 {
      RowsBeforeMembers(c, i - 1, p);
      var row := Row(c, i - 1);
      if p in row {
        var k :| 0 <= k < |row| && row[k] == p;
        assert p == (c[i - 1], c[i + k]);
      }
      if exists a, b :: 0 <= a < i && a < b < |c| && p == (c[a], c[b]) {
        var a, b :| 0 <= a < i && a < b < |c| && p == (c[a], c[b]);
        if a == i - 1 {
          assert row[b - i] == p;
        }
      }
    }
  }

  /** The loops for positions 0 .. i-1 produce i*|c| - i*(i+1)/2 pairs. */
  lemma {:induction false} RowsBeforeLength(c: seq<string>, i: nat)
    requires i <= |c|
    ensures 2 * |RowsBefore(c, i)| == 2 * i * |c| - i * (i + 1)
  {
    if i > 0 {
      RowsBeforeLength(c, i - 1);
      assert |RowsBefore(c, i)| == |RowsBefore(c, i - 1)| + |c| - i;
      RowCountStep(i, |c|);
    }
  }

  /** The arithmetic of one step of RowsBeforeLength. */
  lemma RowCountStep(i: int, n: int)
    ensures 2 * i * n - i * (i + 1) == (2 * (i - 1) * n - (i - 1) * i) + 2 * (n - i)
  {
  }

  /** One cast of n actors yields n*(n-1)/2 pairs, so a cast of fewer than two
      actors yields none (line 81-82) and a cast of two or more yields some. */
  lemma CastPairsCount(c: seq<string>)
    ensures 2 * |CastPairs(c)| == |c| * (|c| - 1)
    ensures |c| < 2 <==> CastPairs(c) == []
  {
    RowsBeforeLength(c, |c|);
    assert |c| * (|c| + 1) == |c| * |c| + |c|;
    assert |c| * (|c| - 1) == |c| * |c| - |c|;
    if |c| >= 2 {
      assert |c| * (|c| - 1) >= 2;
    }
  }

  /** The positions i < j of cast c that bill a at i and b at j. */
  function BilledIndices(c: seq<string>, a: string, b: string): set<(int, int)> {
    set i, j | 0 <= i < j < |c| && c[i] == a && c[j] == b :: (i, j)
  }

  /** Those positions whose first index is below n. */
  function BilledIndicesBefore(c: seq<string>, a: string, b: string, n: int): set<(int, int)> {
    set i, j | 0 <= i < n && i < j < |c| && c[i] == a && c[j] == b :: (i, j)
  }

  /** Those positions (i, j) with first index i and i < j <= i + k. */
  function BilledIndicesInRow(c: seq<string>, a: string, b: string, i: int, k: int): set<(int, int)> {
    set j | i < j <= i + k && 0 <= i && j < |c| && c[i] == a && c[j] == b :: (i, j)
  }

  /** The first k pairs of the inner loop at position i hold (a, b) once per
      matching position. */
  lemma {:induction false} RowOccurrences(c: seq<string>, a: string, b: string, i: nat, k: nat)
    requires i < |c| && k <= |c| - i - 1
    ensures multiset(Row(c, i)[..k])[(a, b)] == |BilledIndicesInRow(c, a, b, i, k)|
  {
    if k == 0 {
      assert BilledIndicesInRow(c, a, b, i, k) == {};
    } else {
      RowOccurrences(c, a, b, i, k - 1);
      RowStep(c, i, i + k);
      RowIndicesStep(c, a, b, i, k);
      var hit := c[i] == a && c[i + k] == b;
      assert multiset(Row(c, i)[..k])[(a, b)] == multiset(Row(c, i)[..k - 1])[(a, b)] + (if hit then 1 else 0);
    }
  }

  /** The matching positions of row i up to i + k: those up to i + k - 1, and
      (i, i + k) when it matches. */
  lemma RowIndicesStep(c: seq<string>, a: string, b: string, i: nat, k: nat)
    requires i < |c| && 1 <= k <= |c| - i - 1
    ensures |BilledIndicesInRow(c, a, b, i, k)|
              == |BilledIndicesInRow(c, a, b, i, k - 1)| + (if c[i] == a && c[i + k] == b then 1 else 0)
  {
    var before := BilledIndicesInRow(c, a, b, i, k - 1);
    var added: set<(int, int)> := if c[i] == a && c[i + k] == b then {(i, i + k)} else {};
    assert BilledIndicesInRow(c, a, b, i, k) == before + added;
    assert (i, i + k) !in before;
    assert |before + added| == |before| + |added|;
  }

  /** The outer loop up to position n produces (a, b) once per matching pair
      of positions whose first index is below n. */
  lemma {:induction false} RowsBeforeOccurrences(c: seq<string>, a: string, b: string, n: nat)
    requires n <= |c|
    ensures multiset(RowsBefore(c, n))[(a, b)] == |BilledIndicesBefore(c, a, b, n)|
  {
    if n == 0 {
      assert BilledIndicesBefore(c, a, b, n) == {};
    } else {
      RowsBeforeOccurrences(c, a, b, n - 1);
      RowOccurrences(c, a, b, n - 1, |c| - n);
      assert Row(c, n - 1)[..|c| - n] == Row(c, n - 1);
      var before := BilledIndicesBefore(c, a, b, n - 1);
      var row := BilledIndicesInRow(c, a, b, n - 1, |c| - n);
      assert BilledIndicesBefore(c, a, b, n) == before + row;
      assert before * row == {};
    }
  }

  /** `co_appearances` for one cast: the pair (a, b) is produced once for each
      pair of positions i < j with a at i and b at j. */
  lemma CastPairsOccurrences(c: seq<string>, a: string, b: string)
    ensures multiset(CastPairs(c))[(a, b)] == |BilledIndices(c, a, b)|
  {
    RowsBeforeOccurrences(c, a, b, |c|);
    assert BilledIndicesBefore(c, a, b, |c|) == BilledIndices(c, a, b);
  }

  /** The pairs produced for the entries ts, in order. */
  function PairsOf(ts: seq<string>, cast: map<string, seq<string>>): seq<Pair>
    requires forall t :: t in ts ==> t in cast
  {
    if ts == [] then []
    else PairsOf(ts[..|ts| - 1], cast) + CastPairs(cast[ts[|ts| - 1]])
  }

  /** Every pair the loop of lines 80-85 produces, over `movie_actors.items()` in key order. */
  function AllPairs(m: CastMap): seq<Pair>
    requires m.Valid()
  {
    PairsOf(m.titles, m.cast)
  }

  /** A pair occurs over the whole map exactly when one entry produces it. */
  lemma {:induction false} PairsOfMembers(ts: seq<string>, cast: map<string, seq<string>>, p: Pair)
    requires forall t :: t in ts ==> t in cast
    ensures p in PairsOf(ts, cast) <==> exists t :: t in ts && p in CastPairs(cast[t])
  {
    if ts != [] {
      var init := ts[..|ts| - 1];
      PairsOfMembers(init, cast, p);
      assert ts == init + [ts[|ts| - 1]];
    }
  }

  /** The matching positions summed over the entries ts. */
  function BilledCount(ts: seq<string>, cast: map<string, seq<string>>, a: string, b: string): nat
    requires forall t :: t in ts ==> t in cast
  {
    if ts == [] then 0
    else BilledCount(ts[..|ts| - 1], cast, a, b) + |BilledIndices(cast[ts[|ts| - 1]], a, b)|
  }

  /** Over several entries, (a, b) is produced once per matching pair of
      positions of each entry's cast. */
  lemma {:induction false} PairsOfOccurrences(ts: seq<string>, cast: map<string, seq<string>>, a: string, b: string)
    requires forall t :: t in ts ==> t in cast
    ensures multiset(PairsOf(ts, cast))[(a, b)] == BilledCount(ts, cast, a, b)
  {
    if ts != [] {
      PairsOfOccurrences(ts[..|ts| - 1], cast, a, b);
      CastPairsOccurrences(cast[ts[|ts| - 1]], a, b);
    }
  }

  /** The final `co_appearances[(a, b)]`: present exactly when some entry bills
      a before b, and then the number of positions i < j, over all entries,
      with a at i and b at j. */
  lemma CoAppearanceCount(m: CastMap, a: string, b: string)
    requires m.Valid()
    ensures (a, b) in Tally(AllPairs(m)) <==> BilledCount(m.titles, m.cast, a, b) >= 1
    ensures (a, b) in Tally(AllPairs(m)) ==> Tally(AllPairs(m))[(a, b)] == BilledCount(m.titles, m.cast, a, b)
  {
    PairsOfOccurrences(m.titles, m.cast, a, b);
    TallyCounts(AllPairs(m));
  }

  /** Lines 78-85: count every ordered pair. `order` is the key order of the
      defaultdict (the first time each pair is counted), `co` its content. */
  method CountCoAppearances(m: CastMap) returns (order: seq<Pair>, co: map<Pair, nat>)
    requires m.Valid()
    ensures order == Distinct(AllPairs(m))
    ensures co == Tally(AllPairs(m))
  {
    order, co := [], map[];
    ghost var done: seq<Pair> := [];
    for t := 0 to |m.titles|
      invariant done == PairsOf(m.titles[..t], m.cast)
      invariant order == Distinct(done) && co == Tally(done)
    {
      var actors := m.cast[m.titles[t]];
      order, co := CountCastPairs(actors, order, co, done);
      done := done + CastPairs(actors);
      assert m.titles[..t + 1][..t] == m.titles[..t];
    }
    assert m.titles[..|m.titles|] == m.titles;
  }

  /** Lines 81-85 for one movie: count the pairs of its cast on top of the
      counts so far (the pairs `done`). */
  method CountCastPairs(actors: seq<string>, order0: seq<Pair>, co0: map<Pair, nat>, ghost done: seq<Pair>)
    returns (order: seq<Pair>, co: map<Pair, nat>)
    requires order0 == Distinct(done) && co0 == Tally(done)
    ensures order == Distinct(done + CastPairs(actors))
    ensures co == Tally(done + CastPairs(actors))
  {
    order, co := order0, co0;
    ghost var seen := done;
    for i := 0 to |actors|
      invariant seen == done + RowsBefore(actors, i)
      invariant order == Distinct(seen) && co == Tally(seen)
    {
      order, co := CountRow(actors, i, order, co, seen);
      RowsStep(actors, i, done, seen);
      seen := seen + Row(actors, i);
    }
  }

  /** Lines 83-85 for one position i of the cast: count (actors[i], actors[j])
      for every later position j, on top of the counts of the pairs `seen`. */
  method CountRow(actors: seq<string>, i: nat, order0: seq<Pair>, co0: map<Pair, nat>, ghost seen: seq<Pair>)
    returns (order: seq<Pair>, co: map<Pair, nat>)
    requires i < |actors|
    requires order0 == Distinct(seen) && co0 == Tally(seen)
    ensures order == Distinct(seen + Row(actors, i))
    ensures co == Tally(seen + Row(actors, i))
  {
    order, co := order0, co0;
    ghost var cur := seen;
    assert seen + Row(actors, i)[..0] == seen;
    for j := i + 1 to |actors|
      invariant cur == seen + Row(actors, i)[..j - i - 1]
      invariant order == Distinct(cur) && co == Tally(cur)
    {
      var key := (actors[i], actors[j]);
      CountStep(cur, order, co, key);
      if key !in co {
        order := order + [key];
      }
      co := Increment(co, key);
      RowPrefixStep(actors, i, j, seen, cur);
      cur := cur + [key];
    }
    assert Row(actors, i)[..|actors| - i - 1] == Row(actors, i);
  }

  /** The pairs counted so far for the cast grow by the row of position i. */
  lemma RowsStep(actors: seq<string>, i: nat, done: seq<Pair>, seen: seq<Pair>)
    requires i < |actors|
    requires seen == done + RowsBefore(actors, i)
    ensures seen + Row(actors, i) == done + RowsBefore(actors, i + 1)
  {
  }

  /** The pairs counted so far for position i grow by (actors[i], actors[j]). */
  lemma RowPrefixStep(actors: seq<string>, i: nat, j: nat, seen: seq<Pair>, cur: seq<Pair>)
    requires i < j < |actors|
    requires cur == seen + Row(actors, i)[..j - i - 1]
    ensures cur + [(actors[i], actors[j])] == seen + Row(actors, i)[..j - i]
  {
    RowStep(actors, i, j);
  }

  /** An undirected edge of the graph: the set of its end points, one name for
      a self-loop and two otherwise. */
  type Edge = set<string>

  /** The edge `add_edge(actor1, actor2)` touches. */
  function EdgeOf(p: Pair): Edge {
    {p.0, p.1}
  }

  /** Lines 87-88: the `weight` attribute of each edge after `add_edge` has been
      called for every counter in key order; a later call on the same edge
      overwrites the weight. */
  function EdgeWeights(order: seq<Pair>, co: map<Pair, nat>): (w: map<Edge, int>)
    requires forall p :: p in order ==> p in co
  {
    if order == [] then map[]
    else
      var p := order[|order| - 1];
      EdgeWeights(order[..|order| - 1], co)[EdgeOf(p) := co[p]]
  }

  /** The index of the last key in order that writes edge e, or -1 when none does. */
  function LastWrite(order: seq<Pair>, e: Edge): (k: int)
    ensures -1 <= k < |order|
    ensures 0 <= k ==> EdgeOf(order[k]) == e
    ensures forall j :: k < j < |order| ==> EdgeOf(order[j]) != e
  {
    if order == [] then -1
    else if EdgeOf(order[|order| - 1]) == e then |order| - 1
    else LastWrite(order[..|order| - 1], e)
  }

  /** An edge exists exactly when some counter writes it, and its weight is the
      counter written LAST, not a sum of the counters of both orientations. */
  lemma {:induction false} EdgeWeightIsLastWrite(order: seq<Pair>, co: map<Pair, nat>, e: Edge)
    requires forall p :: p in order ==> p in co
    ensures e in EdgeWeights(order, co) <==> LastWrite(order, e) >= 0
    ensures e in EdgeWeights(order, co) ==> EdgeWeights(order, co)[e] == co[order[LastWrite(order, e)]]
  {
    if order != [] {
      var init := order[..|order| - 1];
      EdgeWeightIsLastWrite(init, co, e);
      var k := LastWrite(init, e);
      if 0 <= k { assert order[k] == init[k]; }
    }
  }

  /** The edge of every pair in the sequence, in order. */
  function EdgesOf(ps: seq<Pair>): seq<Edge> {
    seq(|ps|, k requires 0 <= k < |ps| => EdgeOf(ps[k]))
  }

  /** Corrected weights: each produced pair counts for its undirected edge,
      whichever order its names were billed in. */
  function CoStarWeights(ps: seq<Pair>): map<Edge, nat> {
    Tally(EdgesOf(ps))
  }

  /** Two different names: the corrected weight of their edge is the number of
      times they were paired, in either order. */
  lemma {:induction false} CoStarWeightsCountBoth(ps: seq<Pair>, a: string, b: string)
    requires a != b
    ensures multiset(EdgesOf(ps))[EdgeOf((a, b))] == multiset(ps)[(a, b)] + multiset(ps)[(b, a)]
  {
    if ps != [] {
      var init := ps[..|ps| - 1];
      var p := ps[|ps| - 1];
      CoStarWeightsCountBoth(init, a, b);
      assert ps == init + [p];
      assert EdgesOf(ps) == EdgesOf(init) + [EdgeOf(p)];
      if EdgeOf(p) == EdgeOf((a, b)) {
        assert a in EdgeOf(p) && b in EdgeOf(p);
        assert p == (a, b) || p == (b, a);
      } else {
        assert p != (a, b) && p != (b, a);
      }
    }
  }

  /** One name: the corrected weight of its self-loop is the number of times it
      was paired with itself. */
  lemma {:induction false} CoStarWeightsCountLoop(ps: seq<Pair>, a: string)
    ensures multiset(EdgesOf(ps))[EdgeOf((a, a))] == multiset(ps)[(a, a)]
  {
    if ps != [] {
      var init := ps[..|ps| - 1];
      var p := ps[|ps| - 1];
      CoStarWeightsCountLoop(init, a);
      assert ps == init + [p];
      assert EdgesOf(ps) == EdgesOf(init) + [EdgeOf(p)];
      if EdgeOf(p) == EdgeOf((a, a)) {
        assert p.0 in EdgeOf((a, a)) && p.1 in EdgeOf((a, a));
      }
    }
  }

  /** The weights as written, from the sequence of every produced pair: the
      counters in key order, each overwriting the weight of its edge. */
  function WrittenWeights(ps: seq<Pair>): map<Edge, int> {
    DistinctKeys(ps);
    TallyCounts(ps);
    EdgeWeights(Distinct(ps), Tally(ps))
  }

  /** The corrected weights and the weights as written have the same edges:
      only the numbers differ. */
  lemma SameEdges(ps: seq<Pair>, e: Edge)
    ensures e in CoStarWeights(ps) <==> e in WrittenWeights(ps)
  {
    WrittenEdges(ps, e);
    TallyCounts(EdgesOf(ps));
    if e in CoStarWeights(ps) {
      var k :| 0 <= k < |EdgesOf(ps)| && EdgesOf(ps)[k] == e;
      assert ps[k] in ps;
    }
    if p :| p in ps && EdgeOf(p) == e {
      var k :| 0 <= k < |ps| && ps[k] == p;
      assert EdgesOf(ps)[k] == e;
    }
  }

  /** An edge is written exactly when some produced pair joins its names. */
  lemma WrittenEdges(ps: seq<Pair>, e: Edge)
    ensures e in WrittenWeights(ps) <==> exists p :: p in ps && EdgeOf(p) == e
  {
    var order := Distinct(ps);
    DistinctKeys(ps);
    TallyCounts(ps);
    EdgeWeightIsLastWrite(order, Tally(ps), e);
    if p :| p in ps && EdgeOf(p) == e {
      var j :| 0 <= j < |order| && order[j] == p;
      assert LastWrite(order, e) >= j;
    }
    if LastWrite(order, e) >= 0 {
      assert order[LastWrite(order, e)] in ps;
    }
  }

  /** The edge {a, b} is written exactly when a and b were paired, in either
      order. */
  lemma WrittenEdgeOfNames(ps: seq<Pair>, a: string, b: string)
    ensures EdgeOf((a, b)) in WrittenWeights(ps) <==> (a, b) in ps || (b, a) in ps
  {
    WrittenEdges(ps, EdgeOf((a, b)));
    if p :| p in ps && EdgeOf(p) == EdgeOf((a, b)) {
      EdgeNames(p, a, b);
    }
    assert EdgeOf((a, b)) == EdgeOf((b, a));
  }

  /** The weight of an edge is the count of ONE orientation of its names: the
      orientation whose first occurrence comes later, since its counter is
      written last. When the names were only ever paired one way round, that is
      the number of times they were paired. */
  lemma WrittenWeightIsLaterOrientation(ps: seq<Pair>, a: string, b: string)
    requires (a, b) in ps
    requires (b, a) in ps ==> Position(ps, (b, a)) <= Position(ps, (a, b))
    ensures EdgeOf((a, b)) in WrittenWeights(ps)
    ensures WrittenWeights(ps)[EdgeOf((a, b))] == multiset(ps)[(a, b)] >= 1
  {
    var order := Distinct(ps);
    var e := EdgeOf((a, b));
    DistinctKeys(ps);
    TallyCounts(ps);
    EdgeWeightIsLastWrite(order, Tally(ps), e);
    var i :| 0 <= i < |order| && order[i] == (a, b);
    var k := LastWrite(order, e);
    assert k == i by {
      assert k >= i;
      EdgeNames(order[k], a, b);
      DistinctOrder(ps);
    }
  }

  /** The only pairs writing the edge {a, b} are (a, b) and (b, a). */
  lemma EdgeNames(q: Pair, a: string, b: string)
    requires EdgeOf(q) == EdgeOf((a, b))
    ensures q == (a, b) || q == (b, a)
  {
    assert q.0 in EdgeOf((a, b)) && q.1 in EdgeOf((a, b)) && a in EdgeOf(q) && b in EdgeOf(q);
  }
}
