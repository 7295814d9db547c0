/** create_network (HYFP.py lines 57-90): build the co-appearance graph of the
    top actors and the title-to-filtered-cast dict from the rows of the table. */
module Network {
  import opened Seqs
  import opened Records
  import opened Ranking
  import opened Casts
  import opened Pairs
  import opened Graphs

  /** The top actors of the table for a slider value. */
  function NetworkTop(records: seq<MovieRecord>, maxActors: int): seq<string>
    requires maxActors >= 1
  {
    TopActors(Flattened(records, StarColumns), maxActors)
  }

  /** The `movie_actors` dict create_network returns. */
  function NetworkCast(records: seq<MovieRecord>, maxActors: int): CastMap
    requires maxActors >= 1
  {
    MovieActors(records, NetworkTop(records, maxActors))
  }

  /** The edge weights of the graph create_network returns. */
  function NetworkWeights(records: seq<MovieRecord>, maxActors: int): map<Edge, int>
    requires maxActors >= 1
  {
    WrittenWeights(AllPairs(NetworkCast(records, maxActors)))
  }

  /** Both names of every pair produced from a filtered cast are top actors. */
  lemma PairWithinTop(records: seq<MovieRecord>, top: seq<string>, p: Pair)
    requires p in AllPairs(MovieActors(records, top))
    ensures p.0 in top && p.1 in top
  {
    var m := MovieActors(records, top);
    PairsOfMembers(m.titles, m.cast, p);
    var t :| t in m.titles && p in CastPairs(m.cast[t]);
    var c := m.cast[t];
    RowsBeforeMembers(c, |c|, p);
    var a, b :| 0 <= a < |c| && a < b < |c| && p == (c[a], c[b]);
    MovieActorsWithinTop(records, top, t, c[a]);
    MovieActorsWithinTop(records, top, t, c[b]);
  }

  /** Some filtered cast bills a before b (not necessarily adjacent). */
  predicate BilledBefore(m: CastMap, a: string, b: string) {
    exists t, i, j :: t in m.cast && 0 <= i < j < |m.cast[t]| && m.cast[t][i] == a && m.cast[t][j] == b
  }

  /** A pair is produced exactly when a filtered cast bills its first name
      before its second. */
  lemma AllPairsBilled(m: CastMap, a: string, b: string)
    requires m.Valid()
    ensures (a, b) in AllPairs(m) <==> BilledBefore(m, a, b)
  {
    PairsOfMembers(m.titles, m.cast, (a, b));
    if (a, b) in AllPairs(m) {
      var t :| t in m.titles && (a, b) in CastPairs(m.cast[t]);
      RowsBeforeMembers(m.cast[t], |m.cast[t]|, (a, b));
    }
    if BilledBefore(m, a, b) {
      var t, i, j :| t in m.cast && 0 <= i < j < |m.cast[t]| && m.cast[t][i] == a && m.cast[t][j] == b;
      RowsBeforeMembers(m.cast[t], |m.cast[t]|, (a, b));
    }
  }

  /** Raising the slider keeps the movies of the dict and their key order,
      and each filtered cast only gains names. */
  lemma NetworkCastGrows(records: seq<MovieRecord>, n: int, n': int, t: string)
    requires 1 <= n <= n'
    ensures NetworkCast(records, n).titles == NetworkCast(records, n').titles
    ensures t in NetworkCast(records, n).cast <==> t in NetworkCast(records, n').cast
    ensures t in NetworkCast(records, n).cast ==>
              IsSubseq(NetworkCast(records, n).cast[t], NetworkCast(records, n').cast[t])
  {
    var top := NetworkTop(records, n);
    var top' := NetworkTop(records, n');
    TopActorsMonotone(Flattened(records, StarColumns), n, n');
    assert forall a :: a in top ==> a in top' by {
      assert top == top'[..|top|];
    }
    MovieActorsLastRowWins(records, top, t);
    MovieActorsLastRowWins(records, top', t);
    if t in NetworkCast(records, n).cast {
      FilterCastGrows(records[LastRow(records, t)].Stars(), top, top');
    }
  }

  /** Raising the slider never removes an edge: whatever two names some filtered
      cast bills together stay billed together. (The weights as written may
      change, since the later-written orientation may change.) */
  lemma NetworkEdgesGrow(records: seq<MovieRecord>, n: int, n': int, e: Edge)
    requires 1 <= n <= n'
    requires e in NetworkWeights(records, n)
    ensures e in NetworkWeights(records, n')
  {
    var m := NetworkCast(records, n);
    var m' := NetworkCast(records, n');
    WrittenEdges(AllPairs(m), e);
    var p :| p in AllPairs(m) && EdgeOf(p) == e;
    AllPairsBilled(m, p.0, p.1);
    var t, i, j :| t in m.cast && 0 <= i < j < |m.cast[t]| && m.cast[t][i] == p.0 && m.cast[t][j] == p.1;
    NetworkCastGrows(records, n, n', t);
    IsSubseqOrder(m.cast[t], m'.cast[t], i, j);
    assert BilledBefore(m', p.0, p.1);
    NetworkEdgeIffBilledTogether(records, n', p.0, p.1);
  }

  /** Every end point of an edge is a node: a top actor. */
  lemma NetworkEdgeEndpoints(records: seq<MovieRecord>, maxActors: int, e: Edge, x: string)
    requires maxActors >= 1
    requires e in NetworkWeights(records, maxActors) && x in e
    ensures x in NetworkTop(records, maxActors)
  {
    var ps := AllPairs(NetworkCast(records, maxActors));
    WrittenEdges(ps, e);
    var p :| p in ps && EdgeOf(p) == e;
    PairWithinTop(records, NetworkTop(records, maxActors), p);
  }

  /** Two names are joined by an edge exactly when some filtered cast bills
      them together, in either order. */
  lemma NetworkEdgeIffBilledTogether(records: seq<MovieRecord>, maxActors: int, a: string, b: string)
    requires maxActors >= 1
    ensures EdgeOf((a, b)) in NetworkWeights(records, maxActors) <==>
              BilledBefore(NetworkCast(records, maxActors), a, b) || BilledBefore(NetworkCast(records, maxActors), b, a)
  {
    var m := NetworkCast(records, maxActors);
    WrittenEdgeOfNames(AllPairs(m), a, b);
    AllPairsBilled(m, a, b);
    AllPairsBilled(m, b, a);
  }

  /** When no filtered cast bills b before a, the weight of the edge {a, b} is
      the number of times some filtered cast bills a before b. */
  lemma NetworkWeightOneOrientation(records: seq<MovieRecord>, maxActors: int, a: string, b: string)
    requires maxActors >= 1
    requires BilledBefore(NetworkCast(records, maxActors), a, b)
    requires a != b ==> !BilledBefore(NetworkCast(records, maxActors), b, a)
    ensures EdgeOf((a, b)) in NetworkWeights(records, maxActors)
    ensures NetworkWeights(records, maxActors)[EdgeOf((a, b))]
              == multiset(AllPairs(NetworkCast(records, maxActors)))[(a, b)] >= 1
  {
    var m := NetworkCast(records, maxActors);
    AllPairsBilled(m, a, b);
    AllPairsBilled(m, b, a);
    WrittenWeightIsLaterOrientation(AllPairs(m), a, b);
  }

  /** Lines 60-62 of create_network: every Star1 cell, then every Star2 cell,
      and so on. */
  method FlattenStars(records: seq<MovieRecord>) returns (allActors: seq<Option<string>>)
    ensures allActors == Flattened(records, StarColumns)
  {
    allActors := [];
    for col := 0 to StarColumns
      invariant allActors == Flattened(records, col)
    {
      allActors := allActors + Column(records, col);
    }
  }

  /** Lines 68-69 of create_network: one node per top actor, in order. */
  method AddNodes(g: Graph, top: seq<string>)
    requires g.Valid() && g.nodes == [] && g.weight == map[]
    requires NoDup(top)
    modifies g
    ensures g.Valid() && g.nodes == top && g.weight == map[]
  {
    for k := 0 to |top|
      invariant g.Valid() && g.nodes == top[..k] && g.weight == map[]
    {
      assert top[k] !in top[..k];
      assert top[..k + 1] == top[..k] + [top[k]];
      g.AddNode(top[k]);
    }
    assert top[..|top|] == top;
  }

  /** Lines 87-88 of create_network: one `add_edge` per key of the counter, in
      key order, each writing the counter value as the weight. */
  method AddEdges(g: Graph, order: seq<Pair>, co: map<Pair, nat>)
    requires g.Valid() && g.weight == map[]
    requires forall p :: p in order ==> p in co && p.0 in g.nodes && p.1 in g.nodes
    modifies g
    ensures g.Valid() && g.nodes == old(g.nodes)
    ensures g.weight == EdgeWeights(order, co)
  {
    for k := 0 to |order|
      invariant g.Valid() && g.nodes == old(g.nodes)
      invariant g.weight == EdgeWeights(order[..k], co)
    {
      var p := order[k];
      assert order[..k + 1][..k] == order[..k];
      g.AddEdge(p.0, p.1, co[p]);
    }
    assert order[..|order|] == order;
  }

  /** create_network(df, max_actors). */
  method BuildNetwork(records: seq<MovieRecord>, maxActors: int) returns (g: Graph, m: CastMap)
    requires maxActors >= 1
    ensures fresh(g) && g.Valid()
    ensures g.nodes == NetworkTop(records, maxActors)
    ensures m == NetworkCast(records, maxActors)
    ensures g.weight == NetworkWeights(records, maxActors)
  {
    g := new Graph();
    var allActors := FlattenStars(records);
    var topActors := TopActors(allActors, maxActors);
    TopActorsSize(allActors, maxActors);
    AddNodes(g, topActors);
    m := CollectMovieActors(records, topActors);
    var order, co := CountCoAppearances(m);
    ghost var ps := AllPairs(m);
    DistinctKeys(ps);
    TallyCounts(ps);
    forall p | p in order
      ensures p in co && p.0 in g.nodes && p.1 in g.nodes
    {
      PairWithinTop(records, topActors, p);
    }
    AddEdges(g, order, co);
  }
}
