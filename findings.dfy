/** The co-appearance counter of create_network (HYFP.py lines 78-88) is keyed
    by the ORDERED pair (actor1, actor2), while the graph is undirected. When
    two actors are billed A-before-B in one movie and B-before-A in another,
    the two counters both write the edge {A, B} and the later write wins, so
    the edge weight is the count of one billing order only. The evidently
    intended weight is the number of movies (pairs) they share, in either
    order: Pairs.CoStarWeights. */
module Findings {
  import opened Seqs
  import opened Records
  import opened Ranking
  import opened Casts
  import opened Pairs
  import opened Network
  import opened Selection

  /** Two movies billing the same two actors in opposite order. */
  function SwappedBilling(): seq<MovieRecord> {
    [MovieRecord("M1", Some("A"), Some("B"), None, None),
     MovieRecord("M2", Some("B"), Some("A"), None, None)]
  }

  /** The column-major flattening of the Star cells of SwappedBilling. */
  lemma SwappedBillingFlattened()
    ensures Flattened(SwappedBilling(), StarColumns)
              == [Some("A"), Some("B"), Some("B"), Some("A"), None, None, None, None]
  {
    var records := SwappedBilling();
    assert Column(records, 0) == [Some("A"), Some("B")];
    assert Column(records, 1) == [Some("B"), Some("A")];
    assert Column(records, 2) == [None, None];
    assert Column(records, 3) == [None, None];
    assert Flattened(records, 0) == [];
  }

  /** The names of a flattening with two cells filled by each of a and b,
      missing cells dropped. */
  lemma TwoByTwoPresent(a: string, b: string)
    ensures Present([Some(a), Some(b), Some(b), Some(a), None, None, None, None]) == [a, b, b, a]
  {
    var xs := [Some(a), Some(b), Some(b), Some(a), None, None, None, None];
    var none: seq<Option<string>> := [None, None, None, None];
    assert none[1..][1..][1..][1..] == [];
    assert Present(none[1..][1..][1..]) == [];
    assert Present(none[1..][1..]) == [];
    assert Present(none[1..]) == [];
    assert Present(none) == [];
    assert xs[3..] == [Some(a)] + none && xs[3..][1..] == none;
    assert Present(xs[3..]) == [a];
    assert xs[2..][1..] == xs[3..];
    assert Present(xs[2..]) == [b, a];
    assert xs[1..][1..] == xs[2..];
    assert Present(xs[1..]) == [b, b, a];
  }

  /** The names of the flattening of SwappedBilling, missing cells dropped. */
  lemma SwappedBillingPresent()
    ensures Present(Flattened(SwappedBilling(), StarColumns)) == ["A", "B", "B", "A"]
  {
    SwappedBillingFlattened();
    TwoByTwoPresent("A", "B");
  }

  /** The distinct names of [a, b, b, a], in first-occurrence order. */
  lemma TieDistinct(a: string, b: string)
    requires a != b
    ensures Distinct([a, b, b, a]) == [a, b]
  {
    var s := [a, b, b, a];
    assert [a][..0] == [] && Distinct([a]) == [a];
    assert [a, b][..1] == [a] && Distinct([a, b]) == [a, b];
    assert [a, b, b][..2] == [a, b] && Distinct([a, b, b]) == [a, b];
    assert s[..3] == [a, b, b];
  }

  /** In [a, b, b, a] both names occur twice and a occurs first. */
  lemma TiePrecedes(a: string, b: string)
    requires a != b
    ensures Precedes([a, b, b, a], a, b)
  {
    var s := [a, b, b, a];
    assert multiset(s)[a] == 2 && multiset(s)[b] == 2;
    assert Position(s, a) == 0 && Position(s[1..], b) == 0;
  }

  /** Two names filling two cells each: the tie goes to the one seen first. */
  lemma TieRanking(a: string, b: string)
    requires a != b
    ensures Ranked([a, b, b, a]) == [a, b]
  {
    var s := [a, b, b, a];
    TieDistinct(a, b);
    TiePrecedes(a, b);
    assert [a, b][1..][1..] == [];
    assert SortByRank(s, [b]) == [b];
  }

  /** Both actors fill two Star cells; A comes first in the flattening, so the
      slider at 2 keeps A then B. */
  lemma SwappedBillingTop()
    ensures NetworkTop(SwappedBilling(), 2) == ["A", "B"]
  {
    SwappedBillingPresent();
    TieRanking("A", "B");
  }

  /** A row billing two top actors, then two missing cells, keeps both. */
  lemma FilterTwoStars(a: string, b: string, top: seq<string>)
    requires a in top && b in top
    ensures FilterCast([Some(a), Some(b), None, None], top) == [a, b]
  {
    var xs: seq<Option<string>> := [Some(a), Some(b), None, None];
    assert xs[3..][1..] == [];
    assert FilterCast(xs[3..], top) == [];
    assert xs[2..][1..] == xs[3..];
    assert FilterCast(xs[2..], top) == [];
    assert xs[1..][1..] == xs[2..];
    assert FilterCast(xs[1..], top) == [b];
  }

  /** Two rows with different titles: one entry each, in row order. */
  lemma TwoRowCast(r0: MovieRecord, r1: MovieRecord, top: seq<string>)
    requires r0.title != r1.title
    ensures MovieActors([r0, r1], top)
              == CastMap([r0.title, r1.title], map[r0.title := FilterCast(r0.Stars(), top), r1.title := FilterCast(r1.Stars(), top)])
  {
    assert [r0, r1][..1] == [r0];
    assert [r0][..0] == [];
  }

  /** The filtered casts keep the billing order of each row. */
  lemma SwappedBillingCast()
    ensures NetworkCast(SwappedBilling(), 2) == CastMap(["M1", "M2"], map["M1" := ["A", "B"], "M2" := ["B", "A"]])
  {
    var records := SwappedBilling();
    SwappedBillingTop();
    TwoRowCast(records[0], records[1], ["A", "B"]);
    FilterTwoStars("A", "B", ["A", "B"]);
    FilterTwoStars("B", "A", ["A", "B"]);
    assert records[0].Stars() == [Some("A"), Some("B"), None, None];
    assert records[1].Stars() == [Some("B"), Some("A"), None, None];
  }

  /** A cast of two names yields the one pair of them, in billing order. */
  lemma TwoNamePairs(a: string, b: string)
    ensures CastPairs([a, b]) == [(a, b)]
  {
    assert RowsBefore([a, b], 1) == Row([a, b], 0);
    assert Row([a, b], 0) == [(a, b)];
    assert Row([a, b], 1) == [];
  }

  /** Two entries billing a and b in opposite orders yield one pair each. */
  lemma OppositeEntryPairs(t0: string, t1: string, a: string, b: string)
    requires t0 != t1
    ensures AllPairs(CastMap([t0, t1], map[t0 := [a, b], t1 := [b, a]])) == [(a, b), (b, a)]
  {
    var cast := map[t0 := [a, b], t1 := [b, a]];
    TwoNamePairs(a, b);
    TwoNamePairs(b, a);
    assert [t0, t1][..1] == [t0];
    assert [t0][..0] == [];
    assert PairsOf([t0], cast) == [(a, b)];
  }

  /** One pair per movie, in key order. */
  lemma SwappedBillingPairs()
    ensures AllPairs(NetworkCast(SwappedBilling(), 2)) == [("A", "B"), ("B", "A")]
  {
    SwappedBillingCast();
    OppositeEntryPairs("M1", "M2", "A", "B");
  }

  /** Pairs (a, b) then (b, a): the counter of (b, a) is written last, so the
      edge weighs 1, while the pair of names was produced twice. */
  lemma OppositeOrderWeights(a: string, b: string)
    requires a != b
    ensures EdgeOf((a, b)) in WrittenWeights([(a, b), (b, a)])
    ensures WrittenWeights([(a, b), (b, a)])[EdgeOf((a, b))] == 1
    ensures EdgeOf((a, b)) in CoStarWeights([(a, b), (b, a)])
    ensures CoStarWeights([(a, b), (b, a)])[EdgeOf((a, b))] == 2
  {
    OppositeOrderWritten(a, b);
    OppositeOrderCoStar(a, b);
  }

  /** The counter of (b, a) is the last to write the edge {a, b}. */
  lemma OppositeOrderWritten(a: string, b: string)
    requires a != b
    ensures EdgeOf((a, b)) in WrittenWeights([(a, b), (b, a)])
    ensures WrittenWeights([(a, b), (b, a)])[EdgeOf((a, b))] == 1
  {
    var ps: seq<Pair> := [(a, b), (b, a)];
    assert Position(ps[1..], (b, a)) == 0;
    assert Position(ps, (b, a)) == 1;
    WrittenWeightIsLaterOrientation(ps, b, a);
    assert EdgeOf((b, a)) == EdgeOf((a, b));
    assert multiset(ps)[(b, a)] == 1;
  }

  /** Counted by edge, the two pairs make two. */
  lemma OppositeOrderCoStar(a: string, b: string)
    requires a != b
    ensures EdgeOf((a, b)) in CoStarWeights([(a, b), (b, a)])
    ensures CoStarWeights([(a, b), (b, a)])[EdgeOf((a, b))] == 2
  {
    var ps: seq<Pair> := [(a, b), (b, a)];
    assert multiset(ps)[(a, b)] == 1 && multiset(ps)[(b, a)] == 1;
    CoStarWeightsCountBoth(ps, a, b);
    TallyCounts(EdgesOf(ps));
    assert EdgeOf((a, b)) in EdgesOf(ps);
  }

  /** On SwappedBilling with the slider at 2, A and B share two movies, yet the
      edge {A, B} of the network as written weighs 1; the corrected weight is 2. */
  lemma SwappedBillingUndercounts()
    ensures EdgeOf(("A", "B")) in NetworkWeights(SwappedBilling(), 2)
    ensures NetworkWeights(SwappedBilling(), 2)[EdgeOf(("A", "B"))] == 1
    ensures EdgeOf(("A", "B")) in CoStarWeights(AllPairs(NetworkCast(SwappedBilling(), 2)))
    ensures CoStarWeights(AllPairs(NetworkCast(SwappedBilling(), 2)))[EdgeOf(("A", "B"))] == 2
  {
    SwappedBillingPairs();
    OppositeOrderWeights("A", "B");
  }

  /** The corrected weight of the edge between two different names of the
      network is the number of pairs joining them, in either billing order, and
      the corrected weights have the same edges as the weights as written. */
  lemma CorrectedWeightCountsBoth(records: seq<MovieRecord>, maxActors: int, a: string, b: string)
    requires maxActors >= 1
    requires a != b
    ensures var ps := AllPairs(NetworkCast(records, maxActors));
      && (EdgeOf((a, b)) in CoStarWeights(ps) <==> EdgeOf((a, b)) in NetworkWeights(records, maxActors))
      && (EdgeOf((a, b)) in CoStarWeights(ps) ==>
            CoStarWeights(ps)[EdgeOf((a, b))] == multiset(ps)[(a, b)] + multiset(ps)[(b, a)])
  {
    var ps := AllPairs(NetworkCast(records, maxActors));
    SameEdges(ps, EdgeOf((a, b)));
    CoStarWeightsCountBoth(ps, a, b);
    TallyCounts(EdgesOf(ps));
  }

  /** Using the corrected weights changes only the edge values and widths:
      the highlighted nodes and edges, the movie-related edges and the summary
      are the same. */
  lemma CorrectionKeepsSelection(records: seq<MovieRecord>, maxActors: int, selected: Option<string>)
    requires maxActors >= 1
    ensures var top := NetworkTop(records, maxActors);
      var m := NetworkCast(records, maxActors);
      var v := Render(top, NetworkWeights(records, maxActors), m, selected);
      var v' := Render(top, CoStarWeights(AllPairs(m)), m, selected);
      && v'.nodes == v.nodes
      && v'.edges.Keys == v.edges.Keys
      && (forall e :: e in v.edges ==> v'.edges[e].highlighted == v.edges[e].highlighted)
      && v'.relatedEdges == v.relatedEdges
      && v'.summary == v.summary
  {
    var m := NetworkCast(records, maxActors);
    var ps := AllPairs(m);
    var w := NetworkWeights(records, maxActors);
    var c := CoStarWeights(ps);
    forall e ensures e in c <==> e in w {
      SameEdges(ps, e);
    }
    assert c.Keys == w.Keys;
  }
}
