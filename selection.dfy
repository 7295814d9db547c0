/** The two callbacks that react to the controls: update_movie_dropdown lists
    the movies worth selecting, and update_network_data styles the graph for
    the selected movie and reports the summary counts. Both rebuild the network
    for the slider value first. */
module Selection {
  import opened Seqs
  import opened Records
  import opened Casts
  import opened Pairs
  import opened Network

  /** `[movie for movie, actors in movie_actors.items() if len(actors) >= 2]`:
      the titles, in key order, whose filtered cast has two entries or more. */
  function ValidMovies(titles: seq<string>, cast: map<string, seq<string>>): (r: seq<string>)
    requires forall t :: t in titles ==> t in cast
    ensures forall t :: t in r <==> t in titles && |cast[t]| >= 2
    ensures IsSubseq(r, titles)
  {
    if titles == [] then []
    else
      var init := titles[..|titles| - 1];
      var t := titles[|titles| - 1];
      assert titles == init + [t];
      var r := ValidMovies(init, cast);
      IsSubseqSnoc(r, init, t);
      if |cast[t]| >= 2 then r + [t] else r
  }

  /** update_movie_dropdown(max_actors): one option per movie offered. */
  method UpdateMovieDropdown(records: seq<MovieRecord>, maxActors: int) returns (options: seq<string>)
    requires maxActors >= 1
    ensures options == ValidMovies(NetworkCast(records, maxActors).titles, NetworkCast(records, maxActors).cast)
  {
    var g, m := BuildNetwork(records, maxActors);
    options := ValidMovies(m.titles, m.cast);
  }

  /** A movie is offered exactly when its filtered cast yields at least one
      co-appearance pair, and then the first two names it bills are joined by
      an edge of the network. */
  lemma DropdownOffersPairedMovies(records: seq<MovieRecord>, maxActors: int, t: string)
    requires maxActors >= 1
    ensures var m := NetworkCast(records, maxActors);
      t in ValidMovies(m.titles, m.cast) <==> t in m.cast && CastPairs(m.cast[t]) != []
    ensures var m := NetworkCast(records, maxActors);
      t in ValidMovies(m.titles, m.cast) ==>
        EdgeOf((m.cast[t][0], m.cast[t][1])) in NetworkWeights(records, maxActors)
  {
    var m := NetworkCast(records, maxActors);
    if t in m.cast {
      var c := m.cast[t];
      CastPairsCount(c);
      if |c| >= 2 {
        assert BilledBefore(m, c[0], c[1]) by {
          assert t in m.cast && 0 <= 0 < 1 < |m.cast[t]|;
        }
        NetworkEdgeIffBilledTogether(records, maxActors, c[0], c[1]);
      }
    }
  }

  /** `if selected_movie:` — None and the empty title are falsy. */
  predicate Truthy(selected: Option<string>) {
    selected.Some? && selected.value != ""
  }

  /** `movie_related_actors`: the names of the selected movie's filtered cast;
      empty without a selection, and for a title that has no entry. */
  function RelatedActors(m: CastMap, selected: Option<string>): set<string> {
    if Truthy(selected) && selected.value in m.cast then Elements(m.cast[selected.value]) else {}
  }

  /** How a node is drawn: red and larger when highlighted. */
  datatype NodeStyle = NodeStyle(name: string, highlighted: bool)

  /** How an edge is drawn: its value is the weight, and a highlighted (red)
      edge is drawn twice as wide. */
  datatype EdgeStyle = EdgeStyle(value: int, highlighted: bool, width: int)

  /** The `debug` dict of the network data. */
  datatype Summary = Summary(totalActors: nat, totalEdges: nat, movieActors: nat, movieEdges: nat, selectedMovie: string)

  /** The network data: the styled nodes in node order, the styled edges, the
      `movie_related_edges` set and the summary. */
  datatype View = View(nodes: seq<NodeStyle>, edges: map<Edge, EdgeStyle>, relatedEdges: set<Edge>, summary: Summary)

  function NodeStyleOf(a: string, related: set<string>, selected: Option<string>): NodeStyle {
    NodeStyle(a, Truthy(selected) && a in related)
  }

  /** Both end points are related actors. */
  function EdgeStyleOf(e: Edge, w: int, related: set<string>, selected: Option<string>): EdgeStyle {
    if Truthy(selected) && e <= related then EdgeStyle(w, true, w * 2) else EdgeStyle(w, false, w)
  }

  /** At least one end point is a related actor. */
  predicate Touches(e: Edge, related: set<string>, selected: Option<string>) {
    Truthy(selected) && e * related != {}
  }

  /** The network data update_network_data computes from a graph (node list
      and edge weights), the `movie_actors` dict and the dropdown value. */
  function Render(nodes: seq<string>, weight: map<Edge, int>, m: CastMap, selected: Option<string>): View {
    var related := RelatedActors(m, selected);
    var touched := set e | e in weight && Touches(e, related, selected);
    View(
      seq(|nodes|, i requires 0 <= i < |nodes| => NodeStyleOf(nodes[i], related, selected)),
      map e | e in weight :: EdgeStyleOf(e, weight[e], related, selected),
      touched,
      Summary(|nodes|, |weight|,
              if Truthy(selected) then |related| else 0,
              if Truthy(selected) then |touched| else 0,
              if Truthy(selected) then selected.value else "None"))
  }

  /** The names drawn highlighted. */
  function HighlightedNames(v: View): set<string> {
    set i | 0 <= i < |v.nodes| && v.nodes[i].highlighted :: v.nodes[i].name
  }

  /** The node loop of update_network_data: every node, in node order, red
      when it is a related actor and a movie is selected. */
  method StyleNodes(names: seq<string>, related: set<string>, selected: Option<string>) returns (nodes: seq<NodeStyle>)
    ensures nodes == seq(|names|, i requires 0 <= i < |names| => NodeStyleOf(names[i], related, selected))
  {
    nodes := [];
    for i := 0 to |names|
      invariant |nodes| == i
      invariant forall k :: 0 <= k < i ==> nodes[k] == NodeStyleOf(names[k], related, selected)
    {
      nodes := nodes + [NodeStyleOf(names[i], related, selected)];
    }
  }

  /** The edge loop of update_network_data: every edge styled, and the edges
      touching a related actor collected. */
  method StyleEdges(weight: map<Edge, int>, related: set<string>, selected: Option<string>)
    returns (edges: map<Edge, EdgeStyle>, touched: set<Edge>)
    ensures edges == map e | e in weight :: EdgeStyleOf(e, weight[e], related, selected)
    ensures touched == set e | e in weight && Touches(e, related, selected)
  {
    edges := map[];
    touched := {};
    var todo := weight.Keys;
    while todo != {}
      invariant todo <= weight.Keys
      invariant edges.Keys == weight.Keys - todo
      invariant forall e :: e in edges ==> edges[e] == EdgeStyleOf(e, weight[e], related, selected)
      invariant forall e :: e in touched <==> e in edges && Touches(e, related, selected)
      decreases |todo|
    {
      var e :| e in todo;
      if Touches(e, related, selected) {
        touched := touched + {e};
      }
      edges := edges[e := EdgeStyleOf(e, weight[e], related, selected)];
      todo := todo - {e};
    }
    assert touched == set e | e in weight && Touches(e, related, selected);
  }

  /** update_network_data(max_actors, selected_movie). */
  method UpdateNetworkData(records: seq<MovieRecord>, maxActors: int, selected: Option<string>) returns (v: View)
    requires maxActors >= 1
    ensures v == Render(NetworkTop(records, maxActors), NetworkWeights(records, maxActors),
                        NetworkCast(records, maxActors), selected)
  {
    var g, m := BuildNetwork(records, maxActors);
    var related: set<string> := {};
    if Truthy(selected) {
      related := if selected.value in m.cast then Elements(m.cast[selected.value]) else {};
    }
    var nodes := StyleNodes(g.nodes, related, selected);
    var edges, touched := StyleEdges(g.weight, related, selected);
    v := View(nodes, edges, touched,
              Summary(|g.nodes|, |g.weight|,
                      if Truthy(selected) then |related| else 0,
                      if Truthy(selected) then |touched| else 0,
                      if Truthy(selected) then selected.value else "None"));
  }

  /** Without a selection, or for a title with no entry, nothing is drawn
      highlighted and both movie counts are 0; the summary names the title
      when one was given and says "None" otherwise. */
  lemma NothingHighlightedWithoutEntry(nodes: seq<string>, weight: map<Edge, int>, m: CastMap, selected: Option<string>)
    requires !Truthy(selected) || selected.value !in m.cast
    requires forall e :: e in weight ==> e != {}
    ensures var v := Render(nodes, weight, m, selected);
      && HighlightedNames(v) == {}
      && (forall e :: e in v.edges ==> !v.edges[e].highlighted && v.edges[e].width == weight[e])
      && v.relatedEdges == {}
      && v.summary.movieActors == 0 && v.summary.movieEdges == 0
      && v.summary.selectedMovie == if Truthy(selected) then selected.value else "None"
  {
    var v := Render(nodes, weight, m, selected);
    assert RelatedActors(m, selected) == {};
    assert v.relatedEdges == {} by {
      forall e | e in weight ensures !Touches(e, {}, selected) {
      }
    }
  }

  /** The red edges are movie-related and the movie-related edges are edges
      of the graph. The summary counts every node and edge, and under a
      selection it counts the movie-related edges and echoes the title;
      without one it reports no movie edge and "None". */
  lemma ViewPartition(nodes: seq<string>, weight: map<Edge, int>, m: CastMap, selected: Option<string>)
    requires forall e :: e in weight ==> e != {}
    ensures var v := Render(nodes, weight, m, selected);
      && (set e | e in v.edges && v.edges[e].highlighted) <= v.relatedEdges <= v.edges.Keys
      && v.edges.Keys == weight.Keys
      && v.summary.totalActors == |v.nodes| && v.summary.totalEdges == |v.edges|
      && v.summary.movieEdges == (if Truthy(selected) then |v.relatedEdges| else 0)
      && (!Truthy(selected) ==> v.relatedEdges == {})
      && v.summary.selectedMovie == (if Truthy(selected) then selected.value else "None")
  {
    var v := Render(nodes, weight, m, selected);
    forall e | e in v.edges && v.edges[e].highlighted ensures e in v.relatedEdges {
      var x :| x in e;
    }
    assert |v.edges| == |weight| by {
      assert v.edges.Keys == weight.Keys;
    }
  }

  /** The highlighted nodes are exactly the nodes that are related actors
      (when a movie is selected). */
  lemma HighlightedNodes(nodes: seq<string>, weight: map<Edge, int>, m: CastMap, selected: Option<string>)
    ensures HighlightedNames(Render(nodes, weight, m, selected))
              == if Truthy(selected) then RelatedActors(m, selected) * Elements(nodes) else {}
  {
    var v := Render(nodes, weight, m, selected);
    var h := if Truthy(selected) then RelatedActors(m, selected) * Elements(nodes) else {};
    forall a | a in h ensures a in HighlightedNames(v) {
      var i :| 0 <= i < |nodes| && nodes[i] == a;
      assert v.nodes[i].name == a && v.nodes[i].highlighted;
    }
  }

  /** An edge between two nodes is drawn red exactly when both end points are
      highlighted nodes, counts as movie-related exactly when one of them is,
      and is drawn with twice its weight when red. A red edge is always
      movie-related. */
  lemma EdgeHighlight(nodes: seq<string>, weight: map<Edge, int>, m: CastMap, selected: Option<string>, e: Edge)
    requires e in weight && e != {} && e <= Elements(nodes)
    ensures var v := Render(nodes, weight, m, selected);
      && e in v.edges && v.edges[e].value == weight[e]
      && (v.edges[e].highlighted <==> e <= HighlightedNames(v))
      && (e in v.relatedEdges <==> e * HighlightedNames(v) != {})
      && (v.edges[e].highlighted ==> e in v.relatedEdges)
      && v.edges[e].width == if v.edges[e].highlighted then 2 * weight[e] else weight[e]
  {
    HighlightedNodes(nodes, weight, m, selected);
    var x :| x in e;
  }

  /** For the network of a table: every related actor is a node, so the
      `movie_related_actors_count` of the summary is the number of red nodes,
      and every edge obeys EdgeHighlight. */
  lemma NetworkHighlight(records: seq<MovieRecord>, maxActors: int, selected: Option<string>)
    requires maxActors >= 1
    ensures var top := NetworkTop(records, maxActors);
      var m := NetworkCast(records, maxActors);
      var v := Render(top, NetworkWeights(records, maxActors), m, selected);
      && HighlightedNames(v) == RelatedActors(m, selected)
      && v.summary.movieActors == |HighlightedNames(v)|
      && forall e :: e in NetworkWeights(records, maxActors) ==> e != {} && e <= Elements(top)
  {
    var top := NetworkTop(records, maxActors);
    var m := NetworkCast(records, maxActors);
    var w := NetworkWeights(records, maxActors);
    HighlightedNodes(top, w, m, selected);
    forall a | a in RelatedActors(m, selected) ensures a in Elements(top) {
      MovieActorsWithinTop(records, top, selected.value, a);
    }
    forall e | e in w ensures e != {} && e <= Elements(top) {
      var ps := AllPairs(m);
      WrittenEdges(ps, e);
      var p :| p in ps && EdgeOf(p) == e;
      assert p.0 in e;
      forall x | x in e ensures x in Elements(top) {
        NetworkEdgeEndpoints(records, maxActors, e, x);
      }
    }
  }

  /** Selecting a movie the dropdown offers draws at least one edge red, so
      `movie_related_edges_count` is at least 1. */
  lemma DropdownChoiceHighlightsEdge(records: seq<MovieRecord>, maxActors: int, t: string)
    requires maxActors >= 1
    ensures var m := NetworkCast(records, maxActors);
      var v := Render(NetworkTop(records, maxActors), NetworkWeights(records, maxActors), m, Some(t));
      t != "" && t in ValidMovies(m.titles, m.cast) ==>
        && (exists e :: e in v.edges && v.edges[e].highlighted)
        && v.summary.movieEdges >= 1
  {
    var m := NetworkCast(records, maxActors);
    var w := NetworkWeights(records, maxActors);
    if t != "" && t in ValidMovies(m.titles, m.cast) {
      DropdownOffersPairedMovies(records, maxActors, t);
      var c := m.cast[t];
      var e := EdgeOf((c[0], c[1]));
      assert c[0] in c && c[1] in c;
      RedEdge(NetworkTop(records, maxActors), w, m, Some(t), e);
    }
  }

  /** An edge whose end points are all in the selected movie's filtered cast
      is drawn red and counted as movie-related. */
  lemma RedEdge(nodes: seq<string>, weight: map<Edge, int>, m: CastMap, selected: Option<string>, e: Edge)
    requires Truthy(selected) && selected.value in m.cast
    requires e in weight && e != {} && forall x :: x in e ==> x in m.cast[selected.value]
    ensures var v := Render(nodes, weight, m, selected);
      && e in v.edges && v.edges[e].highlighted
      && e in v.relatedEdges && v.summary.movieEdges >= 1
  {
    var related := RelatedActors(m, selected);
    assert e <= related;
    var x :| x in e;
    assert Touches(e, related, selected);
    var touched := set e | e in weight && Touches(e, related, selected);
    assert e in touched;
    assert |touched| >= 1 by {
      assert {e} <= touched;
    }
  }
}
