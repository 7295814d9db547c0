/** The part of a networkx undirected graph that create_network uses: the node
    list in insertion order and, for each undirected edge, its `weight`
    attribute. */
module Graphs {
  import opened Seqs
  import opened Pairs

  class Graph {
    /** `G.nodes()`, in the order they were added. */
    var nodes: seq<string>
    /** `G.edges()` with the weight attribute of each. */
    var weight: map<Edge, int>

    /** Nodes are unique, and every edge joins one or two nodes of the graph. */
    ghost predicate Valid()
      reads this
    {
      && NoDup(nodes)
      && forall e :: e in weight ==> 1 <= |e| <= 2 && forall x :: x in e ==> x in nodes
    }

    /** `nx.Graph()`: no nodes, no edges. */
    constructor ()
      ensures Valid() && nodes == [] && weight == map[]
    {
      nodes := [];
      weight := map[];
    }

    /** `G.add_node(a)`: a node that is already present is left as it is. */
    method AddNode(a: string)
      requires Valid()
      modifies this
      ensures Valid()
      ensures nodes == AddIfAbsent(old(nodes), a)
      ensures weight == old(weight)
    {
      if a !in nodes {
        nodes := nodes + [a];
      }
    }

    /** `G.add_edge(a, b, weight=w)`: adds the end points that are missing,
        then sets the weight of the undirected edge {a, b}, overwriting any
        earlier weight. a == b makes a self-loop. */
    method AddEdge(a: string, b: string, w: int)
      requires Valid()
      modifies this
      ensures Valid()
      ensures nodes == AddIfAbsent(AddIfAbsent(old(nodes), a), b)
      ensures weight == old(weight)[EdgeOf((a, b)) := w]
    {
      if a !in nodes {
        nodes := nodes + [a];
      }
      if b !in nodes {
        nodes := nodes + [b];
      }
      weight := weight[EdgeOf((a, b)) := w];
    }
  }
}
