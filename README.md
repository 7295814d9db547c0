# Actor co-appearance network

A Dafny model of the computational core of `HYFP.py`, a Dash application that
draws the co-starring network of the most frequent actors of a movie table
(the IMDb top-1000 list, one row per movie with a `Series_Title` and four
`Star1`..`Star4` cells).

What is modelled:

- `create_network(df, max_actors)`: flatten the four Star columns column by
  column, rank the names by how many cells they fill (`value_counts`), keep the
  first `max_actors` (`head`), add them as graph nodes, build the
  title-to-filtered-cast dict `movie_actors`, count every ordered pair of
  filtered cast members in a `defaultdict`, and add one weighted edge per
  counter. The graph is a class (`Graphs.Graph`) whose methods update its node
  list and edge-weight map; `Network.BuildNetwork` runs the same loops in the
  same order and is proved equal to the value-level definitions
  `NetworkTop`, `NetworkCast` and `NetworkWeights`.
- `update_movie_dropdown`: the titles whose filtered cast has two entries or
  more, in dict order.
- `update_network_data`: which nodes and edges are drawn highlighted for the
  selected movie, which edges count as movie-related, the edge widths, and the
  summary counts of the `debug` dict.

Python dicts keep insertion order; the model keeps that order explicitly (the
`titles` of a `Casts.CastMap`, and the key order `Distinct(...)` of the
co-appearance counter, `Seqs.Tally` being its content). An undirected edge is
the set of its end points (`Pairs.Edge`), one name for a self-loop. A missing
Star cell is `None` and is never counted or kept.

Modules: `Seqs` (dict order and counting), `Records` (rows and the
column-major flattening), `Ranking` (`value_counts` + `head`), `Casts`
(`movie_actors`), `Pairs` (the pair loops and the edge weights), `Graphs` (the
graph object), `Network` (`create_network`), `Selection` (the two callbacks),
`Findings` (the weight discrepancy below).

## Model

| member | source | states |
|---|---|---|
| Seqs.DistinctKeys | HYFP.py:78-85 | the key order of a dict written once per element holds every written key exactly once and nothing else |
| Seqs.DistinctOrder | HYFP.py:80-87 | dict keys come in the order of their first write |
| Seqs.TallyCounts | HYFP.py:78-85 | after `co[x] += 1` for each element, a key exists iff it was written, and its value is the number of times it was written (at least 1) |
| Seqs.CountStep | HYFP.py:85 | one `+= 1` on a defaultdict appends a new key to the key order, leaves the order of an existing key alone, and raises its count by one |
| Records.FlattenedColumnMajor | HYFP.py:60-62 | the flattened list has 4·n cells and cell k·n+i is the (k+1)-th Star cell of row i: all Star1 cells first, then all Star2 cells, and so on |
| Records.PresentCounts | HYFP.py:64 | once missing cells are dropped, each name occurs as often as it fills a Star cell |
| Ranking.SortByRank | HYFP.py:64 | the sorted list is strictly ranked (more cells first, ties by first occurrence) and is a permutation of the distinct names given |
| Ranking.Ranked | HYFP.py:64 | `value_counts().index`: every distinct name of the flattening, each once, in rank order |
| Ranking.TopActors | HYFP.py:64-66 | at most `max_actors` names, all from the table, in non-increasing cell count, equal counts in first-occurrence order |
| Ranking.TopActorsSize | HYFP.py:66 | the top list has no duplicates and holds min(`max_actors`, number of distinct names) names |
| Ranking.TopActorsDominate | HYFP.py:64-66 | every kept name outranks, and fills at least as many cells as, every name left out |
| Ranking.TopActorsMonotone | HYFP.py:66 | the top list for a smaller slider value is a prefix of the list for a larger one |
| Ranking.RankedTieOrder | HYFP.py:64-66 | of any two ranked names with equal counts, the one that first occurs earlier in the flattening comes first, and conversely |
| Casts.FilterCastKeeps | HYFP.py:74-75 | the filtered cast holds only top actors, each as often as it fills a Star cell of the row, in billing order |
| Casts.FilterCastGrows | HYFP.py:75 | filtering by a larger top list keeps everything a smaller one keeps, in the same order (a subsequence) |
| Casts.MovieActors | HYFP.py:71-76 | `movie_actors` has unique keys, one per distinct title, in order of first occurrence |
| Casts.MovieActorsLastRowWins | HYFP.py:72-76 | a title has an entry iff some row carries it, and the entry is the filtered cast of the last such row |
| Casts.MovieActorsWithinTop | HYFP.py:75-76 | every name in an entry is a top actor |
| Casts.MovieActorsCoversTitles | HYFP.py:72-76 | every title of the table has an entry |
| Casts.CollectMovieActors | HYFP.py:71-76 | the row loop builds exactly `MovieActors` |
| Pairs.RowsBeforeMembers | HYFP.py:81-85 | the nested loops produce a pair iff it names the actors at two positions i < j of the cast, in that order |
| Pairs.CastPairsCount | HYFP.py:81-85 | a cast of n entries yields n(n-1)/2 pairs; fewer than two entries yield none |
| Pairs.CastPairsOccurrences | HYFP.py:81-85 | one cast produces (a, b) exactly as many times as there are positions i < j with a at i and b at j |
| Pairs.PairsOfOccurrences | HYFP.py:80-85 | over the dict's entries, (a, b) is produced as many times as the matching position pairs of all entries' casts add up to |
| Pairs.CoAppearanceCount | HYFP.py:78-85 | `co_appearances[(a, b)]` exists iff some entry bills a before b, and equals the number of position pairs i < j, over all entries, with a at i and b at j |
| Pairs.PairsOfMembers | HYFP.py:80-85 | a pair is produced over the whole dict iff one entry produces it |
| Pairs.CountCoAppearances | HYFP.py:78-85 | the loops leave `co_appearances` with key order = first occurrence of each produced pair and value = number of times it was produced |
| Pairs.CountCastPairs | HYFP.py:81-85 | one movie's loops extend the key order and the counts by that movie's pairs |
| Pairs.CountRow | HYFP.py:82-85 | the inner loop for position i extends the key order and counts by (actors[i], actors[j]) for each later j |
| Pairs.EdgeWeightIsLastWrite | HYFP.py:87-88 | an edge exists iff some counter writes it, and its weight is the value of the last counter, in key order, that writes it |
| Pairs.WrittenEdges | HYFP.py:87-88 | an edge exists iff some produced pair joins its names |
| Pairs.WrittenEdgeOfNames | HYFP.py:85-88 | the edge {a, b} exists iff a and b were paired in either order |
| Pairs.WrittenWeightIsLaterOrientation | HYFP.py:85-88 | the weight of {a, b} is the count of the orientation first produced later, so only one billing order is counted |
| Pairs.CoStarWeightsCountBoth | HYFP.py:85-88 | corrected weights: the weight of {a, b}, a ≠ b, is the number of pairs in both orders |
| Pairs.CoStarWeightsCountLoop | HYFP.py:85-88 | corrected weights: a self-loop weighs the number of (a, a) pairs |
| Pairs.SameEdges | HYFP.py:87-88 | the corrected weights and the weights as written have the same edges |
| Graphs.Graph.constructor | HYFP.py:58 | a new graph has no nodes and no edges |
| Graphs.Graph.AddNode | HYFP.py:69 | adds a node unless present; edges unchanged; node list stays duplicate-free |
| Graphs.Graph.AddEdge | HYFP.py:88 | adds missing end points, then sets (overwrites) the weight of the undirected edge; every edge keeps its end points among the nodes |
| Network.FlattenStars | HYFP.py:60-62 | the column loop builds the column-major flattening |
| Network.AddNodes | HYFP.py:68-69 | the node loop makes the node list exactly the top list and adds no edge |
| Network.AddEdges | HYFP.py:87-88 | the edge loop leaves the nodes alone and sets the weights to the last-write weights of the counters |
| Network.BuildNetwork | HYFP.py:57-90 | `create_network`: a fresh valid graph whose nodes are the top actors in rank order, whose edge weights are the written weights, and the `movie_actors` dict |
| Network.PairWithinTop | HYFP.py:75-85 | both names of every produced pair are top actors |
| Network.AllPairsBilled | HYFP.py:80-85 | (a, b) is produced iff some filtered cast bills a before b |
| Network.NetworkEdgeEndpoints | HYFP.py:68-88 | every end point of an edge is a node |
| Network.NetworkEdgeIffBilledTogether | HYFP.py:80-88 | two names are joined by an edge iff some filtered cast bills them together, in either order |
| Network.NetworkCastGrows | HYFP.py:66-76 | raising the slider keeps the dict's titles and key order, and each filtered cast only gains names, keeping their order |
| Network.NetworkEdgesGrow | HYFP.py:66-88 | raising the slider never removes an edge (the weights as written may change) |
| Network.NetworkWeightOneOrientation | HYFP.py:80-88 | when no movie bills b before a, the weight of {a, b} is the number of times a is billed before b |
| Selection.ValidMovies | HYFP.py:102 | the dropdown titles are exactly the dict keys whose filtered cast has two or more entries, in dict order |
| Selection.UpdateMovieDropdown | HYFP.py:99-106 | the options are `ValidMovies` of the rebuilt network's dict |
| Selection.DropdownOffersPairedMovies | HYFP.py:102 | a movie is offered iff its filtered cast yields a pair, and then its first two billed names are joined by an edge |
| Selection.StyleNodes | HYFP.py:125-129 | the node loop styles every node, in node order, highlighted iff a movie is selected and the node is a related actor |
| Selection.StyleEdges | HYFP.py:131-142 | the edge loop styles every edge and collects exactly the edges touching a related actor |
| Selection.UpdateNetworkData | HYFP.py:113-183 | the network data for the rebuilt network equals `Render` of its nodes, weights and dict |
| Selection.NothingHighlightedWithoutEntry | HYFP.py:121-181 | without a truthy selection, or for a title with no entry, nothing is highlighted, widths equal weights, both movie counts are 0, and the summary shows the title if one was given and "None" otherwise |
| Selection.ViewPartition | HYFP.py:131-181 | red edges ⊆ movie-related edges ⊆ graph edges; the summary counts all nodes and edges, under a selection it counts the movie-related edges and echoes the title, without one it reports 0 and "None" |
| Selection.HighlightedNodes | HYFP.py:121-129 | the highlighted nodes are exactly the nodes in the selected movie's filtered cast |
| Selection.EdgeHighlight | HYFP.py:131-142 | an edge is red iff both end points are highlighted nodes, movie-related iff one is, red edges are movie-related, and a red edge is drawn twice as wide |
| Selection.NetworkHighlight | HYFP.py:121-178 | on a built network every related actor is a node, so the movie-actor count equals the number of highlighted nodes, and every edge joins nodes |
| Selection.RedEdge | HYFP.py:136-142 | an edge inside the selected filtered cast is red and movie-related, so the movie-edge count is at least 1 |
| Selection.DropdownChoiceHighlightsEdge | HYFP.py:102-142 | selecting an offered movie draws at least one red edge |
| Findings.TieRanking | HYFP.py:64-66 | on the flattening [a, b, b, a] the tied names are ranked a, then b (the instance of Ranking.RankedTieOrder the finding's example needs) |
| Findings.OppositeOrderWeights | HYFP.py:85-88 | pairs (a, b) then (b, a): the written weight of {a, b} is 1, the corrected weight 2 |
| Findings.SwappedBillingUndercounts | HYFP.py:57-90 | on two movies billing A, B and B, A, the network as written weighs edge {A, B} at 1 although they co-star twice; the corrected weight is 2 |
| Findings.CorrectedWeightCountsBoth | HYFP.py:85-88 | on a built network, the corrected weight of {a, b} counts both billing orders and has the same edges as the network as written |
| Findings.CorrectionKeepsSelection | HYFP.py:131-181 | replacing the written weights by the corrected ones changes only edge values and widths: highlights, movie-related edges and summary are the same |

## Left out

- The Dash layout, the app and server objects, and the callback wiring: the callbacks are modelled as methods taking the slider and dropdown values.
- update_network_graph and update_debug_info (HYFP.py:185-217): they only copy stored HTML or format the summary as text.
- pyvis rendering: colours, node sizes, physics options and the generated HTML; only "highlighted" and the edge width are kept.
- The tooltip strings of nodes and edges, which are text formatting.
- load_data and CSV reading: the table is a parameter (a sequence of rows); a missing cell is `None`.
- Ranking.TopActors: pandas `value_counts` orders equal counts by an implementation detail; the model fixes the tie rule to first occurrence in the column-major flattening.
- The default `max_actors=50` of create_network (HYFP.py:57): every call in the model passes the slider value; only the module-level network built at start-up (HYFP.py:93), which is left out, relies on the default.
- Ranking.TopActors: requires `max_actors >= 1`, the slider minimum; `head` with 0 or a negative value is not modelled.
- networkx internals: `Graph` keeps nodes in insertion order and one weight per undirected edge; the iteration order of `G.edges()` is left open (edges are a map), so the order in which edges are handed to pyvis is not modelled.
- Selection.StyleEdges: works on the undirected edge, so "source in related or target in related" does not depend on the orientation networkx reports.
- A row title that is NaN, and non-string titles or names: titles and names are strings.
- Network.BuildNetwork: the nested pair loops are split into CountCoAppearances, CountCastPairs and CountRow, one loop each, with the same iteration order.

## Findings

| source | as written | input that shows it | evidently intended | confidence | as-written member | corrected member |
|---|---|---|---|---|---|---|
| HYFP.py:85-88 | the counter is keyed by the ordered pair (actor1, actor2); both orientations of two actors write the same undirected edge and the later write wins, so the weight counts one billing order only | two movies "M1" billing A, B and "M2" billing B, A, slider at 2: edge {A, B} weighs 1 | the weight (which the edge tooltip reports as a number of movies) is the number of times the two actors were billed together, in either order: 2 | high (proved; not executed) | Findings.SwappedBillingUndercounts | Pairs.CoStarWeightsCountBoth |

`Network.BuildNetwork` keeps the weights as written, since that is what the
program computes; `Pairs.CoStarWeights` is the corrected weight map, and
`Findings.CorrectionKeepsSelection` shows that using it changes nothing in the
selection view but the edge values and widths.
