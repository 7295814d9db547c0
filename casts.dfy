/** The `movie_actors` dict of create_network: for each title, the Star cells
    of its row that hold a top actor, in billing order. The dict is keyed by
    title, so a later row with the same title overwrites the earlier entry but
    keeps the key's original insertion position. */
module Casts {
  import opened Seqs
  import opened Records

  /** `[actor for actor in actors if actor in top_actors]`: the names among the
      Star cells that are top actors, in billing order, duplicates kept. A
      missing cell is never a top actor. FilterCastKeeps states what it holds. */
  function FilterCast(stars: seq<Option<string>>, top: seq<string>): seq<string> {
    if stars == [] then []
    else
      var rest := FilterCast(stars[1..], top);
      if stars[0].Some? && stars[0].value in top then [stars[0].value] + rest else rest
  }

  /** The filtered cast holds only top actors, each as often as it fills a Star
      cell of the row, in billing order. */
  lemma {:induction false} FilterCastKeeps(stars: seq<Option<string>>, top: seq<string>)
    ensures forall a :: a in FilterCast(stars, top) ==> a in top
    ensures forall a :: multiset(FilterCast(stars, top))[a] == if a in top then multiset(stars)[Some(a)] else 0
    ensures IsSubseq(FilterCast(stars, top), Present(stars))
  {
    if stars != [] {
      FilterCastKeeps(stars[1..], top);
      FilterCastStep(stars, top, FilterCast(stars[1..], top));
    }
  }

  /** One step of the filter: what holds of the filtered tail extends to the
      whole row. */
  lemma FilterCastStep(stars: seq<Option<string>>, top: seq<string>, rest: seq<string>)
    requires stars != []
    requires forall a :: multiset(rest)[a] == if a in top then multiset(stars[1..])[Some(a)] else 0
    requires IsSubseq(rest, Present(stars[1..]))
    ensures var r := if stars[0].Some? && stars[0].value in top then [stars[0].value] + rest else rest;
      && (forall a :: multiset(r)[a] == if a in top then multiset(stars)[Some(a)] else 0)
      && IsSubseq(r, Present(stars))
  {
    assert stars == [stars[0]] + stars[1..];
    var p := Present(stars);
    if stars[0].Some? {
      assert p == [stars[0].value] + Present(stars[1..]);
      assert p[1..] == Present(stars[1..]);
      if stars[0].value in top {
        var r := [stars[0].value] + rest;
        assert r[1..] == rest;
      }
    } else {
      assert p == Present(stars[1..]);
    }
  }

  /** Filtering by a larger top list keeps everything a smaller one keeps:
      the smaller result is a subsequence of the larger one. */
  lemma {:induction false} FilterCastGrows(stars: seq<Option<string>>, top: seq<string>, top': seq<string>)
    requires forall a :: a in top ==> a in top'
    ensures IsSubseq(FilterCast(stars, top), FilterCast(stars, top'))
  {
    if stars != [] {
      FilterCastGrows(stars[1..], top, top');
      var rest := FilterCast(stars[1..], top);
      var rest' := FilterCast(stars[1..], top');
      if stars[0].Some? && stars[0].value in top' {
        var x := stars[0].value;
        assert ([x] + rest')[1..] == rest';
        if x in top {
          assert ([x] + rest)[1..] == rest;
        }
      }
    }
  }

  /** A Python dict from title to filtered cast: `titles` is its key order,
      `cast` its content. */
  datatype CastMap = CastMap(titles: seq<string>, cast: map<string, seq<string>>)
  {
    ghost predicate Valid() {
      NoDup(titles) && forall t :: t in titles <==> t in cast
    }
  }

  /** The titles of the rows, top to bottom. */
  function Titles(records: seq<MovieRecord>): seq<string> {
    seq(|records|, i requires 0 <= i < |records| => records[i].title)
  }

  /** The dict after `movie_actors[movie] = actors` for every row in order. */
  function MovieActors(records: seq<MovieRecord>, top: seq<string>): (m: CastMap)
    ensures m.Valid()
    ensures m.titles == Distinct(Titles(records))
  {
    if records == [] then CastMap([], map[])
    else
      var init := records[..|records| - 1];
      var r := records[|records| - 1];
      assert Titles(records) == Titles(init) + [r.title];
      assert Titles(records)[..|records| - 1] == Titles(init);
      DistinctKeys(Titles(init));
      var m := MovieActors(init, top);
      CastMap(AddIfAbsent(m.titles, r.title), m.cast[r.title := FilterCast(r.Stars(), top)])
  }

  /** The index of the last row titled t, or -1 when no row is. */
  function LastRow(records: seq<MovieRecord>, t: string): (i: int)
    ensures -1 <= i < |records|
    ensures 0 <= i ==> records[i].title == t
    ensures forall j :: i < j < |records| ==> records[j].title != t
  {
    if records == [] then -1
    else if records[|records| - 1].title == t then |records| - 1
    else LastRow(records[..|records| - 1], t)
  }

  /** A title has an entry exactly when some row carries it, and the entry is
      the filtered cast of the LAST such row: later rows overwrite. */
  lemma {:induction false} MovieActorsLastRowWins(records: seq<MovieRecord>, top: seq<string>, t: string)
    ensures t in MovieActors(records, top).cast <==> LastRow(records, t) >= 0
    ensures t in MovieActors(records, top).cast ==>
              MovieActors(records, top).cast[t] == FilterCast(records[LastRow(records, t)].Stars(), top)
  {
    if records != [] {
      var init := records[..|records| - 1];
      MovieActorsLastRowWins(init, top, t);
      var i := LastRow(init, t);
      if 0 <= i { assert records[i] == init[i]; }
    }
  }

  /** Every name in an entry is a top actor. */
  lemma MovieActorsWithinTop(records: seq<MovieRecord>, top: seq<string>, t: string, a: string)
    requires t in MovieActors(records, top).cast && a in MovieActors(records, top).cast[t]
    ensures a in top
  {
    MovieActorsLastRowWins(records, top, t);
    FilterCastKeeps(records[LastRow(records, t)].Stars(), top);
  }

  /** Every title of the table has an entry. */
  lemma {:induction false} MovieActorsCoversTitles(records: seq<MovieRecord>, top: seq<string>, i: nat)
    requires i < |records|
    ensures records[i].title in MovieActors(records, top).cast
  {
    assert Titles(records)[i] == records[i].title;
    DistinctKeys(Titles(records));
  }

  /** Lines 71-76 of create_network: fill `movie_actors` row by row. */
  method CollectMovieActors(records: seq<MovieRecord>, top: seq<string>) returns (m: CastMap)
    ensures m == MovieActors(records, top)
  {
    m := CastMap([], map[]);
    for k := 0 to |records|
      invariant m == MovieActors(records[..k], top)
    {
      var row := records[k];
      var actors := FilterCast(row.Stars(), top);
      assert records[..k + 1][..k] == records[..k];
      m := CastMap(AddIfAbsent(m.titles, row.title), m.cast[row.title := actors]);
    }
    assert records[..|records|] == records;
  }
}
