/** The rows of the movie table as the network builder sees them: a title and
    the four billing columns Star1..Star4, any of which may be a missing cell. */
module Records {

  datatype Option<T> = None | Some(value: T)

  /** One row of the table. A missing cell (NaN in the data frame) is None. */
  datatype MovieRecord = MovieRecord(
    title: string,
    star1: Option<string>,
    star2: Option<string>,
    star3: Option<string>,
    star4: Option<string>)
  {
    /** The row's cast in billing order [Star1, Star2, Star3, Star4]. */
    function Stars(): (s: seq<Option<string>>)
      ensures |s| == 4
    {
      [star1, star2, star3, star4]
    }
  }

  /** The number of Star columns. */
  const StarColumns: nat := 4

  /** Column k of the table, top to bottom (`df['Star<k+1>'].tolist()`). */
  function Column(records: seq<MovieRecord>, k: nat): seq<Option<string>>
    requires k < StarColumns
  {
    seq(|records|, i requires 0 <= i < |records| => records[i].Stars()[k])
  }

  /** The first `cols` Star columns appended one after the other: every Star1
      cell, then every Star2 cell, and so on. */
  function Flattened(records: seq<MovieRecord>, cols: nat): seq<Option<string>>
    requires cols <= StarColumns
  {
    if cols == 0 then [] else Flattened(records, cols - 1) + Column(records, cols - 1)
  }

  /** The flattening has one cell per row and column. */
  lemma {:induction false} FlattenedLength(records: seq<MovieRecord>, cols: nat)
    requires cols <= StarColumns
    ensures |Flattened(records, cols)| == cols * |records|
  {
    if cols > 0 {
      FlattenedLength(records, cols - 1);
    }
  }

  /** Cell k * n + i of the flattening is the (k+1)-th Star cell of row i. */
  lemma {:induction false} FlattenedCell(records: seq<MovieRecord>, cols: nat, k: nat, i: nat)
    requires cols <= StarColumns
    requires k < cols && i < |records|
    ensures k * |records| + i < |Flattened(records, cols)|
    ensures Flattened(records, cols)[k * |records| + i] == records[i].Stars()[k]
  {
    var n := |records|;
    FlattenedLength(records, cols - 1);
    FlattenedLength(records, cols);
    if k < cols - 1 {
      FlattenedCell(records, cols - 1, k, i);
    } else {
      assert k * n + i == (cols - 1) * n + i;
    }
  }

  /** The flattening is column-major: the cell of row i in column k sits at
      position k * |records| + i. */
  lemma {:induction false} FlattenedColumnMajor(records: seq<MovieRecord>, cols: nat)
    requires cols <= StarColumns
    ensures |Flattened(records, cols)| == cols * |records|
    ensures forall k, i {:trigger records[i].Stars()[k]} :: 0 <= k < cols && 0 <= i < |records| ==>
              Flattened(records, cols)[k * |records| + i] == records[i].Stars()[k]
  {
    FlattenedLength(records, cols);
    forall k, i | 0 <= k < cols && 0 <= i < |records|
      ensures Flattened(records, cols)[k * |records| + i] == records[i].Stars()[k]
    {
      FlattenedCell(records, cols, k, i);
    }
  }

  /** The names in xs with missing cells dropped, as `value_counts` sees them. */
  function Present(xs: seq<Option<string>>): seq<string> {
    if xs == [] then []
    else (if xs[0].Some? then [xs[0].value] else []) + Present(xs[1..])
  }

  /** Each name occurs in the present names as often as it fills a cell. */
  lemma {:induction false} PresentCounts(xs: seq<Option<string>>)
    ensures forall a :: multiset(Present(xs))[a] == multiset(xs)[Some(a)]
    ensures forall a :: a in Present(xs) <==> Some(a) in xs
  {
    if xs != [] {
      PresentCounts(xs[1..]);
      assert xs == [xs[0]] + xs[1..];
    }
  }
}
