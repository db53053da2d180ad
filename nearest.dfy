/** Nearest grid cells to a target point: `nearest_points` of
    operational/etl_station_data.py. Distances are squared Euclidean
    distances in degrees, and the k-d tree query is a linear selection of
    the k smallest distances. */
module Nearest {
  import opened Wrappers

  // ---------------------------------------------------------------------
  // Row-major index arithmetic

  lemma MulMonotone(a: nat, b: nat, c: nat)
    requires a <= b
    ensures a * c <= b * c
  {
  }

  /** Cell (i, j) of a grid with `c` columns sits at flat index i*c + j. */
  lemma RowMajor(i: nat, j: nat, c: nat)
    requires j < c
    ensures (i * c + j) / c == i && (i * c + j) % c == j
  {
    var t := i * c + j;
    var q, r := t / c, t % c;
    assert t == q * c + r;
    if q > i {
      MulMonotone(i + 1, q, c);
    } else if q < i {
      MulMonotone(q + 1, i, c);
    }
  }

  /** Every flat index of a `rows` by `c` grid splits into a row and a
      column of that grid (Python's `divmod`, equal to Dafny's `/` and `%`
      on non-negative operands). */
  lemma SplitIndex(t: nat, rows: nat, c: nat)
    requires t < rows * c
    ensures c > 0 && t / c < rows && t % c < c && (t / c) * c + t % c == t
  {
    if c > 0 {
      var q := t / c;
      assert q * c + t % c == t;
      if q >= rows {
        MulMonotone(rows, q, c);
      }
    }
  }

  // ---------------------------------------------------------------------
  // Coordinates

  /** A coordinate array: one-dimensional, or a two-dimensional grid of
      `rows` by `cols` values stored row by row. */
  datatype Coord = Axis(values: seq<real>) | Grid(rows: nat, cols: nat, cells: seq<real>)

  /** A two-dimensional array holds exactly rows * cols values. */
  predicate WellShaped(c: Coord)
  {
    c.Grid? ==> |c.cells| == c.rows * c.cols
  }

  datatype NearestError =
    | MixedDimensions   // the ValueError for one 1-D and one 2-D array
    | SizeMismatch      // two 2-D arrays of different sizes, which `column_stack` rejects
    | TooFewPoints      // more neighbours asked for than grid points
    | LonIndexError     // a row and column of the latitude grid outside the longitude grid

  /** `np.meshgrid(lon, lat)`: a row per latitude, a column per longitude. */
  function MeshLat(lat: seq<real>, lon: seq<real>): (g: Coord)
    ensures g.Grid? && WellShaped(g) && g.rows == |lat| && g.cols == |lon|
  {
    Grid(|lat|, |lon|, seq(|lat| * |lon|, t requires 0 <= t < |lat| * |lon| =>
      SplitIndex(t, |lat|, |lon|); lat[t / |lon|]))
  }

  function MeshLon(lat: seq<real>, lon: seq<real>): (g: Coord)
    ensures g.Grid? && WellShaped(g) && g.rows == |lat| && g.cols == |lon|
  {
    Grid(|lat|, |lon|, seq(|lat| * |lon|, t requires 0 <= t < |lat| * |lon| =>
      SplitIndex(t, |lat|, |lon|); lon[t % |lon|]))
  }

  /** Longitudes moved from 0..360 to -180..180 by subtracting 360. */
  function Shift360(g: Coord): (h: Coord)
    requires g.Grid? && WellShaped(g)
    ensures h.Grid? && WellShaped(h) && h.rows == g.rows && h.cols == g.cols
    ensures forall t :: 0 <= t < |g.cells| ==> h.cells[t] == g.cells[t] - 360.0
  {
    Grid(g.rows, g.cols, seq(|g.cells|, t requires 0 <= t < |g.cells| => g.cells[t] - 360.0))
  }

  /** The latitude and longitude grids the search runs over. Two 2-D
      grids need only hold as many values as each other: their raveled
      values are stacked into points, whatever their shapes. */
  function Grids(lat: Coord, lon: Coord): (r: Result<(Coord, Coord), NearestError>)
    requires WellShaped(lat) && WellShaped(lon)
    ensures r.Err? <==> lat.Axis? != lon.Axis? || (lat.Grid? && lon.Grid? && |lat.cells| != |lon.cells|)
    ensures r.Err? ==> r.error == if lat.Axis? != lon.Axis? then MixedDimensions else SizeMismatch
    ensures r.Ok? ==> var (la, lo) := r.value;
      la.Grid? && lo.Grid? && WellShaped(la) && WellShaped(lo) && |la.cells| == |lo.cells|
    ensures r.Ok? && lat.Grid? ==> r.value.0 == lat && r.value.1.rows == lon.rows && r.value.1.cols == lon.cols
    ensures r.Ok? && lat.Axis? ==> r.value.0.rows == r.value.1.rows && r.value.0.cols == r.value.1.cols
  {
    if lat.Axis? && lon.Axis? then Ok((MeshLat(lat.values, lon.values), MeshLon(lat.values, lon.values)))
    else if lat.Grid? && lon.Grid? then
      if |lat.cells| == |lon.cells| then Ok((lat, Shift360(lon))) else Err(SizeMismatch)
    else Err(MixedDimensions)
  }

  /** Meshgrid cell (i, j) pairs latitude i with longitude j. */
  lemma MeshCells(lat: seq<real>, lon: seq<real>, i: nat, j: nat)
    requires i < |lat| && j < |lon|
    ensures i * |lon| + j < |lat| * |lon|
    ensures MeshLat(lat, lon).cells[i * |lon| + j] == lat[i]
    ensures MeshLon(lat, lon).cells[i * |lon| + j] == lon[j]
  {
    RowMajor(i, j, |lon|);
    MulMonotone(i + 1, |lat|, |lon|);
  }

  /** Two-dimensional grids keep their latitudes and shift their
      longitudes by -360, cell by cell. */
  lemma GridCells(lat: Coord, lon: Coord)
    requires WellShaped(lat) && WellShaped(lon) && lat.Grid? && lon.Grid?
    requires |lat.cells| == |lon.cells|
    ensures Grids(lat, lon).Ok?
    ensures var (la, lo) := Grids(lat, lon).value;
      la == lat && forall t :: 0 <= t < |lo.cells| ==> lo.cells[t] == lon.cells[t] - 360.0
  {
  }

  // ---------------------------------------------------------------------
  // The k smallest distances

  function Sq(x: real): real { x * x }

  /** Squared distance from each grid point to the target. */
  function Distances(la: seq<real>, lo: seq<real>, tlat: real, tlon: real): (d: seq<real>)
    requires |la| == |lo|
    ensures |d| == |la|
    ensures forall t :: 0 <= t < |d| ==> d[t] >= 0.0
  {
    seq(|la|, t requires 0 <= t < |la| => Sq(la[t] - tlat) + Sq(lo[t] - tlon))
  }

  predicate Distinct(s: seq<nat>)
  {
    forall a, b :: 0 <= a < b < |s| ==> s[a] != s[b]
  }

  /** `idxs` lists distinct indices of `d` in order of non-decreasing
      distance, each no farther than any index left out. */
  predicate KSmallest(d: seq<real>, idxs: seq<nat>)
  {
    && Distinct(idxs)
    && (forall a :: 0 <= a < |idxs| ==> idxs[a] < |d|)
    && (forall a, b :: 0 <= a < b < |idxs| ==> d[idxs[a]] <= d[idxs[b]])
    && (forall a, u :: 0 <= a < |idxs| && 0 <= u < |d| && u !in idxs ==> d[idxs[a]] <= d[u])
  }

  function Elements(s: seq<nat>): set<nat>
  {
    set x | x in s
  }

  lemma DistinctCard(s: seq<nat>)
    requires Distinct(s)
    ensures |Elements(s)| == |s|
  {
    if s != [] {
      var last := s[|s| - 1];
      var init := s[..|s| - 1];
      assert s == init + [last];
      assert Distinct(init);
      DistinctCard(init);
      assert Elements(s) == Elements(init) + {last};
      assert last !in init;
    }
  }

  /** The indices 0 .. n - 1. */
  function IndexSet(n: nat): (r: set<nat>)
    ensures forall u: nat :: u in r <==> u < n
  {
    if n == 0 then {}
    else
      var r := IndexSet(n - 1) + {n - 1};
      assert forall u: nat :: u in r <==> u < n by {
        forall u: nat ensures u in r <==> u < n {
          assert u in IndexSet(n - 1) <==> u < n - 1;
        }
      }
      r
  }

  lemma IndexSetCard(n: nat)
    ensures |IndexSet(n)| == n
  {
    if n > 0 {
      IndexSetCard(n - 1);
      assert IndexSet(n) == IndexSet(n - 1) + {n - 1};
    }
  }

  /** Fewer distinct indices than `n` leave some index below `n` out. */
  lemma SomeLeftOut(s: seq<nat>, n: nat)
    requires Distinct(s) && |s| < n
    ensures exists u :: 0 <= u < n && u !in s
  {
    DistinctCard(s);
    IndexSetCard(n);
    var r, e := IndexSet(n), Elements(s);
    assert r == (r - e) + (r * e);
    assert e == (r * e) + (e - r);
    assert |r - e| > 0;
    var u :| u in r - e;
    assert u < n && u !in s;
  }

  /** The index of the smallest distance not yet chosen (the first such
      index on a tie). */
  method NearestLeftOut(d: seq<real>, chosen: seq<nat>) returns (best: nat)
    requires Distinct(chosen) && |chosen| < |d|
    ensures best < |d| && best !in chosen
    ensures forall u :: 0 <= u < |d| && u !in chosen ==> d[best] <= d[u]
  {
    SomeLeftOut(chosen, |d|);
    var found := false;
    best := 0;
    for t := 0 to |d|
      invariant found ==> best < t && best !in chosen
      invariant found ==> forall u :: 0 <= u < t && u !in chosen ==> d[best] <= d[u]
      invariant !found ==> forall u :: 0 <= u < t ==> u in chosen
    {
      if t !in chosen && (!found || d[t] < d[best]) {
        best, found := t, true;
      }
    }
  }

  /** The `k` nearest grid points, nearest first. */
  method SelectNearest(d: seq<real>, k: nat) returns (idxs: seq<nat>)
    requires k <= |d|
    ensures |idxs| == k && KSmallest(d, idxs)
  {
    idxs := [];
    while |idxs| < k
      invariant |idxs| <= k && KSmallest(d, idxs)
    {
      var next := NearestLeftOut(d, idxs);
      idxs := idxs + [next];
    }
  }

  // ---------------------------------------------------------------------
  // nearest_points

  /** One neighbour: its coordinates, flat index, (row, column) and squared
      distance to the target. */
  datatype Neighbour = Neighbour(lat: real, lon: real, flatIndex: nat, i: nat, j: nat, dist2: real)

  predicate ByDistance(s: seq<Neighbour>)
  {
    forall a, b :: 0 <= a < b < |s| ==> s[a].dist2 <= s[b].dist2
  }

  /** Inserts `x` before the first entry that is not nearer. */
  function InsertByDistance(x: Neighbour, s: seq<Neighbour>): (r: seq<Neighbour>)
    ensures |r| == |s| + 1
  {
    if s == [] || x.dist2 <= s[0].dist2 then [x] + s else [s[0]] + InsertByDistance(x, s[1..])
  }

  /** `sorted(out, key=distance)`: a stable sort by distance. */
  function SortByDistance(s: seq<Neighbour>): (r: seq<Neighbour>)
    ensures |r| == |s|
  {
    if s == [] then [] else InsertByDistance(s[0], SortByDistance(s[1..]))
  }

  /** Sorting a list that is already in distance order leaves it as it
      is, so the final sort keeps the order of the selection. */
  lemma {:induction false} SortSortedIdentity(s: seq<Neighbour>)
    requires ByDistance(s)
    ensures SortByDistance(s) == s
  {
    if s != [] {
      SortSortedIdentity(s[1..]);
      assert [s[0]] + s[1..] == s;
    }
  }

  /** `g[i, j]`: the value at row i, column j of a 2-D grid. */
  function Cell(g: Coord, i: nat, j: nat): real
    requires g.Grid? && WellShaped(g) && i < g.rows && j < g.cols
  {
    MulMonotone(i + 1, g.rows, g.cols);
    g.cells[i * g.cols + j]
  }

  /** Whether flat index `idx`, split by `divmod` over the latitude grid's
      column count, names a row and column of the longitude grid. */
  predicate InLonShape(idx: nat, la: Coord, lo: Coord)
    requires la.Grid? && lo.Grid?
  {
    la.cols > 0 && idx / la.cols < lo.rows && idx % la.cols < lo.cols
  }

  /** On grids of one shape, every flat index of the grid is in range. */
  lemma SameShapeInRange(idx: nat, la: Coord, lo: Coord)
    requires la.Grid? && lo.Grid? && WellShaped(la) && la.rows == lo.rows && la.cols == lo.cols
    requires idx < |la.cells|
    ensures InLonShape(idx, la, lo)
  {
    SplitIndex(idx, la.rows, la.cols);
  }

  /** What each returned entry says about the grids: the row and column
      recompose its flat index over the latitude grid's shape, the latitude
      is that cell of the latitude grid and the longitude the cell of the
      same row and column of the longitude grid, and the distance is the
      searched point's. */
  predicate Describes(e: Neighbour, la: Coord, lo: Coord, tlat: real, tlon: real)
    requires la.Grid? && lo.Grid? && WellShaped(la) && WellShaped(lo) && |la.cells| == |lo.cells|
  {
    && e.flatIndex < |la.cells|
    && e.i < la.rows && e.j < la.cols && e.i * la.cols + e.j == e.flatIndex
    && e.i < lo.rows && e.j < lo.cols
    && e.lat == Cell(la, e.i, e.j) && e.lon == Cell(lo, e.i, e.j)
    && e.dist2 == Distances(la.cells, lo.cells, tlat, tlon)[e.flatIndex]
  }

  /** On grids of one shape, an entry's coordinates are those of the point
      that was searched. */
  lemma DescribesSearched(e: Neighbour, la: Coord, lo: Coord, tlat: real, tlon: real)
    requires la.Grid? && lo.Grid? && WellShaped(la) && WellShaped(lo) && la.rows == lo.rows && la.cols == lo.cols
    requires Describes(e, la, lo, tlat, tlon)
    ensures e.lat == la.cells[e.flatIndex] && e.lon == lo.cells[e.flatIndex]
  {
  }

  function FlatIndices(s: seq<Neighbour>): (r: seq<nat>)
    ensures |r| == |s|
  {
    seq(|s|, a requires 0 <= a < |s| => s[a].flatIndex)
  }

  /** The loop over the selected indices: one entry per index, in the
      same order, with the index split into row and column by `divmod` over
      the latitude grid's columns. Indexing the longitude grid with that row
      and column raises IndexError when it falls outside its shape. */
  method Describe(la: Coord, lo: Coord, tlat: real, tlon: real, idxs: seq<nat>)
      returns (r: Result<seq<Neighbour>, NearestError>)
    requires la.Grid? && lo.Grid? && WellShaped(la) && WellShaped(lo) && |la.cells| == |lo.cells|
    requires forall a :: 0 <= a < |idxs| ==> idxs[a] < |la.cells|
    ensures r.Err? <==> exists a :: 0 <= a < |idxs| && !InLonShape(idxs[a], la, lo)
    ensures r.Err? ==> r.error == LonIndexError
    ensures r.Ok? ==> FlatIndices(r.value) == idxs
    ensures r.Ok? ==> forall a :: 0 <= a < |r.value| ==> Describes(r.value[a], la, lo, tlat, tlon)
  {
    var d := Distances(la.cells, lo.cells, tlat, tlon);
    var out: seq<Neighbour> := [];
    for a := 0 to |idxs|
      invariant |out| == a
      invariant forall b :: 0 <= b < a ==> InLonShape(idxs[b], la, lo)
      invariant forall b :: 0 <= b < a ==> out[b].flatIndex == idxs[b]
      invariant forall b :: 0 <= b < a ==> Describes(out[b], la, lo, tlat, tlon)
    {
      var idx := idxs[a];
      SplitIndex(idx, la.rows, la.cols);
      var i, j := idx / la.cols, idx % la.cols;
      if i >= lo.rows || j >= lo.cols {
        return Err(LonIndexError);
      }
      out := out + [Neighbour(Cell(la, i, j), Cell(lo, i, j), idx, i, j, d[idx])];
    }
    return Ok(out);
  }

  /** Entries describing a k-smallest selection are in distance order. */
  lemma SelectionByDistance(out: seq<Neighbour>, la: Coord, lo: Coord, tlat: real, tlon: real)
    requires la.Grid? && lo.Grid? && WellShaped(la) && WellShaped(lo) && |la.cells| == |lo.cells|
    requires forall a :: 0 <= a < |out| ==> Describes(out[a], la, lo, tlat, tlon)
    requires KSmallest(Distances(la.cells, lo.cells, tlat, tlon), FlatIndices(out))
    ensures ByDistance(out)
  {
    var d := Distances(la.cells, lo.cells, tlat, tlon);
    var f := FlatIndices(out);
    forall a, b | 0 <= a < b < |out|
      ensures out[a].dist2 <= out[b].dist2
    {
      assert f[a] == out[a].flatIndex && f[b] == out[b].flatIndex;
    }
  }

  /** nearest_points: rejects one-dimensional with two-dimensional
      coordinates and two grids of different sizes, meshgrids two axes,
      shifts a two-dimensional longitude grid by -360, then returns the `k`
      grid points nearest the target, nearest first, each with its row and
      column over the latitude grid's shape. Asking for more points than
      the grid has is an error, and so is a chosen row and column outside a
      longitude grid of another shape. */
  method NearestPoints(lat: Coord, lon: Coord, tlat: real, tlon: real, k: nat)
      returns (r: Result<seq<Neighbour>, NearestError>)
    requires WellShaped(lat) && WellShaped(lon) && 1 <= k
    ensures Grids(lat, lon).Err? ==> r == Err(Grids(lat, lon).error)
    ensures Grids(lat, lon).Ok? ==> var (la, lo) := Grids(lat, lon).value;
      var d := Distances(la.cells, lo.cells, tlat, tlon);
      && (r == Err(TooFewPoints) <==> k > |la.cells|)
      && (r.Err? ==> r.error == TooFewPoints || r.error == LonIndexError)
      && (r == Err(LonIndexError) ==>
            && (la.rows, la.cols) != (lo.rows, lo.cols)
            && exists idxs :: |idxs| == k && KSmallest(d, idxs) &&
                 exists a :: 0 <= a < k && !InLonShape(idxs[a], la, lo))
      && ((la.rows, la.cols) == (lo.rows, lo.cols) && k <= |la.cells| ==> r.Ok?)
      && (r.Ok? ==>
            && |r.value| == k
            && ByDistance(r.value)
            && (forall a :: 0 <= a < k ==> Describes(r.value[a], la, lo, tlat, tlon))
            && KSmallest(d, FlatIndices(r.value)))
  {
    var grids := Grids(lat, lon);
    if grids.Err? {
      return Err(grids.error);
    }
    var la, lo := grids.value.0, grids.value.1;
    if k > |la.cells| {
      return Err(TooFewPoints);
    }
    var d := Distances(la.cells, lo.cells, tlat, tlon);
    var idxs := SelectNearest(d, k);
    if (la.rows, la.cols) == (lo.rows, lo.cols) {
      forall a | 0 <= a < |idxs|
        ensures InLonShape(idxs[a], la, lo)
      {
        SameShapeInRange(idxs[a], la, lo);
      }
    }
    var described := Describe(la, lo, tlat, tlon, idxs);
    if described.Err? {
      if (la.rows, la.cols) == (lo.rows, lo.cols) {
        assert false;
      }
      return described;
    }
    var out := described.value;
    SelectionByDistance(out, la, lo, tlat, tlon);
    SortSortedIdentity(out);
    out := SortByDistance(out);
    return Ok(out);
  }
}
