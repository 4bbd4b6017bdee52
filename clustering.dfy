/**
 * Grid clustering of photo markers on the map (app/page.tsx): the zoom
 * default and clamp, the cell-size table, grouping photos by grid cell,
 * the centre of a cluster, the marker list and the marker click rule.
 */
module Clustering {
  import opened Wrappers
  import opened Photos

  const DefaultZoom: int := 12
  const MinZoom: int := 0
  const MaxZoom: int := 20

  // ---------------------------------------------------------------------
  // Zoom and cell size
  // ---------------------------------------------------------------------

  /**
   * `map.getZoom() || 12`: an absent zoom and zoom 0 (which JavaScript
   * treats as false) both become the default 12.
   */
  function EffectiveZoom(zoom: Option<int>): (z: int)
    ensures zoom.Some? && zoom.value != 0 ==> z == zoom.value
    ensures zoom.None? || zoom.value == 0 ==> z == DefaultZoom
    ensures z != 0
  {
    if zoom.Some? && zoom.value != 0 then zoom.value else DefaultZoom
  }

  /** `Math.min(Math.max(z, 0), 20)`. */
  function Clamp(z: int): (c: int)
    ensures MinZoom <= c <= MaxZoom
    ensures MinZoom <= z <= MaxZoom ==> c == z
    ensures z < MinZoom ==> c == MinZoom
    ensures z > MaxZoom ==> c == MaxZoom
  {
    if z < MinZoom then MinZoom else if z > MaxZoom then MaxZoom else z
  }

  /** The `gridSizes` table: side of a grid cell, in degrees, per zoom level. */
  function GridSize(z: int): real
    requires MinZoom <= z <= MaxZoom
  {
    if z == 20 then 0.0001
    else if z == 19 then 0.0002
    else if z == 18 then 0.0004
    else if z == 17 then 0.0008
    else if z == 16 then 0.0016
    else if z == 15 then 0.0032
    else if z == 14 then 0.0064
    else if z == 13 then 0.0128
    else if z == 12 then 0.0256
    else if z == 11 then 0.0512
    else if z == 10 then 0.1024
    else if z == 9 then 0.2048
    else if z == 8 then 0.4096
    else if z == 7 then 0.8192
    else if z == 6 then 1.6384
    else if z == 5 then 3.2768
    else if z == 4 then 6.5536
    else if z == 3 then 13.1072
    else if z == 2 then 26.2144
    else if z == 1 then 52.4288
    else 104.8576
  }

  function Pow2(n: nat): (p: nat)
    ensures p >= 1
  {
    if n == 0 then 1 else 2 * Pow2(n - 1)
  }

  /** Each table entry is twice the next one: the cell side halves per zoom step. */
  lemma GridSizeHalves(z: int)
    requires MinZoom <= z < MaxZoom
    ensures GridSize(z) == 2.0 * GridSize(z + 1)
  {
  }

  /** The table is exactly `0.0001 * 2^(20 - z)`. */
  lemma {:induction false} GridSizeIsPowerOfTwo(z: int)
    requires MinZoom <= z <= MaxZoom
    ensures GridSize(z) == 0.0001 * (Pow2(MaxZoom - z) as real)
    decreases MaxZoom - z
  {
    if z < MaxZoom {
      GridSizeIsPowerOfTwo(z + 1);
      GridSizeHalves(z);
      assert Pow2(MaxZoom - z) == 2 * Pow2(MaxZoom - (z + 1));
    }
  }

  /** Zooming in never makes the cells larger. */
  lemma {:induction false} GridSizeAntitone(z1: int, z2: int)
    requires MinZoom <= z1 <= z2 <= MaxZoom
    ensures 0.0 < GridSize(z2) <= GridSize(z1)
    decreases z2 - z1
  {
    if z1 == z2 {
      GridSizeIsPowerOfTwo(z1);
    } else {
      GridSizeAntitone(z1 + 1, z2);
      GridSizeHalves(z1);
    }
  }

  /** The cell side used for a (possibly absent) zoom reading, lines 85 and 111. */
  function CellSize(zoom: Option<int>): (size: real)
    ensures size > 0.0
    ensures size == 0.0001 * (Pow2(MaxZoom - Clamp(EffectiveZoom(zoom))) as real)
  {
    var z := Clamp(EffectiveZoom(zoom));
    GridSizeIsPowerOfTwo(z);
    GridSize(z)
  }

  /**
   * Zoom 0 is read as 12, not as 0: the zoom-0 table entry is reached only
   * by negative zoom readings.
   */
  lemma ZoomZeroReadsAsDefault()
    ensures CellSize(Some(0)) == CellSize(None) == GridSize(12)
    ensures forall z :: z < 0 ==> CellSize(Some(z)) == GridSize(0)
    ensures forall z :: z > MaxZoom ==> CellSize(Some(z)) == GridSize(MaxZoom)
  {
  }

  // ---------------------------------------------------------------------
  // Grid cells
  // ---------------------------------------------------------------------

  /** A grid cell: `(floor(lng / size), floor(lat / size))`. */
  type Cell = (int, int)

  datatype LatLng = LatLng(lat: real, lng: real)

  function Position(p: Photo): LatLng {
    LatLng(p.latitude, p.longitude)
  }

  /** `x` lies in the half-open interval of grid index `k` at cell side `size`. */
  ghost predicate InInterval(x: real, k: int, size: real) {
    (k as real) * size <= x < (k as real + 1.0) * size
  }

  /** Multiplying both sides by a positive factor keeps the order. */
  lemma ScaleOrder(a: real, b: real, s: real)
    requires s > 0.0
    ensures a <= b <==> a * s <= b * s
    ensures a < b <==> a * s < b * s
  {
  }

  /** `floor(x / size)` is the unique index whose interval holds `x`. */
  lemma FloorIndex(x: real, size: real, k: int)
    requires size > 0.0
    ensures InInterval(x, (x / size).Floor, size)
    ensures InInterval(x, k, size) ==> (x / size).Floor == k
  {
    var q := x / size;
    var f := q.Floor;
    assert q * size == x;
    ScaleOrder(f as real, q, size);
    ScaleOrder(q, f as real + 1.0, size);
    ScaleOrder(k as real, q, size);
    ScaleOrder(q, k as real + 1.0, size);
  }

  function CellOfPoint(pos: LatLng, size: real): (c: Cell)
    requires size > 0.0
    ensures InInterval(pos.lng, c.0, size) && InInterval(pos.lat, c.1, size)
  {
    FloorIndex(pos.lng, size, 0);
    FloorIndex(pos.lat, size, 0);
    ((pos.lng / size).Floor, (pos.lat / size).Floor)
  }

  /** The cell a photo falls in (lines 117-119). */
  function CellOf(p: Photo, size: real): Cell
    requires size > 0.0
  {
    CellOfPoint(Position(p), size)
  }

  // ---------------------------------------------------------------------
  // Grouping: the reference definition
  // ---------------------------------------------------------------------

  /** The photos of `photos` that fall in cell `c`, in input order. */
  function Members(photos: seq<Photo>, size: real, c: Cell): seq<Photo>
    requires size > 0.0
    decreases |photos|
  {
    if |photos| == 0 then []
    else
      var last := photos[|photos| - 1];
      Members(photos[..|photos| - 1], size, c) + (if CellOf(last, size) == c then [last] else [])
  }

  function CellsOf(photos: seq<Photo>, size: real): set<Cell>
    requires size > 0.0
  {
    set p | p in photos :: CellOf(p, size)
  }

  /** The grid the clustering loop builds: one entry per occupied cell. */
  function Grid(photos: seq<Photo>, size: real): map<Cell, seq<Photo>>
    requires size > 0.0
  {
    map c | c in CellsOf(photos, size) :: Members(photos, size, c)
  }

  lemma {:induction false} MembersIff(photos: seq<Photo>, size: real, c: Cell, x: Photo)
    requires size > 0.0
    ensures x in Members(photos, size, c) <==> x in photos && CellOf(x, size) == c
    decreases |photos|
  {
    if |photos| > 0 {
      var init := photos[..|photos| - 1];
      MembersIff(init, size, c, x);
      assert photos == init + [photos[|photos| - 1]];
    }
  }

  /** Nothing is lost and nothing is duplicated: a cell holds every copy of each of its photos. */
  lemma {:induction false} MembersCount(photos: seq<Photo>, size: real, c: Cell, x: Photo)
    requires size > 0.0
    ensures multiset(Members(photos, size, c))[x] == if CellOf(x, size) == c then multiset(photos)[x] else 0
    decreases |photos|
  {
    if |photos| > 0 {
      var init := photos[..|photos| - 1];
      MembersCount(init, size, c, x);
      assert photos == init + [photos[|photos| - 1]];
    }
  }

  /** Appending photos appends to each cluster: clusters keep the input order. */
  lemma {:induction false} MembersAppend(a: seq<Photo>, b: seq<Photo>, size: real, c: Cell)
    requires size > 0.0
    ensures Members(a + b, size, c) == Members(a, size, c) + Members(b, size, c)
    decreases |b|
  {
    if |b| == 0 {
      assert a + b == a;
    } else {
      var init := b[..|b| - 1];
      MembersAppend(a, init, size, c);
      assert (a + b)[..|a + b| - 1] == a + init;
    }
  }

  lemma MembersOutside(photos: seq<Photo>, size: real, c: Cell)
    requires size > 0.0
    requires c !in CellsOf(photos, size)
    ensures Members(photos, size, c) == []
  {
    if Members(photos, size, c) != [] {
      var x := Members(photos, size, c)[0];
      MembersIff(photos, size, c, x);
      assert false;
    }
  }

  lemma CellsOfSnoc(photos: seq<Photo>, p: Photo, size: real)
    requires size > 0.0
    ensures CellsOf(photos + [p], size) == CellsOf(photos, size) + {CellOf(p, size)}
  {
    var s := photos + [p];
    forall c | c in CellsOf(s, size) ensures c in CellsOf(photos, size) + {CellOf(p, size)} {
      var x :| x in s && CellOf(x, size) == c;
      if x != p { assert x in photos; }
    }
    forall c | c in CellsOf(photos, size) + {CellOf(p, size)} ensures c in CellsOf(s, size) {
      if c != CellOf(p, size) {
        var x :| x in photos && CellOf(x, size) == c;
        assert x in s;
      } else {
        assert p in s;
      }
    }
  }

  /** The grid after one more photo: the photo is pushed onto its cell's list. */
  lemma GridSnoc(photos: seq<Photo>, p: Photo, size: real)
    requires size > 0.0
    ensures var g := Grid(photos, size);
            var k := CellOf(p, size);
            Grid(photos + [p], size) == g[k := (if k in g then g[k] else []) + [p]]
  {
    var g := Grid(photos, size);
    var k := CellOf(p, size);
    var s := photos + [p];
    var rhs := g[k := (if k in g then g[k] else []) + [p]];
    assert s[..|s| - 1] == photos;
    CellsOfSnoc(photos, p, size);
    assert Grid(s, size).Keys == rhs.Keys;
    if k !in g {
      MembersOutside(photos, size, k);
    }
    forall c | c in rhs ensures Grid(s, size)[c] == rhs[c] {
      assert Members(s, size, c) == Members(photos, size, c) + (if k == c then [p] else []);
    }
  }

  // ---------------------------------------------------------------------
  // Grouping: properties
  // ---------------------------------------------------------------------

  /** Empty input yields an empty grid. */
  lemma GridEmpty(size: real)
    requires size > 0.0
    ensures Grid([], size) == map[]
  {
  }

  /** Every cluster is non-empty. */
  lemma GridClustersNonEmpty(photos: seq<Photo>, size: real, c: Cell)
    requires size > 0.0
    requires c in Grid(photos, size)
    ensures |Grid(photos, size)[c]| > 0
  {
    var p :| p in photos && CellOf(p, size) == c;
    MembersIff(photos, size, c, p);
  }

  /** A photo is in cluster `c` exactly when it is an input photo whose cell is `c`. */
  lemma GridMembership(photos: seq<Photo>, size: real, c: Cell, x: Photo)
    requires size > 0.0
    ensures (c in Grid(photos, size) && x in Grid(photos, size)[c]) <==> (x in photos && CellOf(x, size) == c)
  {
    MembersIff(photos, size, c, x);
  }

  /**
   * The grid is a partition: each input photo occurs in the cluster of its
   * own cell as many times as in the input, and in no other cluster.
   */
  lemma GridPartition(photos: seq<Photo>, size: real, x: Photo)
    requires size > 0.0
    requires x in photos
    ensures CellOf(x, size) in Grid(photos, size)
    ensures multiset(Grid(photos, size)[CellOf(x, size)])[x] == multiset(photos)[x]
    ensures forall c :: c in Grid(photos, size) && c != CellOf(x, size) ==> x !in Grid(photos, size)[c]
  {
    MembersCount(photos, size, CellOf(x, size), x);
    forall c | c in Grid(photos, size) && c != CellOf(x, size)
      ensures x !in Grid(photos, size)[c]
    {
      MembersIff(photos, size, c, x);
    }
  }

  /** Two input photos share a cluster exactly when their cells are equal. */
  lemma SameClusterIffSameCell(photos: seq<Photo>, size: real, p: Photo, q: Photo)
    requires size > 0.0
    requires p in photos && q in photos
    ensures (exists c :: c in Grid(photos, size) && p in Grid(photos, size)[c] && q in Grid(photos, size)[c])
            <==> CellOf(p, size) == CellOf(q, size)
  {
    var g := Grid(photos, size);
    if CellOf(p, size) == CellOf(q, size) {
      var c := CellOf(p, size);
      MembersIff(photos, size, c, p);
      MembersIff(photos, size, c, q);
      assert c in g && p in g[c] && q in g[c];
    }
    forall c | c in g && p in g[c] && q in g[c]
      ensures CellOf(p, size) == CellOf(q, size)
    {
      MembersIff(photos, size, c, p);
      MembersIff(photos, size, c, q);
    }
  }

  // ---------------------------------------------------------------------
  // Grouping: the loop (lines 114-125)
  // ---------------------------------------------------------------------

  /** Pushes each photo onto the list of its cell, creating the list on first use. */
  method BuildGrid(photos: seq<Photo>, size: real) returns (grid: map<Cell, seq<Photo>>)
    requires size > 0.0
    ensures grid == Grid(photos, size)
  {
    grid := map[];
    var i := 0;
    while i < |photos|
      invariant 0 <= i <= |photos|
      invariant grid == Grid(photos[..i], size)
    {
      var photo := photos[i];
      var key := CellOf(photo, size);
      if key !in grid {
        grid := grid[key := []];
      }
      grid := grid[key := grid[key] + [photo]];
      GridSnoc(photos[..i], photo, size);
      assert photos[..i + 1] == photos[..i] + [photo];
      i := i + 1;
    }
    assert photos[..i] == photos;
  }

  // ---------------------------------------------------------------------
  // Cluster centre (lines 56-60)
  // ---------------------------------------------------------------------

  /** `reduce((sum, x) => sum + x, 0)`, folding from the left. */
  function Sum(xs: seq<real>): real
    decreases |xs|
  {
    if |xs| == 0 then 0.0 else Sum(xs[..|xs| - 1]) + xs[|xs| - 1]
  }

  lemma SumOfOne(xs: seq<real>)
    ensures |xs| == 1 ==> Sum(xs) == xs[0]
  {
    if |xs| == 1 {
      assert xs[..0] == [];
    }
  }

  function Mean(xs: seq<real>): real
    requires |xs| > 0
  {
    Sum(xs) / (|xs| as real)
  }

  function Lats(photos: seq<Photo>): (xs: seq<real>)
    ensures |xs| == |photos| && forall i :: 0 <= i < |xs| ==> xs[i] == photos[i].latitude
  {
    seq(|photos|, i requires 0 <= i < |photos| => photos[i].latitude)
  }

  function Lngs(photos: seq<Photo>): (xs: seq<real>)
    ensures |xs| == |photos| && forall i :: 0 <= i < |xs| ==> xs[i] == photos[i].longitude
  {
    seq(|photos|, i requires 0 <= i < |photos| => photos[i].longitude)
  }

  /** `calculateClusterCenter`: the mean latitude and mean longitude of the cluster. */
  function ClusterCenter(cluster: seq<Photo>): (center: LatLng)
    requires |cluster| > 0
    ensures |cluster| == 1 ==> center == Position(cluster[0])
  {
    SumOfOne(Lats(cluster));
    SumOfOne(Lngs(cluster));
    LatLng(Mean(Lats(cluster)), Mean(Lngs(cluster)))
  }

  lemma {:induction false} SumBounds(xs: seq<real>, lo: real, hi: real)
    requires forall i :: 0 <= i < |xs| ==> lo <= xs[i] < hi
    ensures (|xs| as real) * lo <= Sum(xs)
    ensures |xs| > 0 ==> Sum(xs) < (|xs| as real) * hi
    decreases |xs|
  {
    if |xs| > 0 {
      var init := xs[..|xs| - 1];
      SumBounds(init, lo, hi);
      assert (|xs| as real) * lo == (|init| as real) * lo + lo;
      assert (|xs| as real) * hi == (|init| as real) * hi + hi;
    }
  }

  /** The mean of values in `[lo, hi)` lies in `[lo, hi)`. */
  lemma MeanWithin(xs: seq<real>, lo: real, hi: real)
    requires |xs| > 0
    requires forall i :: 0 <= i < |xs| ==> lo <= xs[i] < hi
    ensures lo <= Mean(xs) < hi
  {
    SumBounds(xs, lo, hi);
    var n := |xs| as real;
    assert Mean(xs) * n == Sum(xs);
    ScaleOrder(lo, Mean(xs), n);
    ScaleOrder(Mean(xs), hi, n);
  }

  /** The centre of a cluster with members in a latitude/longitude box lies in that box. */
  lemma CenterWithinBounds(cluster: seq<Photo>, south: real, north: real, west: real, east: real)
    requires |cluster| > 0
    requires forall p :: p in cluster ==> south <= p.latitude < north && west <= p.longitude < east
    ensures south <= ClusterCenter(cluster).lat < north
    ensures west <= ClusterCenter(cluster).lng < east
  {
    assert forall i :: 0 <= i < |cluster| ==> cluster[i] in cluster;
    MeanWithin(Lats(cluster), south, north);
    MeanWithin(Lngs(cluster), west, east);
  }

  /** Every member of the cluster of cell `c` lies in the square of `c`. */
  lemma ClusterInCellSquare(photos: seq<Photo>, size: real, c: Cell, p: Photo)
    requires size > 0.0
    requires c in Grid(photos, size) && p in Grid(photos, size)[c]
    ensures InInterval(p.latitude, c.1, size) && InInterval(p.longitude, c.0, size)
  {
    MembersIff(photos, size, c, p);
  }

  /** The marker of a cluster is placed inside the cluster's own grid cell. */
  lemma CenterInCell(photos: seq<Photo>, size: real, c: Cell)
    requires size > 0.0
    requires c in Grid(photos, size)
    ensures |Grid(photos, size)[c]| > 0
    ensures CellOfPoint(ClusterCenter(Grid(photos, size)[c]), size) == c
  {
    GridClustersNonEmpty(photos, size, c);
    var cluster := Grid(photos, size)[c];
    var south, north := (c.1 as real) * size, (c.1 as real + 1.0) * size;
    var west, east := (c.0 as real) * size, (c.0 as real + 1.0) * size;
    forall p | p in cluster
      ensures south <= p.latitude < north && west <= p.longitude < east
    {
      ClusterInCellSquare(photos, size, c, p);
    }
    CenterWithinBounds(cluster, south, north, west, east);
    var center := ClusterCenter(cluster);
    assert InInterval(center.lng, c.0, size) && InInterval(center.lat, c.1, size);
    FloorIndex(center.lng, size, c.0);
    FloorIndex(center.lat, size, c.1);
  }

  // ---------------------------------------------------------------------
  // Zooming refines the grid
  // ---------------------------------------------------------------------

  /** The cell containing a cell of half the side (floor division by 2). */
  function Parent(c: Cell): Cell {
    (c.0 / 2, c.1 / 2)
  }

  /** `floor(x / 2s) == floor(floor(x / s) / 2)`. */
  lemma FloorHalf(x: real, s: real)
    requires s > 0.0
    ensures (x / (2.0 * s)).Floor == (x / s).Floor / 2
  {
    var n := (x / s).Floor;
    var m := n / 2;
    FloorIndex(x, s, n);
    assert 2 * m <= n <= 2 * m + 1;
    ScaleOrder((2 * m) as real, n as real, s);
    ScaleOrder((n + 1) as real, (2 * m + 2) as real, s);
    assert (m as real) * (2.0 * s) == ((2 * m) as real) * s;
    assert (m as real + 1.0) * (2.0 * s) == ((2 * m + 2) as real) * s;
    FloorIndex(x, 2.0 * s, m);
  }

  /** A photo's cell at one zoom level is the parent of its cell one level further in. */
  lemma CellOfZoomOut(p: Photo, z: int)
    requires MinZoom <= z < MaxZoom
    ensures GridSize(z) > 0.0 && GridSize(z + 1) > 0.0
    ensures CellOf(p, GridSize(z)) == Parent(CellOf(p, GridSize(z + 1)))
  {
    GridSizeAntitone(z, z + 1);
    GridSizeHalves(z);
    FloorHalf(p.longitude, GridSize(z + 1));
    FloorHalf(p.latitude, GridSize(z + 1));
  }

  function ParentImage(cells: set<Cell>): set<Cell> {
    set c | c in cells :: Parent(c)
  }

  lemma {:induction false} ParentImageCard(cells: set<Cell>)
    ensures |ParentImage(cells)| <= |cells|
    decreases |cells|
  {
    if cells != {} {
      var x :| x in cells;
      var rest := cells - {x};
      ParentImageCard(rest);
      var bigger := ParentImage(rest) + {Parent(x)};
      assert ParentImage(cells) <= bigger;
      assert bigger == ParentImage(cells) + (bigger - ParentImage(cells));
    }
  }

  /** The occupied cells one level out are the parents of the occupied cells one level in. */
  lemma CellsOfZoomOut(photos: seq<Photo>, z: int)
    requires MinZoom <= z < MaxZoom
    ensures GridSize(z) > 0.0 && GridSize(z + 1) > 0.0
    ensures CellsOf(photos, GridSize(z)) == ParentImage(CellsOf(photos, GridSize(z + 1)))
  {
    GridSizeAntitone(z, z + 1);
    var coarse, fine := GridSize(z), GridSize(z + 1);
    forall c | c in CellsOf(photos, coarse) ensures c in ParentImage(CellsOf(photos, fine)) {
      var p :| p in photos && CellOf(p, coarse) == c;
      CellOfZoomOut(p, z);
      assert CellOf(p, fine) in CellsOf(photos, fine);
    }
    forall c | c in ParentImage(CellsOf(photos, fine)) ensures c in CellsOf(photos, coarse) {
      var d :| d in CellsOf(photos, fine) && Parent(d) == c;
      var p :| p in photos && CellOf(p, fine) == d;
      CellOfZoomOut(p, z);
    }
  }

  /**
   * Zooming in never merges clusters: photos that share a cell at a finer
   * level share it at every coarser level, so there are never fewer
   * clusters at a higher zoom.
   */
  lemma {:induction false} ClusterCountMonotone(photos: seq<Photo>, z1: int, z2: int)
    requires MinZoom <= z1 <= z2 <= MaxZoom
    ensures GridSize(z1) > 0.0 && GridSize(z2) > 0.0
    ensures |Grid(photos, GridSize(z1))| <= |Grid(photos, GridSize(z2))|
    decreases z2 - z1
  {
    GridSizeAntitone(z1, z2);
    if z1 < z2 {
      ClusterCountMonotone(photos, z1 + 1, z2);
      CellsOfZoomOut(photos, z1);
      ParentImageCard(CellsOf(photos, GridSize(z1 + 1)));
      assert Grid(photos, GridSize(z1)).Keys == CellsOf(photos, GridSize(z1));
      assert Grid(photos, GridSize(z1 + 1)).Keys == CellsOf(photos, GridSize(z1 + 1));
    }
  }

  /**
   * The same for the zoom the map reports, unless the lower reading is 0:
   * a reading of 0 is taken as 12 (see `ZoomZeroToOneMerges`). Zooming
   * out from 0 itself is harmless, since every lower reading clamps to 0.
   */
  lemma ReadZoomCountMonotone(photos: seq<Photo>, z1: int, z2: int)
    requires z1 <= z2 && z1 != 0
    ensures |Grid(photos, CellSize(Some(z1)))| <= |Grid(photos, CellSize(Some(z2)))|
  {
    assert EffectiveZoom(Some(z1)) == z1;
    var c1, c2 := Clamp(z1), Clamp(EffectiveZoom(Some(z2)));
    assert c1 <= c2;
    GridSizeIsPowerOfTwo(c1);
    GridSizeIsPowerOfTwo(c2);
    assert CellSize(Some(z1)) == GridSize(c1) && CellSize(Some(z2)) == GridSize(c2);
    ClusterCountMonotone(photos, c1, c2);
  }

  /** Two photos make as many clusters as they occupy distinct cells. */
  lemma GridOfPair(p: Photo, q: Photo, size: real)
    requires size > 0.0
    ensures |Grid([p, q], size)| == |{CellOf(p, size), CellOf(q, size)}|
  {
    assert CellsOf([p, q], size) == {CellOf(p, size), CellOf(q, size)};
    assert Grid([p, q], size).Keys == CellsOf([p, q], size);
  }

  /**
   * Zooming in from a reading of 0 to 1 can merge clusters: 0 is read as
   * 12, whose cells are far smaller than those of zoom 1.
   */
  lemma ZoomZeroToOneMerges()
    ensures var ps := [Photo("a", "", None, 0.0, 0.0, 0.0, 0.0), Photo("b", "", None, 0.0, 0.0, 0.0, 0.03)];
            |Grid(ps, CellSize(Some(0)))| == 2 && |Grid(ps, CellSize(Some(1)))| == 1
  {
    var p, q := Photo("a", "", None, 0.0, 0.0, 0.0, 0.0), Photo("b", "", None, 0.0, 0.0, 0.0, 0.03);
    var fine, coarse := CellSize(Some(0)), CellSize(Some(1));
    assert fine == 0.0256 && coarse == 52.4288;
    assert CellOf(p, fine) == (0, 0) by { FloorIndex(0.0, fine, 0); }
    assert CellOf(q, fine) == (1, 0) by { FloorIndex(0.0, fine, 0); FloorIndex(0.03, fine, 1); }
    assert CellOf(p, coarse) == (0, 0) by { FloorIndex(0.0, coarse, 0); }
    assert CellOf(q, coarse) == (0, 0) by { FloorIndex(0.0, coarse, 0); FloorIndex(0.03, coarse, 0); }
    GridOfPair(p, q, fine);
    GridOfPair(p, q, coarse);
  }

  // ---------------------------------------------------------------------
  // Markers (lines 82-83, 127-151)
  // ---------------------------------------------------------------------

  /** What a click on a marker does. */
  datatype ClickAction = SelectPhoto(photo: Photo) | ZoomIn(zoom: int, center: LatLng)

  /**
   * The click listener: a lone photo is selected; otherwise the map zooms
   * in by two levels, capped at 20, and is centred on the cluster.
   */
  function OnMarkerClick(cluster: seq<Photo>, zoom: Option<int>): (a: ClickAction)
    requires |cluster| > 0
    ensures a.SelectPhoto? <==> |cluster| == 1
    ensures a.SelectPhoto? ==> a.photo == cluster[0]
    ensures a.ZoomIn? ==> a.center == ClusterCenter(cluster)
    ensures a.ZoomIn? ==> a.zoom <= MaxZoom && a.zoom <= EffectiveZoom(zoom) + 2
    ensures a.ZoomIn? && EffectiveZoom(zoom) <= MaxZoom - 2 ==> a.zoom == EffectiveZoom(zoom) + 2
    ensures a.ZoomIn? && EffectiveZoom(zoom) >= MaxZoom - 2 ==> a.zoom == MaxZoom
  {
    if |cluster| == 1 then SelectPhoto(cluster[0])
    else
      var z := EffectiveZoom(zoom) + 2;
      ZoomIn(if z < MaxZoom then z else MaxZoom, ClusterCenter(cluster))
  }

  /**
   * Clicking a multi-photo cluster never makes the cells larger, and from
   * a zoom in 0..18 it makes them exactly four times smaller.
   */
  lemma ZoomInRefines(cluster: seq<Photo>, zoom: Option<int>)
    requires |cluster| > 1
    ensures OnMarkerClick(cluster, zoom).ZoomIn?
    ensures CellSize(Some(OnMarkerClick(cluster, zoom).zoom)) <= CellSize(zoom)
    ensures MinZoom <= EffectiveZoom(zoom) <= MaxZoom - 2 ==>
              CellSize(Some(OnMarkerClick(cluster, zoom).zoom)) * 4.0 == CellSize(zoom)
  {
    var e := EffectiveZoom(zoom);
    var n := OnMarkerClick(cluster, zoom).zoom;
    if n == 0 {
      GridSizeAntitone(MinZoom, DefaultZoom);
    } else {
      assert EffectiveZoom(Some(n)) == n;
      GridSizeAntitone(Clamp(e), Clamp(n));
      if MinZoom <= e <= MaxZoom - 2 {
        GridSizeHalves(e);
        GridSizeHalves(e + 1);
      }
    }
  }

  /** One map marker: the cell it stands for, where it is placed and its photos. */
  datatype Marker = Marker(cell: Cell, position: LatLng, cluster: seq<Photo>)

  /** `m` stands for an occupied cell of `grid`, holds its photos and sits at their centre. */
  ghost predicate MarkerFor(m: Marker, grid: map<Cell, seq<Photo>>) {
    && m.cell in grid
    && m.cluster == grid[m.cell]
    && |m.cluster| > 0
    && m.position == ClusterCenter(m.cluster)
  }

  /** `ms` shows `grid`: one marker per occupied cell, at the cluster's centre. */
  ghost predicate ShowsGrid(ms: seq<Marker>, grid: map<Cell, seq<Photo>>) {
    && (forall i :: 0 <= i < |ms| ==> MarkerFor(ms[i], grid))
    && (forall i, j :: 0 <= i < j < |ms| ==> ms[i].cell != ms[j].cell)
    && (forall c :: c in grid ==> exists i :: 0 <= i < |ms| && ms[i].cell == c)
  }

  /** The markers on the map, cleared and refilled by each debounced update. */
  class MarkerLayer {
    var markers: seq<Marker>

    constructor ()
      ensures markers == []
    {
      markers := [];
    }

    /**
     * Takes the old markers off, groups the photos at the current zoom and
     * adds one marker per cluster.
     */
    method Update(photos: seq<Photo>, zoom: Option<int>)
      modifies this
      ensures ShowsGrid(markers, Grid(photos, CellSize(zoom)))
      ensures |markers| == |Grid(photos, CellSize(zoom))|
    {
      markers := [];
      var size := CellSize(zoom);
      var grid := BuildGrid(photos, size);
      forall c | c in grid ensures |grid[c]| > 0 {
        GridClustersNonEmpty(photos, size, c);
      }
      markers := MarkersOf(grid);
    }
  }

  /**
   * The markers placed while `remaining` cells are still to go: each
   * stands for a done cell, no two for the same cell, and every done cell
   * has one.
   */
  ghost predicate PlacedSoFar(ms: seq<Marker>, grid: map<Cell, seq<Photo>>, remaining: set<Cell>) {
    && remaining <= grid.Keys
    && (forall i :: 0 <= i < |ms| ==> MarkerFor(ms[i], grid) && ms[i].cell !in remaining)
    && (forall i, j :: 0 <= i < j < |ms| ==> ms[i].cell != ms[j].cell)
    && (forall c :: c in grid && c !in remaining ==> exists i :: 0 <= i < |ms| && ms[i].cell == c)
  }

  /** Placing the marker of one more cell keeps `PlacedSoFar`. */
  lemma PlaceOne(ms: seq<Marker>, grid: map<Cell, seq<Photo>>, remaining: set<Cell>, c: Cell)
    requires PlacedSoFar(ms, grid, remaining)
    requires c in remaining && |grid[c]| > 0
    ensures PlacedSoFar(ms + [Marker(c, ClusterCenter(grid[c]), grid[c])], grid, remaining - {c})
  {
    var m := Marker(c, ClusterCenter(grid[c]), grid[c]);
    var ms' := ms + [m];
    assert MarkerFor(m, grid);
    forall d | d in grid && d !in remaining - {c}
      ensures exists i :: 0 <= i < |ms'| && ms'[i].cell == d
    {
      if d == c {
        assert ms'[|ms'| - 1].cell == d;
      } else {
        var i :| 0 <= i < |ms| && ms[i].cell == d;
        assert ms'[i].cell == d;
      }
    }
  }

  /**
   * `Object.values(grid).forEach(...)`: one marker per cluster. The source
   * visits the cells in the order their first photos came; the model
   * leaves that order open.
   */
  method MarkersOf(grid: map<Cell, seq<Photo>>) returns (ms: seq<Marker>)
    requires forall c :: c in grid ==> |grid[c]| > 0
    ensures ShowsGrid(ms, grid)
    ensures |ms| == |grid|
  {
    ms := [];
    var remaining := grid.Keys;
    while remaining != {}
      invariant PlacedSoFar(ms, grid, remaining)
      invariant |ms| + |remaining| == |grid.Keys|
      decreases remaining
    {
      var c :| c in remaining;
      var cluster := grid[c];
      PlaceOne(ms, grid, remaining, c);
      ms := ms + [Marker(c, ClusterCenter(cluster), cluster)];
      remaining := remaining - {c};
    }
  }

  // ---------------------------------------------------------------------
  // Loading the photo list (lines 27-49)
  // ---------------------------------------------------------------------

  /**
   * `setPhotos(Object.values(metadata))` after a successful fetch; on a
   * failed fetch the list is left as it was. `keys` names the record each
   * photo came from; the order of the values is not fixed by this model.
   */
  method LoadPhotos(response: Option<PhotoStore>, current: seq<Photo>) returns (photos: seq<Photo>, ghost keys: seq<string>)
    ensures response.None? ==> photos == current
    ensures response.Some? ==>
              && |keys| == |photos| == |response.value|
              && (forall i, j :: 0 <= i < j < |keys| ==> keys[i] != keys[j])
              && (forall i :: 0 <= i < |keys| ==> keys[i] in response.value && photos[i] == response.value[keys[i]])
              && (forall k :: k in response.value ==> k in keys)
  {
    if response.None? {
      return current, [];
    }
    var store := response.value;
    photos, keys := [], [];
    var remaining := store.Keys;
    while remaining != {}
      invariant remaining <= store.Keys
      invariant |keys| == |photos|
      invariant |keys| + |remaining| == |store.Keys|
      invariant forall i :: 0 <= i < |keys| ==> keys[i] in store && keys[i] !in remaining && photos[i] == store[keys[i]]
      invariant forall i, j :: 0 <= i < j < |keys| ==> keys[i] != keys[j]
      invariant forall k :: k in store && k !in remaining ==> k in keys
      decreases remaining
    {
      var k :| k in remaining;
      photos, keys := photos + [store[k]], keys + [k];
      remaining := remaining - {k};
    }
  }
}
