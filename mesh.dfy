/** Borehole field layouts (src/simulation/mesh.py): the square and the hexagonal
    enumeration of borehole positions around a centre. Each generator keeps its positions
    twice, as a list and as a dictionary keyed "BH01", "BH02", ... in the same order. */
module Mesh {
  import opened Wrappers
  import Text

  type Point = (real, real)

  function IAbs(i: int): nat { if i < 0 then -i else i }
  function IMax(a: int, b: int): int { if a <= b then b else a }
  function IMin(a: int, b: int): int { if a <= b then a else b }

  /** A borehole key `f"BH{index:02d}"`, kept as its index; `Name` is the string. */
  datatype BhKey = BH(index: nat) {
    function Name(): (s: string)
      ensures |s| >= 4 && s[..2] == "BH"
    {
      "BH" + Text.Pad2(index)
    }
  }

  /** Distinct indices give distinct key strings, so a dictionary keyed by the strings
      has the same shape as one keyed by BhKey values. */
  lemma NameInjective(a: BhKey, b: BhKey)
    requires a.Name() == b.Name()
    ensures a == b
  {
    assert a.Name()[2..] == Text.Pad2(a.index);
    assert b.Name()[2..] == Text.Pad2(b.index);
    Text.Pad2Injective(a.index, b.index);
  }

  /** The dictionary a generator fills beside its list: the k-th position (from 1) under BH(k). */
  function Keyed(locations: seq<Point>): map<BhKey, Point>
  {
    map k | 1 <= k <= |locations| :: BH(k) := locations[k - 1]
  }

  lemma KeyedAppend(locations: seq<Point>, p: Point)
    ensures Keyed(locations + [p]) == Keyed(locations)[BH(|locations| + 1) := p]
  {
    var longer := locations + [p];
    assert forall k :: 0 <= k < |locations| ==> longer[k] == locations[k];
  }

  /** List and dictionary are in lockstep: one key per position, keys BH01.. numbered
      consecutively, key k holding the k-th position. */
  lemma {:induction false} KeyedShape(locations: seq<Point>)
    ensures |Keyed(locations)| == |locations|
    ensures forall k :: 1 <= k <= |locations| ==> BH(k) in Keyed(locations) && Keyed(locations)[BH(k)] == locations[k - 1]
    ensures forall key :: key in Keyed(locations) ==> 1 <= key.index <= |locations|
  {
    if |locations| > 0 {
      var n := |locations|;
      var prefix := locations[..n - 1];
      KeyedShape(prefix);
      assert prefix + [locations[n - 1]] == locations;
      KeyedAppend(prefix, locations[n - 1]);
      assert BH(n) !in Keyed(prefix);
    }
  }

  // ---------------------------------------------------------------------------
  // Square layout
  // ---------------------------------------------------------------------------

  /** Square cell (i, j) with spacing d: `(x0 + i*d, y0 + j*d)`. */
  function SquarePoint(x0: real, y0: real, d: real, i: int, j: int): Point {
    (x0 + i as real * d, y0 + j as real * d)
  }

  /** Row i of the square layout, for j = -rings .. jEnd - 1. */
  function SquareRow(x0: real, y0: real, d: real, rings: int, i: int, jEnd: int): seq<Point>
    decreases jEnd + rings
  {
    if jEnd <= -rings then []
    else SquareRow(x0, y0, d, rings, i, jEnd - 1) + [SquarePoint(x0, y0, d, i, jEnd - 1)]
  }

  /** Rows i = -rings .. iEnd - 1 of the square layout, one after the other. */
  function SquareRows(x0: real, y0: real, d: real, rings: int, iEnd: int): seq<Point>
    decreases iEnd + rings
  {
    if iEnd <= -rings then []
    else SquareRows(x0, y0, d, rings, iEnd - 1) + SquareRow(x0, y0, d, rings, iEnd - 1, rings + 1)
  }

  /** The positions `generate_square_ews` lists, in i-major order. */
  function SquareLayout(x0: real, y0: real, d: real, rings: int): seq<Point> {
    SquareRows(x0, y0, d, rings, rings + 1)
  }

  /** `generate_square_ews`: both loops run over -rings..rings and every cell is kept,
      because max(|i|, |j|) <= rings holds inside them. */
  method GenerateSquare(x0: real, y0: real, d: real, rings: int)
    returns (locations: seq<Point>, field: map<BhKey, Point>)
    ensures locations == SquareLayout(x0, y0, d, rings)
    ensures field == Keyed(locations)
  {
    locations := [];
    field := map[];
    var index := 1;
    var i := -rings;
    while i <= rings
      invariant -rings <= i <= IMax(-rings, rings + 1)
      invariant locations == SquareRows(x0, y0, d, rings, i)
      invariant field == Keyed(locations) && index == |locations| + 1
    {
      ghost var done := locations;
      var j := -rings;
      while j <= rings
        invariant -rings <= j <= rings + 1
        invariant locations == done + SquareRow(x0, y0, d, rings, i, j)
        invariant field == Keyed(locations) && index == |locations| + 1
      {
        var (x, y) := SquarePoint(x0, y0, d, i, j);
        var dist := IMax(IAbs(i), IAbs(j));
        SquareRowStep(x0, y0, d, rings, i, j);
        if dist <= rings {
          KeyedAppend(locations, (x, y));
          field := field[BH(index) := (x, y)];
          locations := locations + [(x, y)];
          index := index + 1;
        }
        j := j + 1;
      }
      SquareRowsStep(x0, y0, d, rings, i);
      i := i + 1;
    }
  }

  lemma SquareRowsStep(x0: real, y0: real, d: real, rings: int, i: int)
    requires -rings <= i
    ensures SquareRows(x0, y0, d, rings, i + 1) == SquareRows(x0, y0, d, rings, i) + SquareRow(x0, y0, d, rings, i, rings + 1)
  {
  }

  lemma SquareRowStep(x0: real, y0: real, d: real, rings: int, i: int, j: int)
    requires -rings <= j
    ensures SquareRow(x0, y0, d, rings, i, j + 1) == SquareRow(x0, y0, d, rings, i, j) + [SquarePoint(x0, y0, d, i, j)]
  {
  }

  lemma {:induction false} SquareRowSize(x0: real, y0: real, d: real, rings: int, i: int, jEnd: int)
    requires -rings <= jEnd
    ensures |SquareRow(x0, y0, d, rings, i, jEnd)| == jEnd + rings
    decreases jEnd + rings
  {
    if jEnd > -rings {
      SquareRowSize(x0, y0, d, rings, i, jEnd - 1);
    }
  }

  lemma {:induction false} SquareRowAt(x0: real, y0: real, d: real, rings: int, i: int, jEnd: int, k: int)
    requires -rings <= jEnd && 0 <= k < jEnd + rings
    ensures |SquareRow(x0, y0, d, rings, i, jEnd)| == jEnd + rings
    ensures SquareRow(x0, y0, d, rings, i, jEnd)[k] == SquarePoint(x0, y0, d, i, k - rings)
    decreases jEnd + rings
  {
    SquareRowSize(x0, y0, d, rings, i, jEnd);
    if k < jEnd - 1 + rings {
      SquareRowAt(x0, y0, d, rings, i, jEnd - 1, k);
    } else {
      SquareRowSize(x0, y0, d, rings, i, jEnd - 1);
    }
  }

  lemma {:induction false} SquareRowsSize(x0: real, y0: real, d: real, rings: int, iEnd: int)
    requires 0 <= rings && -rings <= iEnd
    ensures |SquareRows(x0, y0, d, rings, iEnd)| == (iEnd + rings) * (2 * rings + 1)
    decreases iEnd + rings
  {
    if iEnd > -rings {
      SquareRowsSize(x0, y0, d, rings, iEnd - 1);
      SquareRowSize(x0, y0, d, rings, iEnd - 1, rings + 1);
      assert (iEnd + rings) * (2 * rings + 1) == (iEnd - 1 + rings) * (2 * rings + 1) + (2 * rings + 1);
    }
  }

  lemma MulMonotone(a: int, b: int, w: int)
    requires a <= b && 0 <= w
    ensures a * w <= b * w
  {
    var diff := b - a;
    assert b * w == a * w + diff * w;
  }

  /** Where cell (i, j) of the square layout sits in the list. */
  function CellIndex(rings: int, i: int, j: int): int {
    (i + rings) * (2 * rings + 1) + (j + rings)
  }

  /** Cell (i, j) sits at CellIndex(rings, i, j) of the rows built so far. */
  lemma {:induction false} SquareRowsAt(x0: real, y0: real, d: real, rings: int, iEnd: int, i: int, j: int)
    requires 0 <= rings && -rings <= i < iEnd && -rings <= j <= rings
    ensures 0 <= CellIndex(rings, i, j) < |SquareRows(x0, y0, d, rings, iEnd)|
    ensures SquareRows(x0, y0, d, rings, iEnd)[CellIndex(rings, i, j)] == SquarePoint(x0, y0, d, i, j)
    decreases iEnd + rings
  {
    var width := 2 * rings + 1;
    var prefix := SquareRows(x0, y0, d, rings, iEnd - 1);
    SquareRowsSize(x0, y0, d, rings, iEnd - 1);
    SquareRowsSize(x0, y0, d, rings, iEnd);
    MulMonotone(0, i + rings, width);
    if i == iEnd - 1 {
      SquareRowAt(x0, y0, d, rings, i, rings + 1, j + rings);
      assert |prefix| == (i + rings) * width;
    } else {
      SquareRowsAt(x0, y0, d, rings, iEnd - 1, i, j);
    }
  }

  /** The square layout has (2 rings + 1)^2 positions, and cell (i, j) for every
      -rings <= i, j <= rings sits at CellIndex(rings, i, j): i-major order. */
  lemma SquareLayoutShape(x0: real, y0: real, d: real, rings: int)
    requires 0 <= rings
    ensures |SquareLayout(x0, y0, d, rings)| == (2 * rings + 1) * (2 * rings + 1)
    ensures forall i, j :: -rings <= i <= rings && -rings <= j <= rings ==>
      0 <= CellIndex(rings, i, j) < |SquareLayout(x0, y0, d, rings)|
      && SquareLayout(x0, y0, d, rings)[CellIndex(rings, i, j)] == SquarePoint(x0, y0, d, i, j)
  {
    var layout := SquareLayout(x0, y0, d, rings);
    assert layout == SquareRows(x0, y0, d, rings, rings + 1);
    SquareRowsSize(x0, y0, d, rings, rings + 1);
    forall i, j | -rings <= i <= rings && -rings <= j <= rings
      ensures 0 <= CellIndex(rings, i, j) < |layout| && layout[CellIndex(rings, i, j)] == SquarePoint(x0, y0, d, i, j)
    {
      SquareRowsAt(x0, y0, d, rings, rings + 1, i, j);
    }
  }

  /** The centre is a borehole of the square layout, at the middle index. */
  lemma SquareHasCentre(x0: real, y0: real, d: real, rings: int)
    requires 0 <= rings
    ensures |SquareLayout(x0, y0, d, rings)| == (2 * rings + 1) * (2 * rings + 1)
    ensures SquareLayout(x0, y0, d, rings)[CellIndex(rings, 0, 0)] == (x0, y0)
  {
    SquareLayoutShape(x0, y0, d, rings);
    assert SquarePoint(x0, y0, d, 0, 0) == (x0, y0);
  }

  // ---------------------------------------------------------------------------
  // Hexagonal layout
  // ---------------------------------------------------------------------------

  /** Axial cell (q, r) with spacing d: `(x0 + d*(q + r/2), y0 + d*sqrt(3)/2*r)`;
      `sqrt3` stands for `math.sqrt(3)`. */
  function HexPoint(x0: real, y0: real, d: real, sqrt3: real, q: int, r: int): Point {
    (x0 + d * (q as real + r as real / 2.0), y0 + d * sqrt3 / 2.0 * r as real)
  }

  /** `abs(s) <= rings` with s = -q - r, the third axial coordinate. */
  predicate InHex(rings: int, q: int, r: int) {
    IAbs(-q - r) <= rings
  }

  /** The candidates of row q, for r = -rings .. rEnd - 1. */
  function HexRow(x0: real, y0: real, d: real, sqrt3: real, rings: int, q: int, rEnd: int): seq<Point>
    decreases rEnd + rings
  {
    if rEnd <= -rings then []
    else
      HexRow(x0, y0, d, sqrt3, rings, q, rEnd - 1)
      + (if InHex(rings, q, rEnd - 1) then [HexPoint(x0, y0, d, sqrt3, q, rEnd - 1)] else [])
  }

  /** The candidates of rows q = -rings .. qEnd - 1. */
  function HexRows(x0: real, y0: real, d: real, sqrt3: real, rings: int, qEnd: int): seq<Point>
    decreases qEnd + rings
  {
    if qEnd <= -rings then []
    else HexRows(x0, y0, d, sqrt3, rings, qEnd - 1) + HexRow(x0, y0, d, sqrt3, rings, qEnd - 1, rings + 1)
  }

  /** The values of `grid` in `generate_hexa_ews`, in insertion order. */
  function HexCandidates(x0: real, y0: real, d: real, sqrt3: real, rings: int): seq<Point> {
    HexRows(x0, y0, d, sqrt3, rings, rings + 1)
  }

  /** `math.sqrt((x - x0)**2 + (y - y0)**2) <= limit`, written without the root:
      for limit >= 0 the two comparisons agree, and a negative limit admits nothing. */
  predicate WithinReach(x0: real, y0: real, limit: real, p: Point) {
    0.0 <= limit && (p.0 - x0) * (p.0 - x0) + (p.1 - y0) * (p.1 - y0) <= limit * limit
  }

  /** The points within reach, in their original order. */
  function KeepWithin(x0: real, y0: real, limit: real, points: seq<Point>): seq<Point> {
    if |points| == 0 then []
    else
      KeepWithin(x0, y0, limit, points[..|points| - 1])
      + (if WithinReach(x0, y0, limit, points[|points| - 1]) then [points[|points| - 1]] else [])
  }

  /** The positions `generate_hexa_ews` lists. */
  function HexLayout(x0: real, y0: real, d: real, sqrt3: real, rings: int): seq<Point> {
    KeepWithin(x0, y0, rings as real * d, HexCandidates(x0, y0, d, sqrt3, rings))
  }

  /** `generate_hexa_ews`: the candidate grid first, then the distance filter, which
      numbers the kept positions again from BH01. The grid dictionary is iterated in
      insertion order, which is the order of `candidates`. */
  method GenerateHexa(x0: real, y0: real, d: real, sqrt3: real, rings: int)
    returns (locations: seq<Point>, field: map<BhKey, Point>)
    ensures locations == HexLayout(x0, y0, d, sqrt3, rings)
    ensures field == Keyed(locations)
  {
    var candidates, grid := HexGrid(x0, y0, d, sqrt3, rings);
    locations, field := FilterWithinReach(x0, y0, rings as real * d, candidates);
  }

  /** The nested `for q` / `for r` loops of `generate_hexa_ews`: every axial cell of the
      hexagon, row by row, numbered from BH01 in `grid`. */
  method HexGrid(x0: real, y0: real, d: real, sqrt3: real, rings: int)
    returns (candidates: seq<Point>, grid: map<BhKey, Point>)
    ensures candidates == HexCandidates(x0, y0, d, sqrt3, rings)
    ensures grid == Keyed(candidates)
  {
    candidates := [];
    grid := map[];
    var index := 1;
    var q := -rings;
    while q <= rings
      invariant -rings <= q <= IMax(-rings, rings + 1)
      invariant candidates == HexRows(x0, y0, d, sqrt3, rings, q)
      invariant grid == Keyed(candidates) && index == |candidates| + 1
    {
      var r := -rings;
      while r <= rings
        invariant -rings <= r <= rings + 1
        invariant candidates == HexRows(x0, y0, d, sqrt3, rings, q) + HexRow(x0, y0, d, sqrt3, rings, q, r)
        invariant grid == Keyed(candidates) && index == |candidates| + 1
      {
        var s := -q - r;
        if IAbs(s) <= rings {
          var (x, y) := HexPoint(x0, y0, d, sqrt3, q, r);
          KeyedAppend(candidates, (x, y));
          grid := grid[BH(index) := (x, y)];
          candidates := candidates + [(x, y)];
          index := index + 1;
        }
        r := r + 1;
      }
      q := q + 1;
    }
  }

  /** The loop over the grid of `generate_hexa_ews`: the candidates within reach of the
      centre, in order, numbered again from BH01. */
  method FilterWithinReach(x0: real, y0: real, limit: real, candidates: seq<Point>)
    returns (locations: seq<Point>, field: map<BhKey, Point>)
    ensures locations == KeepWithin(x0, y0, limit, candidates)
    ensures field == Keyed(locations)
  {
    locations := [];
    field := map[];
    var index := 1;
    var k := 0;
    while k < |candidates|
      invariant 0 <= k <= |candidates|
      invariant locations == KeepWithin(x0, y0, limit, candidates[..k])
      invariant field == Keyed(locations) && index == |locations| + 1
    {
      var (x, y) := candidates[k];
      assert candidates[..k + 1][..k] == candidates[..k];
      if WithinReach(x0, y0, limit, (x, y)) {
        KeyedAppend(locations, (x, y));
        field := field[BH(index) := (x, y)];
        locations := locations + [(x, y)];
        index := index + 1;
      }
      k := k + 1;
    }
    assert candidates[..k] == candidates;
  }

  /** Row q holds 2 rings + 1 - |q| candidates; this is the count for the first rEnd + rings values of r. */
  lemma {:induction false} HexRowSize(x0: real, y0: real, d: real, sqrt3: real, rings: int, q: int, rEnd: int)
    requires -rings <= q <= rings && -rings <= rEnd <= rings + 1
    ensures |HexRow(x0, y0, d, sqrt3, rings, q, rEnd)|
      == IMax(0, IMin(rEnd, rings - q + 1) - IMax(-rings, -rings - q))
    decreases rEnd + rings
  {
    if rEnd > -rings {
      HexRowSize(x0, y0, d, sqrt3, rings, q, rEnd - 1);
    }
  }

  lemma LowerHalfStep(n: int, qEnd: int)
    ensures (qEnd + n) * (2 * n + 2) + (qEnd + n) * (qEnd + n - 1)
      == (qEnd - 1 + n) * (2 * n + 2) + (qEnd - 1 + n) * (qEnd - 1 + n - 1) + 2 * (2 * n + qEnd)
  {
  }

  lemma UpperHalfStep(n: int, qEnd: int)
    ensures 2 * qEnd * (2 * n + 1) - qEnd * (qEnd - 1)
      == 2 * (qEnd - 1) * (2 * n + 1) - (qEnd - 1) * (qEnd - 2) + 2 * (2 * n + 2 - qEnd)
  {
  }

  /** Twice the number of candidates in rows -rings .. qEnd - 1, in closed form. */
  lemma {:induction false} HexRowsSize(x0: real, y0: real, d: real, sqrt3: real, rings: int, qEnd: int)
    requires 0 <= rings && -rings <= qEnd <= rings + 1
    ensures qEnd <= 0 ==>
      2 * |HexRows(x0, y0, d, sqrt3, rings, qEnd)| == (qEnd + rings) * (2 * rings + 2) + (qEnd + rings) * (qEnd + rings - 1)
    ensures qEnd >= 0 ==>
      2 * |HexRows(x0, y0, d, sqrt3, rings, qEnd)|
      == rings * (2 * rings + 2) + rings * (rings - 1) + 2 * qEnd * (2 * rings + 1) - qEnd * (qEnd - 1)
    decreases qEnd + rings
  {
    if qEnd > -rings {
      var q := qEnd - 1;
      HexRowsSize(x0, y0, d, sqrt3, rings, q);
      HexRowSize(x0, y0, d, sqrt3, rings, q, rings + 1);
      var before := HexRows(x0, y0, d, sqrt3, rings, q);
      var row := HexRow(x0, y0, d, sqrt3, rings, q, rings + 1);
      assert HexRows(x0, y0, d, sqrt3, rings, qEnd) == before + row;
      if qEnd <= 0 {
        assert |row| == 2 * rings + qEnd;
        LowerHalfStep(rings, qEnd);
      } else {
        assert |row| == 2 * rings + 2 - qEnd;
        UpperHalfStep(rings, qEnd);
      }
    }
  }

  /** There are 3 rings (rings + 1) + 1 hexagon candidates. */
  lemma HexCandidateCount(x0: real, y0: real, d: real, sqrt3: real, rings: int)
    requires 0 <= rings
    ensures |HexCandidates(x0, y0, d, sqrt3, rings)| == 3 * rings * (rings + 1) + 1
  {
    HexRowsSize(x0, y0, d, sqrt3, rings, rings + 1);
    assert rings * (2 * rings + 2) + rings * (rings - 1) + 2 * (rings + 1) * (2 * rings + 1) - (rings + 1) * rings
      == 2 * (3 * rings * (rings + 1) + 1);
  }

  /** Row q of the candidates holds cell (q, r) exactly when r is in range and InHex(q, r). */
  lemma {:induction false} HexRowHas(x0: real, y0: real, d: real, sqrt3: real, rings: int, q: int, rEnd: int, r: int)
    requires -rings <= r < rEnd && InHex(rings, q, r)
    ensures HexPoint(x0, y0, d, sqrt3, q, r) in HexRow(x0, y0, d, sqrt3, rings, q, rEnd)
    decreases rEnd + rings
  {
    if r < rEnd - 1 {
      HexRowHas(x0, y0, d, sqrt3, rings, q, rEnd - 1, r);
    }
  }

  lemma {:induction false} HexRowOnly(x0: real, y0: real, d: real, sqrt3: real, rings: int, q: int, rEnd: int, p: Point)
    requires p in HexRow(x0, y0, d, sqrt3, rings, q, rEnd)
    ensures exists r :: -rings <= r < rEnd && InHex(rings, q, r) && p == HexPoint(x0, y0, d, sqrt3, q, r)
    decreases rEnd + rings
  {
    if rEnd > -rings && p in HexRow(x0, y0, d, sqrt3, rings, q, rEnd - 1) {
      HexRowOnly(x0, y0, d, sqrt3, rings, q, rEnd - 1, p);
    }
  }

  lemma {:induction false} HexRowsHas(x0: real, y0: real, d: real, sqrt3: real, rings: int, qEnd: int, q: int, r: int)
    requires -rings <= q < qEnd && -rings <= r <= rings && InHex(rings, q, r)
    ensures HexPoint(x0, y0, d, sqrt3, q, r) in HexRows(x0, y0, d, sqrt3, rings, qEnd)
    decreases qEnd + rings
  {
    if q < qEnd - 1 {
      HexRowsHas(x0, y0, d, sqrt3, rings, qEnd - 1, q, r);
    } else {
      HexRowHas(x0, y0, d, sqrt3, rings, q, rings + 1, r);
    }
  }

  lemma {:induction false} HexRowsOnly(x0: real, y0: real, d: real, sqrt3: real, rings: int, qEnd: int, p: Point)
    requires p in HexRows(x0, y0, d, sqrt3, rings, qEnd)
    ensures exists q, r ::
      -rings <= q < qEnd && -rings <= r <= rings && InHex(rings, q, r) && p == HexPoint(x0, y0, d, sqrt3, q, r)
    decreases qEnd + rings
  {
    if qEnd > -rings {
      if p in HexRows(x0, y0, d, sqrt3, rings, qEnd - 1) {
        HexRowsOnly(x0, y0, d, sqrt3, rings, qEnd - 1, p);
      } else {
        HexRowOnly(x0, y0, d, sqrt3, rings, qEnd - 1, rings + 1, p);
      }
    }
  }

  /** The candidates are exactly the cells (q, r) with |q|, |r|, |q + r| <= rings. */
  lemma HexCandidatesExactly(x0: real, y0: real, d: real, sqrt3: real, rings: int, p: Point)
    ensures p in HexCandidates(x0, y0, d, sqrt3, rings) <==>
      exists q, r :: -rings <= q <= rings && -rings <= r <= rings && InHex(rings, q, r)
        && p == HexPoint(x0, y0, d, sqrt3, q, r)
  {
    if p in HexCandidates(x0, y0, d, sqrt3, rings) {
      HexRowsOnly(x0, y0, d, sqrt3, rings, rings + 1, p);
    }
    if exists q, r :: -rings <= q <= rings && -rings <= r <= rings && InHex(rings, q, r)
        && p == HexPoint(x0, y0, d, sqrt3, q, r) {
      var q, r :| -rings <= q <= rings && -rings <= r <= rings && InHex(rings, q, r)
        && p == HexPoint(x0, y0, d, sqrt3, q, r);
      HexRowsHas(x0, y0, d, sqrt3, rings, rings + 1, q, r);
    }
  }

  /** Within a hexagon of radius n, q^2 + qr + r^2 <= n^2. */
  lemma AxialNormBound(n: real, q: real, r: real)
    requires -n <= q <= n && -n <= r <= n && -n <= q + r <= n
    ensures q * q + q * r + r * r <= n * n
  {
    if (q >= 0.0 && r >= 0.0) || (q <= 0.0 && r <= 0.0) {
      ProductNonNegative(q, r);
      assert (q + r) * (q + r) == q * q + 2.0 * (q * r) + r * r;
      SquareWithin(q + r, n);
    } else if (q >= 0.0 && q + r >= 0.0) || (q <= 0.0 && q + r <= 0.0) {
      ProductNonPositive(r, q + r);
      assert r * (q + r) == q * r + r * r;
      SquareWithin(q, n);
    } else {
      ProductNonPositive(q, q + r);
      assert q * (q + r) == q * q + q * r;
      SquareWithin(r, n);
    }
  }

  lemma ProductNonNegative(a: real, b: real)
    requires (a >= 0.0 && b >= 0.0) || (a <= 0.0 && b <= 0.0)
    ensures a * b >= 0.0
  {
  }

  lemma ProductNonPositive(a: real, b: real)
    requires (a >= 0.0 && b <= 0.0) || (a <= 0.0 && b >= 0.0)
    ensures a * b <= 0.0
  {
  }

  lemma SquareWithin(x: real, n: real)
    requires -n <= x <= n
    ensures x * x <= n * n
  {
    var a := if x >= 0.0 then x else -x;
    assert x * x == a * a;
    assert (n - a) * a >= 0.0;
    assert n * (n - a) >= 0.0;
  }

  /** The offsets of an axial cell give a squared distance d^2 (q^2 + qr + r^2). */
  lemma AxialDistance(d: real, sqrt3: real, q: real, r: real, dx: real, dy: real)
    requires sqrt3 * sqrt3 == 3.0
    requires dx == d * (q + r / 2.0) && dy == d * sqrt3 / 2.0 * r
    ensures dx * dx + dy * dy == d * d * (q * q + q * r + r * r)
  {
    assert dx * dx == d * d * (q * q + q * r + r * r / 4.0);
    assert dy * dy == d * d * (sqrt3 * sqrt3) * r * r / 4.0;
  }

  /** A squared distance d^2 x with x <= n^2 is within reach n d. */
  lemma ScaledBound(sq: real, d: real, x: real, n: real)
    requires sq == d * d * x && x <= n * n && 0.0 <= d && 0.0 <= n
    ensures 0.0 <= n * d && sq <= (n * d) * (n * d)
  {
    var diff := n * n - x;
    assert (n * d) * (n * d) == sq + d * d * diff;
  }

  /** The point at axial offsets (q, r) of a hexagon of radius n lies within reach n d. */
  lemma CellWithin(x0: real, y0: real, d: real, sqrt3: real, q: real, r: real, n: real, p: Point)
    requires sqrt3 * sqrt3 == 3.0 && 0.0 <= d && 0.0 <= n
    requires -n <= q <= n && -n <= r <= n && -n <= q + r <= n
    requires p.0 == x0 + d * (q + r / 2.0) && p.1 == y0 + d * sqrt3 / 2.0 * r
    ensures WithinReach(x0, y0, n * d, p)
  {
    var dx, dy := p.0 - x0, p.1 - y0;
    AxialDistance(d, sqrt3, q, r, dx, dy);
    AxialNormBound(n, q, r);
    ScaledBound(dx * dx + dy * dy, d, q * q + q * r + r * r, n);
  }

  /** With d >= 0 every candidate passes the distance filter. */
  lemma HexPointWithin(x0: real, y0: real, d: real, sqrt3: real, rings: int, q: int, r: int)
    requires sqrt3 * sqrt3 == 3.0 && 0.0 <= d && 0 <= rings
    requires IAbs(q) <= rings && IAbs(r) <= rings && InHex(rings, q, r)
    ensures WithinReach(x0, y0, rings as real * d, HexPoint(x0, y0, d, sqrt3, q, r))
  {
    AxialRealBounds(rings, q, r);
    HexPointCoords(x0, y0, d, sqrt3, q, r);
    CellWithin(x0, y0, d, sqrt3, q as real, r as real, rings as real, HexPoint(x0, y0, d, sqrt3, q, r));
  }

  lemma AxialRealBounds(rings: int, q: int, r: int)
    requires IAbs(q) <= rings && IAbs(r) <= rings && InHex(rings, q, r)
    ensures var n := rings as real;
      -n <= q as real <= n && -n <= r as real <= n && -n <= q as real + r as real <= n && 0.0 <= n
  {
  }

  lemma HexPointCoords(x0: real, y0: real, d: real, sqrt3: real, q: int, r: int)
    ensures HexPoint(x0, y0, d, sqrt3, q, r).0 == x0 + d * (q as real + r as real / 2.0)
    ensures HexPoint(x0, y0, d, sqrt3, q, r).1 == y0 + d * sqrt3 / 2.0 * r as real
  {
  }

  lemma {:induction false} KeepWithinAppend(x0: real, y0: real, limit: real, a: seq<Point>, b: seq<Point>)
    ensures KeepWithin(x0, y0, limit, a + b) == KeepWithin(x0, y0, limit, a) + KeepWithin(x0, y0, limit, b)
    decreases |b|
  {
    if |b| > 0 {
      var b' := b[..|b| - 1];
      assert (a + b)[..|a + b| - 1] == a + b';
      KeepWithinAppend(x0, y0, limit, a, b');
    } else {
      assert a + b == a;
    }
  }

  lemma {:induction false} HexRowWithin(x0: real, y0: real, d: real, sqrt3: real, rings: int, q: int, rEnd: int)
    requires sqrt3 * sqrt3 == 3.0 && 0.0 <= d && 0 <= rings
    requires -rings <= q <= rings && rEnd <= rings + 1
    ensures KeepWithin(x0, y0, rings as real * d, HexRow(x0, y0, d, sqrt3, rings, q, rEnd))
      == HexRow(x0, y0, d, sqrt3, rings, q, rEnd)
    decreases rEnd + rings
  {
    if rEnd > -rings {
      var limit := rings as real * d;
      var prefix := HexRow(x0, y0, d, sqrt3, rings, q, rEnd - 1);
      var last := if InHex(rings, q, rEnd - 1) then [HexPoint(x0, y0, d, sqrt3, q, rEnd - 1)] else [];
      HexRowWithin(x0, y0, d, sqrt3, rings, q, rEnd - 1);
      KeepWithinAppend(x0, y0, limit, prefix, last);
      if InHex(rings, q, rEnd - 1) {
        HexCellKept(x0, y0, d, sqrt3, rings, q, rEnd - 1);
      }
    }
  }

  /** A single hexagon cell passes the distance filter. */
  lemma HexCellKept(x0: real, y0: real, d: real, sqrt3: real, rings: int, q: int, r: int)
    requires sqrt3 * sqrt3 == 3.0 && 0.0 <= d && 0 <= rings
    requires IAbs(q) <= rings && IAbs(r) <= rings && InHex(rings, q, r)
    ensures KeepWithin(x0, y0, rings as real * d, [HexPoint(x0, y0, d, sqrt3, q, r)])
            == [HexPoint(x0, y0, d, sqrt3, q, r)]
  {
    HexPointWithin(x0, y0, d, sqrt3, rings, q, r);
    var p := HexPoint(x0, y0, d, sqrt3, q, r);
    assert [p][..0] == [];
  }

  lemma {:induction false} HexRowsWithin(x0: real, y0: real, d: real, sqrt3: real, rings: int, qEnd: int)
    requires sqrt3 * sqrt3 == 3.0 && 0.0 <= d && 0 <= rings && qEnd <= rings + 1
    ensures KeepWithin(x0, y0, rings as real * d, HexRows(x0, y0, d, sqrt3, rings, qEnd))
      == HexRows(x0, y0, d, sqrt3, rings, qEnd)
    decreases qEnd + rings
  {
    if qEnd > -rings {
      var limit := rings as real * d;
      var before := HexRows(x0, y0, d, sqrt3, rings, qEnd - 1);
      var row := HexRow(x0, y0, d, sqrt3, rings, qEnd - 1, rings + 1);
      assert HexRows(x0, y0, d, sqrt3, rings, qEnd) == before + row;
      HexRowsWithin(x0, y0, d, sqrt3, rings, qEnd - 1);
      HexRowWithin(x0, y0, d, sqrt3, rings, qEnd - 1, rings + 1);
      KeepWithinAppend(x0, y0, limit, before, row);
    }
  }

  /** Over the reals the distance filter drops nothing when d >= 0: the hexagonal layout
      is the whole candidate grid, 3 rings (rings + 1) + 1 boreholes, centre included. */
  lemma HexLayoutShape(x0: real, y0: real, d: real, sqrt3: real, rings: int)
    requires sqrt3 * sqrt3 == 3.0 && 0.0 <= d && 0 <= rings
    ensures HexLayout(x0, y0, d, sqrt3, rings) == HexCandidates(x0, y0, d, sqrt3, rings)
    ensures |HexLayout(x0, y0, d, sqrt3, rings)| == 3 * rings * (rings + 1) + 1
    ensures (x0, y0) in HexLayout(x0, y0, d, sqrt3, rings)
  {
    HexRowsWithin(x0, y0, d, sqrt3, rings, rings + 1);
    assert HexLayout(x0, y0, d, sqrt3, rings) == HexCandidates(x0, y0, d, sqrt3, rings);
    HexCandidateCount(x0, y0, d, sqrt3, rings);
    HexRowsHas(x0, y0, d, sqrt3, rings, rings + 1, 0, 0);
    HexCentre(x0, y0, d, sqrt3);
  }

  lemma HexCentre(x0: real, y0: real, d: real, sqrt3: real)
    ensures HexPoint(x0, y0, d, sqrt3, 0, 0) == (x0, y0)
  {
  }

  /** A negative spacing makes `rings * d` negative, so no candidate survives the filter. */
  lemma {:induction false} KeepWithinNegative(x0: real, y0: real, limit: real, points: seq<Point>)
    requires limit < 0.0
    ensures KeepWithin(x0, y0, limit, points) == []
    decreases |points|
  {
    if |points| > 0 {
      KeepWithinNegative(x0, y0, limit, points[..|points| - 1]);
    }
  }

  // ---------------------------------------------------------------------------
  // Dispatch
  // ---------------------------------------------------------------------------

  datatype MeshError = UnknownMode(layout: string)

  /** `generate_mesh`: the layout named by `mode[0]` is generated, and its dictionary is
      handed to the mesher (`meshed`), which here stands for the meshing and the saving of
      the locations. An unknown layout fails before either happens. */
  method GenerateMesh(layout: string, rings: int, x0: real, y0: real, distance: real, sqrt3: real)
    returns (r: Result<seq<Point>, MeshError>, meshed: Option<map<BhKey, Point>>)
    ensures layout == "hexa" ==>
      r == Success(HexLayout(x0, y0, distance, sqrt3, rings))
      && meshed == Some(Keyed(HexLayout(x0, y0, distance, sqrt3, rings)))
    ensures layout == "square" ==>
      r == Success(SquareLayout(x0, y0, distance, rings))
      && meshed == Some(Keyed(SquareLayout(x0, y0, distance, rings)))
    ensures layout != "hexa" && layout != "square" ==> r == Failure(UnknownMode(layout)) && meshed == None
  {
    var locations: seq<Point>;
    var field: map<BhKey, Point>;
    if layout == "hexa" {
      locations, field := GenerateHexa(x0, y0, distance, sqrt3, rings);
    } else if layout == "square" {
      locations, field := GenerateSquare(x0, y0, distance, rings);
    } else {
      return Failure(UnknownMode(layout)), None;
    }
    meshed := Some(field);
    r := Success(locations);
  }
}
