/**
 * What the overlap of two boxes measures: on boxes with whole corners, the
 * shared unit cells among all the cells either box covers; and it does not
 * depend on the unit of length.
 */
module BoxCells {
  import opened Reals
  import opened Sequences
  import opened BoxMatching

  /** A box with whole corners, left and top included, right and bottom not. */
  datatype Grid = Grid(left: int, top: int, right: int, bottom: int) {
    predicate IsValid() {
      left < right && top < bottom
    }

    function ToBox(): Box {
      Box(left as real, top as real, right as real, bottom as real)
    }
  }

  type Cell = (int, int)

  /** The unit cells inside the box. */
  ghost function Cells(g: Grid): set<Cell> {
    set x, y | g.left <= x < g.right && g.top <= y < g.bottom :: (x, y)
  }

  ghost function Column(x: int, top: int, bottom: int): set<Cell> {
    set y | top <= y < bottom :: (x, y)
  }

  lemma {:induction false} ColumnSize(x: int, top: int, bottom: int)
    requires top <= bottom
    ensures |Column(x, top, bottom)| == bottom - top
    decreases bottom - top
  {
    if top == bottom {
      assert Column(x, top, bottom) == {};
    } else {
      ColumnSize(x, top, bottom - 1);
      assert Column(x, top, bottom) == Column(x, top, bottom - 1) + {(x, bottom - 1)};
    }
  }

  /** A box has as many cells as its width times its height. */
  lemma {:induction false} CellCount(g: Grid)
    requires g.left <= g.right && g.top <= g.bottom
    ensures |Cells(g)| == (g.right - g.left) * (g.bottom - g.top)
    decreases g.right - g.left
  {
    if g.left == g.right {
      assert Cells(g) == {};
    } else {
      var narrower := g.(right := g.right - 1);
      CellCount(narrower);
      ColumnSize(g.right - 1, g.top, g.bottom);
      assert Cells(g) == Cells(narrower) + Column(g.right - 1, g.top, g.bottom);
      assert Cells(narrower) !! Column(g.right - 1, g.top, g.bottom);
      OneMoreColumn(g.right - g.left, g.bottom - g.top);
    }
  }

  lemma OneMoreColumn(width: int, height: int)
    ensures width * height == (width - 1) * height + height
  {
  }

  /** The shared part of two boxes. */
  function Common(g: Grid, h: Grid): Grid {
    var left, top := if g.left >= h.left then g.left else h.left, if g.top >= h.top then g.top else h.top;
    var right := if g.right <= h.right then g.right else h.right;
    var bottom := if g.bottom <= h.bottom then g.bottom else h.bottom;
    Grid(left, top, if right >= left then right else left, if bottom >= top then bottom else top)
  }

  lemma SharedCells(g: Grid, h: Grid)
    ensures Cells(g) * Cells(h) == Cells(Common(g, h))
  {
  }

  lemma AreaCountsCells(g: Grid)
    requires g.IsValid()
    ensures g.ToBox().Area() == |Cells(g)| as real
  {
    CellCount(g);
    WholeProduct(g.right - g.left, g.bottom - g.top);
    assert (g.right as real - g.left as real) == (g.right - g.left) as real;
    assert (g.bottom as real - g.top as real) == (g.bottom - g.top) as real;
  }

  lemma WholeProduct(width: int, height: int)
    ensures width as real * height as real == (width * height) as real
  {
  }

  lemma IntersectionCountsCells(g: Grid, h: Grid)
    ensures Intersection(g.ToBox(), h.ToBox()) == |Cells(g) * Cells(h)| as real
  {
    var c := Common(g, h);
    var width, height := c.right - c.left, c.bottom - c.top;
    SharedCells(g, h);
    CellCount(c);
    OverlapOfWholes(g.left, g.right, h.left, h.right);
    OverlapOfWholes(g.top, g.bottom, h.top, h.bottom);
    assert Overlap(g.left as real, g.right as real, h.left as real, h.right as real) == width as real;
    assert Overlap(g.top as real, g.bottom as real, h.top as real, h.bottom as real) == height as real;
    hide Overlap, Cells, Common, Product;
    assert Intersection(g.ToBox(), h.ToBox()) == Product(width as real, height as real);
    WholeArea(width, height);
  }

  lemma WholeArea(width: int, height: int)
    ensures Product(width as real, height as real) == (width * height) as real
  {
    WholeProduct(width, height);
  }

  lemma OverlapOfWholes(a: int, b: int, c: int, d: int)
    ensures var low, high := if a >= c then a else c, if b <= d then b else d;
      Overlap(a as real, b as real, c as real, d as real) == (if high >= low then high - low else 0) as real
  {
  }

  /** The overlap is the number of shared cells over the number of cells covered by either box. */
  lemma IouCountsCells(g: Grid, h: Grid)
    requires g.IsValid() && h.IsValid()
    ensures |Cells(g) + Cells(h)| > 0
    ensures Iou(g.ToBox(), h.ToBox()) == |Cells(g) * Cells(h)| as real / |Cells(g) + Cells(h)| as real
  {
    AreaCountsCells(g);
    AreaCountsCells(h);
    IntersectionCountsCells(g, h);
    hide Intersection, Box.Area, Cells;
    assert |Cells(g) + Cells(h)| == |Cells(g)| + |Cells(h)| - |Cells(g) * Cells(h)|;
    FirstCell(g);
  }

  lemma FirstCell(g: Grid)
    requires g.IsValid()
    ensures |Cells(g)| > 0
  {
    assert (g.left, g.top) in Cells(g);
  }

  /** The block stands on this page in this box. */
  predicate StandsIn(block: Block, page: int, g: Grid) {
    BlockGeometry(block) == Some(Geometry(page, g.ToBox()))
  }

  /** Two blocks with whole corners are a candidate exactly when on one page they share half the cells they cover. */
  lemma CandidateIff(expected: seq<Block>, actual: seq<Block>, e: nat, a: nat, page: int, other: int, g: Grid, h: Grid)
    requires e < |expected| && a < |actual|
    requires g.IsValid() && h.IsValid() && StandsIn(expected[e], page, g) && StandsIn(actual[a], other, h)
    ensures IsCandidate(expected, actual, Match(e, a, Iou(g.ToBox(), h.ToBox()))) <==>
      page == other && 2 * |Cells(g) * Cells(h)| >= |Cells(g) + Cells(h)|
  {
    IouCountsCells(g, h);
    hide Iou, BlockGeometry, Cells;
    AtLeastHalf(|Cells(g) * Cells(h)|, |Cells(g) + Cells(h)|);
  }

  lemma AtLeastHalf(part: nat, whole: nat)
    requires whole > 0
    ensures part as real / whole as real >= 0.5 <==> 2 * part >= whole
  {
    var ratio := part as real / whole as real;
    assert ratio * whole as real == part as real;
    if ratio >= 0.5 {
      assert (ratio - 0.5) * whole as real >= 0.0;
    } else {
      assert (0.5 - ratio) * whole as real > 0.0;
    }
  }

  // Change of unit.

  function Times(x: real, unit: real): real {
    x * unit
  }

  function Scaled(p: Box, unit: real): Box {
    Box(Times(p.left, unit), Times(p.top, unit), Times(p.right, unit), Times(p.bottom, unit))
  }

  /** The overlap is the same in every unit of length, so whole corners stand for all rational ones. */
  lemma IouIgnoresUnit(p: Box, q: Box, unit: real)
    requires unit > 0.0
    ensures Iou(Scaled(p, unit), Scaled(q, unit)) == Iou(p, q)
  {
    var factor := Times(unit, unit);
    PositiveSquare(unit);
    AreaScales(p, unit);
    AreaScales(q, unit);
    IntersectionScales(p, q, unit);
    hide Intersection, Box.Area, Scaled, Times;
    SameRatio(Intersection(p, q), p.Area(), q.Area(), factor);
  }

  lemma PositiveSquare(unit: real)
    requires unit > 0.0
    ensures Times(unit, unit) > 0.0
  {
    PositiveProduct(unit, unit);
  }

  lemma PositiveProduct(x: real, y: real)
    requires x > 0.0 && y > 0.0
    ensures Times(x, y) > 0.0
  {
  }

  /** Intersection over union does not change when all three areas grow by one factor. */
  lemma SameRatio(shared: real, x: real, y: real, factor: real)
    requires factor > 0.0
    ensures var union, larger := x + y - shared, Times(x, factor) + Times(y, factor) - Times(shared, factor);
      && (larger == 0.0 <==> union == 0.0)
      && (union != 0.0 ==> Times(shared, factor) / larger == shared / union)
  {
    var union, part := x + y - shared, Times(shared, factor);
    DifferenceScales(x + y, shared, factor);
    DifferenceScales(x + y, y, factor);
    var larger := Times(union, factor);
    assert larger == Times(x, factor) + Times(y, factor) - part;
    RatioScales(shared, union, factor);
    hide Times;
  }

  lemma RatioScales(part: real, whole: real, factor: real)
    requires factor > 0.0
    ensures Times(whole, factor) == 0.0 <==> whole == 0.0
    ensures whole != 0.0 ==> Times(part, factor) / Times(whole, factor) == part / whole
  {
    if whole != 0.0 {
      var ratio, scaled := part / whole, (part * factor) / (whole * factor);
      assert ratio * whole == part && scaled * (whole * factor) == part * factor;
      assert ratio * (whole * factor) == part * factor;
      Cancel(scaled, ratio, whole * factor);
    }
  }

  lemma AreaScales(p: Box, unit: real)
    ensures Scaled(p, unit).Area() == Times(p.Area(), Times(unit, unit))
  {
    DifferenceScales(p.right, p.left, unit);
    DifferenceScales(p.bottom, p.top, unit);
    ProductScales(p.right - p.left, p.bottom - p.top, unit);
    hide Product, Times;
  }

  lemma IntersectionScales(p: Box, q: Box, unit: real)
    requires unit > 0.0
    ensures Intersection(Scaled(p, unit), Scaled(q, unit)) == Times(Intersection(p, q), Times(unit, unit))
  {
    OverlapScales(p.left, p.right, q.left, q.right, unit);
    OverlapScales(p.top, p.bottom, q.top, q.bottom, unit);
    ProductScales(Overlap(p.left, p.right, q.left, q.right), Overlap(p.top, p.bottom, q.top, q.bottom), unit);
    hide Overlap, Product, Times;
  }

  lemma DifferenceScales(x: real, y: real, unit: real)
    ensures Times(x, unit) - Times(y, unit) == Times(x - y, unit)
  {
  }

  lemma OverlapScales(a: real, b: real, c: real, d: real, unit: real)
    requires unit > 0.0
    ensures Overlap(Times(a, unit), Times(b, unit), Times(c, unit), Times(d, unit)) == Times(Overlap(a, b, c, d), unit)
  {
    ScaleKeepsOrder(a, c, unit);
    ScaleKeepsOrder(b, d, unit);
    var low, high := Max(a, c), Min(b, d);
    ScaleKeepsOrder(0.0, high - low, unit);
    DifferenceScales(high, low, unit);
    assert Times(0.0, unit) == 0.0;
    hide Times;
  }

  lemma ScaleKeepsOrder(x: real, y: real, unit: real)
    requires unit > 0.0
    ensures x <= y <==> Times(x, unit) <= Times(y, unit)
  {
    if x < y {
      assert (y - x) * unit > 0.0;
    } else if y < x {
      assert (x - y) * unit > 0.0;
    }
  }

  lemma ProductScales(w: real, h: real, unit: real)
    ensures Product(Times(w, unit), Times(h, unit)) == Times(Product(w, h), Times(unit, unit))
  {
  }
}
