/** The lattice of the pattern generator in src/utils/makeQR.ts (lines
    15-28): a 21x21 grid whose cells are classified, from their position
    alone, as finder, timing or data cells, and the row-major walk that turns
    the grid into a sequence of rectangles.

    Coordinates follow the source: `x` is the column, `y` the row, one unit
    per cell, origin at the top left. */
module QRLayout {
  import opened QRBits

  /** The grid side, `S` in the source. */
  const Size: nat := 21

  /** The side of a finder square. */
  const FinderSide: nat := 7

  /** Cells of the three 7x7 corner zones: top left, top right, bottom left. */
  predicate InFinder(r: nat, c: nat) {
    (r < FinderSide && c < FinderSide)
    || (r < FinderSide && c >= Size - FinderSide)
    || (r >= Size - FinderSide && c < FinderSide)
  }

  datatype Zone = Finder | Timing | Data

  /** The classification of a cell, in the source's order of precedence:
      finder membership first, then row or column 6, then data. */
  function ZoneOf(r: nat, c: nat): Zone {
    if InFinder(r, c) then Finder
    else if r == 6 || c == 6 then Timing
    else Data
  }

  /** The two colours a rectangle can be filled with; the colour strings
      themselves are attached only when the pattern is serialised. */
  datatype Paint = Fg | Bg

  /** An SVG `<rect>` with integer position and size. */
  datatype Rect = Rect(x: nat, y: nat, w: nat, h: nat, paint: Paint)

  /** The unit foreground rectangle that marks cell (r, c) as on. */
  function Unit(r: nat, c: nat): Rect {
    Rect(c, r, 1, 1, Fg)
  }

  predicate IsUnit(q: Rect) {
    q.w == 1 && q.h == 1 && q.paint == Fg
  }

  /** Cell (r, c) lies under rectangle `q`. */
  predicate Covers(q: Rect, r: nat, c: nat) {
    q.y <= r < q.y + q.h && q.x <= c < q.x + q.w
  }

  /** Rectangle `q` lies inside the 21x21 canvas. */
  predicate InCanvas(q: Rect) {
    q.x + q.w <= Size && q.y + q.h <= Size
  }

  // ---------------------------------------------------------------------
  // Finder squares (lines 15-19)

  /** The zone origins as the source lists them, as (y, x) pairs: top left,
      bottom left, top right. */
  const FinderOrigins: seq<(nat, nat)> := [(0, 0), (Size - FinderSide, 0), (0, Size - FinderSide)]

  /** Three concentric squares at one zone origin: 7x7 foreground, 5x5
      background inset by one, 3x3 foreground inset by two. */
  function FinderTriple(y: nat, x: nat): seq<Rect> {
    [Rect(x, y, 7, 7, Fg), Rect(x + 1, y + 1, 5, 5, Bg), Rect(x + 2, y + 2, 3, 3, Fg)]
  }

  /** The triples of the given origins, in order. */
  function FinderRects(origins: seq<(nat, nat)>): seq<Rect> {
    if origins == [] then []
    else FinderRects(origins[..|origins| - 1]) + FinderTriple(origins[|origins| - 1].0, origins[|origins| - 1].1)
  }

  /** A triple appended is its three squares appended one by one. */
  lemma FinderTripleSnocs(drawn: seq<Rect>, y: nat, x: nat)
    ensures drawn + FinderTriple(y, x)
      == drawn + [Rect(x, y, 7, 7, Fg)] + [Rect(x + 1, y + 1, 5, 5, Bg)] + [Rect(x + 2, y + 2, 3, 3, Fg)]
  {
  }

  /** One more origin adds its triple at the end. */
  lemma FinderRectsPrefix(origins: seq<(nat, nat)>, k: nat)
    requires k < |origins|
    ensures FinderRects(origins[..k + 1]) == FinderRects(origins[..k]) + FinderTriple(origins[k].0, origins[k].1)
  {
    assert origins[..k + 1][..k] == origins[..k];
  }

  function Finders(): seq<Rect> {
    FinderRects(FinderOrigins)
  }

  /** Exactly three triples, at (x, y) = (0, 0), (0, 14) and (14, 0), the
      same squares at each, foreground outside and inside. */
  lemma FindersLayout()
    ensures Finders() == FinderTriple(0, 0) + FinderTriple(14, 0) + FinderTriple(0, 14)
    ensures |Finders()| == 9
    ensures forall i :: 0 <= i < 9 ==> Finders()[i].paint == (if i % 3 == 1 then Bg else Fg)
  {
    var o: seq<(nat, nat)> := FinderOrigins;
    assert |o[..1][..0]| == 0 && o[..2][..1] == o[..1] && o[..3][..2] == o[..2];
    assert FinderRects(o[..1]) == FinderTriple(0, 0);
    assert FinderRects(o[..2]) == FinderTriple(0, 0) + FinderTriple(14, 0);
    assert o[..3] == o;
  }

  /** The first rectangle drawn is the outer square of the top-left zone. */
  lemma FirstFinder()
    ensures |Finders()| > 0 && Finders()[0] == Rect(0, 0, 7, 7, Fg)
  {
    FindersLayout();
  }

  /** The finder squares cover only finder cells, so they never overlap a
      cell the walk draws, and they lie inside the canvas. */
  lemma FindersStayInFinderZones()
    ensures forall q :: q in Finders() ==> InCanvas(q)
    ensures forall q, r: nat, c: nat :: q in Finders() && Covers(q, r, c) ==> ZoneOf(r, c) == Finder
  {
    FindersLayout();
  }

  // ---------------------------------------------------------------------
  // The row-major walk (lines 20-28)

  /** What the walk has drawn so far and its current hash state. */
  datatype Walk = Walk(rects: seq<Rect>, state: bv32)

  /** The points the walk passes through: before cell (r, c) of a row, or
      after the last row. */
  predicate ScanPoint(r: nat, c: nat) {
    (r < Size && c <= Size) || (r == Size && c == 0)
  }

  /** Whether visiting cell (r, c) in state `h` draws its unit rectangle:
      never for a finder cell; for a timing cell when r + c is even; for a
      data cell when the low bit of the advanced state is set. */
  predicate DrawsCell(r: nat, c: nat, h: bv32) {
    match ZoneOf(r, c)
    case Finder => false
    case Timing => (r + c) % 2 == 0
    case Data => Advance(h) & 1 == 1
  }

  /** The state after visiting cell (r, c): advanced once at a data cell,
      untouched at finder and timing cells. */
  function NextState(r: nat, c: nat, h: bv32): bv32 {
    if ZoneOf(r, c) == Data then Advance(h) else h
  }

  /** One cell of the walk. */
  function Visit(r: nat, c: nat, w: Walk): Walk {
    Walk(if DrawsCell(r, c, w.state) then w.rects + [Unit(r, c)] else w.rects,
         NextState(r, c, w.state))
  }

  /** The walk from state `h0` up to (not including) cell (r, c), visiting
      rows top to bottom and each row left to right. */
  function Scan(r: nat, c: nat, h0: bv32): Walk
    requires ScanPoint(r, c)
    decreases r, c
  {
    if c == 0 then
      if r == 0 then Walk([], h0) else Scan(r - 1, Size, h0)
    else
      Visit(r, c - 1, Scan(r, c - 1, h0))
  }

  /** Visiting cell (r, c) extends the walk up to it by one step. */
  lemma ScanVisit(r: nat, c: nat, h0: bv32)
    requires r < Size && c < Size
    ensures Scan(r, c + 1, h0) == Visit(r, c, Scan(r, c, h0))
  {
  }

  /** The start of a row is the end of the row above. */
  lemma ScanNextRow(r: nat, h0: bv32)
    requires r < Size
    ensures Scan(r + 1, 0, h0) == Scan(r, Size, h0)
  {
  }

  /** The unit rectangles of the whole walk. */
  function CellRects(h0: bv32): seq<Rect> {
    Scan(Size, 0, h0).rects
  }

  /** Every rectangle drawn after the background, in drawing order. */
  function Pattern(h0: bv32): seq<Rect> {
    Finders() + CellRects(h0)
  }

  // ---------------------------------------------------------------------
  // Counting data cells

  /** Data cells in full rows 0 .. r-1: rows 0-5 hold 7 (columns 7-13), row
      6 none, rows 7-13 hold 20 (all but column 6), rows 14-20 hold 14
      (columns 7-20). */
  function DataInRowsBefore(r: nat): nat {
    if r <= 6 then 7 * r
    else if r <= 14 then 42 + 20 * (r - 7)
    else 182 + 14 * (r - 14)
  }

  /** Data cells (r, j) of row r with j < c. */
  function DataInRowBefore(r: nat, c: nat): nat {
    if r == 6 then 0
    else if r < 7 then (if c <= 7 then 0 else if c <= 14 then c - 7 else 7)
    else if r < 14 then (if c <= 6 then c else c - 1)
    else (if c <= 7 then 0 else c - 7)
  }

  /** The number of data cells the walk visits before cell (r, c). */
  function DataCellsBefore(r: nat, c: nat): nat {
    DataInRowsBefore(r) + DataInRowBefore(r, c)
  }

  /** The closed form counts exactly the data cells: it grows by one at a
      data cell, by nothing elsewhere, and carries over from row to row. */
  lemma DataCellsBeforeCounts(r: nat, c: nat)
    requires ScanPoint(r, c)
    ensures c > 0 ==> DataCellsBefore(r, c) == DataCellsBefore(r, c - 1) + (if ZoneOf(r, c - 1) == Data then 1 else 0)
    ensures c == 0 && r > 0 ==> DataCellsBefore(r, c) == DataCellsBefore(r - 1, Size)
  {
  }

  /** The walk visits 280 data cells in all: 441 cells less 147 finder and
      14 timing cells. */
  lemma DataCellTotal()
    ensures DataCellsBefore(Size, 0) == 280
  {
  }

  /** The state after the walk reaches (r, c) is the start state advanced
      once per data cell before (r, c), and by nothing else. */
  lemma {:induction false} ScanState(r: nat, c: nat, h0: bv32)
    requires ScanPoint(r, c)
    ensures Scan(r, c, h0).state == AdvanceN(h0, DataCellsBefore(r, c))
    decreases r, c
  {
    DataCellsBeforeCounts(r, c);
    if c == 0 {
      if r > 0 {
        ScanState(r - 1, Size, h0);
      }
    } else {
      ScanState(r, c - 1, h0);
    }
  }

  /** A whole walk advances the state exactly 280 times, whatever it
      starts from (so whatever the seed and its length). */
  lemma WalkAdvances280(h0: bv32)
    ensures Scan(Size, 0, h0).state == AdvanceN(h0, 280)
  {
    ScanState(Size, 0, h0);
    DataCellTotal();
  }

  // ---------------------------------------------------------------------
  // Which cells are on

  /** Whether cell (r, c) is drawn, stated without the walk: the cell is
      visited in the state reached after one advance per earlier data cell.
      So a timing cell is on when r + c is even, and a data cell when the
      state after its own advance, the (DataCellsBefore(r, c) + 1)-th, has
      its low bit set. */
  predicate CellOn(r: nat, c: nat, h0: bv32) {
    DrawsCell(r, c, AdvanceN(h0, DataCellsBefore(r, c)))
  }

  /** Cell (y, x) comes before cell (r, c) in row-major order. */
  predicate Before(y: nat, x: nat, r: nat, c: nat) {
    y < r || (y == r && x < c)
  }

  /** One step of the walk, stated without the state: the rectangle of cell
      (r, c - 1) is appended exactly when that cell is on. */
  lemma ScanStep(r: nat, c: nat, h0: bv32)
    requires ScanPoint(r, c) && c > 0
    ensures Scan(r, c, h0).rects ==
      if CellOn(r, c - 1, h0) then Scan(r, c - 1, h0).rects + [Unit(r, c - 1)] else Scan(r, c - 1, h0).rects
  {
    ScanState(r, c - 1, h0);
    DataCellsBeforeCounts(r, c);
  }

  /** Rectangles in strictly increasing row-major order of their cells. */
  predicate RowMajor(rs: seq<Rect>) {
    forall i, j :: 0 <= i < j < |rs| ==> Before(rs[i].y, rs[i].x, rs[j].y, rs[j].x)
  }

  /** Up to (r, c) the walk has drawn exactly one unit rectangle per cell
      before (r, c) that is on, and no other. */
  lemma {:induction false} ScanRects(r: nat, c: nat, h0: bv32)
    requires ScanPoint(r, c)
    ensures forall q :: q in Scan(r, c, h0).rects <==>
      IsUnit(q) && q.x < Size && Before(q.y, q.x, r, c) && CellOn(q.y, q.x, h0)
    decreases r, c
  {
    if c == 0 {
      if r > 0 {
        ScanRects(r - 1, Size, h0);
      }
    } else {
      ScanRects(r, c - 1, h0);
      ScanStep(r, c, h0);
      var prev := Scan(r, c - 1, h0).rects;
      forall q
        ensures q in Scan(r, c, h0).rects <==> IsUnit(q) && q.x < Size && Before(q.y, q.x, r, c) && CellOn(q.y, q.x, h0)
      {
        assert Before(q.y, q.x, r, c) <==> Before(q.y, q.x, r, c - 1) || (q.y == r && q.x == c - 1);
      }
    }
  }

  /** Appending a rectangle that comes after all others keeps the order. */
  lemma RowMajorSnoc(rs: seq<Rect>, u: Rect)
    requires RowMajor(rs)
    requires forall q :: q in rs ==> Before(q.y, q.x, u.y, u.x)
    ensures RowMajor(rs + [u])
  {
    var t := rs + [u];
    forall i, j | 0 <= i < j < |t|
      ensures Before(t[i].y, t[i].x, t[j].y, t[j].x)
    {
      if j == |rs| {
        assert t[i] in rs;
      }
    }
  }

  /** The walk draws in row-major order, each cell at most once. */
  lemma {:induction false} ScanRowMajor(r: nat, c: nat, h0: bv32)
    requires ScanPoint(r, c)
    ensures RowMajor(Scan(r, c, h0).rects)
    decreases r, c
  {
    if c == 0 {
      if r > 0 {
        ScanRowMajor(r - 1, Size, h0);
      }
    } else {
      var prev := Scan(r, c - 1, h0).rects;
      ScanRowMajor(r, c - 1, h0);
      ScanRects(r, c - 1, h0);
      ScanStep(r, c, h0);
      if CellOn(r, c - 1, h0) {
        RowMajorSnoc(prev, Unit(r, c - 1));
      }
    }
  }

  /** A cell is drawn by the walk if and only if it is on. */
  lemma CellRectsExactly(h0: bv32)
    ensures forall q :: q in CellRects(h0) <==> IsUnit(q) && q.x < Size && q.y < Size && CellOn(q.y, q.x, h0)
  {
    ScanRects(Size, 0, h0);
  }

  /** The cell rectangles come in row-major order, each cell at most once. */
  lemma CellRectsRowMajor(h0: bv32)
    ensures RowMajor(CellRects(h0))
  {
    ScanRowMajor(Size, 0, h0);
  }

  /** Every rectangle of the pattern lies inside the 21x21 canvas, and no
      cell rectangle falls in a finder zone. */
  lemma PatternInCanvas(h0: bv32)
    ensures forall q :: q in Pattern(h0) ==> InCanvas(q)
    ensures forall q :: q in CellRects(h0) ==> ZoneOf(q.y, q.x) != Finder
  {
    FindersStayInFinderZones();
    CellRectsExactly(h0);
  }

  // ---------------------------------------------------------------------
  // Seed independence of the structural zones

  /** The cells of the timing zone. */
  function TimingSet(): set<(nat, nat)> {
    set r: nat, c: nat | r < Size && c < Size && ZoneOf(r, c) == Timing :: (r, c)
  }

  /** The 7 cells of row 6 between the two upper finder zones. */
  function TimingRow(): set<(nat, nat)> {
    {(6, 7), (6, 8), (6, 9), (6, 10), (6, 11), (6, 12), (6, 13)}
  }

  /** The 7 cells of column 6 between the two left finder zones. */
  function TimingColumn(): set<(nat, nat)> {
    {(7, 6), (8, 6), (9, 6), (10, 6), (11, 6), (12, 6), (13, 6)}
  }

  /** The timing cells are exactly that row segment and that column segment. */
  lemma TimingCellsExplicit()
    ensures TimingSet() == TimingRow() + TimingColumn()
  {
  }

  lemma TimingSegmentSizes()
    ensures |TimingRow()| == 7 && |TimingColumn()| == 7
  {
  }

  /** Exactly 14 timing cells. */
  lemma TimingCellCount()
    ensures |TimingSet()| == 14
  {
    TimingCellsExplicit();
    TimingSegmentSizes();
    assert TimingRow() * TimingColumn() == {};
  }

  /** Six timing cells are on, the same six for every start state. */
  lemma TimingOnCells(r: nat, c: nat, h0: bv32)
    requires r < Size && c < Size && ZoneOf(r, c) == Timing
    ensures CellOn(r, c, h0) <==> (r, c) in {(6, 8), (6, 10), (6, 12), (8, 6), (10, 6), (12, 6)}
  {
    TimingCellsExplicit();
    assert (r, c) in TimingSet();
  }

  /** The timing rectangles do not depend on the seed: two walks from any
      two start states draw the same ones. */
  lemma TimingIndependentOfSeed(h1: bv32, h2: bv32)
    ensures forall q: Rect :: q.y < Size && q.x < Size && ZoneOf(q.y, q.x) == Timing ==>
      (q in CellRects(h1) <==> q in CellRects(h2))
  {
    CellRectsExactly(h1);
    CellRectsExactly(h2);
  }

  /** From state 0 no data cell is drawn: only timing cells remain. */
  lemma ZeroStateDrawsNoData()
    ensures forall q :: q in CellRects(0) ==> ZoneOf(q.y, q.x) == Timing
  {
    CellRectsExactly(0);
    forall n: nat ensures AdvanceN(0, n) == 0 {
      AdvanceNZero(n);
    }
  }
}
