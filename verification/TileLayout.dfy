/**
 * The grid of tiles on the screen and in composite reports (engine/src/display/display_render.cpp,
 * engine/src/runtime/app_ctrl.cpp, engine/src/event/event_report.cpp). Widths are aligned to four
 * pixels, heights to two. A report has the screen's size but a grid of its own, made for the panes
 * it has.
 *
 * Products, quotients and remainders of positive numbers are written by repeated addition and
 * subtraction; `TimesIsProduct` and `QuotientIsDivision` say that they are the usual ones.
 */
module TileLayout {
  datatype Rect = Rect(x: int, y: int, w: int, h: int)

  /** Columns and rows of a grid: the configuration never yields fewer than one. */
  type Count = n: int | n > 0 witness 1

  /** The extents laid out and the grid laid over them. */
  datatype Screen = Screen(width: nat, height: nat, cols: Count, rows: Count)

  const NOWHERE := Rect(0, 0, 0, 0)

  function Max(a: int, b: int): int { if a < b then b else a }

  function Times(k: nat, cell: nat): nat { if k == 0 then 0 else Times(k - 1, cell) + cell }

  function Quotient(n: nat, d: Count): nat {
    if n < d then 0 else 1 + Quotient(n - d, d)
  }

  function Remainder(n: nat, d: Count): (r: nat)
    ensures r < d
  {
    if n < d then n else Remainder(n - d, d)
  }

  lemma {:induction false} TimesIsProduct(k: nat, cell: nat)
    ensures Times(k, cell) == k * cell
    decreases k
  {
    if k > 0 {
      TimesIsProduct(k - 1, cell);
      assert k * cell == (k - 1) * cell + cell;
    }
  }

  lemma {:induction false} QuotientParts(n: nat, d: Count)
    ensures n == Times(Quotient(n, d), d) + Remainder(n, d)
    decreases n
  {
    if n >= d {
      QuotientParts(n - d, d);
    }
  }

  lemma MultipleIsLarge(x: int, d: nat)
    ensures x >= 1 ==> x * d >= d
    ensures x <= -1 ==> x * d + d <= 0
  {
    if x >= 1 {
      assert (x - 1) * d >= 0;
    } else if x <= -1 {
      assert (-1 - x) * d >= 0;
    }
  }

  lemma DivisionIsUnique(n: nat, d: Count, q: nat, r: nat)
    requires r < d && n == q * d + r
    ensures n / d == q && n % d == r
  {
    assert n == n / d * d + n % d;
    assert (q - n / d) * d == n % d - r;
    MultipleIsLarge(q - n / d, d);
  }

  lemma QuotientIsDivision(n: nat, d: Count)
    ensures Quotient(n, d) == n / d && Remainder(n, d) == n % d
  {
    QuotientParts(n, d);
    TimesIsProduct(Quotient(n, d), d);
    DivisionIsUnique(n, d, Quotient(n, d), Remainder(n, d));
  }

  lemma {:induction false} PartsAreUnique(q: nat, r: nat, d: Count)
    requires r < d
    ensures Quotient(Times(q, d) + r, d) == q && Remainder(Times(q, d) + r, d) == r
    decreases q
  {
    if q > 0 {
      PartsAreUnique(q - 1, r, d);
      assert Times(q, d) + r - d == Times(q - 1, d) + r;
    }
  }

  lemma {:induction false} TimesGrows(j: nat, k: nat, cell: nat)
    requires j <= k
    ensures Times(j, cell) <= Times(k, cell)
    decreases k
  {
    if j < k {
      TimesGrows(j, k - 1, cell);
    }
  }

  lemma {:induction false} TimesAdds(j: nat, k: nat, cell: nat)
    ensures Times(j + k, cell) == Times(j, cell) + Times(k, cell)
    decreases k
  {
    if k > 0 {
      TimesAdds(j, k - 1, cell);
    }
  }

  lemma {:induction false} TimesSwaps(j: nat, k: nat)
    ensures Times(j, k) == Times(k, j)
    decreases j
  {
    if j == 0 {
      TimesOfNothing(k);
    } else {
      TimesSwaps(j - 1, k);
      TimesOneMore(k, j - 1);
    }
  }

  lemma {:induction false} TimesOfNothing(k: nat)
    ensures Times(k, 0) == 0
    decreases k
  {
    if k > 0 {
      TimesOfNothing(k - 1);
    }
  }

  lemma {:induction false} TimesOneMore(k: nat, cell: nat)
    ensures Times(k, cell + 1) == Times(k, cell) + k
    decreases k
  {
    if k > 0 {
      TimesOneMore(k - 1, cell);
    }
  }

  lemma {:induction false} QuotientsGrow(a: nat, b: nat, count: Count)
    requires a <= b
    ensures Quotient(a, count) <= Quotient(b, count)
    decreases b
  {
    if a >= count {
      QuotientsGrow(a - count, b - count, count);
    }
  }

  // ---------------------------------------------------------------------------
  // One direction.

  /** Alignment to pairs or to fours: `v & ~1`, `v & ~3`. */
  datatype Unit = Two | Four

  function Size(unit: Unit): nat { if unit.Two? then 2 else 4 }

  function Down(v: int, unit: Unit): int { if unit.Two? then v - v % 2 else v - v % 4 }

  /** The extent of one cell. */
  function Cell(extent: nat, count: Count): nat {
    Quotient(extent, count)
  }

  /** Where cell `k` of `count` begins, and where it ends: the last one takes what is left. */
  function Begin(extent: nat, count: Count, unit: Unit, k: nat): int {
    Down(Times(k, Cell(extent, count)), unit)
  }

  function End(extent: nat, count: Count, unit: Unit, k: nat): int {
    if k == count - 1 then Down(extent, unit) else Down(Times(k + 1, Cell(extent, count)), unit)
  }

  /** The edges in a row: one more than there are cells. */
  function Edge(extent: nat, count: Count, unit: Unit, k: nat): int {
    if k == count then Down(extent, unit) else Begin(extent, count, unit, k)
  }

  predicate RoomyIn(extent: nat, count: Count, unit: Unit) { Cell(extent, count) >= Size(unit) }

  lemma DownKeepsGap(a: int, b: int, unit: Unit)
    requires a + Size(unit) <= b
    ensures Down(a, unit) + Size(unit) <= Down(b, unit)
  {
    if unit.Two? {
      assert (a + 2) / 2 == a / 2 + 1 && (a + 2) / 2 <= b / 2;
    } else {
      assert (a + 4) / 4 == a / 4 + 1 && (a + 4) / 4 <= b / 4;
    }
  }

  lemma CellsFit(extent: nat, count: Count)
    ensures Times(count, Cell(extent, count)) <= extent
  {
    QuotientParts(extent, count);
    TimesSwaps(Quotient(extent, count), count);
  }

  /** Each cell has at least one unit, and the next one starts where it ends. */
  lemma EdgesRise(extent: nat, count: Count, unit: Unit, k: nat)
    requires RoomyIn(extent, count, unit) && k < count
    ensures Edge(extent, count, unit, k) + Size(unit) <= Edge(extent, count, unit, k + 1)
    ensures Begin(extent, count, unit, k) == Edge(extent, count, unit, k) && End(extent, count, unit, k) == Edge(extent, count, unit, k + 1)
  {
    CellsFit(extent, count);
    assert Times(k + 1, Cell(extent, count)) == Times(k, Cell(extent, count)) + Cell(extent, count);
    var next := if k + 1 == count then extent else Times(k + 1, Cell(extent, count));
    DownKeepsGap(Times(k, Cell(extent, count)), next, unit);
  }

  lemma CellIsBetweenEdges(extent: nat, count: Count, unit: Unit, k: nat)
    requires k < count
    ensures Begin(extent, count, unit, k) == Edge(extent, count, unit, k) && End(extent, count, unit, k) == Edge(extent, count, unit, k + 1)
    ensures extent == 0 ==> End(extent, count, unit, k) <= Begin(extent, count, unit, k)
  {
    CellsFit(extent, count);
    if extent == 0 {
      TimesOfNothing(k);
      TimesOfNothing(k + 1);
    }
  }

  lemma {:induction false} EdgesAreOrdered(extent: nat, count: Count, unit: Unit, j: nat, k: nat)
    requires RoomyIn(extent, count, unit) && j < k <= count
    ensures Edge(extent, count, unit, j) < Edge(extent, count, unit, k)
    decreases k
  {
    EdgesRise(extent, count, unit, k - 1);
    if j < k - 1 {
      EdgesAreOrdered(extent, count, unit, j, k - 1);
    }
  }

  lemma {:induction false} FindCell(extent: nat, count: Count, unit: Unit, p: int, n: nat) returns (k: nat)
    requires 0 < n <= count && 0 <= p < Edge(extent, count, unit, n)
    ensures k < n && Edge(extent, count, unit, k) <= p < Edge(extent, count, unit, k + 1)
    decreases n
  {
    assert Edge(extent, count, unit, 0) == 0;
    hide Edge;
    if Edge(extent, count, unit, n - 1) <= p {
      k := n - 1;
    } else {
      k := FindCell(extent, count, unit, p, n - 1);
    }
  }

  lemma SameCell(extent: nat, count: Count, unit: Unit, j: nat, k: nat, p: int)
    requires RoomyIn(extent, count, unit) && j < count && k < count
    requires Edge(extent, count, unit, j) <= p < Edge(extent, count, unit, j + 1)
    requires Edge(extent, count, unit, k) <= p < Edge(extent, count, unit, k + 1)
    ensures j == k
  {
    hide Edge;
    if j + 1 < k {
      EdgesAreOrdered(extent, count, unit, j + 1, k);
    } else if k + 1 < j {
      EdgesAreOrdered(extent, count, unit, k + 1, j);
    }
  }

  lemma DownIsNear(v: int, unit: Unit)
    ensures v - Size(unit) < Down(v, unit) <= v
  {
  }

  predicate Aligned(v: int, unit: Unit) { if unit.Two? then v % 2 == 0 else v % 4 == 0 }

  lemma DownIsAligned(v: nat, unit: Unit)
    ensures Aligned(Down(v, unit), unit) && Down(v, unit) >= 0
  {
    if unit.Two? {
      DivisionIsUnique(v - v % 2, 2, v / 2, 0);
    } else {
      DivisionIsUnique(v - v % 4, 4, v / 4, 0);
    }
  }

  lemma GapIsAligned(a: nat, b: nat, unit: Unit)
    requires Aligned(a, unit) && Aligned(b, unit) && a <= b
    ensures Aligned(b - a, unit) && (a < b ==> b - a >= Size(unit))
  {
    if unit.Two? {
      DivisionIsUnique(b - a, 2, b / 2 - a / 2, 0);
    } else {
      DivisionIsUnique(b - a, 4, b / 4 - a / 4, 0);
    }
  }

  lemma EdgeIsAligned(extent: nat, count: Count, unit: Unit, k: nat)
    ensures Edge(extent, count, unit, k) >= 0 && Aligned(Edge(extent, count, unit, k), unit)
  {
    hide Down, Aligned;
    DownIsAligned(extent, unit);
    DownIsAligned(Times(k, Cell(extent, count)), unit);
  }

  lemma SpanIsAligned(extent: nat, count: Count, unit: Unit, k: nat)
    requires k < count
    ensures var left, right := Edge(extent, count, unit, k), Edge(extent, count, unit, k + 1);
            Aligned(left, unit) && (left < right ==> Aligned(right - left, unit) && right - left >= Size(unit))
  {
    EdgeIsAligned(extent, count, unit, k);
    EdgeIsAligned(extent, count, unit, k + 1);
    hide Edge, Aligned;
    if Edge(extent, count, unit, k) < Edge(extent, count, unit, k + 1) {
      GapIsAligned(Edge(extent, count, unit, k), Edge(extent, count, unit, k + 1), unit);
    }
  }

  // ---------------------------------------------------------------------------
  // The tiles.

  function Col(s: Screen, order: nat): (c: nat)
    ensures c < s.cols
  {
    Remainder(order, s.cols)
  }

  function Row(s: Screen, order: nat): nat {
    Quotient(order, s.cols)
  }

  function TileX(s: Screen, order: nat): int {
    Begin(s.width, s.cols, Four, Col(s, order))
  }

  function TileY(s: Screen, order: nat): int {
    Begin(s.height, s.rows, Two, Row(s, order))
  }

  function TileWidth(s: Screen, order: nat): int {
    Max(2, End(s.width, s.cols, Four, Col(s, order)) - Begin(s.width, s.cols, Four, Col(s, order)))
  }

  function TileHeight(s: Screen, order: nat): int {
    Max(2, End(s.height, s.rows, Two, Row(s, order)) - Begin(s.height, s.rows, Two, Row(s, order)))
  }

  function Tile(s: Screen, order: nat): Rect {
    Rect(TileX(s, order), TileY(s, order), TileWidth(s, order), TileHeight(s, order))
  }

  predicate Roomy(s: Screen) { RoomyIn(s.width, s.cols, Four) && RoomyIn(s.height, s.rows, Two) }

  predicate OnGrid(s: Screen, order: nat) { Row(s, order) < s.rows }

  predicate Holds(r: Rect, x: int, y: int) { r.x <= x < r.x + r.w && r.y <= y < r.y + r.h }

  /** A tile reaches from its edges to the next ones; the lower bound of two never matters. */
  lemma TileSpansItsCell(s: Screen, order: nat)
    requires Roomy(s) && OnGrid(s, order)
    ensures var t, col, row := Tile(s, order), Col(s, order), Row(s, order);
            t.x == Edge(s.width, s.cols, Four, col) && t.x + t.w == Edge(s.width, s.cols, Four, col + 1)
            && t.y == Edge(s.height, s.rows, Two, row) && t.y + t.h == Edge(s.height, s.rows, Two, row + 1)
            && t.w >= 4 && t.h >= 2
  {
    EdgesRise(s.width, s.cols, Four, Col(s, order));
    EdgesRise(s.height, s.rows, Two, Row(s, order));
  }

  /** Places and sizes are multiples of four across and two down. */
  lemma TilesAreAligned(s: Screen, order: nat)
    requires Roomy(s) && OnGrid(s, order)
    ensures var t := Tile(s, order);
            Aligned(t.x, Four) && Aligned(t.w, Four) && Aligned(t.y, Two) && Aligned(t.h, Two)
  {
    hide Edge, Tile, Aligned;
    TileSpansItsCell(s, order);
    SpanIsAligned(s.width, s.cols, Four, Col(s, order));
    SpanIsAligned(s.height, s.rows, Two, Row(s, order));
  }

  /** On every screen, a cramped one included, a tile is at least two pixels wide and high, and even in both directions. */
  lemma TilesShowSomething(s: Screen, order: nat)
    ensures var t := Tile(s, order);
            t.w >= 2 && t.h >= 2 && t.w % 2 == 0 && t.h % 2 == 0
  {
    hide Begin, End;
    EndsAreEven(s.width, s.cols, Four, Col(s, order));
    EndsAreEven(s.height, s.rows, Two, Row(s, order));
  }

  lemma EndsAreEven(extent: nat, count: Count, unit: Unit, k: nat)
    ensures Begin(extent, count, unit, k) % 2 == 0 && End(extent, count, unit, k) % 2 == 0
  {
    hide Times, Quotient, Down;
    DownIsEven(Times(k, Cell(extent, count)), unit);
    DownIsEven(Times(k + 1, Cell(extent, count)), unit);
    DownIsEven(extent, unit);
  }

  lemma DownIsEven(v: nat, unit: Unit)
    ensures Down(v, unit) % 2 == 0
  {
    DownIsAligned(v, unit);
    hide Down;
    FoursAreEven(Down(v, unit));
  }

  lemma FoursAreEven(v: nat)
    ensures v % 4 == 0 ==> v % 2 == 0
  {
    if v % 4 == 0 {
      DivisionIsUnique(v, 2, 2 * (v / 4), 0);
    }
  }

  // ---------------------------------------------------------------------------
  // Configurations.

  /** Extents as the getters return them. */
  predicate Even(s: Screen) { Down(s.width, Four) == s.width && Down(s.height, Two) == s.height }

  /** The configured display, and how many channels it shows, in display order. */
  datatype Config = Config(dispWidth: nat, dispHeight: nat, tileCols: int, tileRows: int, channels: nat)

  /** The rows that `n` tiles fill: one at least. */
  function RowsFor(n: nat, cols: Count): Count { Max(1, Quotient(n + cols - 1, cols)) }

  /** What `app_ctrl_get_disp_width` and the other getters return. */
  function ScreenOf(c: Config): (s: Screen)
    ensures Even(s)
  {
    var cols := Max(1, c.tileCols);
    Screen(Down(c.dispWidth, Four), Down(c.dispHeight, Two), cols, Max(c.tileRows, RowsFor(c.channels, cols)))
  }

  /** The layout of a report with so many panes. */
  function ReportOf(c: Config, panes: nat): (s: Screen)
    ensures Even(s)
  {
    var cols := Max(1, if c.tileCols < Max(1, panes) then c.tileCols else Max(1, panes));
    Screen(Down(c.dispWidth, Four), Down(c.dispHeight, Two), cols, RowsFor(Max(1, panes), cols))
  }

  /** So many tiles fit their rows. */
  lemma PlacesFit(n: nat, cols: Count, order: nat)
    requires order < n
    ensures Quotient(order, cols) < RowsFor(n, cols)
  {
    QuotientsGrow(order + cols, n + cols - 1, cols);
  }

  /** The grid has a place for every channel. */
  lemma ChannelsAreOnGrid(c: Config, order: nat)
    requires order < c.channels
    ensures OnGrid(ScreenOf(c), order)
  {
    PlacesFit(c.channels, ScreenOf(c).cols, order);
  }

  lemma PanesAreOnGrid(c: Config, panes: nat, index: nat)
    requires index < panes
    ensures OnGrid(ReportOf(c, panes), index)
  {
    PlacesFit(panes, ReportOf(c, panes).cols, index);
  }

  /** The panes take as much of a grid as the screen has: a full row of them, and as many rows. */
  predicate FillsGrid(c: Config, panes: nat) {
    panes >= ScreenOf(c).cols && RowsFor(panes, ScreenOf(c).cols) == ScreenOf(c).rows
  }

  /** A report's grid is no finer than the screen's, and has its columns from a full row on. */
  lemma ReportGridIsCoarser(c: Config, panes: nat)
    requires 0 < panes <= c.channels
    ensures ReportOf(c, panes).cols <= ScreenOf(c).cols && ReportOf(c, panes).rows <= ScreenOf(c).rows
    ensures ReportOf(c, panes).cols == ScreenOf(c).cols <==> panes >= ScreenOf(c).cols
  {
    var cols := ReportOf(c, panes).cols;
    if panes >= ScreenOf(c).cols {
      QuotientsGrow(panes + cols - 1, c.channels + cols - 1, cols);
    } else {
      assert Quotient(panes + panes - 1, panes) == 1 + Quotient(panes - 1, panes);
    }
  }

  // ---------------------------------------------------------------------------
  // Where tiles meet, and what they cover.

  lemma {:induction false} NextPlace(n: nat, d: Count)
    ensures if Remainder(n, d) + 1 < d then Quotient(n + 1, d) == Quotient(n, d) && Remainder(n + 1, d) == Remainder(n, d) + 1
            else Quotient(n + 1, d) == Quotient(n, d) + 1 && Remainder(n + 1, d) == 0
    decreases n
  {
    if n >= d {
      NextPlace(n - d, d);
    } else {
      assert n + 1 == d ==> Quotient(0, d) == 0 && Remainder(0, d) == 0;
    }
  }

  /** Tiles follow one another like words: to the right, and from the end of a row to the start of the next. */
  lemma TilesReadOn(s: Screen, order: nat)
    requires Roomy(s) && OnGrid(s, order) && OnGrid(s, order + 1)
    ensures var t, u := Tile(s, order), Tile(s, order + 1);
            || (u.x == t.x + t.w && u.y == t.y)
            || (u.x == 0 && u.y == t.y + t.h && t.x + t.w == Down(s.width, Four))
  {
    NextPlace(order, s.cols);
    TileSpansItsCell(s, order);
    TileSpansItsCell(s, order + 1);
    assert Edge(s.width, s.cols, Four, 0) == 0;
  }

  /** The first tile is in the corner. */
  lemma FirstTileInCorner(s: Screen)
    ensures Tile(s, 0).x == 0 && Tile(s, 0).y == 0
  {
  }

  /** Tiles are as wide and as high as their shares of the screen, to a unit of alignment; the last ones take what is left over. */
  lemma TilesAreEven(s: Screen, order: nat)
    requires Roomy(s) && OnGrid(s, order)
    ensures var t := Tile(s, order);
            && t.w > s.width / s.cols - 4 && t.w < s.width / s.cols + s.width % s.cols + 4
            && t.h > s.height / s.rows - 2 && t.h < s.height / s.rows + s.height % s.rows + 2
  {
    TileSpansItsCell(s, order);
    hide Edge, Tile;
    QuotientIsDivision(s.width, s.cols);
    QuotientIsDivision(s.height, s.rows);
    SpanIsNearCell(s.width, s.cols, Four, Col(s, order));
    SpanIsNearCell(s.height, s.rows, Two, Row(s, order));
  }

  ghost predicate Disjoint(s: Screen) {
    forall i: nat, j: nat, x, y ::
      OnGrid(s, i) && OnGrid(s, j) && Holds(Tile(s, i), x, y) && Holds(Tile(s, j), x, y) ==> i == j
  }

  /** In a direction that is divided, cells have at least one unit. */
  predicate Separates(extent: nat, count: Count, unit: Unit) { count == 1 || RoomyIn(extent, count, unit) }

  /** One direction of two tiles that share a pixel. */
  lemma SameCellIfSeparate(extent: nat, count: Count, unit: Unit, j: nat, k: nat, p: int)
    requires Separates(extent, count, unit) && j < count && k < count
    requires Begin(extent, count, unit, j) <= p < Begin(extent, count, unit, j) + Max(2, End(extent, count, unit, j) - Begin(extent, count, unit, j))
    requires Begin(extent, count, unit, k) <= p < Begin(extent, count, unit, k) + Max(2, End(extent, count, unit, k) - Begin(extent, count, unit, k))
    ensures j == k
  {
    if count > 1 {
      EdgesRise(extent, count, unit, j);
      EdgesRise(extent, count, unit, k);
      SameCell(extent, count, unit, j, k, p);
    }
  }

  lemma SharedPixelMeansSameTile(s: Screen, i: nat, j: nat, x: int, y: int)
    requires Separates(s.width, s.cols, Four) && Separates(s.height, s.rows, Two)
    requires OnGrid(s, i) && OnGrid(s, j) && Holds(Tile(s, i), x, y) && Holds(Tile(s, j), x, y)
    ensures i == j
  {
    SameCellIfSeparate(s.width, s.cols, Four, Col(s, i), Col(s, j), x);
    SameCellIfSeparate(s.height, s.rows, Two, Row(s, i), Row(s, j), y);
    QuotientParts(i, s.cols);
    QuotientParts(j, s.cols);
  }

  /** Two cells of less than a unit begin at the same place. */
  lemma CrampedCellsCollide(extent: nat, count: Count, unit: Unit)
    requires !Separates(extent, count, unit)
    ensures Begin(extent, count, unit, 0) == Begin(extent, count, unit, 1) == 0
  {
    assert Times(1, Cell(extent, count)) == Times(0, Cell(extent, count)) + Cell(extent, count);
  }

  /** The first two tiles of the first row, or the first ones of the first two rows, share the first pixel. */
  lemma CrampedTilesOverlap(s: Screen) returns (order: nat)
    requires !Separates(s.width, s.cols, Four) || !Separates(s.height, s.rows, Two)
    ensures 0 < order && OnGrid(s, 0) && OnGrid(s, order)
    ensures Holds(Tile(s, 0), 0, 0) && Holds(Tile(s, order), 0, 0)
  {
    if !Separates(s.width, s.cols, Four) {
      order := 1;
      CrampedCellsCollide(s.width, s.cols, Four);
    } else {
      order := s.cols;
      CrampedCellsCollide(s.height, s.rows, Two);
      assert Quotient(0, s.cols) == 0 && Remainder(0, s.cols) == 0;
    }
    assert Times(0, Cell(s.width, s.cols)) == 0 && Times(0, Cell(s.height, s.rows)) == 0;
  }

  /** No two tiles share a pixel exactly if no divided direction has cells below its unit. */
  lemma TilesAreDisjointIff(s: Screen)
    ensures Disjoint(s) <==>
            (s.cols == 1 || Cell(s.width, s.cols) >= 4) && (s.rows == 1 || Cell(s.height, s.rows) >= 2)
  {
    if Separates(s.width, s.cols, Four) && Separates(s.height, s.rows, Two) {
      forall i: nat, j: nat, x, y | OnGrid(s, i) && OnGrid(s, j) && Holds(Tile(s, i), x, y) && Holds(Tile(s, j), x, y)
        ensures i == j
      {
        SharedPixelMeansSameTile(s, i, j, x, y);
      }
    } else {
      var order := CrampedTilesOverlap(s);
    }
  }

  /** Sixteen pixels in five columns of three: the tiles are widened and overlap. */
  lemma CrampedScreen() returns (c: Config)
    ensures c.dispWidth == c.dispHeight == 16 && c.channels == c.tileCols == 5 && !Disjoint(ScreenOf(c))
  {
    c := Config(16, 16, 5, 1, 5);
    var s := ScreenOf(c);
    QuotientIsDivision(s.width, s.cols);
    TilesAreDisjointIff(s);
  }

  /** Every pixel of the aligned screen is in a tile, whatever the size of the cells. */
  lemma TilesCoverTheScreen(s: Screen, x: int, y: int) returns (order: nat)
    requires 0 <= x < Down(s.width, Four) && 0 <= y < Down(s.height, Two)
    ensures OnGrid(s, order) && Holds(Tile(s, order), x, y)
  {
    assert Edge(s.width, s.cols, Four, s.cols) == Down(s.width, Four) && Edge(s.height, s.rows, Two, s.rows) == Down(s.height, Two);
    hide Begin, End, Edge, Down;
    var col := FindCell(s.width, s.cols, Four, x, s.cols);
    var row := FindCell(s.height, s.rows, Two, y, s.rows);
    order := Times(row, s.cols) + col;
    PartsAreUnique(row, col, s.cols);
    CellIsBetweenEdges(s.width, s.cols, Four, col);
    CellIsBetweenEdges(s.height, s.rows, Two, row);
  }

  /** A cell begins inside an extent of one unit at least. */
  lemma CellBeginsInside(extent: nat, count: Count, unit: Unit, k: nat)
    requires k < count && extent > 0
    ensures Times(k, Cell(extent, count)) < extent && Times(k + 1, Cell(extent, count)) <= extent
  {
    CellsFit(extent, count);
    TimesGrows(k + 1, count, Cell(extent, count));
    if Cell(extent, count) == 0 {
      TimesOfNothing(k);
    }
  }

  /** One direction: a cell stays inside the aligned extent, even widened to two pixels. */
  lemma WidenedCellStays(extent: nat, count: Count, unit: Unit, k: nat)
    requires k < count && Down(extent, unit) == extent && extent > 0
    ensures var left, right := Begin(extent, count, unit, k), End(extent, count, unit, k);
            0 <= left && left + Max(2, right - left) <= extent
  {
    CellBeginsInside(extent, count, unit, k);
    DownIsNear(Times(k, Cell(extent, count)), unit);
    DownIsNear(Times(k + 1, Cell(extent, count)), unit);
    DownIsAligned(Times(k, Cell(extent, count)), unit);
    DownIsAligned(extent, unit);
    hide Down, Aligned, Cell, Times;
    GapIsAligned(Begin(extent, count, unit, k), extent, unit);
  }

  lemma TileStaysOnScreen(s: Screen, order: nat)
    requires Even(s) && s.width > 0 && s.height > 0 && OnGrid(s, order)
    ensures var t := Tile(s, order);
            0 <= t.x && t.x + t.w <= s.width && 0 <= t.y && t.y + t.h <= s.height
  {
    hide Begin, End, Down;
    WidenedCellStays(s.width, s.cols, Four, Col(s, order));
    WidenedCellStays(s.height, s.rows, Two, Row(s, order));
  }

  lemma TileStartsOnScreen(s: Screen, order: nat)
    ensures TileX(s, order) >= 0 && TileY(s, order) >= 0
  {
  }

  ghost predicate AllOnScreen(s: Screen) {
    forall order | OnGrid(s, order) ::
      var t := Tile(s, order); 0 <= t.x && t.x + t.w <= s.width && 0 <= t.y && t.y + t.h <= s.height
  }

  /** On a configured screen all tiles stay, exactly if it is four pixels wide and two high at least. */
  lemma TilesStayOnScreenIff(c: Config)
    ensures AllOnScreen(ScreenOf(c)) <==> c.dispWidth >= 4 && c.dispHeight >= 2
  {
    var s := ScreenOf(c);
    DownIsNear(c.dispWidth, Four);
    DownIsNear(c.dispHeight, Two);
    if c.dispWidth >= 4 && c.dispHeight >= 2 {
      forall order | OnGrid(s, order)
        ensures var t := Tile(s, order); 0 <= t.x && t.x + t.w <= s.width && 0 <= t.y && t.y + t.h <= s.height
      {
        TileStaysOnScreen(s, order);
      }
    } else {
      assert OnGrid(s, 0);
      TileStartsOnScreen(s, 0);
    }
  }

  // ---------------------------------------------------------------------------
  // The frame buffer.

  /** The place of a screen pixel in the buffer, counted in pixels and in bytes. */
  function Linear(width: nat, x: nat, y: nat): nat { Times(y, width) + x }
  function Bytes(bytesPerPixel: nat, pixels: nat): nat { Times(pixels, bytesPerPixel) }

  function BufferOffset(s: Screen, order: nat, bytesPerPixel: nat): nat
    requires TileX(s, order) >= 0 && TileY(s, order) >= 0
  {
    Bytes(bytesPerPixel, Linear(s.width, TileX(s, order), TileY(s, order)))
  }

  /** Where row `dy`, column `dx` of a tile goes. */
  function PixelOffset(s: Screen, order: nat, bytesPerPixel: nat, dx: nat, dy: nat): nat
    requires TileX(s, order) >= 0 && TileY(s, order) >= 0
  {
    BufferOffset(s, order, bytesPerPixel) + Bytes(bytesPerPixel, Linear(s.width, dx, dy))
  }

  lemma OffsetsAdd(width: nat, bpp: nat, x: nat, y: nat, dx: nat, dy: nat)
    ensures Bytes(bpp, Linear(width, x, y)) + Bytes(bpp, Linear(width, dx, dy)) == Bytes(bpp, Linear(width, x + dx, y + dy))
  {
    TimesAdds(Linear(width, x, y), Linear(width, dx, dy), bpp);
    TimesAdds(y, dy, width);
  }

  lemma LinearIsBounded(width: nat, height: nat, x: nat, y: nat)
    requires x < width && y < height
    ensures Linear(width, x, y) <= Linear(width, width - 1, height - 1)
  {
    TimesGrows(y, height - 1, width);
  }

  /** Every pixel of a tile is written inside the frame buffer, at its place on the screen. */
  lemma TilePixelsFitTheBuffer(s: Screen, order: nat, bpp: nat, dx: nat, dy: nat)
    requires Even(s) && s.width > 0 && s.height > 0 && OnGrid(s, order) && dx < TileWidth(s, order) && dy < TileHeight(s, order)
    ensures TileX(s, order) >= 0 && TileY(s, order) >= 0
    ensures var x, y := TileX(s, order) + dx, TileY(s, order) + dy;
            x < s.width && y < s.height
            && PixelOffset(s, order, bpp, dx, dy) == Bytes(bpp, Linear(s.width, x, y))
            && PixelOffset(s, order, bpp, dx, dy) <= Bytes(bpp, Linear(s.width, s.width - 1, s.height - 1))
  {
    TileStaysOnScreen(s, order);
    TileStartsOnScreen(s, order);
    var x, y := TileX(s, order) + dx, TileY(s, order) + dy;
    assert x < s.width && y < s.height;
    hide TileX, TileY, TileWidth, TileHeight, Linear;
    OffsetsAdd(s.width, bpp, TileX(s, order), TileY(s, order), dx, dy);
    LinearIsBounded(s.width, s.height, x, y);
    TimesGrows(Linear(s.width, x, y), Linear(s.width, s.width - 1, s.height - 1), bpp);
  }

  /** No two places of the screen share a byte offset. */
  lemma OffsetsAreDistinct(width: Count, bpp: Count, x: nat, y: nat, u: nat, v: nat)
    requires x < width && u < width && Bytes(bpp, Linear(width, x, y)) == Bytes(bpp, Linear(width, u, v))
    ensures x == u && y == v
  {
    PartsAreUnique(Linear(width, x, y), 0, bpp);
    PartsAreUnique(Linear(width, u, v), 0, bpp);
    PartsAreUnique(y, x, width);
    PartsAreUnique(v, u, width);
  }

  // ---------------------------------------------------------------------------
  // The tiles of a composite report.

  /** `composite_tile_rect`. */
  function ReportTile(s: Screen, index: nat): Rect {
    if s.width == 0 || s.height == 0 then NOWHERE
    else
      var col, row := Col(s, index), Row(s, index);
      if row >= s.rows then NOWHERE
      else
        var left, top := Begin(s.width, s.cols, Four, col), Begin(s.height, s.rows, Two, row);
        var right, bottom := End(s.width, s.cols, Four, col), End(s.height, s.rows, Two, row);
        if right > left && bottom > top then Rect(left, top, right - left, bottom - top) else NOWHERE
  }

  /** On one grid a report has the screen's tiles, except where a cell has no pixel to show. */
  lemma SameGridSameTile(s: Screen, order: nat)
    ensures ReportTile(s, order) == Tile(s, order) <==>
            OnGrid(s, order)
            && Begin(s.width, s.cols, Four, Col(s, order)) < End(s.width, s.cols, Four, Col(s, order))
            && Begin(s.height, s.rows, Two, Row(s, order)) < End(s.height, s.rows, Two, Row(s, order))
  {
    hide Begin, End, Edge;
    CellIsBetweenEdges(s.width, s.cols, Four, Col(s, order));
    SpanIsAligned(s.width, s.cols, Four, Col(s, order));
    if OnGrid(s, order) {
      CellIsBetweenEdges(s.height, s.rows, Two, Row(s, order));
      SpanIsAligned(s.height, s.rows, Two, Row(s, order));
    }
  }

  /** Every configured screen with room for its cells has its own tiles in a report on the same grid. */
  lemma ReportHasScreenTiles(s: Screen, order: nat)
    requires Roomy(s) && OnGrid(s, order)
    ensures ReportTile(s, order) == Tile(s, order)
  {
    hide Begin, End, Edge, Tile, ReportTile;
    EdgesRise(s.width, s.cols, Four, Col(s, order));
    EdgesRise(s.height, s.rows, Two, Row(s, order));
    SameGridSameTile(s, order);
  }

  /**
   * Cells so large that neither the alignment nor what is left for the last one can make up for
   * taking one cell fewer.
   */
  predicate SpaciousIn(extent: nat, count: Count, unit: Unit) {
    RoomyIn(extent, count, unit)
    && Cell(extent, count) >= Times(Remainder(extent, count) + 2 * Size(unit) - 1, count - 1)
  }

  predicate Spacious(s: Screen) { SpaciousIn(s.width, s.cols, Four) && SpaciousIn(s.height, s.rows, Two) }

  /** A grid with fewer cells has larger ones. */
  lemma FewerCellsAreLarger(extent: nat, few: Count, many: Count, gain: nat)
    requires few < many && Cell(extent, many) >= Times(gain, many - 1)
    ensures Cell(extent, few) >= Cell(extent, many) + gain
  {
    var q := Cell(extent, many);
    QuotientParts(extent, many);
    TimesOneMore(q, many - 1);
    TimesAdds(q, gain, many - 1);
    TimesSwaps(q + gain, few);
    TimesSwaps(q + gain, many - 1);
    TimesGrows(few, many - 1, q + gain);
    QuotientsGrow(Times(q + gain, few), extent, few);
    PartsAreUnique(q + gain, 0, few);
  }

  lemma FewerCellsAreRoomy(extent: nat, few: Count, many: Count, unit: Unit)
    requires few <= many && RoomyIn(extent, many, unit)
    ensures RoomyIn(extent, few, unit)
  {
    if few < many {
      FewerCellsAreLarger(extent, few, many, 0);
    }
  }

  /** A cell shows no less than its share without a unit and no more than its share, the rest and a unit. */
  lemma SpanIsNearCell(extent: nat, count: Count, unit: Unit, k: nat)
    requires k < count
    ensures var span := Edge(extent, count, unit, k + 1) - Edge(extent, count, unit, k);
            Cell(extent, count) - Size(unit) < span < Cell(extent, count) + Remainder(extent, count) + Size(unit)
  {
    hide Down;
    QuotientParts(extent, count);
    TimesSwaps(Quotient(extent, count), count);
    assert Times(k + 1, Cell(extent, count)) == Times(k, Cell(extent, count)) + Cell(extent, count);
    DownIsNear(Times(k, Cell(extent, count)), unit);
    DownIsNear(Times(k + 1, Cell(extent, count)), unit);
    DownIsNear(extent, unit);
  }

  /** In one direction of a spacious screen two cells cover the same pixels only on the same grid. */
  lemma SameSpanSameCell(extent: nat, few: Count, many: Count, unit: Unit, j: nat, k: nat)
    requires few <= many && SpaciousIn(extent, many, unit) && j < few && k < many
    requires Edge(extent, few, unit, j) == Edge(extent, many, unit, k)
    requires Edge(extent, few, unit, j + 1) == Edge(extent, many, unit, k + 1)
    ensures few == many && j == k
  {
    if few < many {
      FewerCellsAreLarger(extent, few, many, Remainder(extent, many) + 2 * Size(unit) - 1);
      SpanIsNearCell(extent, few, unit, j);
      SpanIsNearCell(extent, many, unit, k);
    } else {
      EdgesRise(extent, many, unit, k);
      SameCell(extent, many, unit, j, k, Edge(extent, many, unit, k));
    }
  }

  /**
   * A pane of a report covers a tile of a spacious screen exactly if it has the tile's index and the
   * panes fill the screen's grid. Each pane is a channel of its own.
   */
  lemma PaneIsTileIff(c: Config, panes: nat, index: nat, order: nat)
    requires Spacious(ScreenOf(c)) && index < panes <= c.channels && order < c.channels
    ensures ReportTile(ReportOf(c, panes), index) == Tile(ScreenOf(c), order) <==>
            index == order && FillsGrid(c, panes)
  {
    var s, r := ScreenOf(c), ReportOf(c, panes);
    ReportGridIsCoarser(c, panes);
    ChannelsAreOnGrid(c, order);
    PanesAreOnGrid(c, panes, index);
    FewerCellsAreRoomy(s.width, r.cols, s.cols, Four);
    FewerCellsAreRoomy(s.height, r.rows, s.rows, Two);
    ReportHasScreenTiles(r, index);
    assert r.cols == s.cols ==> r.rows == RowsFor(panes, s.cols);
    assert s.width == r.width && s.height == r.height;
    if Tile(r, index) == Tile(s, order) {
      SameTileSameGrid(s, r, index, order);
    }
  }

  /** Panes that fill the screen's grid are all at the tiles of their index, on any screen with room for its cells. */
  lemma FullGridKeepsTiles(c: Config, panes: nat, index: nat)
    requires Roomy(ScreenOf(c)) && index < panes <= c.channels && FillsGrid(c, panes)
    ensures ReportTile(ReportOf(c, panes), index) == Tile(ScreenOf(c), index)
  {
    ReportGridIsCoarser(c, panes);
    assert ReportOf(c, panes) == ScreenOf(c);
    PanesAreOnGrid(c, panes, index);
    hide ReportTile, Tile, Roomy, ScreenOf, ReportOf;
    ReportHasScreenTiles(ScreenOf(c), index);
  }

  lemma SameTileSameGrid(s: Screen, r: Screen, index: nat, order: nat)
    requires Spacious(s) && Roomy(r) && OnGrid(r, index) && OnGrid(s, order)
    requires s.width == r.width && s.height == r.height && r.cols <= s.cols && r.rows <= s.rows
    requires Tile(r, index) == Tile(s, order)
    ensures r == s && index == order
  {
    TileSpansItsCell(r, index);
    TileSpansItsCell(s, order);
    SameSpanSameCell(s.width, r.cols, s.cols, Four, Col(r, index), Col(s, order));
    SameSpanSameCell(s.height, r.rows, s.rows, Two, Row(r, index), Row(s, order));
    QuotientParts(index, s.cols);
    QuotientParts(order, s.cols);
  }

  /** The panes of a report: the channels asked for, less those without a frame. */
  function Panes(requested: seq<nat>, missing: set<nat>): (panes: seq<nat>)
    ensures forall k | 0 <= k < |panes| :: panes[k] in requested && panes[k] !in missing
    ensures forall order | order in requested && order !in missing :: order in panes
  {
    if requested == [] then []
    else
      var rest := Panes(requested[..|requested| - 1], missing);
      if requested[|requested| - 1] in missing then rest else rest + [requested[|requested| - 1]]
  }

  ghost predicate Distinct(s: seq<nat>) { forall j, k | 0 <= j < k < |s| :: s[j] != s[k] }
  ghost predicate Ascending(s: seq<nat>) { forall j, k | 0 <= j < k < |s| :: s[j] < s[k] }

  lemma {:induction false} PanesKeepOrder(requested: seq<nat>, missing: set<nat>)
    ensures Distinct(requested) ==> Distinct(Panes(requested, missing))
    ensures Ascending(requested) ==> Ascending(Panes(requested, missing))
  {
    if requested != [] {
      PanesKeepOrder(requested[..|requested| - 1], missing);
    }
  }

  lemma {:induction false} DistinctFits(s: seq<nat>, n: nat)
    requires Distinct(s) && forall k | 0 <= k < |s| :: s[k] < n
    ensures |s| <= n
    decreases n
  {
    if s != [] {
      assert s[0] < n;
      if k :| 0 <= k < |s| && s[k] == n - 1 {
        DistinctFits(s[..k] + s[k + 1..], n - 1);
      } else {
        DistinctFits(s, n - 1);
      }
    }
  }

  /** So a channel is where it is on the screen exactly if its pane's index is its display order on a full grid. */
  lemma ChannelKeepsItsPlaceIff(c: Config, requested: seq<nat>, missing: set<nat>, index: nat)
    requires Spacious(ScreenOf(c)) && Distinct(requested) && forall order | order in requested :: order < c.channels
    requires index < |Panes(requested, missing)|
    ensures var panes := Panes(requested, missing);
            ReportTile(ReportOf(c, |panes|), index) == Tile(ScreenOf(c), panes[index]) <==>
            index == panes[index] && FillsGrid(c, |panes|)
  {
    hide Spacious, FillsGrid, ReportTile, ReportOf, Tile, ScreenOf;
    var panes := Panes(requested, missing);
    PanesKeepOrder(requested, missing);
    DistinctFits(panes, c.channels);
    PaneIsTileIff(c, |panes|, index, panes[index]);
  }

  // ---------------------------------------------------------------------------
  // All panes of a report at once, on any screen with room for its cells.

  /** One direction: a coarser grid whose cells are all cells of the finer one is that grid. */
  lemma {:induction false} SameEdges(extent: nat, few: Count, many: Count, unit: Unit, m: seq<nat>, k: nat)
    requires few <= many && RoomyIn(extent, many, unit) && |m| == few && k < few
    requires forall i | 0 <= i < few :: m[i] < many
               && Edge(extent, few, unit, i) == Edge(extent, many, unit, m[i]) && Edge(extent, few, unit, i + 1) == Edge(extent, many, unit, m[i] + 1)
    ensures m[k] == k && Edge(extent, few, unit, k + 1) == Edge(extent, many, unit, k + 1)
    decreases k
  {
    assert Edge(extent, few, unit, 0) == 0 == Edge(extent, many, unit, 0);
    hide Edge;
    if k > 0 {
      SameEdges(extent, few, many, unit, m, k - 1);
    }
    if m[k] < k {
      EdgesAreOrdered(extent, many, unit, m[k], k);
    } else if k < m[k] {
      EdgesAreOrdered(extent, many, unit, k, m[k]);
    }
  }

  lemma SameEdgesSameCount(extent: nat, few: Count, many: Count, unit: Unit, m: seq<nat>)
    requires few <= many && RoomyIn(extent, many, unit) && |m| == few
    requires forall i | 0 <= i < few :: m[i] < many
               && Edge(extent, few, unit, i) == Edge(extent, many, unit, m[i]) && Edge(extent, few, unit, i + 1) == Edge(extent, many, unit, m[i] + 1)
    ensures few == many
  {
    SameEdges(extent, few, many, unit, m, few - 1);
    assert Edge(extent, few, unit, few) == Edge(extent, many, unit, many);
    if few < many {
      EdgesAreOrdered(extent, many, unit, few, many);
    }
  }

  /** Pane `i` shows the channel with display order `orders[i]`, and covers its tile. */
  ghost predicate AllInPlace(c: Config, orders: seq<nat>) {
    forall i | 0 <= i < |orders| :: ReportTile(ReportOf(c, |orders|), i) == Tile(ScreenOf(c), orders[i])
  }

  lemma ReportIsRoomy(c: Config, panes: nat)
    requires Roomy(ScreenOf(c)) && 0 < panes <= c.channels
    ensures Roomy(ReportOf(c, panes))
  {
    var s, r := ScreenOf(c), ReportOf(c, panes);
    ReportGridIsCoarser(c, panes);
    FewerCellsAreRoomy(s.width, r.cols, s.cols, Four);
    FewerCellsAreRoomy(s.height, r.rows, s.rows, Two);
  }

  lemma PaneSpansTile(c: Config, orders: seq<nat>, i: nat)
    requires Roomy(ScreenOf(c)) && i < |orders| <= c.channels && orders[i] < c.channels
    requires ReportTile(ReportOf(c, |orders|), i) == Tile(ScreenOf(c), orders[i])
    ensures var s, r := ScreenOf(c), ReportOf(c, |orders|);
            && Edge(s.width, r.cols, Four, Col(r, i)) == Edge(s.width, s.cols, Four, Col(s, orders[i]))
            && Edge(s.width, r.cols, Four, Col(r, i) + 1) == Edge(s.width, s.cols, Four, Col(s, orders[i]) + 1)
            && Edge(s.height, r.rows, Two, Row(r, i)) == Edge(s.height, s.rows, Two, Row(s, orders[i]))
            && Edge(s.height, r.rows, Two, Row(r, i) + 1) == Edge(s.height, s.rows, Two, Row(s, orders[i]) + 1)
  {
    var s, r := ScreenOf(c), ReportOf(c, |orders|);
    assert s.width == r.width && s.height == r.height;
    ReportIsRoomy(c, |orders|);
    ChannelsAreOnGrid(c, orders[i]);
    PanesAreOnGrid(c, |orders|, i);
    hide ScreenOf, ReportOf, Roomy, ReportTile, Tile, Edge;
    ReportHasScreenTiles(r, i);
    TileSpansItsCell(r, i);
    TileSpansItsCell(s, orders[i]);
  }

  /** The first pane of each row is there. */
  lemma RowsBegin(panes: nat, cols: Count, k: nat)
    requires 0 < panes && k < RowsFor(panes, cols)
    ensures Times(k, cols) < panes && Quotient(Times(k, cols), cols) == k
  {
    PartsAreUnique(k, 0, cols);
    QuotientParts(panes + cols - 1, cols);
    if k < Quotient(panes + cols - 1, cols) {
      TimesGrows(k + 1, Quotient(panes + cols - 1, cols), cols);
    }
  }

  lemma SameColumns(c: Config, orders: seq<nat>)
    requires Roomy(ScreenOf(c)) && 0 < |orders| <= c.channels && AllInPlace(c, orders)
    requires forall i | 0 <= i < |orders| :: orders[i] < c.channels
    ensures ReportOf(c, |orders|).cols == ScreenOf(c).cols
  {
    var s, r := ScreenOf(c), ReportOf(c, |orders|);
    ReportGridIsCoarser(c, |orders|);
    assert r.cols <= |orders|;
    var m := seq(r.cols, i requires 0 <= i < r.cols => Col(s, orders[i]));
    forall i | 0 <= i < r.cols
      ensures Edge(s.width, r.cols, Four, i) == Edge(s.width, s.cols, Four, m[i])
      ensures Edge(s.width, r.cols, Four, i + 1) == Edge(s.width, s.cols, Four, m[i] + 1)
    {
      PaneSpansTile(c, orders, i);
      assert Col(r, i) == i;
    }
    SameEdgesSameCount(s.width, r.cols, s.cols, Four, m);
  }

  /** The tiles of the first panes of the rows. */
  lemma RowSpansTile(c: Config, orders: seq<nat>, k: nat)
    requires Roomy(ScreenOf(c)) && 0 < |orders| <= c.channels && AllInPlace(c, orders)
    requires forall i | 0 <= i < |orders| :: orders[i] < c.channels
    requires k < ReportOf(c, |orders|).rows
    ensures var s, r := ScreenOf(c), ReportOf(c, |orders|);
            && Times(k, r.cols) < |orders| && Row(s, orders[Times(k, r.cols)]) < s.rows
            && Edge(s.height, r.rows, Two, k) == Edge(s.height, s.rows, Two, Row(s, orders[Times(k, r.cols)]))
            && Edge(s.height, r.rows, Two, k + 1) == Edge(s.height, s.rows, Two, Row(s, orders[Times(k, r.cols)]) + 1)
  {
    var i := Times(k, ReportOf(c, |orders|).cols);
    RowsBegin(|orders|, ReportOf(c, |orders|).cols, k);
    ChannelsAreOnGrid(c, orders[i]);
    PaneSpansTile(c, orders, i);
  }

  lemma {:induction false} RowsOfPanes(c: Config, orders: seq<nat>, n: nat) returns (m: seq<nat>)
    requires Roomy(ScreenOf(c)) && 0 < |orders| <= c.channels && AllInPlace(c, orders)
    requires forall i | 0 <= i < |orders| :: orders[i] < c.channels
    requires n <= ReportOf(c, |orders|).rows
    ensures |m| == n
    ensures var s, r := ScreenOf(c), ReportOf(c, |orders|);
            forall k | 0 <= k < n :: m[k] < s.rows
              && Edge(s.height, r.rows, Two, k) == Edge(s.height, s.rows, Two, m[k])
              && Edge(s.height, r.rows, Two, k + 1) == Edge(s.height, s.rows, Two, m[k] + 1)
    decreases n
  {
    hide ScreenOf, ReportOf, Times, Edge, Row, AllInPlace, Roomy;
    m := [];
    if n > 0 {
      m := RowsOfPanes(c, orders, n - 1);
      RowSpansTile(c, orders, n - 1);
      m := m + [Row(ScreenOf(c), orders[Times(n - 1, ReportOf(c, |orders|).cols)])];
    }
  }

  lemma SameRows(c: Config, orders: seq<nat>)
    requires Roomy(ScreenOf(c)) && 0 < |orders| <= c.channels && AllInPlace(c, orders)
    requires forall i | 0 <= i < |orders| :: orders[i] < c.channels
    ensures ReportOf(c, |orders|).rows == ScreenOf(c).rows
  {
    var s, r := ScreenOf(c), ReportOf(c, |orders|);
    ReportGridIsCoarser(c, |orders|);
    assert RoomyIn(s.height, s.rows, Two) && s.height == r.height;
    hide ScreenOf, ReportOf, Edge, AllInPlace, Roomy, RoomyIn;
    var m := RowsOfPanes(c, orders, r.rows);
    SameEdgesSameCount(s.height, r.rows, s.rows, Two, m);
  }

  /** Equal tiles are one tile. */
  lemma SameTileSameOrder(s: Screen, i: nat, j: nat)
    requires Roomy(s) && OnGrid(s, i) && OnGrid(s, j) && Tile(s, i) == Tile(s, j)
    ensures i == j
  {
    TileSpansItsCell(s, i);
    hide Tile;
    SharedPixelMeansSameTile(s, i, j, Tile(s, i).x, Tile(s, i).y);
  }

  /**
   * All panes of a report cover the tiles of their channels exactly if they show the first channels
   * in display order and fill the screen's grid, on any screen with room for its cells.
   */
  lemma AllInPlaceIff(c: Config, orders: seq<nat>)
    requires Roomy(ScreenOf(c)) && 0 < |orders| <= c.channels
    requires forall i | 0 <= i < |orders| :: orders[i] < c.channels
    ensures AllInPlace(c, orders) <==> (forall i | 0 <= i < |orders| :: orders[i] == i) && FillsGrid(c, |orders|)
  {
    if AllInPlace(c, orders) {
      SameColumns(c, orders);
      SameRows(c, orders);
      GridIsFilled(c, |orders|);
      hide ScreenOf, ReportOf, FillsGrid, ReportTile, Tile, Roomy, OnGrid;
      forall i | 0 <= i < |orders| ensures orders[i] == i {
        PanesAreOnGrid(c, |orders|, i);
        ChannelsAreOnGrid(c, orders[i]);
        FullGridKeepsTiles(c, |orders|, i);
        SameTileSameOrder(ScreenOf(c), i, orders[i]);
      }
    } else if FillsGrid(c, |orders|) {
      hide ScreenOf, ReportOf, FillsGrid, ReportTile, Tile, Roomy;
      forall i | 0 <= i < |orders| ensures ReportTile(ReportOf(c, |orders|), i) == Tile(ScreenOf(c), i) {
        FullGridKeepsTiles(c, |orders|, i);
      }
    }
  }

  lemma GridIsFilled(c: Config, panes: nat)
    requires 0 < panes <= c.channels && ReportOf(c, panes).cols == ScreenOf(c).cols && ReportOf(c, panes).rows == ScreenOf(c).rows
    ensures FillsGrid(c, panes) && ReportOf(c, panes) == ScreenOf(c)
  {
    ReportGridIsCoarser(c, panes);
  }

  /** So a report shows every channel in its place exactly if no channel is missing before another and the grid is full. */
  lemma ReportKeepsAllPlacesIff(c: Config, requested: seq<nat>, missing: set<nat>)
    requires Roomy(ScreenOf(c)) && Distinct(requested) && forall order | order in requested :: order < c.channels
    requires Panes(requested, missing) != []
    ensures var panes := Panes(requested, missing);
            AllInPlace(c, panes) <==> (forall i | 0 <= i < |panes| :: panes[i] == i) && FillsGrid(c, |panes|)
  {
    var panes := Panes(requested, missing);
    PanesKeepOrder(requested, missing);
    DistinctFits(panes, c.channels);
    hide Roomy, FillsGrid, AllInPlace, ScreenOf;
    AllInPlaceIff(c, panes);
  }

  lemma {:induction false} AscendingGap(s: seq<nat>, j: nat, k: nat)
    requires Ascending(s) && j <= k < |s|
    ensures s[k] - s[j] >= k - j && s[k] >= k
    decreases k
  {
    if j < k {
      AscendingGap(s, j, k - 1);
    } else if 0 < k {
      AscendingGap(s, k - 1, k - 1);
    }
  }

  /** If all numbers up to `v` are there, they are the first. */
  lemma {:induction false} FirstOnesInPlace(s: seq<nat>, v: nat)
    requires Ascending(s) && forall u: nat | u <= v :: u in s
    ensures v < |s| && s[v] == v
    decreases v
  {
    assert v in s;
    var k :| 0 <= k < |s| && s[k] == v;
    AscendingGap(s, k, k);
    if v > 0 {
      FirstOnesInPlace(s, v - 1);
      assert v - 1 < k;
    }
  }

  /** Asked for in display order, a pane has its channel's index exactly if all channels up to it are shown. */
  lemma PaneIndexIsOrderIff(requested: seq<nat>, missing: set<nat>, index: nat)
    requires Ascending(requested) && index < |Panes(requested, missing)|
    ensures Panes(requested, missing)[index] == index <==>
            forall order: nat | order <= index :: order in requested && order !in missing
  {
    var panes := Panes(requested, missing);
    PanesKeepOrder(requested, missing);
    if panes[index] == index {
      forall order: nat | order <= index ensures order in requested && order !in missing {
        AscendingGap(panes, order, index);
        AscendingGap(panes, order, order);
        assert panes[order] == order;
      }
    } else if forall order: nat | order <= index :: order in requested && order !in missing {
      FirstOnesInPlace(panes, index);
    }
  }

  /** A report with one pane of a two by two screen shows it over the whole picture. */
  lemma LonePaneMoves() returns (c: Config)
    ensures Spacious(ScreenOf(c)) && ScreenOf(c).cols == ScreenOf(c).rows == 2 && c.channels == 4
    ensures ReportTile(ReportOf(c, 1), 0) != Tile(ScreenOf(c), 0)
  {
    c := Config(64, 32, 2, 2, 4);
    var s := ScreenOf(c);
    QuotientIsDivision(s.width, s.cols);
    QuotientIsDivision(s.height, s.rows);
    QuotientIsDivision(5, s.cols);
    TimesIsProduct(7, 1);
    TimesIsProduct(3, 1);
    PaneIsTileIff(c, 1, 0, 0);
  }

  /** On a screen that is not spacious a pane can cover a tile of another grid: 16 pixels in three columns or two. */
  lemma CrampedGridsCoincide() returns (c: Config)
    ensures Roomy(ScreenOf(c)) && 2 < ScreenOf(c).cols && ReportTile(ReportOf(c, 2), 1) == Tile(ScreenOf(c), 2)
  {
    c := Config(16, 2, 3, 1, 3);
    var s, r := ScreenOf(c), ReportOf(c, 2);
    CrampedGrids(c);
    hide ScreenOf, ReportOf, Tile, ReportTile;
    ReportHasScreenTiles(r, 1);
    TileSpansItsCell(r, 1);
    TileSpansItsCell(s, 2);
  }

  lemma CrampedGrids(c: Config)
    requires c == Config(16, 2, 3, 1, 3)
    ensures var s, r := ScreenOf(c), ReportOf(c, 2);
            && s == Screen(16, 2, 3, 1) && r == Screen(16, 2, 2, 1) && Roomy(s) && Roomy(r)
            && Col(s, 2) == 2 && Row(s, 2) == 0 && Col(r, 1) == 1 && Row(r, 1) == 0
            && Edge(16, 3, Four, 2) == Edge(16, 2, Four, 1) && Edge(16, 3, Four, 3) == Edge(16, 2, Four, 2)
  {
    QuotientIsDivision(16, 3);
    QuotientIsDivision(16, 2);
    QuotientIsDivision(2, 1);
    QuotientIsDivision(5, 3);
    QuotientIsDivision(3, 2);
    QuotientIsDivision(1, 2);
    QuotientIsDivision(2, 3);
    TimesIsProduct(2, 5);
    TimesIsProduct(1, 8);
  }
}
