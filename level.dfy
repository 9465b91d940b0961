/**
 * The CSV level loader as a function from the level text to the tile map it
 * fills and the static ground collision volumes it emits.
 *
 * The text is trimmed of white space and newlines and split into rows on
 * '\n'; each row is split on ',' and each trimmed cell parsed as an `Int`,
 * a cell that does not parse counting as 0. The tile map has as many columns
 * as the first row has cells and one row per text row, text row 0 being the
 * top world row. A cell value v marks a tile when v > 0 and v - 1 indexes one
 * of the three tile definitions.
 */
module Level {
  import opened SwiftText
  import PhysicsCategory

  const TileWidth: int := 64
  const TileHeight: int := 64
  /** The tile sheet holds three tiles side by side; one tile definition is made per tile. */
  const TilesPerRow: nat := 3
  const TileDefCount: nat := TilesPerRow
  /** The tile map node is placed at (0, 120). */
  const TileMapOriginY: int := 120

  /**
   * The parsed level: `cols` is the cell count of the first text row, and
   * `rows[i]` the parsed cells of text row i (rows may be ragged).
   */
  datatype LevelGrid = LevelGrid(cols: nat, rows: seq<seq<int>>)

  /**
   * The text rows: the whole text trimmed, then split on newlines. Only empty
   * lines are dropped; a line of spaces inside the text stays a row.
   */
  function LevelRows(text: string): seq<string>
  {
    Split(Trim(text, IsWhitespaceOrNewline), '\n')
  }

  /** `Int(cell.trimmingCharacters(in: .whitespaces)) ?? 0`. */
  function CellValue(piece: string): int
  {
    ParseInt(Trim(piece, IsWhitespace)).GetOr(0)
  }

  function CellValues(row: string): seq<int>
  {
    var pieces := Split(row, ',');
    seq(|pieces|, i requires 0 <= i < |pieces| => CellValue(pieces[i]))
  }

  /** The grid read from the text rows: the first row's cell count, and each row's parsed cells. */
  function GridOf(rows: seq<string>): LevelGrid
  {
    LevelGrid(if |rows| == 0 then 0 else |Split(rows[0], ',')|,
              seq(|rows|, i requires 0 <= i < |rows| => CellValues(rows[i])))
  }

  function ParseLevel(text: string): LevelGrid
  {
    GridOf(LevelRows(text))
  }

  /** The occupancy test of the fill loop: `value > 0` and `value - 1 < tileDefs.count`. */
  predicate IsTile(v: int) {
    v > 0 && v - 1 < TileDefCount
  }

  /** Cell `col` of text row `rowIndex` exists and holds a tile value. */
  predicate TextCellIsTile(g: LevelGrid, rowIndex: int, col: int) {
    0 <= rowIndex < |g.rows| && 0 <= col < |g.rows[rowIndex]| && IsTile(g.rows[rowIndex][col])
  }

  /** A column-major boolean grid with `cols` columns of `rowsCount` cells: `grid[col][row]`. */
  predicate Shaped(grid: seq<seq<bool>>, cols: nat, rowsCount: nat) {
    |grid| == cols && forall c :: 0 <= c < |grid| ==> |grid[c]| == rowsCount
  }

  /**
   * The tile map after the fill loop: `cols` by `|rows|` cells, world row r
   * taking text row `|rows| - 1 - r`; cells past `cols` in a long text row
   * fall outside the map.
   */
  function Occupancy(g: LevelGrid): (grid: seq<seq<bool>>)
    ensures Shaped(grid, g.cols, |g.rows|)
  {
    var n := |g.rows|;
    seq(g.cols, c requires 0 <= c < g.cols =>
      seq(n, r requires 0 <= r < n => TextCellIsTile(g, n - 1 - r, c)))
  }

  // ---------------------------------------------------------------------
  // Collision volumes
  // ---------------------------------------------------------------------

  /** A static physics body: centre, size, category and whether it is dynamic. */
  datatype Volume = Volume(x: int, y: int, width: int, height: int, category: bv32, isDynamic: bool)

  /** The ground volume of map cell (col, row): one tile in size, centred on the tile, above the map origin. */
  function VolumeAt(col: int, row: int): Volume
  {
    Volume(col * TileWidth + TileWidth / 2, row * TileHeight + TileHeight / 2 + TileMapOriginY,
           TileWidth, TileHeight, PhysicsCategory.Ground, false)
  }

  /** The map cell whose volume sits at `v`'s centre. */
  function ColumnOf(v: Volume): int { (v.x - TileWidth / 2) / TileWidth }
  function RowOf(v: Volume): int { (v.y - TileHeight / 2 - TileMapOriginY) / TileHeight }

  lemma VolumeAtInverse(col: int, row: int)
    ensures ColumnOf(VolumeAt(col, row)) == col && RowOf(VolumeAt(col, row)) == row
  {
  }

  /** Volumes of column `col`, rows `0..<k`, in row order (the inner loop). */
  function ColumnVolumes(grid: seq<seq<bool>>, rowsCount: nat, col: nat, k: nat): seq<Volume>
    requires Shaped(grid, |grid|, rowsCount) && col < |grid| && k <= rowsCount
  {
    if k == 0 then []
    else ColumnVolumes(grid, rowsCount, col, k - 1) + (if grid[col][k - 1] then [VolumeAt(col, k - 1)] else [])
  }

  /** Volumes of columns `0..<n`, column by column (the outer loop). */
  function VolumesUpTo(grid: seq<seq<bool>>, rowsCount: nat, n: nat): seq<Volume>
    requires Shaped(grid, |grid|, rowsCount) && n <= |grid|
  {
    if n == 0 then []
    else VolumesUpTo(grid, rowsCount, n - 1) + ColumnVolumes(grid, rowsCount, n - 1, rowsCount)
  }

  /** Every volume the emission loops add for a tile map. */
  function TileVolumes(grid: seq<seq<bool>>, rowsCount: nat): seq<Volume>
    requires Shaped(grid, |grid|, rowsCount)
  {
    VolumesUpTo(grid, rowsCount, |grid|)
  }

  /** Every volume the loader adds for a parsed level. */
  function GridVolumes(g: LevelGrid): seq<Volume>
  {
    TileVolumes(Occupancy(g), |g.rows|)
  }

  /** Every volume the loader adds for a level text. */
  function CollisionVolumes(text: string): seq<Volume>
  {
    GridVolumes(ParseLevel(text))
  }

  /** Cell (c, r) lies in the map and holds a tile. */
  predicate Occupied(grid: seq<seq<bool>>, rowsCount: nat, c: int, r: int)
    requires Shaped(grid, |grid|, rowsCount)
  {
    0 <= c < |grid| && 0 <= r < rowsCount && grid[c][r]
  }

  /** Every volume in `vs` is the volume of an occupied cell in columns `0..<n`. */
  predicate FromOccupiedCells(grid: seq<seq<bool>>, rowsCount: nat, vs: seq<Volume>, n: int)
    requires Shaped(grid, |grid|, rowsCount)
  {
    forall i :: 0 <= i < |vs| ==>
      ColumnOf(vs[i]) < n && Occupied(grid, rowsCount, ColumnOf(vs[i]), RowOf(vs[i]))
      && vs[i] == VolumeAt(ColumnOf(vs[i]), RowOf(vs[i]))
  }

  /** `u` comes before `v` in column-major order of their cells. */
  predicate Before(u: Volume, v: Volume) {
    ColumnOf(u) < ColumnOf(v) || (ColumnOf(u) == ColumnOf(v) && RowOf(u) < RowOf(v))
  }

  /** The volumes are in strictly increasing column-major order of their cells. */
  predicate ColumnMajor(vs: seq<Volume>) {
    forall i, j :: 0 <= i < j < |vs| ==> Before(vs[i], vs[j])
  }

  /** Each volume of column `col`, rows `0..<k`, is an occupied cell of that column, in increasing row order. */
  lemma {:induction false} ColumnVolumesFromCells(grid: seq<seq<bool>>, rowsCount: nat, col: nat, k: nat)
    requires Shaped(grid, |grid|, rowsCount) && col < |grid| && k <= rowsCount
    ensures var vs := ColumnVolumes(grid, rowsCount, col, k);
      FromOccupiedCells(grid, rowsCount, vs, col + 1) && ColumnMajor(vs) &&
      forall i :: 0 <= i < |vs| ==> ColumnOf(vs[i]) == col && RowOf(vs[i]) < k
  {
    if k > 0 {
      ColumnVolumesFromCells(grid, rowsCount, col, k - 1);
      VolumeAtInverse(col, k - 1);
    }
  }

  /** Every occupied cell of column `col` among rows `0..<k` has its volume in that column's volumes. */
  lemma {:induction false} ColumnVolumesCover(grid: seq<seq<bool>>, rowsCount: nat, col: nat, k: nat)
    requires Shaped(grid, |grid|, rowsCount) && col < |grid| && k <= rowsCount
    ensures forall r :: 0 <= r < k && grid[col][r] ==> VolumeAt(col, r) in ColumnVolumes(grid, rowsCount, col, k)
  {
    if k > 0 {
      ColumnVolumesCover(grid, rowsCount, col, k - 1);
    }
  }

  lemma FromOccupiedCellsAppend(grid: seq<seq<bool>>, rowsCount: nat, a: seq<Volume>, b: seq<Volume>, n: int)
    requires Shaped(grid, |grid|, rowsCount)
    requires FromOccupiedCells(grid, rowsCount, a, n) && FromOccupiedCells(grid, rowsCount, b, n)
    ensures FromOccupiedCells(grid, rowsCount, a + b, n)
  {
    forall i | 0 <= i < |a + b|
      ensures ColumnOf((a + b)[i]) < n && Occupied(grid, rowsCount, ColumnOf((a + b)[i]), RowOf((a + b)[i]))
      ensures (a + b)[i] == VolumeAt(ColumnOf((a + b)[i]), RowOf((a + b)[i]))
    {
      if i >= |a| {
        assert (a + b)[i] == b[i - |a|];
      }
    }
  }

  lemma ColumnMajorAppend(a: seq<Volume>, b: seq<Volume>, col: int)
    requires ColumnMajor(a) && ColumnMajor(b)
    requires forall i :: 0 <= i < |a| ==> ColumnOf(a[i]) < col
    requires forall i :: 0 <= i < |b| ==> ColumnOf(b[i]) == col
    ensures ColumnMajor(a + b)
  {
    forall i, j | 0 <= i < j < |a + b|
      ensures Before((a + b)[i], (a + b)[j])
    {
      if j < |a| {
        assert Before(a[i], a[j]);
      } else if i >= |a| {
        assert Before(b[i - |a|], b[j - |a|]);
      } else {
        assert (a + b)[j] == b[j - |a|];
      }
    }
  }

  /** Each volume of columns `0..<n` is an occupied cell of those columns, in column-major order. */
  lemma {:induction false} VolumesUpToFromCells(grid: seq<seq<bool>>, rowsCount: nat, n: nat)
    requires Shaped(grid, |grid|, rowsCount) && n <= |grid|
    ensures var vs := VolumesUpTo(grid, rowsCount, n);
      FromOccupiedCells(grid, rowsCount, vs, n) && ColumnMajor(vs)
      && forall i :: 0 <= i < |vs| ==> ColumnOf(vs[i]) < n
  {
    if n > 0 {
      VolumesUpToFromCells(grid, rowsCount, n - 1);
      ColumnVolumesFromCells(grid, rowsCount, n - 1, rowsCount);
      var a := VolumesUpTo(grid, rowsCount, n - 1);
      var b := ColumnVolumes(grid, rowsCount, n - 1, rowsCount);
      FromOccupiedCellsAppend(grid, rowsCount, a, b, n);
      ColumnMajorAppend(a, b, n - 1);
    }
  }

  /** Every occupied cell of columns `0..<n` has its volume among the volumes of those columns. */
  lemma {:induction false} VolumesUpToCover(grid: seq<seq<bool>>, rowsCount: nat, n: nat)
    requires Shaped(grid, |grid|, rowsCount) && n <= |grid|
    ensures forall c, r :: 0 <= c < n && Occupied(grid, rowsCount, c, r) ==> VolumeAt(c, r) in VolumesUpTo(grid, rowsCount, n)
  {
    if n > 0 {
      var a := VolumesUpTo(grid, rowsCount, n - 1);
      var b := ColumnVolumes(grid, rowsCount, n - 1, rowsCount);
      VolumesUpToCover(grid, rowsCount, n - 1);
      ColumnVolumesCover(grid, rowsCount, n - 1, rowsCount);
      forall c, r | 0 <= c < n && Occupied(grid, rowsCount, c, r)
        ensures VolumeAt(c, r) in a + b
      {
        if c < n - 1 {
          assert VolumeAt(c, r) in a;
        } else {
          assert VolumeAt(c, r) in b;
        }
      }
    }
  }

  /**
   * Exactly one volume per occupied cell: a cell's volume is emitted if and
   * only if the cell lies in the map and holds a tile, no volume is emitted
   * twice, and the order is column by column, bottom row first.
   */
  lemma TileVolumesExact(grid: seq<seq<bool>>, rowsCount: nat)
    requires Shaped(grid, |grid|, rowsCount)
    ensures var vs := TileVolumes(grid, rowsCount);
      (forall c, r :: VolumeAt(c, r) in vs <==> Occupied(grid, rowsCount, c, r)) &&
      ColumnMajor(vs) &&
      (forall i, j :: 0 <= i < j < |vs| ==> vs[i] != vs[j])
  {
    var vs := TileVolumes(grid, rowsCount);
    VolumesUpToFromCells(grid, rowsCount, |grid|);
    VolumesUpToCover(grid, rowsCount, |grid|);
    forall c, r | VolumeAt(c, r) in vs
      ensures Occupied(grid, rowsCount, c, r)
    {
      var i :| 0 <= i < |vs| && vs[i] == VolumeAt(c, r);
      VolumeAtInverse(c, r);
    }
  }

  // ---------------------------------------------------------------------
  // Counting
  // ---------------------------------------------------------------------

  /** The occupied cells of columns `0..<n`, as (col, row) pairs. */
  function CellsUpTo(grid: seq<seq<bool>>, rowsCount: nat, n: nat): set<(int, int)>
    requires Shaped(grid, |grid|, rowsCount) && n <= |grid|
  {
    set c, r | 0 <= c < n && 0 <= r < rowsCount && grid[c][r] :: (c, r)
  }

  /** The occupied cells of column `col` among rows `0..<k`. */
  function ColumnCells(grid: seq<seq<bool>>, rowsCount: nat, col: nat, k: nat): set<(int, int)>
    requires Shaped(grid, |grid|, rowsCount) && col < |grid| && k <= rowsCount
  {
    set r | 0 <= r < k && grid[col][r] :: (col, r)
  }

  /** The occupied cells of the whole map. */
  function OccupiedCells(grid: seq<seq<bool>>, rowsCount: nat): set<(int, int)>
    requires Shaped(grid, |grid|, rowsCount)
  {
    CellsUpTo(grid, rowsCount, |grid|)
  }

  lemma {:induction false} ColumnVolumesCount(grid: seq<seq<bool>>, rowsCount: nat, col: nat, k: nat)
    requires Shaped(grid, |grid|, rowsCount) && col < |grid| && k <= rowsCount
    ensures |ColumnVolumes(grid, rowsCount, col, k)| == |ColumnCells(grid, rowsCount, col, k)|
  {
    if k > 0 {
      ColumnVolumesCount(grid, rowsCount, col, k - 1);
      var prev := ColumnCells(grid, rowsCount, col, k - 1);
      var extra: set<(int, int)> := if grid[col][k - 1] then {(col, k - 1)} else {};
      assert ColumnCells(grid, rowsCount, col, k) == prev + extra;
      assert (col, k - 1) !in prev;
    }
  }

  lemma {:induction false} VolumesUpToCount(grid: seq<seq<bool>>, rowsCount: nat, n: nat)
    requires Shaped(grid, |grid|, rowsCount) && n <= |grid|
    ensures |VolumesUpTo(grid, rowsCount, n)| == |CellsUpTo(grid, rowsCount, n)|
  {
    if n > 0 {
      var a := VolumesUpTo(grid, rowsCount, n - 1);
      var b := ColumnVolumes(grid, rowsCount, n - 1, rowsCount);
      VolumesUpToCount(grid, rowsCount, n - 1);
      ColumnVolumesCount(grid, rowsCount, n - 1, rowsCount);
      CellsUpToSplit(grid, rowsCount, n);
      assert |VolumesUpTo(grid, rowsCount, n)| == |a| + |b|;
    }
  }

  /** The cells of columns `0..<n` are those of columns `0..<n-1` and, disjoint from them, those of column `n-1`. */
  lemma CellsUpToSplit(grid: seq<seq<bool>>, rowsCount: nat, n: nat)
    requires Shaped(grid, |grid|, rowsCount) && 0 < n <= |grid|
    ensures var prev := CellsUpTo(grid, rowsCount, n - 1);
      var column := ColumnCells(grid, rowsCount, n - 1, rowsCount);
      CellsUpTo(grid, rowsCount, n) == prev + column && prev * column == {}
  {
    var prev := CellsUpTo(grid, rowsCount, n - 1);
    var column := ColumnCells(grid, rowsCount, n - 1, rowsCount);
    forall p | p in CellsUpTo(grid, rowsCount, n)
      ensures p in prev + column
    {
      var c, r :| 0 <= c < n && 0 <= r < rowsCount && grid[c][r] && p == (c, r);
      if c < n - 1 {
        assert p in prev;
      } else {
        assert p in column;
      }
    }
    forall p | p in prev
      ensures p !in column
    {
    }
    assert prev * column == {};
  }

  /** As many volumes as occupied cells. */
  lemma TileVolumesCount(grid: seq<seq<bool>>, rowsCount: nat)
    requires Shaped(grid, |grid|, rowsCount)
    ensures |TileVolumes(grid, rowsCount)| == |OccupiedCells(grid, rowsCount)|
  {
    VolumesUpToCount(grid, rowsCount, |grid|);
  }

  // ---------------------------------------------------------------------
  // The loader's properties, stated on the level text
  // ---------------------------------------------------------------------

  /** With three tile definitions, a value marks a tile exactly when it lies in 1..3. */
  lemma IsTileRange(v: int)
    ensures IsTile(v) <==> 1 <= v <= 3
  {
  }

  // ---------------------------------------------------------------------
  // Writing a level back as text
  // ---------------------------------------------------------------------

  /** One text row: the values' decimal text joined by commas. */
  function FormatRow(row: seq<int>): string
  {
    Join(seq(|row|, j requires 0 <= j < |row| => FormatInt(row[j])), ',')
  }

  /** A level text: the rows joined by newlines. */
  function FormatLevel(rows: seq<seq<int>>): string
  {
    Join(seq(|rows|, i requires 0 <= i < |rows| => FormatRow(rows[i])), '\n')
  }

  /** Every row holds at least one value and every value fits a 64-bit `Int`. */
  predicate Writable(rows: seq<seq<int>>) {
    forall i :: 0 <= i < |rows| ==> |rows[i]| > 0 && forall j :: 0 <= j < |rows[i]| ==> IntMin <= rows[i][j] <= IntMax
  }

  /** A written value reads back as itself. */
  lemma CellValueFormat(v: int)
    requires IntMin <= v <= IntMax
    ensures CellValue(FormatInt(v)) == v
  {
    var s := FormatInt(v);
    assert !IsWhitespace(s[0]) && !IsWhitespace(s[|s| - 1]);
    TrimIsTrimmed(s, IsWhitespace);
    ParseFormatRoundTrip(v);
  }

  /** A written row is non-empty, has no newline and starts and ends with a digit or '-'. */
  lemma FormatRowShape(row: seq<int>)
    requires |row| > 0
    ensures var t := FormatRow(row);
      |t| > 0 && '\n' !in t && !IsWhitespaceOrNewline(t[0]) && !IsWhitespaceOrNewline(t[|t| - 1])
  {
    var pieces := seq(|row|, j requires 0 <= j < |row| => FormatInt(row[j]));
    forall j | 0 <= j < |pieces|
      ensures '\n' !in pieces[j]
    {
      assert forall i :: 0 <= i < |pieces[j]| ==> pieces[j][i] != '\n';
    }
    JoinAvoids(pieces, ',', '\n');
    JoinEnds(pieces, ',');
  }

  /** A written row reads back as its values. */
  lemma RowRoundTrip(row: seq<int>)
    requires |row| > 0 && forall j :: 0 <= j < |row| ==> IntMin <= row[j] <= IntMax
    ensures CellValues(FormatRow(row)) == row
  {
    var pieces := seq(|row|, j requires 0 <= j < |row| => FormatInt(row[j]));
    forall j | 0 <= j < |pieces|
      ensures |pieces[j]| > 0 && ',' !in pieces[j]
    {
      assert forall i :: 0 <= i < |pieces[j]| ==> pieces[j][i] != ',';
    }
    SplitJoin(pieces, ',');
    var cells := CellValues(FormatRow(row));
    forall j | 0 <= j < |row|
      ensures cells[j] == row[j]
    {
      CellValueFormat(row[j]);
    }
  }

  /** The grid read from written rows is the rows, `cols` being the first row's length. */
  lemma GridOfFormatted(rows: seq<seq<int>>, texts: seq<string>)
    requires Writable(rows)
    requires texts == seq(|rows|, i requires 0 <= i < |rows| => FormatRow(rows[i]))
    ensures GridOf(texts) == LevelGrid(if |rows| == 0 then 0 else |rows[0]|, rows)
  {
    var g := GridOf(texts);
    forall i | 0 <= i < |rows|
      ensures g.rows[i] == rows[i]
    {
      RowRoundTrip(rows[i]);
    }
    if |rows| > 0 {
      assert |Split(texts[0], ',')| == |CellValues(texts[0])|;
    }
  }

  /**
   * The loader's parse undoes writing: a level written as comma- and
   * newline-separated decimal values parses back to exactly those rows,
   * with the first row's length as the column count.
   */
  lemma ParseFormatLevel(rows: seq<seq<int>>)
    requires Writable(rows)
    ensures ParseLevel(FormatLevel(rows)) == LevelGrid(if |rows| == 0 then 0 else |rows[0]|, rows)
  {
    var texts := seq(|rows|, i requires 0 <= i < |rows| => FormatRow(rows[i]));
    var text := FormatLevel(rows);
    assert text == Join(texts, '\n');
    forall i | 0 <= i < |texts|
      ensures |texts[i]| > 0 && '\n' !in texts[i]
      ensures !IsWhitespaceOrNewline(texts[i][0]) && !IsWhitespaceOrNewline(texts[i][|texts[i]| - 1])
    {
      FormatRowShape(rows[i]);
    }
    if |rows| > 0 {
      JoinEnds(texts, '\n');
      TrimIsTrimmed(text, IsWhitespaceOrNewline);
    }
    assert Trim(text, IsWhitespaceOrNewline) == text;
    SplitJoin(texts, '\n');
    assert LevelRows(text) == texts;
    GridOfFormatted(rows, texts);
  }

  /** The text of a cell, trimmed of spaces and tabs, is an integer in 1..3. */
  predicate TileText(piece: string) {
    var parsed := ParseInt(Trim(piece, IsWhitespace));
    parsed.Some? && 1 <= parsed.value <= 3
  }

  /**
   * A cell of text row `rowIndex` within the first row's width marks grid
   * cell (col, rowsCount - 1 - rowIndex) if and only if its trimmed text
   * parses to an integer in 1..3; text that does not parse, 0 and negative
   * values leave the cell empty.
   */
  lemma CellMarksTile(text: string, rowIndex: nat, col: nat)
    requires rowIndex < |LevelRows(text)|
    requires col < |Split(LevelRows(text)[rowIndex], ',')|
    requires col < ParseLevel(text).cols
    ensures var g := ParseLevel(text);
      Occupancy(g)[col][|g.rows| - 1 - rowIndex] <==> TileText(Split(LevelRows(text)[rowIndex], ',')[col])
  {
    var rows := LevelRows(text);
    var g := ParseLevel(text);
    var piece := Split(rows[rowIndex], ',')[col];
    GridOfCell(rows, rowIndex, col);
    assert g == GridOf(rows);
    GridCellMarksTile(g, rowIndex, col, piece);
  }

  /** Each value of the grid read from text rows is the parsed piece of its row. */
  lemma GridOfCell(rows: seq<string>, rowIndex: nat, col: nat)
    requires rowIndex < |rows| && col < |Split(rows[rowIndex], ',')|
    ensures var g := GridOf(rows);
      rowIndex < |g.rows| && col < |g.rows[rowIndex]| &&
      g.rows[rowIndex][col] == CellValue(Split(rows[rowIndex], ',')[col])
  {
    assert GridOf(rows).rows[rowIndex] == CellValues(rows[rowIndex]);
  }

  /** CellMarksTile on the grid: a grid cell holding the value of `piece` marks a tile exactly when `piece` parses to 1..3. */
  lemma GridCellMarksTile(g: LevelGrid, rowIndex: nat, col: nat, piece: string)
    requires rowIndex < |g.rows| && col < g.cols && col < |g.rows[rowIndex]|
    requires g.rows[rowIndex][col] == CellValue(piece)
    ensures Occupancy(g)[col][|g.rows| - 1 - rowIndex] <==> TileText(piece)
  {
    FlippedRow(g, rowIndex, col);
    IsTileRange(CellValue(piece));
  }

  /** World row `rowsCount - 1 - rowIndex` of the map shows text row `rowIndex`; so text row 0 is the top row. */
  lemma FlippedRow(g: LevelGrid, rowIndex: nat, col: nat)
    requires rowIndex < |g.rows| && col < g.cols
    ensures Occupancy(g)[col][|g.rows| - 1 - rowIndex] == TextCellIsTile(g, rowIndex, col)
  {
    var n := |g.rows|;
    assert n - 1 - (n - 1 - rowIndex) == rowIndex;
  }

  /** The cells of text rows that hold a tile within the first row's width, at their flipped grid position. */
  function TextTileCells(g: LevelGrid): set<(int, int)>
  {
    var n := |g.rows|;
    set rowIndex, c | 0 <= rowIndex < n && 0 <= c < g.cols && TextCellIsTile(g, rowIndex, c) :: (c, n - 1 - rowIndex)
  }

  /**
   * The emitted volumes, stated on the text: the volume of cell (c, r) is
   * emitted if and only if c is below the first row's width, r below the row
   * count, and text row `rowsCount - 1 - r` holds a tile in cell c; no
   * volume twice; and as many volumes as such cells.
   */
  lemma GridVolumesExact(g: LevelGrid)
    ensures var n := |g.rows|; var vs := GridVolumes(g);
      (forall c, r :: VolumeAt(c, r) in vs <==>
        (0 <= c < g.cols && 0 <= r < n && TextCellIsTile(g, n - 1 - r, c))) &&
      (forall i, j :: 0 <= i < j < |vs| ==> vs[i] != vs[j]) &&
      |vs| == |TextTileCells(g)|
  {
    var n := |g.rows|;
    var grid := Occupancy(g);
    TileVolumesExact(grid, n);
    TileVolumesCount(grid, n);
    forall p | p in TextTileCells(g)
      ensures p in OccupiedCells(grid, n)
    {
      var rowIndex, c :| 0 <= rowIndex < n && 0 <= c < g.cols && TextCellIsTile(g, rowIndex, c) && p == (c, n - 1 - rowIndex);
      assert n - 1 - (n - 1 - rowIndex) == rowIndex;
    }
    forall p | p in OccupiedCells(grid, n)
      ensures p in TextTileCells(g)
    {
      var c, r :| 0 <= c < g.cols && 0 <= r < n && grid[c][r] && p == (c, r);
      assert p == (c, n - 1 - (n - 1 - r));
    }
    assert OccupiedCells(grid, n) == TextTileCells(g);
  }

  /** GridVolumesExact at one cell. */
  lemma GridVolumeAt(g: LevelGrid, c: int, r: int)
    ensures var n := |g.rows|;
      VolumeAt(c, r) in GridVolumes(g) <==> (0 <= c < g.cols && 0 <= r < n && TextCellIsTile(g, n - 1 - r, c))
  {
    GridVolumesExact(g);
  }

  /**
   * Every emitted volume is a static ground body of one tile, centred at
   * (col * 64 + 32, row * 64 + 32 + 120) for a cell inside the map.
   */
  lemma GridVolumesPlacement(g: LevelGrid)
    ensures var vs := GridVolumes(g);
      forall i :: 0 <= i < |vs| ==>
        var col, row := ColumnOf(vs[i]), RowOf(vs[i]);
        0 <= col < g.cols && 0 <= row < |g.rows| &&
        vs[i].x == col * 64 + 32 && vs[i].y == row * 64 + 32 + 120 &&
        vs[i].width == 64 && vs[i].height == 64 &&
        vs[i].category == PhysicsCategory.Ground && !vs[i].isDynamic
  {
    VolumesUpToFromCells(Occupancy(g), |g.rows|, g.cols);
  }
}
