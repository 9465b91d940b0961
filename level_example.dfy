/**
 * The three-row level "1,1,1\n0,0,1\n1,1,1" worked through the loader:
 * seven occupied cells, seven ground volumes, and text row 0 is the top
 * world row (row 2).
 */
module LevelExample {
  import opened SwiftText
  import opened Level

  lemma TrimUntouched(s: string, p: char -> bool)
    requires |s| > 0 && !p(s[0]) && !p(s[|s| - 1])
    ensures Trim(s, p) == s
  {
    TrimIsTrimmed(s, p);
  }

  lemma DigitCells()
    ensures CellValue("0") == 0 && CellValue("1") == 1
  {
    TrimUntouched("0", IsWhitespace);
    TrimUntouched("1", IsWhitespace);
    assert "0"[..0] == [];
    assert "1"[..0] == [];
  }

  lemma SplitThree(a: char, b: char, c: char)
    requires a != ',' && b != ',' && c != ','
    ensures Split([a, ',', b, ',', c], ',') == [[a], [b], [c]]
  {
    JoinThree([a], [b], [c], ',');
    assert [a] + [','] + [b] + [','] + [c] == [a, ',', b, ',', c];
    SplitJoin([[a], [b], [c]], ',');
  }

  lemma RowCells(a: char, b: char, c: char)
    requires a in "01" && b in "01" && c in "01"
    ensures CellValues([a, ',', b, ',', c]) == [CellValue([a]), CellValue([b]), CellValue([c])]
  {
    SplitThree(a, b, c);
  }

  lemma JoinThree(x: string, y: string, z: string, sep: char)
    ensures Join([x, y, z], sep) == x + [sep] + y + [sep] + z
  {
    assert [x, y, z][1..] == [y, z];
    assert [y, z][1..] == [z];
    assert Join([z], sep) == z;
    assert Join([y, z], sep) == y + [sep] + z;
  }

  lemma ExampleRows()
    ensures LevelRows("1,1,1\n0,0,1\n1,1,1") == ["1,1,1", "0,0,1", "1,1,1"]
  {
    var text := "1,1,1\n0,0,1\n1,1,1";
    TrimUntouched(text, IsWhitespaceOrNewline);
    assert Trim(text, IsWhitespaceOrNewline) == text;
    JoinThree("1,1,1", "0,0,1", "1,1,1", '\n');
    assert Join(["1,1,1", "0,0,1", "1,1,1"], '\n') == text;
    SplitJoin(["1,1,1", "0,0,1", "1,1,1"], '\n');
    assert Split(text, '\n') == ["1,1,1", "0,0,1", "1,1,1"];
  }

  lemma FullRow(row: string)
    requires row == "1,1,1"
    ensures CellValues(row) == [1, 1, 1]
  {
    assert row == ['1', ',', '1', ',', '1'];
    RowCells('1', '1', '1');
    DigitCells();
  }

  lemma EdgeRow(row: string)
    requires row == "0,0,1"
    ensures CellValues(row) == [0, 0, 1]
  {
    assert row == ['0', ',', '0', ',', '1'];
    RowCells('0', '0', '1');
    DigitCells();
  }

  lemma GridOfRows(rows: seq<string>)
    requires |rows| == 3
    requires CellValues(rows[0]) == [1, 1, 1] && CellValues(rows[1]) == [0, 0, 1] && CellValues(rows[2]) == [1, 1, 1]
    ensures GridOf(rows) == LevelGrid(3, [[1, 1, 1], [0, 0, 1], [1, 1, 1]])
  {
    assert GridOf(rows).rows == [CellValues(rows[0]), CellValues(rows[1]), CellValues(rows[2])];
    assert |Split(rows[0], ',')| == |CellValues(rows[0])|;
  }

  /** Three separator-free lines, each non-empty, split back into those lines. */
  lemma ThreeLines(x: string, y: string, z: string)
    requires |x| > 0 && |y| > 0 && |z| > 0 && '\n' !in x && '\n' !in y && '\n' !in z
    ensures Split(x + ['\n'] + y + ['\n'] + z, '\n') == [x, y, z]
  {
    assert x + ['\n'] + y + ['\n'] + z == x + ['\n'] + (y + ['\n'] + z);
    SplitAtSeparator(x, y + ['\n'] + z, '\n');
    SplitAtSeparator(y, z, '\n');
    SplitPiece(x, '\n');
    SplitPiece(y, '\n');
    SplitPiece(z, '\n');
  }

  /** Only empty lines are dropped: a line of one space inside the text stays a row. */
  lemma SpaceLineKept()
    ensures LevelRows("1\n \n1") == ["1", " ", "1"]
  {
    var text := "1\n \n1";
    TrimUntouched(text, IsWhitespaceOrNewline);
    assert text == "1" + ['\n'] + " " + ['\n'] + "1";
    ThreeLines("1", " ", "1");
  }

  /** That row reads as one 0 cell. */
  lemma SpaceCell()
    ensures CellValues(" ") == [0]
  {
    SplitPiece(" ", ',');
    assert Trim(" ", IsWhitespace) == [];
  }

  const ExampleText: string := "1,1,1\n0,0,1\n1,1,1"

  /** The example parses to three rows of three cells. */
  lemma ExampleParse()
    ensures ParseLevel(ExampleText) == LevelGrid(3, [[1, 1, 1], [0, 0, 1], [1, 1, 1]])
  {
    ExampleRows();
    var rows := LevelRows(ExampleText);
    FullRow(rows[0]);
    EdgeRow(rows[1]);
    FullRow(rows[2]);
    GridOfRows(rows);
  }

  /** Seven cells are occupied: all of world rows 0 and 2, and column 2 of world row 1. */
  lemma ExampleOccupancy()
    ensures Occupancy(ParseLevel(ExampleText)) == [[true, false, true], [true, false, true], [true, true, true]]
  {
    ExampleParse();
    ExampleGrid(ParseLevel(ExampleText));
  }

  /** Seven ground volumes are emitted. */
  lemma ExampleVolumeCount()
    ensures |CollisionVolumes(ExampleText)| == 7
  {
    ExampleParse();
    ExampleGrid(ParseLevel(ExampleText));
  }

  /** Text row 0 lands on world row 2, the top: its three tiles get volumes at height 2 * 64 + 32 + 120. */
  lemma ExampleTopRow()
    ensures forall c :: 0 <= c < 3 ==> VolumeAt(c, 2) in CollisionVolumes(ExampleText)
    ensures VolumeAt(2, 1) in CollisionVolumes(ExampleText) && VolumeAt(0, 1) !in CollisionVolumes(ExampleText)
  {
    ExampleParse();
    ExampleTextCells(ParseLevel(ExampleText));
    ExampleGridRows(ParseLevel(ExampleText));
  }

  lemma ExampleTextCells(g: LevelGrid)
    requires g == LevelGrid(3, [[1, 1, 1], [0, 0, 1], [1, 1, 1]])
    ensures g.cols == 3 && |g.rows| == 3
    ensures forall c :: 0 <= c < 3 ==> TextCellIsTile(g, 0, c)
    ensures TextCellIsTile(g, 1, 2) && !TextCellIsTile(g, 1, 0)
  {
  }

  lemma ExampleGridRows(g: LevelGrid)
    requires g.cols == 3 && |g.rows| == 3
    requires forall c :: 0 <= c < 3 ==> TextCellIsTile(g, 0, c)
    requires TextCellIsTile(g, 1, 2) && !TextCellIsTile(g, 1, 0)
    ensures forall c :: 0 <= c < 3 ==> VolumeAt(c, 2) in GridVolumes(g)
    ensures VolumeAt(2, 1) in GridVolumes(g) && VolumeAt(0, 1) !in GridVolumes(g)
  {
    forall c | 0 <= c < 3
      ensures VolumeAt(c, 2) in GridVolumes(g)
    {
      GridVolumeAt(g, c, 2);
    }
    GridVolumeAt(g, 2, 1);
    GridVolumeAt(g, 0, 1);
  }

  lemma ExampleGrid(g: LevelGrid)
    requires g == LevelGrid(3, [[1, 1, 1], [0, 0, 1], [1, 1, 1]])
    ensures Occupancy(g) == [[true, false, true], [true, false, true], [true, true, true]]
    ensures |GridVolumes(g)| == 7
  {
    var grid := Occupancy(g);
    forall c, r | 0 <= c < 3 && 0 <= r < 3
      ensures grid[c][r] == (r != 1 || c == 2)
    {
      assert grid[c][r] == TextCellIsTile(g, 2 - r, c);
    }
    assert grid[0] == [true, false, true];
    assert grid[1] == [true, false, true];
    assert grid[2] == [true, true, true];
    assert grid == [[true, false, true], [true, false, true], [true, true, true]];
    assert |ColumnVolumes(grid, 3, 0, 3)| == 2 by {
      assert |ColumnVolumes(grid, 3, 0, 1)| == 1;
    }
    assert |ColumnVolumes(grid, 3, 1, 3)| == 2 by {
      assert |ColumnVolumes(grid, 3, 1, 1)| == 1;
    }
    assert |ColumnVolumes(grid, 3, 2, 3)| == 3 by {
      assert |ColumnVolumes(grid, 3, 2, 1)| == 1;
    }
  }
}
