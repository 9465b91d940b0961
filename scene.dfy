/**
 * The game scene's own state and the handlers that update it in place: the
 * level loader that fills the tile map and adds the ground volumes, the
 * touch handlers, the steering step of `update`, and the contact handlers.
 * The engine's physics supplies the player's vertical velocity to the
 * handlers that read it.
 */
module Scene {
  import opened Wrappers
  import opened Effects
  import SwiftText
  import Level
  import Contact
  import Controls

  /** The tile map node: a `columns` by `rows` grid of cells that hold a tile or not. */
  class TileMap {
    const columns: nat
    const rows: nat
    const tiles: array2<bool>

    ghost predicate Valid() {
      tiles.Length0 == columns && tiles.Length1 == rows
    }

    /** The grid as `Cells()[col][row]`. */
    function Cells(): (grid: seq<seq<bool>>)
      requires Valid()
      reads tiles
      ensures Level.Shaped(grid, columns, rows)
      ensures forall c, r :: 0 <= c < columns && 0 <= r < rows ==> grid[c][r] == tiles[c, r]
    {
      seq(columns, c requires 0 <= c < columns reads tiles =>
        seq(rows, r requires 0 <= r < rows reads tiles => tiles[c, r]))
    }

    /** A map with no tile set. */
    constructor (columns: nat, rows: nat)
      ensures Valid() && this.columns == columns && this.rows == rows && fresh(tiles)
      ensures forall c, r :: 0 <= c < columns && 0 <= r < rows ==> !tiles[c, r]
    {
      this.columns := columns;
      this.rows := rows;
      tiles := new bool[columns, rows]((c, r) => false);
    }

    /** `setTileGroup(_:forColumn:row:)`: a cell outside the map is ignored. */
    method SetTileGroup(col: int, row: int)
      requires Valid()
      modifies tiles
      ensures forall c, r :: 0 <= c < columns && 0 <= r < rows ==>
        tiles[c, r] == (old(tiles[c, r]) || (c == col && r == row))
    {
      if 0 <= col < columns && 0 <= row < rows {
        tiles[col, row] := true;
      }
    }

    /** `tileGroup(atColumn:row:) != nil`: false outside the map. */
    function HasTile(col: int, row: int): (b: bool)
      requires Valid()
      reads tiles
      ensures b == Level.Occupied(Cells(), rows, col, row)
    {
      0 <= col < columns && 0 <= row < rows && tiles[col, row]
    }
  }

  /**
   * What cell (c, r) of a map with `n` rows holds once the fill has handled
   * text rows `0..<rowIndex` and cells `0..<colIndex` of text row `rowIndex`.
   */
  predicate FilledCell(g: Level.LevelGrid, n: int, rowIndex: int, colIndex: int, c: int, r: int) {
    var t := n - 1 - r;
    (t < rowIndex && Level.TextCellIsTile(g, t, c)) || (t == rowIndex && c < colIndex && Level.TextCellIsTile(g, t, c))
  }

  /** The fill loop over the cells of one text row. */
  method FillRow(m: TileMap, ghost g: Level.LevelGrid, rowIndex: nat, cells: seq<int>)
    requires m.Valid() && m.rows == |g.rows| && rowIndex < |g.rows| && cells == g.rows[rowIndex]
    requires forall c, r :: 0 <= c < m.columns && 0 <= r < m.rows ==> m.tiles[c, r] == FilledCell(g, m.rows, rowIndex, 0, c, r)
    modifies m.tiles
    ensures forall c, r :: 0 <= c < m.columns && 0 <= r < m.rows ==> m.tiles[c, r] == FilledCell(g, m.rows, rowIndex + 1, 0, c, r)
  {
    var rowsCount := m.rows;
    for colIndex := 0 to |cells|
      invariant forall c, r :: 0 <= c < m.columns && 0 <= r < rowsCount ==> m.tiles[c, r] == FilledCell(g, rowsCount, rowIndex, colIndex, c, r)
    {
      var value := cells[colIndex];
      if value > 0 {
        var tileIndex := value - 1;
        if tileIndex < Level.TileDefCount {
          m.SetTileGroup(colIndex, rowsCount - 1 - rowIndex);
        }
      }
    }
  }

  /**
   * The fill loop: each text row's cells are parsed and every tile value
   * sets the cell of its column on the flipped row.
   */
  method FillTileMap(m: TileMap, rows: seq<string>)
    requires m.Valid() && m.columns == Level.GridOf(rows).cols && m.rows == |rows|
    requires forall c, r :: 0 <= c < m.columns && 0 <= r < m.rows ==> !m.tiles[c, r]
    modifies m.tiles
    ensures m.Cells() == Level.Occupancy(Level.GridOf(rows))
  {
    ghost var g := Level.GridOf(rows);
    var rowsCount := |rows|;
    for rowIndex := 0 to |rows|
      invariant forall c, r :: 0 <= c < m.columns && 0 <= r < rowsCount ==> m.tiles[c, r] == FilledCell(g, rowsCount, rowIndex, 0, c, r)
    {
      var cells := Level.CellValues(rows[rowIndex]);
      FillRow(m, g, rowIndex, cells);
    }
    assert m.Cells() == Level.Occupancy(g) by {
      var grid := Level.Occupancy(g);
      var cells := m.Cells();
      forall c | 0 <= c < m.columns
        ensures cells[c] == grid[c]
      {
        assert forall r :: 0 <= r < rowsCount ==> cells[c][r] == grid[c][r];
      }
    }
  }

  /** A new map sized by the text rows (the first row's cell count by the row count), then filled. */
  method BuildTileMap(rows: seq<string>) returns (m: TileMap)
    ensures fresh(m) && fresh(m.tiles) && m.Valid()
    ensures var g := Level.GridOf(rows); m.columns == g.cols && m.rows == |g.rows| && m.Cells() == Level.Occupancy(g)
  {
    var cols := if |rows| == 0 then 0 else |SwiftText.Split(rows[0], ',')|;
    m := new TileMap(cols, |rows|);
    FillTileMap(m, rows);
  }

  /** The emission loops: one ground volume per cell that holds a tile, column by column. */
  method EmitCollisionVolumes(m: TileMap) returns (volumes: seq<Level.Volume>)
    requires m.Valid()
    ensures volumes == Level.TileVolumes(m.Cells(), m.rows)
  {
    ghost var grid := m.Cells();
    volumes := [];
    for col := 0 to m.columns
      invariant volumes == Level.VolumesUpTo(grid, m.rows, col)
    {
      for row := 0 to m.rows
        invariant volumes == Level.VolumesUpTo(grid, m.rows, col) + Level.ColumnVolumes(grid, m.rows, col, row)
      {
        if m.HasTile(col, row) {
          volumes := volumes + [Level.VolumeAt(col, row)];
        }
      }
    }
  }

  /** The scene: the fields its handlers update. */
  class GameScene {
    /** Id of the player node. */
    const player: nat

    // Controls
    var moveLeft: bool
    var moveRight: bool
    var lastUpdateTime: real

    // Gameplay
    var score: int

    /** The player body's horizontal velocity, which `update` commands. */
    var playerVx: real
    /** Ids of nodes removed from the scene. */
    var removed: set<nat>
    var isPaused: bool
    /** Impulses and labels requested, in order. */
    var effects: seq<Effect>
    var tileMap: TileMap?
    /** The static ground bodies added by the level loader. */
    var groundVolumes: seq<Level.Volume>

    function World(): Contact.World
      reads this
    {
      Contact.World(score, removed, isPaused, effects)
    }

    function Intent(): Controls.Intent
      reads this
    {
      Controls.Intent(moveLeft, moveRight)
    }

    constructor (player: nat)
      ensures this.player == player
      ensures Intent() == Controls.Idle && lastUpdateTime == 0.0 && playerVx == 0.0
      ensures World() == Contact.World(0, {}, false, [])
      ensures tileMap == null && groundVolumes == []
    {
      this.player := player;
      moveLeft, moveRight, lastUpdateTime := false, false, 0.0;
      score, playerVx := 0, 0.0;
      removed, isPaused, effects := {}, false, [];
      tileMap, groundVolumes := null, [];
    }

    /**
     * `loadTileMapCSV` once the text has been read: builds and keeps the
     * tile map, then adds one ground volume per tile.
     */
    method LoadTileMapCSV(text: string)
      modifies this
      ensures tileMap != null && fresh(tileMap) && fresh(tileMap.tiles) && tileMap.Valid()
      ensures var g := Level.ParseLevel(text);
        tileMap.columns == g.cols && tileMap.rows == |g.rows| && tileMap.Cells() == Level.Occupancy(g)
      ensures groundVolumes == old(groundVolumes) + Level.CollisionVolumes(text)
      ensures World() == old(World()) && Intent() == old(Intent())
      ensures playerVx == old(playerVx) && lastUpdateTime == old(lastUpdateTime)
    {
      var rows := Level.LevelRows(text);
      var map' := BuildTileMap(rows);
      var volumes := EmitCollisionVolumes(map');
      tileMap := map';
      groundVolumes := groundVolumes + volumes;
    }

    /**
     * `touchesBegan`: `firstX` is the scene x of `touches.first` (none when
     * the set is empty) and `width` is the scene's `size.width` at that moment.
     */
    method TouchesBegan(firstX: Option<real>, width: real)
      modifies this`moveLeft, this`moveRight
      ensures Intent() == if firstX.Some? then Controls.TouchBegan(old(Intent()), firstX.value, width) else old(Intent())
    {
      if firstX.None? {
        return;
      }
      if firstX.value < width / 2.0 {
        moveLeft := true;
      } else {
        moveRight := true;
      }
    }

    /** `touchesEnded`. */
    method TouchesEnded()
      modifies this`moveLeft, this`moveRight
      ensures Intent() == Controls.Idle
    {
      moveLeft := false;
      moveRight := false;
    }

    /** `touchesMoved`: `first` is (location.y, previousLocation.y) of `touches.first`. */
    method TouchesMoved(first: Option<(real, real)>, playerVy: real)
      modifies this`effects
      ensures effects == old(effects) +
        if first.Some? then Controls.SwipeEffects(first.value.0, first.value.1, playerVy) else []
    {
      if first.None? {
        return;
      }
      var (y, prevY) := first.value;
      if y - prevY > Controls.SwipeThreshold {
        JumpPlayer(playerVy);
      }
    }

    /** `jumpPlayer`. */
    method JumpPlayer(playerVy: real)
      modifies this`effects
      ensures effects == old(effects) + Controls.JumpEffects(playerVy)
    {
      if Controls.Abs(playerVy) < Controls.GroundedSpeed {
        effects := effects + [Impulse(0.0, Controls.JumpImpulse)];
      }
    }

    /** The steering part of `update`. */
    method Update(currentTime: real)
      modifies this`lastUpdateTime, this`playerVx
      ensures lastUpdateTime == currentTime
      ensures playerVx == Controls.Steer(Intent(), old(playerVx))
    {
      lastUpdateTime := currentTime;
      if moveLeft {
        playerVx := -Controls.TargetSpeed;
      } else if moveRight {
        playerVx := Controls.TargetSpeed;
      } else {
        playerVx := playerVx * Controls.Damping;
      }
    }

    /** `didBegin`, given the scene player's vertical velocity at the time of contact. */
    method DidBegin(a: Contact.Body, b: Contact.Body, playerVy: real)
      modifies this`score, this`removed, this`isPaused, this`effects
      ensures World() == Contact.DidBegin(old(World()), player, a, b, playerVy)
    {
      var names := [Contact.NameOf(a), Contact.NameOf(b)];
      if Some(Contact.CoinName) in names && None !in names {
        if Contact.NameOf(a) == Some(Contact.CoinName) {
          removed := removed + {a.node.value.id};
          score := score + 1;
        } else if Contact.NameOf(b) == Some(Contact.CoinName) {
          removed := removed + {b.node.value.id};
          score := score + 1;
        }
        return;
      }
      if Contact.PlayerAgainstEnemy(a, b) {
        HandlePlayerHitEnemy(a.node, b.node, playerVy);
      } else if Contact.PlayerAgainstEnemy(b, a) {
        HandlePlayerHitEnemy(b.node, a.node, playerVy);
      }
    }

    /** `handlePlayerHitEnemy`. */
    method HandlePlayerHitEnemy(playerNode: Option<Contact.Node>, enemyNode: Option<Contact.Node>, playerVy: real)
      modifies this`score, this`removed, this`isPaused, this`effects
      ensures World() == Contact.Apply(old(World()), player, Contact.HitEnemy(playerNode, enemyNode, playerVy))
    {
      if playerNode.None? || enemyNode.None? {
        return;
      }
      if playerVy < Contact.StompSpeed {
        removed := removed + {enemyNode.value.id};
        effects := effects + [Impulse(0.0, Contact.StompBounce)];
        return;
      }
      GameOver();
    }

    /** `gameOver`: the label, the player's removal, the pause. */
    method GameOver()
      modifies this`removed, this`isPaused, this`effects
      ensures World() == Contact.Apply(old(World()), player, Contact.PlayerKilled)
    {
      effects := effects + [GameOverLabel(Contact.GameOverText)];
      removed := removed + {player};
      isPaused := true;
    }
  }
}
