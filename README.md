# RetroPlatformerSwift game logic in Dafny

A model of the game logic in `GameScene.swift` of a small SpriteKit platformer,
with proofs of what that logic guarantees. The model has three parts:

- **The CSV level loader** (`loadTileMapCSV`). It trims the level text and splits
  it into rows on newlines, dropping only empty lines (a line of spaces inside
  the text stays a row of one 0 cell). It takes the column count from
  the first row. Each row is split on commas, and each trimmed cell is parsed as
  a Swift `Int`; a cell that does not parse counts as 0. A value v sets a tile
  when `v > 0 && v - 1 < 3`. The tile goes in column `col` of row
  `rowsCount - 1 - rowIndex`, so text row 0 is the top row of the world. The
  loader then adds one static ground body per tile, centred at
  `(col*64 + 32, row*64 + 32 + 120)`.
- **The contact resolver** (`didBegin`, `handlePlayerHitEnemy`, `gameOver`). A
  contact between two named nodes, one of them called `"coin"`, removes the coin
  and adds one to the score. Otherwise a player-against-enemy contact between
  two bodies that both have a node is a stomp when the player's `vy < -50`: the
  enemy is removed and the player bounces. When `vy >= -50` it is game over: a
  label is shown, the player is removed and the scene pauses. Such a contact
  does nothing when either body has no node. The body order does not matter
  unless both bodies carry both the player and the enemy bit; then body A is
  taken as the player.
- **Input and steering** (`touchesBegan`, `touchesEnded`, `touchesMoved`,
  `jumpPlayer`, and the velocity branch of `update`). These cover two movement
  flags, an upward swipe that jumps only while `|vy| < 10`, and the velocity
  command: −180 when moving left, +180 when moving right, ×0.9 damping
  otherwise. Left wins over right.

Modules, one file each:

- `Wrappers`: `Option`.
- `SwiftText`: the Foundation and Swift string operations the loader calls:
  `trimmingCharacters(in:)`, `split(separator:)`, `Int(String)`.
- `PhysicsCategory`: the bitmask constants.
- `Level`: the loader as functions on the text, with its lemmas.
- `LevelExample`: the three-row example level, worked through.
- `Effects`: the impulses and labels the logic asks the engine for, recorded as
  events.
- `Contact`: the resolver as a pure state transition.
- `Controls`: the flag transitions, the jump guard and the steering.
- `Scene`: the imperative part.
  - A `TileMap` class backed by an `array2<bool>`.
  - The loader's fill and emission loops as methods.
  - A `GameScene` class holding the fields the handlers update: `moveLeft`,
    `moveRight`, `lastUpdateTime`, `score`, the player's horizontal velocity,
    the removed nodes, `isPaused`, the requested effects, the tile map and the
    ground bodies.

  Each method's `ensures` ties the new state to the pure functions above.

Two details of the code that the model keeps:

- A value of 4 or more gives no tile and no volume, because the fill loop also
  needs `value - 1 < tileDefs.count` (three tile definitions,
  GameScene.swift:139-140).
- When both bodies are named `"coin"`, only body A's node is removed
  (GameScene.swift:304-310).

Inputs from outside that the model takes as parameters:

- the level text;
- the scene x of `touches.first`, and the scene's width at that moment;
- the y and previous y of the moved touch;
- the player's vertical velocity, which physics integration supplies;
- the current time passed to `update`.

## Model

| member | source | states |
|---|---|---|
| PhysicsCategory.Category | GameScene.swift:5-12 | every role's category constant has exactly one bit set and is not `none` |
| PhysicsCategory.CategoriesDistinct | GameScene.swift:5-12 | the AND test of one role's category against another role's category is non-zero if and only if the roles are the same |
| PhysicsCategory.NoneMatchesNothing | GameScene.swift:6 | a `none` category matches no role |
| SwiftText.TrimBounds | GameScene.swift:100 | trimming keeps a slice: every character before or after it is in the trimmed set, and a non-empty slice starts and ends outside the set |
| SwiftText.TrimIsTrimmed | GameScene.swift:136 | trimmed text has no set member at either end, and text with none at its ends comes back unchanged |
| SwiftText.SplitPiecesClean | GameScene.swift:100 | every piece of `split(separator:)` is non-empty and free of the separator |
| SwiftText.SplitAtSeparator | GameScene.swift:100 | the text on either side of a separator splits on its own, so cuts happen at separators only, and leading, trailing and doubled separators give no empty piece |
| SwiftText.SplitPiece | GameScene.swift:103 | a non-empty text without the separator is a single piece |
| SwiftText.SplitLosesOnlySeparators | GameScene.swift:136 | concatenating the pieces gives the input with exactly the separators removed |
| SwiftText.SplitJoin | GameScene.swift:100 | splitting non-empty, separator-free pieces joined by the separator gives back exactly those pieces |
| SwiftText.ParseInt | GameScene.swift:136 | a parsed `Int` comes from an optional sign followed by one or more digits, its value is the signed value of those digits, and that value is within 64-bit range; so a lone sign, stray characters or an out-of-range value give nil |
| SwiftText.ParseIntAccepts | GameScene.swift:136 | conversely, an optional '+' or '-' followed by one or more digits whose signed value is within 64-bit range parses, to that value |
| SwiftText.ParseIntLeadingZero | GameScene.swift:136 | a leading zero does not change what a digit string parses to ("03" is 3) |
| SwiftText.ParseIntPlus | GameScene.swift:136 | a leading '+' does not change what a digit string parses to ("+1" is 1) |
| SwiftText.FormatInt | GameScene.swift:136 | the decimal text of an `Int` is non-empty, ends in a digit and holds only digits after an optional leading '-' |
| SwiftText.ParseFormatRoundTrip | GameScene.swift:136 | parsing the decimal text of any 64-bit `Int` gives back that `Int` |
| Level.Occupancy | GameScene.swift:127 | the tile map has exactly `cols` columns of `rowsCount` cells, `cols` taken from the first row |
| Level.IsTileRange | GameScene.swift:138-140 | with three tile definitions, a cell value marks a tile if and only if it lies in 1..3 |
| Level.CellValueFormat | GameScene.swift:136 | the decimal text of a 64-bit value, read as a cell, gives that value |
| Level.RowRoundTrip | GameScene.swift:136 | a row written as comma-separated decimal values is read back as exactly those values |
| Level.ParseFormatLevel | GameScene.swift:100-136 | a level written as newline-separated rows of comma-separated 64-bit values parses back to those rows, with the first row's length as the column count |
| Level.CellMarksTile | GameScene.swift:135-142 | a text cell within the first row's width marks map cell (col, rowsCount-1-rowIndex) if and only if its trimmed text parses to an integer in 1..3; non-numeric, zero and negative cells leave it empty |
| Level.FlippedRow | GameScene.swift:141 | world row rowsCount-1-rowIndex of the map shows text row rowIndex |
| Level.TileVolumesExact | GameScene.swift:148-160 | for any tile map, a cell gets a volume if and only if it is inside the map and holds a tile; no volume twice; column-major order |
| Level.TileVolumesCount | GameScene.swift:148-160 | for any tile map, there are as many volumes as occupied cells |
| Level.GridVolumesExact | GameScene.swift:148-160 | stated on the level: cell (c, r) gets a volume if and only if c < cols, r < rowsCount and text row rowsCount-1-r holds a tile in cell c; cells beyond the first row's width never get one; the count equals the number of such text cells |
| Level.GridVolumeAt | GameScene.swift:148-160 | the same at one cell: the volume of (c, r) is emitted if and only if the cell is inside the map and its text cell holds a tile |
| Level.GridVolumesPlacement | GameScene.swift:151-156 | every volume is a static 64×64 ground body centred at (col*64+32, row*64+32+120) for a cell inside the map |
| LevelExample.SpaceLineKept | GameScene.swift:100 | the text "1\n \n1" keeps its middle line of one space as a row: the trim applies to the whole text and `split` drops only empty pieces |
| LevelExample.SpaceCell | GameScene.swift:136 | a cell of one space reads as 0 |
| LevelExample.ExampleParse | GameScene.swift:100-104 | "1,1,1\n0,0,1\n1,1,1" parses to three rows of three values and 3 columns |
| LevelExample.ExampleOccupancy | GameScene.swift:135-145 | seven cells are occupied in that example: all of world rows 0 and 2, and column 2 of world row 1 |
| LevelExample.ExampleVolumeCount | GameScene.swift:148-160 | that example yields exactly 7 collision volumes |
| LevelExample.ExampleTopRow | GameScene.swift:141 | text row 0 of that example lands on world row 2, the top row |
| Contact.CoinContactPicksCoin | GameScene.swift:303-311 | the outcome is a coin pickup if and only if both nodes are named and one is "coin"; the node taken is the coin, namely A's when A is the coin, whatever the categories |
| Contact.ScoreOnlyFromCoins | GameScene.swift:303-312 | one contact raises the score by exactly 1 when it is a coin contact and leaves it unchanged otherwise |
| Contact.CoinPickupEffect | GameScene.swift:304-311 | a coin pickup removes exactly the coin node and leaves the pause flag and effects alone |
| Contact.ResolveOrderIndependent | GameScene.swift:315-321 | swapping the bodies gives the same outcome unless both are coins or each body has both the player and the enemy bits |
| Contact.PlayerHitsEnemy | GameScene.swift:315-337 | with both nodes present and no coin, a contact with the player as body A and the enemy as body B is a stomp of the enemy node exactly when vy < -50, and game over otherwise, also when both bodies carry both bits (A is then the player) |
| Contact.EnemyHitsPlayer | GameScene.swift:318-337 | the same contact with the enemy as body A, where A is not also a player, resolves the same way |
| Contact.MissingNodeIgnored | GameScene.swift:325 | a player-against-enemy contact with a missing node does nothing |
| Contact.StompSparesPlayer | GameScene.swift:328-333 | a stomp removes only the enemy, keeps the player's alive-or-removed status, keeps the score and pause flag, and requests the (0, 180) bounce |
| Contact.GameOverEffect | GameScene.swift:339-347 | game over removes the scene's player, pauses, shows the "Game Over" label and keeps the score |
| Contact.UnrelatedContactIgnored | GameScene.swift:314-321 | a contact that is neither a coin contact nor player-against-enemy changes nothing |
| Contact.ScoreCountsCoins | GameScene.swift:303-312 | over any sequence of contacts the score rises by exactly the number of coin contacts, so it never falls; removed nodes stay removed |
| Contact.PauseIsFinal | GameScene.swift:346 | once paused, no sequence of contacts unpauses the scene |
| Controls.TouchBeganSetsOneFlag | GameScene.swift:233-241 | a touch sets `moveLeft` when x < width/2 and `moveRight` otherwise, leaving the other flag as it was; from rest exactly one flag is set |
| Controls.OverlappingTouches | GameScene.swift:236-240 | touches on both halves set both flags, and steering then moves left |
| Controls.SwipeJumpGuard | GameScene.swift:253-261 | a jump impulse is requested if and only if the swipe rises by more than 40 and abs(vy) < 10, and it is the single impulse (0, 420) |
| Controls.SteerPrecedence | GameScene.swift:272-279 | `moveLeft` gives −180 whatever `moveRight` is; `moveRight` alone gives +180; with neither flag the velocity shrinks towards 0, keeps its sign and is 0 only if it was 0 |
| Controls.IdleNeverStops | GameScene.swift:276-279 | any number of idle updates never bring a moving player exactly to rest, nor speed it up |
| Controls.SingleFingerExclusive | GameScene.swift:233-246 | with one finger at a time, `moveLeft` and `moveRight` are never both set |
| Scene.TileMap.constructor | GameScene.swift:127 | a new tile map of the given size holds no tile |
| Scene.TileMap.SetTileGroup | GameScene.swift:141 | sets exactly the named cell, and ignores a cell outside the map |
| Scene.TileMap.HasTile | GameScene.swift:150 | the tile lookup agrees with the map's grid view `Cells()`: true exactly for an occupied cell inside the map, false outside it |
| Scene.FillRow | GameScene.swift:137-143 | the inner fill loop, over the row's `Level.CellValues`, sets the flipped-row cell of every tile value of one text row and leaves every other cell as it was |
| Scene.FillTileMap | GameScene.swift:135-145 | after the fill loops the tile map equals the occupancy grid of the parsed level |
| Scene.BuildTileMap | GameScene.swift:103-145 | a fresh map sized by the first row's cell count and the row count, then filled, equals the level's occupancy grid |
| Scene.EmitCollisionVolumes | GameScene.swift:148-160 | the emission loops produce exactly `Level.TileVolumes` of the map: the column-major list of volumes of the occupied cells |
| Scene.GameScene.constructor | GameScene.swift:22-27 | a new scene starts with both flags clear, score 0, nothing removed, not paused |
| Scene.GameScene.LoadTileMapCSV | GameScene.swift:94-161 | the scene keeps a fresh tile map equal to `Level.Occupancy` of `Level.ParseLevel(text)` (the text cut by `Level.LevelRows`, that is `SwiftText.Trim` then `SwiftText.Split`, each row read by `Level.CellValues`) and gains `Level.CollisionVolumes(text)`, with nothing else changed |
| Scene.GameScene.TouchesBegan | GameScene.swift:233-241 | the flags after a touch-down become `Controls.TouchBegan` of the old flags for the scene width at that moment, and are unchanged when there is no touch |
| Scene.GameScene.TouchesEnded | GameScene.swift:243-246 | both flags are cleared |
| Scene.GameScene.TouchesMoved | GameScene.swift:248-256 | the effects gain exactly `Controls.SwipeEffects`, the jump impulses the swipe guard allows |
| Scene.GameScene.JumpPlayer | GameScene.swift:258-262 | the effects gain `Controls.JumpEffects(vy)`: the (0, 420) impulse exactly when abs(vy) < 10 |
| Scene.GameScene.Update | GameScene.swift:266-279 | `lastUpdateTime` becomes the current time and the horizontal velocity becomes `Controls.Steer` of the flags and the old velocity |
| Scene.GameScene.DidBegin | GameScene.swift:296-322 | the score, removed nodes, pause flag and effects become `Contact.DidBegin` of their old values, which applies `Contact.Resolve` of the two bodies |
| Scene.GameScene.HandlePlayerHitEnemy | GameScene.swift:324-337 | the state becomes `Contact.Apply` of the old state and `Contact.HitEnemy`, the stomp-or-game-over decision |
| Scene.GameScene.GameOver | GameScene.swift:339-347 | the state becomes `Contact.Apply(old, PlayerKilled)`: the label is shown, the player removed and the scene paused |

## Left out

- Reading the level resource and the "Level CSV not found" path (GameScene.swift:95-99): the loader is a function of the text.
- Texture slicing, tile definitions, tile group and tile set, node z-order (GameScene.swift:107-131). These are engine objects. Only their count, three, is kept as `Level.TileDefCount`.
- Scene setup (`didMove`, `setupParallaxBackground`, `setupPlayer`, `setupGround`, `setupCamera`, GameScene.swift:29-90). It configures engine bodies: gravity, friction, restitution, and the contact and collision masks. Those masks feed the engine's contact detection, not code in this repository.
- Enemy patrol, boss wait-and-shoot loop, projectile spawn and its 6-second removal (GameScene.swift:165-229). These are timed engine actions. The boss `hp` is never read.
- Camera follow and parallax positions (GameScene.swift:281-291), and the unused `dt`: floating-point positions only.
- Physics integration: the player's vertical velocity is an input, and impulses are recorded as `Effects.Impulse` events, not applied.
- The game-over label's position (player x + 100, half the height) is not recorded, only its text.
- What pausing does to the engine (no further ticks or contacts) is not modelled; the model records the flag.
- Controls.IdleNeverStops: holds for real numbers; the model claims nothing about `CGFloat` rounding, under which repeated ×0.9 damping stalls at a tiny subnormal value rather than reaching 0. It also covers only the damping steps of `update`: in the program the physics engine changes `velocity.dx` between updates as well, through the friction of 0.8 (GameScene.swift:68) and collisions with tiles and enemies, and the model leaves the engine out.
- Contact.ScoreCountsCoins: the score is unbounded; Swift traps when `score += 1` passes `Int.max`.
- A Swift `Character` is one Dafny `char`. Swift treats "\r\n" as one `Character`, so Swift does not split a CRLF level on "\n"; the model does.
- The whitespace sets follow Foundation's `whitespaces` and `whitespacesAndNewlines` as listed in `SwiftText`.
- The case of a player without a physics body (`player.physicsBody?` being nil): there the stomp test fails and a jump is skipped. The player's body is set once at setup and never cleared, so the model always has a velocity.
- The camera offset: the touch x is in scene coordinates (`touch.location(in: self)`, GameScene.swift:235-236). The camera follows the player (GameScene.swift:283), so once it has scrolled, the half-width test is not a test of the screen's left half. The model compares the scene x with half the scene width, as the code does, and does not model the camera.
- `touches.first` of a `Set` is an arbitrary element; the model takes it as a parameter. Multi-touch event delivery and threading are left out, except for their effect on the flags.
- `setTileGroup` outside the map is modelled as ignored. `tileGroup(atColumn:row:)` outside the map is modelled as nil. Both are engine behaviour that is not part of this model.
