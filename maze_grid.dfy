/**
 * The maze grid of main (Main.cpp): the generator's row strings, indexed
 * [row][column], are copied into maze.grid, indexed [column][row], and the
 * branch stack is seeded with the start tile.
 */
module MazeGrid {

  /** cVector2: x is the column, y the row. */
  datatype Vector2 = Vector2(x: int, y: int)

  /**
   * The Tile fields main touches. Main.cpp never reads or writes visited: it
   * stands for the Tile state the build leaves alone, whose real fields are
   * declared in Tile.h, which is not part of this model.
   */
  datatype Tile = Tile(displayChar: char, pos: Vector2, isExit: bool, visited: bool)

  /** What a default-constructed Tile holds: std::vector::resize appends copies of it. */
  const DefaultTile := Tile(' ', Vector2(0, 0), false, false)

  /** A Branch: the tiles walked since the last fork, as a stack whose top is the last element. */
  datatype Branch = Branch(tiles: seq<Tile>)

  /** std::string::operator[] on a const string: index size() reads the terminating NUL. */
  function CharAt(row: string, column: nat): char
    requires column <= |row|
  {
    if column < |row| then row[column] else '\0'
  }

  /** Row strings the build can index: there is a first row, and no row is shorter than it by more than its terminator. */
  predicate Readable(rows: seq<string>) {
    |rows| > 0 && forall r :: 0 <= r < |rows| ==> |rows[0]| <= |rows[r]| + 1
  }

  /** std::vector::resize: truncate, or pad with copies of `fill`. */
  function Resized<T>(s: seq<T>, n: nat, fill: T): (r: seq<T>)
    ensures |r| == n
    ensures forall i :: 0 <= i < n ==> r[i] == if i < |s| then s[i] else fill
  {
    if n <= |s| then s[..n] else s + seq(n - |s|, _ => fill)
  }

  /** The tile at (column, row) once both resizes have run, before the loop writes to it. */
  function PriorTile(prior: seq<seq<Tile>>, column: nat, row: nat): Tile {
    if column < |prior| && row < |prior[column]| then prior[column][row] else DefaultTile
  }

  /** One pass of the inner loop body on the tile at (column, row). */
  function FilledTile(t: Tile, displayChar: char, column: nat, row: nat, exitChar: char): Tile {
    var u := t.(displayChar := displayChar, pos := Vector2(column, row));
    if displayChar == exitChar then u.(isExit := true) else u
  }

  /** The grid the build leaves behind, given the grid it started from. */
  function BuiltGrid(prior: seq<seq<Tile>>, rows: seq<string>, exitChar: char): (g: seq<seq<Tile>>)
    requires Readable(rows)
    ensures |g| == |rows[0]|
    ensures forall c :: 0 <= c < |g| ==> |g[c]| == |rows|
    ensures forall c, r :: 0 <= c < |g| && 0 <= r < |rows| ==>
      g[c][r].displayChar == CharAt(rows[r], c) && g[c][r].pos == Vector2(c, r)
    ensures forall c, r :: 0 <= c < |g| && 0 <= r < |rows| ==>
      g[c][r].isExit == (PriorTile(prior, c, r).isExit || CharAt(rows[r], c) == exitChar)
    ensures forall c, r :: 0 <= c < |g| && 0 <= r < |rows| ==>
      g[c][r].visited == PriorTile(prior, c, r).visited
  {
    seq(|rows[0]|, c requires 0 <= c < |rows[0]| =>
      seq(|rows|, r requires 0 <= r < |rows| =>
        FilledTile(PriorTile(prior, c, r), CharAt(rows[r], c), c, r, exitChar)))
  }

  /** The grid read back row by row: the display characters of row r, left to right. */
  function RowStrings(g: seq<seq<Tile>>, height: nat): (rows: seq<string>)
    requires forall c :: 0 <= c < |g| ==> |g[c]| >= height
    ensures |rows| == height
    ensures forall r :: 0 <= r < height ==> |rows[r]| == |g|
  {
    seq(height, r requires 0 <= r < height => seq(|g|, c requires 0 <= c < |g| => g[c][r].displayChar))
  }

  /** The build is a transpose: reading it back row by row gives each row cut to the first row's width. */
  lemma TransposeRoundTrip(prior: seq<seq<Tile>>, rows: seq<string>, exitChar: char)
    requires Readable(rows)
    requires forall r :: 0 <= r < |rows| ==> |rows[r]| >= |rows[0]|
    ensures RowStrings(BuiltGrid(prior, rows, exitChar), |rows|) == seq(|rows|, r requires 0 <= r < |rows| => rows[r][..|rows[0]|])
  {
    var g := BuiltGrid(prior, rows, exitChar);
    var back := RowStrings(g, |rows|);
    forall r | 0 <= r < |rows|
      ensures back[r] == rows[r][..|rows[0]|]
    {
      forall c | 0 <= c < |rows[0]|
        ensures back[r][c] == rows[r][c]
      {
        assert g[c][r].displayChar == CharAt(rows[r], c);
      }
    }
  }

  /** On a grid that was empty before the build, exactly the exit-character tiles are exits and none is visited. */
  lemma FreshGridExits(rows: seq<string>, exitChar: char, c: nat, r: nat)
    requires Readable(rows) && c < |rows[0]| && r < |rows|
    ensures BuiltGrid([], rows, exitChar)[c][r].isExit <==> CharAt(rows[r], c) == exitChar
    ensures !BuiltGrid([], rows, exitChar)[c][r].visited
  {
  }

  /** CustomMaze's grid, which main fills in place. */
  class Maze {
    var grid: seq<seq<Tile>>

    constructor ()
      ensures grid == []
    {
      grid := [];
    }

    /** The nested loops that convert rows[ROW][COLUMN] into grid[COLUMN][ROW]. */
    method FillGrid(rows: seq<string>, exitChar: char)
      requires Readable(rows)
      modifies this
      ensures grid == BuiltGrid(old(grid), rows, exitChar)
    {
      ghost var target := BuiltGrid(grid, rows, exitChar);
      var width := |rows[0]|;
      var height := |rows|;
      grid := Resized(grid, width, []);
      ghost var widened := grid;
      var column := 0;
      while column < width
        invariant 0 <= column <= width
        invariant |grid| == width
        invariant forall c :: 0 <= c < column ==> grid[c] == target[c]
        invariant forall c :: column <= c < width ==> grid[c] == widened[c]
      {
        grid := grid[column := Resized(grid[column], height, DefaultTile)];
        var row := 0;
        while row < height
          invariant 0 <= row <= height
          invariant |grid| == width && |grid[column]| == height
          invariant forall c :: 0 <= c < column ==> grid[c] == target[c]
          invariant forall c :: column < c < width ==> grid[c] == widened[c]
          invariant forall r :: 0 <= r < row ==> grid[column][r] == target[column][r]
          invariant forall r :: row <= r < height ==> grid[column][r] == PriorTile(old(grid), column, r)
        {
          var displayChar := CharAt(rows[row], column);
          var tile := grid[column][row].(displayChar := displayChar, pos := Vector2(column, row));
          if displayChar == exitChar {
            tile := tile.(isExit := true);
          }
          assert tile == target[column][row];
          grid := grid[column := grid[column][row := tile]];
          row := row + 1;
        }
        assert grid[column] == target[column];
        column := column + 1;
      }
    }
  }

  /** The branch stack main starts exploring with, a local of main: one branch holding the start tile. */
  method StartBranchStack(grid: seq<seq<Tile>>, startPos: Vector2) returns (branchStack: seq<Branch>)
    requires 0 <= startPos.x < |grid| && 0 <= startPos.y < |grid[startPos.x]|
    ensures |branchStack| == 1 && |branchStack[0].tiles| == 1
    ensures branchStack[0].tiles[0] == grid[startPos.x][startPos.y]
  {
    branchStack := [];
    var startBranch := Branch([]);
    startBranch := startBranch.(tiles := startBranch.tiles + [grid[startPos.x][startPos.y]]);
    branchStack := branchStack + [startBranch];
  }

  /** Main's set-up, from the generator's rows to the seeded branch stack. */
  method SetUpMaze(rows: seq<string>, exitChar: char, startPos: Vector2) returns (maze: Maze, branchStack: seq<Branch>)
    requires Readable(rows)
    requires 0 <= startPos.x < |rows[0]| && 0 <= startPos.y < |rows|
    ensures maze.grid == BuiltGrid([], rows, exitChar)
    ensures |branchStack| == 1 && |branchStack[0].tiles| == 1
    ensures branchStack[0].tiles[0] == maze.grid[startPos.x][startPos.y]
    ensures branchStack[0].tiles[0].pos == startPos
    ensures branchStack[0].tiles[0].displayChar == CharAt(rows[startPos.y], startPos.x)
    ensures branchStack[0].tiles[0].isExit <==> CharAt(rows[startPos.y], startPos.x) == exitChar
  {
    maze := new Maze();
    maze.FillGrid(rows, exitChar);
    branchStack := StartBranchStack(maze.grid, startPos);
  }
}
