# Mouse_Maze: the driver logic of `main`

This project models the self-contained logic in `Main.cpp` of Mouse_Maze, a console program in which a mouse searches a generated maze for the cheese (the exit tile). It also proves properties of that logic. The parts modelled are:

- `wrappers.dfy`, module `Wrappers`: `Option`, and `Read` (a value read from the console together with the index of the next unread line).
- `user_input.dfy`, module `UserInput`: `GetPositiveIntFromUser`. A line is accepted only when every character is in `"1234567890"` and `std::stoi` converts it without throwing. The console is a parameter: the list of lines `getline` would return.
- `menus.dfy`, module `Menus`: the two start-up menus. The first asks whether to use a seed (0: read a seed, 1: seed -1). The second asks whether to show the exploration (0: shown, route delay 50 ms; 1: hidden, route delay 0). Each menu asks again on any other number.
- `maze_grid.dfy`, module `MazeGrid`: the nested loops that copy the generator's rows, indexed `[row][column]`, into `maze.grid[column][row]`. They set each tile's character, its position and its exit flag. The module also seeds the branch stack with a single branch holding the start tile.
- `mouse_run.dfy`, module `MouseRun`: the tick loop. Each tick calls `ExploreMaze` unless the mouse is retracing. It calls `RetraceSteps` when retracing, or when exploring failed, but only while the cheese is not found. The loop repeats until `FoundCheese()`. When exploration is shown, each tick reads at most one key code (only when `_kbhit()` reports a key press), and the codes 80 (`DOWN_KEY`) and 72 (`UP_KEY`) change the delay between ticks.

`Mouse::ExploreMaze`, `Mouse::RetraceSteps`, `Mouse::FoundCheese` and the `isRetracingSteps` flag live in Mouse.h, which is not part of this model. They appear as function-valued fields of `MouseOps<S>`, over an opaque state `S` that stands for the mouse, the maze and the branch stack together. Nothing about their behaviour is assumed.

Two behaviours of `Main.cpp` shape the model:

- `Main.cpp:194` ignores the result of `RetraceSteps`, so a failed retrace does not end the run. The loop at `Main.cpp:243` ends only when `FoundCheese()` holds, and `Tick` ignores that result too.
- `Main.cpp` does not check that an exit exists, that the start is open or that the rows are rectangular. The grid build indexes `rows[0]` and `rows[row][column]` without bounds checks, so the model states those accesses as preconditions (`Readable`, and `startPos` inside the grid).

## Model

| member | source | states |
|---|---|---|
| `UserInput.ParseUserInt` | Main.cpp:276-292 | A line is accepted exactly when it is non-empty, all characters are in "1234567890" and its value is at most INT_MAX. The empty line passes the character test but makes stoi throw. The result is that value, between 0 and INT_MAX, so 0 is accepted despite the function's name. |
| `UserInput.NextInt` | Main.cpp:269-297 | The line the prompt loop settles on is the first acceptable line at or after the cursor. Every line skipped before it is rejected. No answer means that every remaining line is rejected. |
| `UserInput.GetPositiveIntFromUser` | Main.cpp:264-298 | The retry loop returns exactly that first acceptable line's value and the cursor just past it. |
| `UserInput.DigitRange` | Main.cpp:276 | The characters `find_first_not_of("1234567890")` passes over are exactly '0' to '9'. |
| `UserInput.DecimalRoundTrip` | Main.cpp:276-281 | The decimal text of any n is accepted and read back as n if n is at most INT_MAX. Otherwise it is rejected as out of range. |
| `UserInput.LeadingZeroAccepted` | Main.cpp:276-281 | A leading "0" never changes whether a non-empty line is accepted or the value read from it. |
| `UserInput.ShortInputAccepted` | Main.cpp:276-281 | Every non-empty string of at most nine digits is accepted, with its decimal value. |
| `Menus.SeedMenu` | Main.cpp:59-75 | Choice 0 asks for a seed, choice 1 picks a random maze, and every other choice is refused. |
| `Menus.ExplorationMenu` | Main.cpp:86-107 | Only choices 0 and 1 are accepted. Exploration is shown exactly for 0. The route delay is 50 ms when exploration is shown and 0 otherwise. |
| `Menus.SeedDialogue` | Main.cpp:56-76 | The seed the first menu loop settles on is -1 (random maze) or a non-negative int, and reading stops past where it started. |
| `Menus.ExplorationDialogue` | Main.cpp:83-108 | The second menu loop settles on one of the two settings of choices 0 and 1, and reading stops past where it started. |
| `Menus.AskSeed` | Main.cpp:53-76 | The first menu's do-while loop gives exactly the outcome of `SeedDialogue`. |
| `Menus.AskExploration` | Main.cpp:78-108 | The second menu's do-while loop gives exactly the outcome of `ExplorationDialogue`. |
| `Menus.Configure` | Main.cpp:48-109 | The two menus in sequence give `ConfigDialogue`. The seed is -1 or non-negative. The route delay is 50 ms when exploration is shown and 0 otherwise. |
| `Menus.FirstMenuAnswer` | Main.cpp:56-108 | The first accepted line at or after the cursor whose value is 0 or 1: both menus' loops stop on this line. |
| `Menus.NoAnswerBeforeFirst` | Main.cpp:71-75 | Every line before that first 0 or 1 is either rejected by the prompt or an accepted number above 1, which both menus pass over. |
| `Menus.SeedDecidedByFirstAnswer` | Main.cpp:56-76 | The first menu's outcome is decided by its first accepted 0 or 1. After a 1 the seed is -1 and nothing more is read. After a 0 the seed is the next accepted line. No answer means no outcome. |
| `Menus.ExplorationDecidedByFirstAnswer` | Main.cpp:83-108 | The second menu's outcome is the setting `ExplorationMenu` gives for its first accepted 0 or 1, and reading stops just past that line. |
| `Menus.SeedAfterZero` | Main.cpp:60-64 | An accepted 0 as the first menu's answer makes the seed the next accepted line. |
| `Menus.RejectedLineSkipped` | Main.cpp:56-58 | A line the prompt rejects is skipped by both menus, which go on from the next line. |
| `Menus.ExplorationFirstAnswer` | Main.cpp:87-101 | An accepted 0 or 1 as the second menu's answer settles it on that answer's setting and reads nothing more. |
| `Menus.NoSeedAfterOne` | Main.cpp:66-69 | Answering 1 to the first menu gives seed -1 and reads nothing more. |
| `Menus.OtherChoicesAskAgain` | Main.cpp:71-75 | An accepted number above 1 is ignored by both menus, which go on from the next line. |
| `MazeGrid.Resized` | Main.cpp:140-146 | `std::vector::resize` gives the requested length, keeps the existing prefix and pads with the fill value. |
| `MazeGrid.BuiltGrid` | Main.cpp:137-159 | The grid has rows[0].size() columns of rows.size() tiles each. Tile [c][r] shows rows[r][c] and has position (c, r). It is an exit exactly when it was already one or its character is the exit character. Its `visited` flag, which stands for the Tile state the build does not touch, is untouched. |
| `MazeGrid.TransposeRoundTrip` | Main.cpp:143-150 | Reading the built grid back row by row gives each input row cut to the first row's width: the build is a transpose. |
| `MazeGrid.FreshGridExits` | Main.cpp:153-156 | On an empty starting grid, exactly the tiles showing the exit character are exits, and none is visited. |
| `MazeGrid.Maze.FillGrid` | Main.cpp:137-159 | The nested resize-and-fill loops leave `grid` equal to `BuiltGrid` of the grid they started from. |
| `MazeGrid.StartBranchStack` | Main.cpp:164-168 | The branch stack has depth 1, and its branch holds exactly one tile, the grid's tile at the start position. |
| `MazeGrid.SetUpMaze` | Main.cpp:130-168 | After set-up, the grid is the built grid, and the single branch's single tile is the grid's tile at the start. That tile's position is the start, its character is the row strings' character there, and it is an exit exactly when that character is the exit character. |
| `MouseRun.TickDispatch` | Main.cpp:190-196 | About one tick, `MouseRun.Tick`: `ExploreMaze` is called exactly when the mouse is not retracing. `RetraceSteps` is called exactly when (retracing, or exploration failed) and the cheese is not found after exploring. Each is called at most once, exploring first, and the new state is what those calls leave. |
| `MouseRun.RetracingTickAfterCheese` | Main.cpp:190-196 | A tick that starts retracing with the cheese already found calls nothing and changes nothing. |
| `MouseRun.AsChar` | Main.cpp:216 | Storing `_getch()` in a `char` gives a signed 8-bit value congruent to the key code mod 256, equal to it when it already fits. |
| `MouseRun.AdjustSleep` | Main.cpp:217-229 | DOWN adds 10 ms. UP subtracts 20 ms and clamps at 0, so the result is never negative and is 0 exactly when the delay was at most 20 ms. Any other key leaves the delay unchanged. |
| `MouseRun.SleepAfter` | Main.cpp:214-229 | From a non-negative start, the delay after any key presses is never negative and exceeds the start by at most 10 ms times the number of ticks. It stays a multiple of 10 when the start is one. |
| `MouseRun.UpThenDown` | Main.cpp:217-228 | From at least 20 ms, UP followed by DOWN leaves the delay 10 ms shorter. |
| `MouseRun.AdjustSleepMonotone` | Main.cpp:217-229 | Key handling preserves the order of two delays. |
| `MouseRun.RunUntilCheese` | Main.cpp:170-243 | The loop runs at least one tick, as a do-while does. It stops after the first tick that leaves `FoundCheese()` true, or when the tick budget runs out. Its state is that many ticks applied to the start. The delay starts at 100 ms and changes only by the key presses of shown ticks, and it is never negative. |

## Left out

- Console and keyboard I/O are not modelled: `std::cout`, `SetConsoleCursorPosition`, `system("CLS")`, `Sleep`, `_kbhit`. Input lines and key presses are parameters.
- The ESC-to-quit checks (Main.cpp:235-240, 253-257) and the outer `while (true)` restart loop are session plumbing. The key code consumed by the ESC check is not fed to the speed handling.
- `cTimer` and the elapsed-time reports are left out because they are wall-clock and floating-point values.
- `CustomMaze::createRandomSize`, `print`, `getStrings`, `getStart`, `getExitChar` and `getTimeLimit_ms` belong to the maze generator, which is not part of this model. Its rows, start position and exit character are parameters.
- Mouse.h, Branch.h, cMaze.h and Tile.h are not part of this model. `Mouse::MoveTo` (Main.cpp:162), `PrintPosition` (Main.cpp:206) and `cMaze::PrintRoute` (Main.cpp:245) are not modelled. `ExploreMaze`, `RetraceSteps` and `FoundCheese` are uninterpreted functions.
- `DefaultTile`: the values a default-constructed `Tile` holds are assumed (not an exit, not visited), since Tile.h is outside this model. Only these two fields matter; the build overwrites the others. `Main.cpp` never reads or writes a `visited` field: `visited` is a stand-in for whatever Tile state the build leaves alone, since Tile.h's real fields are not known to this model.
- `MazeGrid.Maze.constructor`: an empty grid for a new `CustomMaze` is assumed, since `CustomMaze`'s constructor is outside this model.
- `MazeGrid.SetUpMaze` runs the fill and the branch push back to back. It assumes two things about calls that are not part of this model. First, `createRandomSize` and `print` (Main.cpp:113-116) leave `grid` empty. Second, `mouse.MoveTo` (Main.cpp:162), which receives the start tile and the maze between the fill and the push, changes neither. A `MoveTo` that, for example, marks the start tile visited would change the pushed tile and the grid from what the ensures state.
- `MouseRun.RunUntilCheese` applies the ticks back to back. Between ticks, when exploration is shown and the cheese is not yet found, `Main.cpp:206` calls `mouse.PrintPosition(maze, branchStack)`, which receives the maze and the branch stack. The ensures `s == AfterTicks(m, s0, ticks)` assumes that this call leaves the mouse, the maze and the branch stack unchanged. A `PrintPosition` that changed any of them would leave a state different from the one stated.
- Arrow keys: on Windows `_getch` returns an arrow key as two codes, a prefix (0 or 224) and then 72 or 80. Main.cpp:216 reads one code per tick, and the ESC check at Main.cpp:236-238 reads another. So an arrow press changes the delay only when the ESC check takes the prefix. Otherwise line 216 sees the prefix, which changes nothing, and the ESC check discards the 72 or 80. The letters `H` and `P` (codes 72 and 80) change the delay too. The model takes as its input the code read at line 216.
- `UserInput.GetPositiveIntFromUser` returns None when the supplied lines run out. The source would keep prompting forever.
- `MouseRun.RunUntilCheese` stops when the key sequence (one entry per tick) runs out. The source's loop has no bound and, on a maze where the cheese is never found, never ends.
- `MouseRun.SleepAfter`: `printExplorationSleepAmount` is an `int` that only repeated DOWN presses could overflow. The model uses unbounded integers.
- `std::stoi`'s exceptions are modelled as a rejected line: None, followed by the next prompt.
