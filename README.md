# Space Invaders core, modelled in Dafny

This project models the integer core of a small Go Space Invaders game built on the ebiten
engine (`main.go`). It covers the collision test, the high-score table and its text file, and
the game's per-tick state machine: `Game.Update`, the state-changing half of
`Game.drawGameScreen`, `resetGame`, `resetBeam`, `dropBomb` and the construction of the
alien grid in `initGame`.

The project has these modules:

- `Wrappers` holds `Option`, and `Ints` holds Go's built-in `min` and `max`.
- `Geometry` holds sprites, frame sizes and `collide`.
- `Text` models `strings.Split` with a one-character separator, the blank-line test of
  `strings.TrimSpace`, `strconv.Itoa` and `strconv.Atoi`.
- `HighScores` specifies the table as pure functions and predicates. It has the sort relation
  `IsTopOf`, the outcome of `addHighScore`, and the file format with its parser.
  - The class `HighScoreTable` holds the global `highScores` slice and the file's contents.
  - Its methods `LoadHighScores`, `SaveHighScores`, `SortHighScores` and `AddHighScore` loop
    as the Go functions do.
  - Each method is proved against those pure functions.
- `Rules` states one game tick as functions on a value `World`.
  - `World` holds the `Game` struct's fields plus the globals `aliens`, `bombs`, `barriers`,
    `laserCannon`, `beam` and `playerYPosition`.
  - `Update`, `DrawScreen` and `Reset` are the tick functions.
  - It proves what a tick keeps (`Valid`) and what each rule does.
- `Invaders` has the class `Game`, whose fields are updated in place by methods with the
  source's loops.
  - Every method ensures that the new state is the matching `Rules` function of the old state.
  - `Draw` and `DrawGameScreen` also state the effect on the high-score table.

The source's quirks are modelled as written, and lemmas state their consequences:

- Both rectangles in `collide` take the first sprite's size.
- A beam hit is tested whatever the beam's status.
- The loss test looks at dead aliens too.
- Bombs are never removed.
- The edge test looks only at `aliens[0]` and `aliens[7]` of a 12-column grid.
- `resetGame` leaves the beam's status alone.
- Q ends the game without offering the score to the table.

Inputs from outside the code are parameters:

- the keys of a tick (`Rules.Input`);
- the random bomb draw of each alien (`drops`);
- the player's name;
- the contents of the high-score file (`Option<string>`, `None` when it cannot be read).

## Model

| member | source | states |
|---|---|---|
| Geometry.Collide | main.go:706-714 | true exactly when the X distance is below the first sprite's width and the Y distance below the first sprite's height (strict overlap of two rectangles that both take the first sprite's size) |
| Geometry.CollideIgnoresSecondSize | main.go:708 | the second sprite's size, status and points never change the result |
| Geometry.TouchingEdgesDoNotCollide | main.go:709-710 | rectangles that only share an edge do not collide (strict comparisons) |
| Geometry.CollideSymmetricForEqualSizes | main.go:706-714 | for sprites of equal size the test is symmetric |
| Geometry.CollideAsymmetric | main.go:707-708 | for different sizes it is not: an alien collides with a beam 15 pixels to its right but that beam does not collide with the alien |
| Text.SplitOn | main.go:336 | the pieces between separators: at least one piece, none contains the separator, and joined with the separator they give the input back |
| Text.SplitJoin | main.go:342 | splitting a join of separator-free parts gives the parts back, so the three facts of `SplitOn` determine its result |
| Text.SplitAround | main.go:336 | a separator between two texts splits them apart: the pieces of the whole are the pieces of the first followed by those of the second |
| Text.NatToDecimal | main.go:362 | a non-empty string of decimal digits denoting the number |
| Text.Itoa | main.go:362 | a non-empty string of digits with at most a leading minus sign |
| Text.Atoi | main.go:347 | accepts exactly the texts made of an optional `+` or `-` and one or more ASCII digits whose value fits in 64-bit `int`, and reads that value (the digits' value, negated after `-`) |
| Text.AtoiItoa | main.go:347-362 | reading back what `Itoa` wrote gives the number again, for every 64-bit `int` |
| HighScores.InsertByScore | main.go:367-370 | inserting into a non-increasing table gives a non-increasing table holding exactly the old entries plus the new one |
| HighScores.TruncateSorted | main.go:367-374 | a non-increasing permutation of the input cut to 5 entries is a top table of the input: non-increasing, at most 5 entries taken from the input, and every entry left out scores no more than the last kept |
| HighScores.TopOfShort | main.go:371-373 | an input of at most 5 entries loses nothing to the cut |
| HighScores.AddIdempotent | main.go:376-391 | right after any outcome of offering a name and score, the same offer is rejected |
| HighScores.ParseLine | main.go:339-351 | a white-space-only line is skipped; an accepted line is the name, one comma and an integer text, with no other comma, and the score is what `Atoi` reads |
| HighScores.ParseLineAccepts | main.go:342-351 | every comma-free name followed by a comma and an integer text is accepted as that entry |
| HighScores.ParseLines | main.go:338-352 | at most one entry per line; every entry has a comma-free name and a 64-bit score, and a newline-free name when the lines are newline-free |
| HighScores.ParseFile | main.go:333-353 | no entries when the file cannot be read; otherwise the entries of its lines, each one storable |
| HighScores.ParseEntryLine | main.go:342-362 | every line the save writes reads back as its entry |
| HighScores.SerializedLines | main.go:357-365 | the saved text splits at newlines into one line per entry followed by the empty text after the last newline |
| HighScores.SaveLoadRoundTrip | main.go:336-366 | parsing the saved text of storable entries gives back the same entries in the same order |
| HighScores.SaveThenLoad | main.go:332-374 | saving a table of at most 5 storable entries and loading the file gives back the same multiset of entries, non-increasing |
| HighScores.HighScoreTable.constructor | main.go:179-180 | the table starts empty, with the given file contents |
| HighScores.HighScoreTable.SortHighScores | main.go:367-374 | the new table is a top table of the old one: non-increasing, cut to 5, and no left-out entry beats the last kept, in any order among equal scores |
| HighScores.HighScoreTable.LoadHighScores | main.go:332-355 | the table becomes a top table of the entries parsed from the file, and none when the file cannot be read |
| HighScores.HighScoreTable.SaveHighScores | main.go:357-366 | the file holds one `name,score` line per entry, in table order, each ended by a newline |
| HighScores.HighScoreTable.AddHighScore | main.go:376-391 | table and file are unchanged when the table is full and the score does not beat the last entry, or when the same name and score are present; otherwise the table becomes a top table of the old entries plus the new one and the file is rewritten from it; a valid table stays valid |
| Rules.FormationFresh | main.go:295-313 | the fresh grid has 60 aliens in formation, all alive, no points scored, the first at (100, 30) |
| Rules.FormationPoints | main.go:297-311 | the alien at row r, column c is at X = 100 + 40c, Y = 30 + 30r, worth 30 in row 0, 20 in rows 1-2 and 10 in rows 3-4 |
| Rules.AlienHit | main.go:599-626 | a living alien is shot down exactly when the beam, whatever its status, overlaps it after its step: a hit scores its points and resets the beam to inactive at Y = 250, a miss scores nothing and leaves the beam alone; either way it drops one bomb from its moved position exactly when its draw says so |
| Rules.DeadAlienStep | main.go:600-601 | a dead alien only moves sideways: no hit, no score, no bomb |
| Rules.AlienStepScore | main.go:599-627 | one alien's iteration scores exactly the points that alien gives up |
| Rules.AliensThroughMoves | main.go:599-627 | after the loop has visited n aliens, each visited alien, alive or dead, moved 5 * direction sideways and changed in nothing else except that a living one may have died; no alien comes back to life; the others are untouched |
| Rules.AliensThroughScore | main.go:599-627 | the score grows by exactly the points of the aliens shot down in the loop |
| Rules.AliensThroughBeamAndBombs | main.go:612-625 | the beam is either unchanged or reset; bombs are only appended, at most one per visited alien |
| Rules.AliensThroughDrops | main.go:599-627 | after the loop has visited n aliens the bombs are the old ones followed by exactly one bomb for each visited alien that was alive before its step and whose draw says so, at its moved position, in alien order |
| Rules.KilledPointsUpdate | main.go:606-607 | replacing one alien changes the points of the aliens shot down by exactly the difference of what the two give up |
| Rules.BombsThroughFall | main.go:629-630 | every visited bomb fell by exactly 10 and no bomb is removed or otherwise changed |
| Rules.BombsThroughLives | main.go:634-646 | lives never rise; a game once over stays over; the loop ends the game only when a hit leaves no lives; "no lives means game over" is kept; the beam is unchanged or reset |
| Rules.BombHit | main.go:629-646 | a bomb falls 10; if it then overlaps the cannon it costs one life, and with one life left the game ends, otherwise the beam resets and the cannon returns to `playerYPosition`; if it misses nothing but its height changes |
| Rules.InitialValid | main.go:280-317 | the initial state satisfies the game invariant: formation in shape, direction of 1 or -1, nothing armed, beam between 0 and 250, score equal to the points of dead aliens, at most 3 lives with none only when over, `playerYPosition` within [100, 550] |
| Rules.ResetValid | main.go:716-748 | `resetGame` re-establishes the invariant |
| Rules.LoweredInFormation | main.go:485-487 | lowering every alien by 10 keeps the formation's shape and the points of the dead aliens |
| Rules.UpdateValid | main.go:418-490 | `Game.Update` keeps the invariant |
| Rules.GameOverTickValid | main.go:419-433 | the game-over branch keeps the invariant |
| Rules.ControlsValid | main.go:439-481 | the key handling keeps the invariant |
| Rules.ReverseValid | main.go:483-488 | the edge test keeps the invariant |
| Rules.DrawScreenValid | main.go:599-682 | the state changes of `drawGameScreen` keep the invariant |
| Rules.PausedUpdateIsNoOp | main.go:435-437 | while paused and not over, `Update` changes nothing and does not exit |
| Rules.FireOnlyWhenIdle | main.go:459-480 | a fire press arms a shot only when the beam is idle; the shot activates the beam at the moved cannon's X + 7 and leaves nothing armed; with the beam in flight the beam is unchanged |
| Rules.EdgeReversal | main.go:483-488 | the direction flips exactly when `aliens[0].X < 30` or `aliens[7].X > 740`, and then every alien goes 10 lower; otherwise direction and every alien are unchanged |
| Rules.CannonMovement | main.go:440-457 | the cannon moves 10 per held arrow key; `playerYPosition` moves 5 down or up, clamped to [100, 550] |
| Rules.QuitEndsGame | main.go:468-474 | Q ends the game and pauses it (Escape in the same tick toggles the pause back) |
| Rules.GameOverScreen | main.go:419-433 | on the game-over screen the timer counts ticks and the text flips exactly when it reaches a multiple of 60; Enter restarts with a fresh formation, no bombs, score 0, 3 lives, the cannon at (50, `playerYPosition`) and the beam at (57, 250) with its status kept; without Enter the game stays over, and Escape exits |
| Rules.DrawMovesAliens | main.go:599-627 | one draw moves every alien, alive or dead, 5 * direction sideways, leaves its height, never revives one, and grows the score by exactly the points of the aliens shot down |
| Rules.DrawKeepsBombs | main.go:623-655 | after a draw the bombs are the old ones followed by exactly those the alien loop dropped, none removed, and every one of them, old or new, is 10 lower |
| Rules.DrawEndsGame | main.go:629-681 | lives never rise in a draw, and the game is over after it exactly when no lives are left or some alien, alive or dead, is below `playerYPosition - 50` |
| Rules.RightEdgeTestIsLate | main.go:483 | when the right-edge test fires on `aliens[7]`, the last column is already past the window's right edge |
| Rules.InvadedByBottomRow | main.go:672-673 | since dead aliens count, the loss test is decided by the bottom row's height alone |
| Invaders.Game.constructor | main.go:792-805 | the state is the `Game` literal followed by `initGame`: a fresh 5 x 12 grid, three barriers, cannon at (50, 400), idle beam at (57, 250); the table is a top table of the file's entries; the invariant holds |
| Invaders.Game.Update | main.go:418-490 | the new state is `Rules.Update` of the old one, the process exits exactly on Escape on the game-over screen without Enter, and the invariant is kept |
| Invaders.Game.Steer | main.go:440-457 | the arrow keys' effect is `Rules.Steer` |
| Invaders.Game.HandleKeys | main.go:459-474 | the effect of space, Q and Escape is `Rules.Keys` |
| Invaders.Game.FireBeam | main.go:476-480 | an armed shot is launched as `Rules.Fire` states |
| Invaders.Game.TurnAtEdge | main.go:483-488 | the edge test's effect is `Rules.Reverse` |
| Invaders.Game.MoveBarriers | main.go:448-450 | every barrier gets the given height and nothing else changes |
| Invaders.Game.LowerAliens | main.go:485-487 | every alien goes 10 lower and nothing else changes |
| Invaders.Game.BuildFormation | main.go:295-313 | the nested loops build exactly the 60-alien grid `Rules.Formation` |
| Invaders.Game.ResetBeam | main.go:701-704 | the beam stops and returns to Y = 250, keeping its X |
| Invaders.Game.DropBomb | main.go:690-699 | exactly one bomb is appended, 7 right of the alien at its height |
| Invaders.Game.ResetGame | main.go:716-748 | the new state is `Rules.Reset` of the old one: counters, direction, score and lives reset, fresh grid, no bombs, cannon at (50, `playerYPosition`), beam at (57, 250) with its status kept |
| Invaders.Game.Draw | main.go:575-582 | the new state is `Rules.Draw` of the old one; the table takes the outcome of exactly one offer of the score when this draw ends the game and is unchanged otherwise; the invariant is kept |
| Invaders.Game.DrawGameScreen | main.go:584-682 | the new state is `Rules.DrawScreen` of the old one, and the table is as after the offers made so far |
| Invaders.Game.MoveAliens | main.go:599-627 | the alien loop's effect is `Rules.AlienPhase` |
| Invaders.Game.MoveBombs | main.go:629-655 | the bomb loop's effect is `Rules.BombPhase`, with the table as after one offer once the game is over |
| Invaders.Game.MoveBomb | main.go:630-646 | one bomb's iteration is `Rules.BombStep` |
| Invaders.Game.HitCannon | main.go:635-646 | a hit is `Rules.CannonHit`, offering the score when the game ends |
| Invaders.Game.MoveBeam | main.go:662-670 | the beam's step is `Rules.BeamPhase`: it rises 10 when in flight and resets once above the top |
| Invaders.Game.CheckInvasion | main.go:672-681 | the loss loop's effect is `Rules.InvasionPhase`, with the table as after one offer once the game is over |
| Invaders.Game.EndGame | main.go:674-675 | the game is over and the table holds the outcome of one offer of the score, however many offers this draw has made |

## Left out

- Rendering is not modelled: drawing sprites, text and rectangles, the float scale factors of
  the background, the fonts, `Layout` and `drawGameOverScreen` (main.go:494-573, 585-597). The
  model has no screen.
- Audio is not modelled: `loadAudio` and every `Rewind`/`Play` call. These are side effects
  on an audio player.
- Image loading and the sprites' image handles are not modelled. A sprite keeps only its frame
  size, position, status and points.
- File I/O is a parameter. The high-score file is an `Option<string>` field of the table, and
  `None` stands for a file that cannot be read. A failed `WriteFile` is ignored by the source
  and is not modelled.
- `user.Current` is a parameter: the constructor takes the player's name.
- `os.Exit(0)` is not modelled. `Game.Update` returns `exit = true` instead, after the same
  state change the source makes before exiting.
- `rand.Float64() < bombProbability` is an input. `drops[i]` is the outcome of alien `i`'s
  draw, and it is used only when that alien is alive, as in the source.
- The keyboard is an input. `Rules.Input` holds the four held arrow keys and the four keys
  just pressed in the tick.
- The engine's scheduling of `Update` and `Draw` is outside the model. Each is modelled as one
  call; their interleaving and frame rate are not.
- Go's 64-bit wrap-around is not modelled for the game's counters and positions (`loop`,
  `score`, `gameOverTimer`, coordinates), which are unbounded integers here. They stay far
  from the limit in any real game. Only the high-score file bounds scores, through `Atoi`.
- HighScores.HighScoreTable.SortHighScores: the implementation is one insertion sort. It is
  specified by `IsTopOf`, which admits every order among equal scores that the unstable
  `sort.Slice` may produce. The model does not fix which one the source picks.
- Text is a sequence of Unicode characters. Files that are not valid UTF-8 are not modelled.
