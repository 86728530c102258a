/**
 * The rules of one game tick, as functions on a value `World` holding everything the
 * tick reads or writes (the `Game` struct's fields and the globals `aliens`, `bombs`,
 * `barriers`, `laserCannon`, `beam` and `playerYPosition` of main.go). The high-score
 * table is not part of `World`: a tick may offer the score to it, and module `Invaders`
 * states that effect on the table object.
 *
 * `Update` is `Game.Update`; `DrawScreen` is the state-changing half of
 * `Game.drawGameScreen`; `Reset` is `Game.resetGame`. Key presses and the random bomb draws
 * are inputs.
 */
module Rules {
  import opened Geometry
  import opened Ints

  const WindowWidth: int := 800
  const WindowHeight: int := 600
  const AliensPerRow: nat := 8
  const AliensStartCol: int := 100
  const AlienSize: int := 30
  const BombSpeed: int := 10
  const BarrierYPosition: int := 300
  const InitialPlayerY: int := 400
  const Rows: nat := 5
  const Cols: nat := 12
  const BeamRestY: int := 250

  /** The keys of one `Update` call: four held keys and four keys just pressed this tick. */
  datatype Input = Input(right: bool, left: bool, down: bool, up: bool,
                         space: bool, q: bool, escape: bool, enter: bool)

  datatype World = World(
    loop: int, beamShot: bool, gameOver: bool, alienDirection: int, score: int, lives: int,
    isPaused: bool, gameOverTimer: int, showGameOverText: bool,
    aliens: seq<Sprite>, bombs: seq<Sprite>, barriers: seq<Sprite>,
    laserCannon: Sprite, beam: Sprite, playerY: int)

  // ---------------------------------------------------------------------------
  // The alien formation (initGame and resetGame)

  function RowSize(row: nat): Size
  {
    if row == 0 then Alien1Size else if row <= 2 then Alien2Size else Alien3Size
  }

  function RowPoints(row: nat): int
  {
    if row == 0 then 30 else if row <= 2 then 20 else 10
  }

  /** The alien created at `row`, `col` of the grid. */
  function GridAlien(row: nat, col: nat): Sprite
  {
    Sprite(RowSize(row), AliensStartCol + col * (AlienSize + 10), 30 + row * 30, true, RowPoints(row))
  }

  /** The 5 x 12 grid, stored row by row. */
  function Formation(): seq<Sprite>
  {
    seq(Rows * Cols, k requires 0 <= k < Rows * Cols => GridAlien(k / Cols, k % Cols))
  }

  /**
   * The shape every later formation keeps: 60 aliens, each at its grid offset from the
   * first, with the size and points of its row.
   */
  ghost predicate InFormation(aliens: seq<Sprite>)
  {
    && |aliens| == Rows * Cols
    && forall k :: 0 <= k < |aliens| ==> InPlace(aliens, k)
  }

  /** Alien `k` sits at its grid offset from the first alien, with its row's size and points. */
  ghost predicate InPlace(aliens: seq<Sprite>, k: nat)
    requires k < |aliens|
  {
    && aliens[k].x == aliens[0].x + (k % Cols) * (AlienSize + 10)
    && aliens[k].y == aliens[0].y + (k / Cols) * 30
    && aliens[k].size == RowSize(k / Cols)
    && aliens[k].points == RowPoints(k / Cols)
  }

  /** Points an alien has given up: its value once shot down, nothing while alive. */
  function Lost(a: Sprite): int { if a.status then 0 else a.points }

  /** The points of every alien shot down. */
  function KilledPoints(aliens: seq<Sprite>): int
  {
    if |aliens| == 0 then 0
    else KilledPoints(aliens[..|aliens| - 1]) + Lost(aliens[|aliens| - 1])
  }

  lemma {:induction false} KilledPointsUpdate(s: seq<Sprite>, i: nat, v: Sprite)
    requires i < |s|
    ensures KilledPoints(s[i := v]) == KilledPoints(s) - Lost(s[i]) + Lost(v)
  {
    var n := |s|;
    var t := s[i := v];
    assert t[..n - 1] == if i == n - 1 then s[..n - 1] else s[..n - 1][i := v];
    if i < n - 1 {
      KilledPointsUpdate(s[..n - 1], i, v);
    }
  }

  lemma {:induction false} KilledPointsAllAlive(s: seq<Sprite>)
    requires forall k :: 0 <= k < |s| ==> s[k].status
    ensures KilledPoints(s) == 0
  {
    if |s| > 0 {
      KilledPointsAllAlive(s[..|s| - 1]);
    }
  }

  /** A fresh formation is in shape, every alien alive, nothing yet scored. */
  lemma FormationFresh()
    ensures InFormation(Formation())
    ensures forall k :: 0 <= k < |Formation()| ==> Formation()[k].status
    ensures KilledPoints(Formation()) == 0
    ensures Formation()[0].x == AliensStartCol && Formation()[0].y == 30
  {
    KilledPointsAllAlive(Formation());
  }

  /** The grid's points by row: 30 for row 0, 20 for rows 1 and 2, 10 for rows 3 and 4. */
  lemma FormationPoints(row: nat, col: nat)
    requires row < Rows && col < Cols
    ensures Formation()[row * Cols + col] == GridAlien(row, col)
    ensures Formation()[row * Cols + col].x == 100 + col * 40
    ensures Formation()[row * Cols + col].y == 30 + row * 30
    ensures Formation()[row * Cols + col].points == (if row == 0 then 30 else if row <= 2 then 20 else 10)
  {
    var k := row * Cols + col;
    assert k / Cols == row && k % Cols == col;
  }

  // ---------------------------------------------------------------------------
  // Helpers: resetBeam and dropBomb

  /** `resetBeam`: the beam stops and returns to its resting height; its X is kept. */
  function ResetBeam(b: Sprite): Sprite { b.(status := false, y := BeamRestY) }

  /** The bomb `dropBomb(alien)` appends: 7 pixels right of the alien's corner, at its height. */
  function BombFrom(alien: Sprite): Sprite { Sprite(BombSize, alien.x + 7, alien.y, true, 0) }

  // ---------------------------------------------------------------------------
  // Game.resetGame and the initial state

  /**
   * `resetGame`: counters, direction, score and lives back to their start values, a fresh
   * formation, no bombs, the cannon back at (50, playerYPosition) and the beam at (57, 250).
   * The beam's status, the pause flag, the barriers, the game-over timer and the text flag
   * are left as they are.
   */
  function Reset(w: World): World
  {
    w.(loop := 0, beamShot := false, gameOver := false, alienDirection := 1, score := 0, lives := 3,
       aliens := Formation(), bombs := [],
       laserCannon := w.laserCannon.(x := 50, y := w.playerY),
       beam := w.beam.(x := 50 + 7, y := BeamRestY))
  }

  function Barrier(x: int, y: int): Sprite { Sprite(BarrierSize, x, y, true, 0) }

  /** The state `main` builds: the `Game` literal followed by `initGame`. */
  function Initial(): World
  {
    var barrierWidth := (WindowWidth - 100) / 4;
    var cannon := Sprite(CannonSize, 50, InitialPlayerY, true, 0);
    World(0, false, false, 1, 0, 3, false, 0, true,
          Formation(), [],
          [Barrier(100, BarrierYPosition), Barrier(100 + barrierWidth, BarrierYPosition),
           Barrier(100 + 2 * barrierWidth, BarrierYPosition)],
          cannon, Sprite(BeamSize, cannon.x + 7, BeamRestY, false, 0), InitialPlayerY)
  }

  // ---------------------------------------------------------------------------
  // Game.Update

  function SetBarriersY(barriers: seq<Sprite>, y: int): (r: seq<Sprite>)
    ensures |r| == |barriers|
  {
    seq(|barriers|, i requires 0 <= i < |barriers| => barriers[i].(y := y))
  }

  /** Every alien, alive or dead, 10 pixels lower. */
  function Lowered(aliens: seq<Sprite>): (r: seq<Sprite>)
    ensures |r| == |aliens|
  {
    seq(|aliens|, i requires 0 <= i < |aliens| => aliens[i].(y := aliens[i].y + 10))
  }

  /** The edge test: only `aliens[0]` and `aliens[aliensPerRow-1]` are looked at. */
  predicate AtEdge(aliens: seq<Sprite>)
    requires |aliens| >= AliensPerRow
  {
    aliens[0].x < AlienSize || aliens[AliensPerRow - 1].x > WindowWidth - 2 * AlienSize
  }

  function Reverse(w: World): World
    requires |w.aliens| >= AliensPerRow
  {
    if AtEdge(w.aliens) then w.(alienDirection := w.alienDirection * -1, aliens := Lowered(w.aliens))
    else w
  }

  /** Whether `Update` ends the process (Escape on the game-over screen, without Enter). */
  predicate Exits(w: World, k: Input)
  {
    w.gameOver && !k.enter && k.escape
  }

  /**
   * `Game.Update`. On the game-over screen: advance the timer, flip the text every 60
   * ticks, restart on Enter. While paused: nothing. Otherwise: move the cannon, move
   * `playerYPosition` within [100, 550] and the barriers, arm a shot only when the beam
   * is idle, quit on Q (without recording a score), toggle the pause on Escape, launch an
   * armed shot from the cannon, and finally test the formation's edges.
   */
  function Update(w: World, k: Input): World
    requires |w.aliens| >= AliensPerRow
  {
    if w.gameOver then GameOverTick(w, k)
    else if w.isPaused then w
    else Reverse(Controls(w, k))
  }

  /** The game-over screen's tick: the blink timer, and a restart on Enter. */
  function GameOverTick(w: World, k: Input): World
  {
    var timer := w.gameOverTimer + 1;
    var w1 := w.(gameOverTimer := timer,
                 showGameOverText := if timer % 60 == 0 then !w.showGameOverText else w.showGameOverText);
    if k.enter then Reset(w1.(isPaused := false)) else w1
  }

  /** The keys' effect during play, before the edge test. */
  function Controls(w: World, k: Input): World
  {
    Fire(Keys(Steer(w, k), k))
  }

  /** The arrow keys: the cannon moves 10 sideways; down and up move `playerYPosition` and set the barriers' height. */
  function Steer(w: World, k: Input): World
  {
    var cannonX := w.laserCannon.x + (if k.right then 10 else 0) - (if k.left then 10 else 0);
    var y1 := if k.down then Min(WindowHeight - 50, w.playerY + 5) else w.playerY;
    var barriers1 := if k.down then SetBarriersY(w.barriers, BarrierYPosition + 5) else w.barriers;
    var y2 := if k.up then Max(100, y1 - 5) else y1;
    var barriers2 := if k.up then SetBarriersY(barriers1, BarrierYPosition - 5) else barriers1;
    w.(laserCannon := w.laserCannon.(x := cannonX), playerY := y2, barriers := barriers2)
  }

  /** Space arms a shot only when the beam is idle; Q ends the game and pauses; Escape toggles the pause. */
  function Keys(w: World, k: Input): World
  {
    var shot := w.beamShot || (k.space && !w.beam.status);
    var over := if k.q then true else w.gameOver;
    var paused0 := if k.q then true else w.isPaused;
    var paused := if k.escape then !paused0 else paused0;
    w.(beamShot := shot, gameOver := over, isPaused := paused)
  }

  /** An armed shot leaves from the cannon: the beam moves to the cannon's X + 7 and starts rising. */
  function Fire(w: World): World
  {
    if w.beamShot then w.(beam := w.beam.(x := w.laserCannon.x + 7, status := true), beamShot := false)
    else w
  }

  // ---------------------------------------------------------------------------
  // Game.drawGameScreen: the alien loop

  /** What the alien loop carries from one alien to the next. */
  datatype AlienPass = AlienPass(aliens: seq<Sprite>, beam: Sprite, score: int, bombs: seq<Sprite>)

  /**
   * One iteration for alien `i`: it steps sideways; if it is alive, a collision with the
   * beam (whatever the beam's status) shoots it down, scores its points and resets the
   * beam, and the random draw `drop` may make it drop a bomb.
   */
  function AlienStep(p: AlienPass, i: nat, dir: int, drop: bool): (r: AlienPass)
    requires i < |p.aliens|
    ensures |r.aliens| == |p.aliens|
  {
    var a := p.aliens[i].(x := p.aliens[i].x + 5 * dir);
    if !a.status then p.(aliens := p.aliens[i := a])
    else if Collide(a, p.beam) then
      var dead := a.(status := false);
      AlienPass(p.aliens[i := dead], ResetBeam(p.beam), p.score + a.points,
                if drop then p.bombs + [BombFrom(dead)] else p.bombs)
    else
      AlienPass(p.aliens[i := a], p.beam, p.score, if drop then p.bombs + [BombFrom(a)] else p.bombs)
  }

  /** The alien loop run over the first `n` aliens. */
  function AliensThrough(p0: AlienPass, dir: int, drops: seq<bool>, n: nat): (p: AlienPass)
    requires n <= |p0.aliens| && |drops| == |p0.aliens|
    ensures |p.aliens| == |p0.aliens|
  {
    if n == 0 then p0 else AlienStep(AliensThrough(p0, dir, drops, n - 1), n - 1, dir, drops[n - 1])
  }

  /**
   * A living alien's iteration: it is shot down exactly when the beam overlaps it after its
   * step. A hit scores its points and resets the beam; a miss scores nothing and leaves the
   * beam alone. Either way, when its draw says so it drops one bomb, from its moved position.
   */
  lemma AlienHit(p: AlienPass, i: nat, dir: int, drop: bool)
    requires i < |p.aliens| && p.aliens[i].status
    ensures var a := p.aliens[i].(x := p.aliens[i].x + 5 * dir);
            var r := AlienStep(p, i, dir, drop);
            && (!r.aliens[i].status <==> Collide(a, p.beam))
            && r.aliens[i].(status := true) == a
            && (Collide(a, p.beam) ==> r.score == p.score + a.points && r.beam == p.beam.(status := false, y := 250))
            && (!Collide(a, p.beam) ==> r.score == p.score && r.beam == p.beam)
            && r.bombs == p.bombs + (if drop then [BombFrom(a)] else [])
  {
  }

  /** A dead alien's iteration only moves it sideways: no hit, no score, no bomb. */
  lemma DeadAlienStep(p: AlienPass, i: nat, dir: int, drop: bool)
    requires i < |p.aliens| && !p.aliens[i].status
    ensures AlienStep(p, i, dir, drop) == p.(aliens := p.aliens[i := p.aliens[i].(x := p.aliens[i].x + 5 * dir)])
  {
  }

  /**
   * The bombs the alien loop drops over the first `n` aliens, as a reference independent of
   * the loop: one for each alien alive before its step whose draw says so (also when it is
   * shot down in that step), at its moved position, in alien order.
   */
  function Dropped(aliens: seq<Sprite>, dir: int, drops: seq<bool>, n: nat): (r: seq<Sprite>)
    requires n <= |aliens| && |drops| == |aliens|
    ensures |r| <= n
  {
    if n == 0 then []
    else
      var a := aliens[n - 1];
      Dropped(aliens, dir, drops, n - 1)
        + (if a.status && drops[n - 1] then [BombFrom(a.(x := a.x + 5 * dir))] else [])
  }

  /**
   * After the loop has visited `n` aliens: each visited alien moved 5 * dir sideways and
   * nothing else changed about it except that a living one may have been shot down; the
   * others are untouched.
   */
  lemma {:induction false} AliensThroughMoves(p0: AlienPass, dir: int, drops: seq<bool>, n: nat)
    requires n <= |p0.aliens| && |drops| == |p0.aliens|
    ensures var p := AliensThrough(p0, dir, drops, n);
            forall k :: 0 <= k < |p.aliens| ==>
              && p.aliens[k].x == p0.aliens[k].x + (if k < n then 5 * dir else 0)
              && p.aliens[k].y == p0.aliens[k].y
              && p.aliens[k].size == p0.aliens[k].size
              && p.aliens[k].points == p0.aliens[k].points
              && (p.aliens[k].status ==> p0.aliens[k].status)
              && (k >= n ==> p.aliens[k] == p0.aliens[k])
  {
    if n > 0 {
      AliensThroughMoves(p0, dir, drops, n - 1);
    }
  }

  /** The score grows by exactly the points of the aliens shot down during the loop. */
  lemma {:induction false} AliensThroughScore(p0: AlienPass, dir: int, drops: seq<bool>, n: nat)
    requires n <= |p0.aliens| && |drops| == |p0.aliens|
    ensures var p := AliensThrough(p0, dir, drops, n);
            p.score - p0.score == KilledPoints(p.aliens) - KilledPoints(p0.aliens)
  {
    if n > 0 {
      AliensThroughScore(p0, dir, drops, n - 1);
      LastAlienScore(p0, dir, drops, n);
    }
  }

  lemma LastAlienScore(p0: AlienPass, dir: int, drops: seq<bool>, n: nat)
    requires 0 < n <= |p0.aliens| && |drops| == |p0.aliens|
    ensures var p, q := AliensThrough(p0, dir, drops, n), AliensThrough(p0, dir, drops, n - 1);
            p.score - q.score == KilledPoints(p.aliens) - KilledPoints(q.aliens)
  {
    AlienStepScore(AliensThrough(p0, dir, drops, n - 1), n - 1, dir, drops[n - 1]);
  }

  /** One alien's step scores exactly the points it gives up. */
  lemma AlienStepScore(q: AlienPass, i: nat, dir: int, drop: bool)
    requires i < |q.aliens|
    ensures var r := AlienStep(q, i, dir, drop);
            r.score - q.score == KilledPoints(r.aliens) - KilledPoints(q.aliens)
  {
    var a := q.aliens[i].(x := q.aliens[i].x + 5 * dir);
    KilledPointsUpdate(q.aliens, i, a);
    KilledPointsUpdate(q.aliens, i, a.(status := false));
  }

  /** The beam is either as it was or reset; bombs are only appended, at most one per alien. */
  lemma {:induction false} AliensThroughBeamAndBombs(p0: AlienPass, dir: int, drops: seq<bool>, n: nat)
    requires n <= |p0.aliens| && |drops| == |p0.aliens|
    ensures var p := AliensThrough(p0, dir, drops, n);
            && (p.beam == p0.beam || p.beam == ResetBeam(p0.beam))
            && |p0.bombs| <= |p.bombs| <= |p0.bombs| + n
            && p.bombs[..|p0.bombs|] == p0.bombs
  {
    if n > 0 {
      AliensThroughBeamAndBombs(p0, dir, drops, n - 1);
      var q := AliensThrough(p0, dir, drops, n - 1);
      var p := AliensThrough(p0, dir, drops, n);
      assert p.bombs == q.bombs || p.bombs[..|q.bombs|] == q.bombs;
      assert p.bombs[..|p0.bombs|] == q.bombs[..|p0.bombs|];
    }
  }

  /** The bombs after the loop has visited `n` aliens are the old ones followed by exactly `Dropped`. */
  lemma {:induction false} AliensThroughDrops(p0: AlienPass, dir: int, drops: seq<bool>, n: nat)
    requires n <= |p0.aliens| && |drops| == |p0.aliens|
    ensures AliensThrough(p0, dir, drops, n).bombs == p0.bombs + Dropped(p0.aliens, dir, drops, n)
  {
    if n > 0 {
      AliensThroughDrops(p0, dir, drops, n - 1);
      AliensThroughMoves(p0, dir, drops, n - 1);
      var q := AliensThrough(p0, dir, drops, n - 1);
      assert q.aliens[n - 1] == p0.aliens[n - 1];
      var extra := if p0.aliens[n - 1].status && drops[n - 1]
                   then [BombFrom(p0.aliens[n - 1].(x := p0.aliens[n - 1].x + 5 * dir))] else [];
      assert AliensThrough(p0, dir, drops, n).bombs == q.bombs + extra;
    }
  }

  // ---------------------------------------------------------------------------
  // Game.drawGameScreen: the bomb loop

  /** What the bomb loop carries from one bomb to the next. */
  datatype BombPass = BombPass(bombs: seq<Sprite>, lives: int, gameOver: bool, beam: Sprite, cannon: Sprite)

  /**
   * One iteration for bomb `i`: it falls by `bombSpeed`; if it then overlaps the cannon a
   * life is lost, and either the game ends (no lives left) or the beam resets and the
   * cannon returns to `playerYPosition`. The bomb itself stays.
   */
  function BombStep(p: BombPass, i: nat, playerY: int): (r: BombPass)
    requires i < |p.bombs|
    ensures |r.bombs| == |p.bombs|
  {
    var b := p.bombs[i].(y := p.bombs[i].y + BombSpeed);
    var q := p.(bombs := p.bombs[i := b]);
    if Collide(b, p.cannon) then CannonHit(q, playerY) else q
  }

  /** A bomb hits the cannon: a life is lost; the game ends with none left, otherwise the beam and cannon reset. */
  function CannonHit(p: BombPass, playerY: int): BombPass
  {
    if p.lives - 1 <= 0 then p.(lives := p.lives - 1, gameOver := true)
    else p.(lives := p.lives - 1, beam := ResetBeam(p.beam), cannon := p.cannon.(y := playerY))
  }

  /** The bomb loop run over the first `n` bombs. */
  function BombsThrough(p0: BombPass, playerY: int, n: nat): (p: BombPass)
    requires n <= |p0.bombs|
    ensures |p.bombs| == |p0.bombs|
  {
    if n == 0 then p0 else BombStep(BombsThrough(p0, playerY, n - 1), n - 1, playerY)
  }

  /** Every visited bomb fell by exactly `bombSpeed`; no bomb is removed or otherwise changed. */
  lemma {:induction false} BombsThroughFall(p0: BombPass, playerY: int, n: nat)
    requires n <= |p0.bombs|
    ensures var p := BombsThrough(p0, playerY, n);
            forall k :: 0 <= k < |p.bombs| ==>
              p.bombs[k] == p0.bombs[k].(y := p0.bombs[k].y + (if k < n then BombSpeed else 0))
  {
    if n > 0 {
      BombsThroughFall(p0, playerY, n - 1);
    }
  }

  /**
   * Lives only go down; once the game is over it stays over; the game ends during the loop
   * only when a hit leaves no lives; "no lives left means game over" is kept; the beam is
   * either as it was or reset.
   */
  lemma {:induction false} BombsThroughLives(p0: BombPass, playerY: int, n: nat)
    requires n <= |p0.bombs|
    ensures var p := BombsThrough(p0, playerY, n);
            && p.lives <= p0.lives
            && (p0.gameOver ==> p.gameOver)
            && (p.gameOver && !p0.gameOver ==> p.lives <= 0)
            && ((p0.lives <= 0 ==> p0.gameOver) ==> (p.lives <= 0 ==> p.gameOver))
            && (p.beam == p0.beam || p.beam == ResetBeam(p0.beam))
  {
    if n > 0 {
      BombsThroughLives(p0, playerY, n - 1);
    }
  }

  /**
   * One bomb's iteration: it falls by `bombSpeed`. If it then overlaps the cannon it costs one
   * life, and with one life left the game ends, otherwise the beam and the cannon reset. If it
   * misses, nothing but its height changes.
   */
  lemma BombHit(p: BombPass, i: nat, playerY: int)
    requires i < |p.bombs|
    ensures var b := p.bombs[i].(y := p.bombs[i].y + BombSpeed);
            var r := BombStep(p, i, playerY);
            && r.bombs == p.bombs[i := b]
            && (Collide(b, p.cannon) ==>
                  && r.lives == p.lives - 1
                  && (p.lives <= 1 ==> r.gameOver && r.cannon == p.cannon && r.beam == p.beam)
                  && (p.lives > 1 ==> r.gameOver == p.gameOver && r.cannon.y == playerY
                                      && !r.beam.status && r.beam.y == 250))
            && (!Collide(b, p.cannon) ==> r == p.(bombs := p.bombs[i := b]))
  {
  }

  // ---------------------------------------------------------------------------
  // Game.drawGameScreen as a whole

  /** The loss test: some alien, alive or dead, is below `playerYPosition - 50`. */
  predicate Invaded(aliens: seq<Sprite>, playerY: int)
  {
    exists k :: 0 <= k < |aliens| && aliens[k].y > playerY - 50
  }

  /**
   * The state changes of `drawGameScreen`: the alien loop, the bomb loop, the beam rising
   * by 10 (when in flight) and resetting once above the top, the loss test, and the frame
   * counter. `drops[i]` is the outcome of alien `i`'s random bomb draw.
   */
  function DrawScreen(w: World, drops: seq<bool>): World
    requires |drops| == |w.aliens|
  {
    var w1 := InvasionPhase(BeamPhase(BombPhase(AlienPhase(w, drops))));
    w1.(loop := w1.loop + 1)
  }

  /** The alien loop's effect on the world. */
  function AlienPhase(w: World, drops: seq<bool>): World
    requires |drops| == |w.aliens|
  {
    var a := AliensThrough(AlienPass(w.aliens, w.beam, w.score, w.bombs), w.alienDirection, drops, |w.aliens|);
    w.(aliens := a.aliens, beam := a.beam, score := a.score, bombs := a.bombs)
  }

  /** The bomb loop's effect on the world. */
  function BombPhase(w: World): World
  {
    var b := BombsThrough(BombPass(w.bombs, w.lives, w.gameOver, w.beam, w.laserCannon), w.playerY, |w.bombs|);
    w.(bombs := b.bombs, lives := b.lives, gameOver := b.gameOver, beam := b.beam, laserCannon := b.cannon)
  }

  function BeamPhase(w: World): World
  {
    w.(beam := RiseBeam(w.beam))
  }

  /** The loss test's effect on the world. */
  function InvasionPhase(w: World): World
  {
    w.(gameOver := w.gameOver || Invaded(w.aliens, w.playerY))
  }

  /** A beam in flight rises 10 pixels; a beam above the top of the window is reset. */
  function RiseBeam(b: Sprite): Sprite
  {
    var risen := if b.status then b.(y := b.y - 10) else b;
    if risen.y < 0 then ResetBeam(risen) else risen
  }

  /** `Game.Draw`: the game screen while playing (paused or not), only rendering once the game is over. */
  function Draw(w: World, drops: seq<bool>): World
    requires |drops| == |w.aliens|
  {
    if w.gameOver then w else DrawScreen(w, drops)
  }

  // ---------------------------------------------------------------------------
  // What every tick keeps

  /**
   * The invariant of the running game: the formation keeps its shape, the direction is
   * +1 or -1, no shot is left armed between ticks, the beam stays between the top of the
   * window and its resting height, the score is exactly the points of the aliens shot
   * down, at most 3 lives and none left only once the game is over, and
   * `playerYPosition` stays within its clamp.
   */
  ghost predicate Valid(w: World)
  {
    && InFormation(w.aliens)
    && (w.alienDirection == 1 || w.alienDirection == -1)
    && !w.beamShot
    && 0 <= w.beam.y <= BeamRestY
    && w.score == KilledPoints(w.aliens)
    && w.lives <= 3 && (w.lives <= 0 ==> w.gameOver)
    && 100 <= w.playerY <= WindowHeight - 50
    && w.gameOverTimer >= 0
  }

  lemma InitialValid()
    ensures Valid(Initial())
  {
    FormationFresh();
  }

  lemma ResetValid(w: World)
    requires 100 <= w.playerY <= WindowHeight - 50 && w.gameOverTimer >= 0
    ensures Valid(Reset(w))
  {
    FormationFresh();
  }

  lemma LoweredInFormation(aliens: seq<Sprite>)
    requires InFormation(aliens)
    ensures InFormation(Lowered(aliens))
    ensures KilledPoints(Lowered(aliens)) == KilledPoints(aliens)
  {
    LoweredKilledPoints(aliens);
    var lowered := Lowered(aliens);
    forall k | 0 <= k < |lowered|
      ensures InPlace(lowered, k)
    {
      assert InPlace(aliens, k);
    }
  }

  lemma {:induction false} LoweredKilledPoints(aliens: seq<Sprite>)
    ensures KilledPoints(Lowered(aliens)) == KilledPoints(aliens)
  {
    if |aliens| > 0 {
      var n := |aliens|;
      assert Lowered(aliens)[..n - 1] == Lowered(aliens[..n - 1]);
      LoweredKilledPoints(aliens[..n - 1]);
    }
  }

  lemma UpdateValid(w: World, k: Input)
    requires Valid(w)
    ensures Valid(Update(w, k))
  {
    if w.gameOver {
      GameOverTickValid(w, k);
    } else if !w.isPaused {
      ControlsValid(w, k);
      ReverseValid(Controls(w, k));
    }
  }

  lemma GameOverTickValid(w: World, k: Input)
    requires Valid(w) && w.gameOver
    ensures Valid(GameOverTick(w, k))
  {
    if k.enter {
      ResetValid(w);
    }
  }

  lemma ControlsValid(w: World, k: Input)
    requires Valid(w) && !w.gameOver
    ensures Valid(Controls(w, k))
  {
  }

  lemma ReverseValid(w: World)
    requires Valid(w)
    ensures Valid(Reverse(w))
  {
    if AtEdge(w.aliens) {
      LoweredInFormation(w.aliens);
    }
  }

  lemma DrawScreenValid(w: World, drops: seq<bool>)
    requires Valid(w) && !w.gameOver && |drops| == |w.aliens|
    ensures Valid(DrawScreen(w, drops))
  {
    var p0 := AlienPass(w.aliens, w.beam, w.score, w.bombs);
    var n := |w.aliens|;
    AliensThroughMoves(p0, w.alienDirection, drops, n);
    AliensThroughScore(p0, w.alienDirection, drops, n);
    AliensThroughBeamAndBombs(p0, w.alienDirection, drops, n);
    var a := AliensThrough(p0, w.alienDirection, drops, n);
    var b0 := BombPass(a.bombs, w.lives, w.gameOver, a.beam, w.laserCannon);
    BombsThroughLives(b0, w.playerY, |a.bombs|);
    var d := DrawScreen(w, drops);
    forall k | 0 <= k < |d.aliens|
      ensures InPlace(d.aliens, k)
    {
      assert InPlace(w.aliens, k);
    }
  }

  // ---------------------------------------------------------------------------
  // Properties of Update

  /** While paused (and not over), `Update` does nothing. */
  lemma PausedUpdateIsNoOp(w: World, k: Input)
    requires |w.aliens| >= AliensPerRow && !w.gameOver && w.isPaused
    ensures Update(w, k) == w && !Exits(w, k)
  {
  }

  /**
   * Fire arms the beam only when it is idle: a shot starts at the moved cannon's X + 7 and
   * leaves nothing armed; pressing fire while the beam is in flight changes nothing about it.
   */
  lemma FireOnlyWhenIdle(w: World, k: Input)
    requires Valid(w) && !w.gameOver && !w.isPaused
    ensures var u := Update(w, k);
            && !u.beamShot
            && u.beam.y == w.beam.y
            && (k.space && !w.beam.status ==> u.beam.status && u.beam.x == u.laserCannon.x + 7)
            && (w.beam.status || !k.space ==> u.beam == w.beam)
  {
  }

  /**
   * The edge test: the direction flips and every alien goes down exactly 10 pixels when
   * `aliens[0]` is left of 30 or `aliens[7]` right of 740; otherwise direction and heights
   * stay. Horizontal positions never change in `Update`.
   */
  lemma EdgeReversal(w: World, k: Input)
    requires Valid(w) && !w.gameOver && !w.isPaused
    ensures var u := Update(w, k);
            && (u.alienDirection == -w.alienDirection <==> AtEdge(w.aliens))
            && (u.alienDirection == w.alienDirection <==> !AtEdge(w.aliens))
            && |u.aliens| == |w.aliens|
            && forall i :: 0 <= i < |w.aliens| ==>
                 u.aliens[i] == w.aliens[i].(y := w.aliens[i].y + (if AtEdge(w.aliens) then 10 else 0))
  {
  }

  /** The cannon moves 10 pixels per held arrow key, with no bound; `playerYPosition` stays within [100, 550]. */
  lemma CannonMovement(w: World, k: Input)
    requires Valid(w) && !w.gameOver && !w.isPaused
    ensures var u := Update(w, k);
            && u.laserCannon.x == w.laserCannon.x + (if k.right then 10 else 0) - (if k.left then 10 else 0)
            && u.laserCannon.y == w.laserCannon.y
            && 100 <= u.playerY <= 550
            && (k.down && !k.up ==> u.playerY == Min(550, w.playerY + 5))
            && (k.up && !k.down ==> u.playerY == Max(100, w.playerY - 5))
  {
  }

  /** Q ends the game (its score is not offered to the table: `Update` never touches it). */
  lemma QuitEndsGame(w: World, k: Input)
    requires |w.aliens| >= AliensPerRow && !w.gameOver && !w.isPaused && k.q
    ensures Update(w, k).gameOver && Update(w, k).isPaused == !k.escape
  {
  }

  /**
   * On the game-over screen the timer counts ticks and the text blinks every 60 of them.
   * Enter restarts: fresh formation, no bombs, cannon and beam back in place, but the beam
   * keeps its status (a beam in flight when the game ended is still in flight).
   */
  lemma GameOverScreen(w: World, k: Input)
    requires Valid(w) && w.gameOver
    ensures var u := Update(w, k);
            && u.gameOverTimer == w.gameOverTimer + 1
            && (u.showGameOverText != w.showGameOverText <==> u.gameOverTimer % 60 == 0)
            && (k.enter ==> !u.gameOver && !u.isPaused && u.score == 0 && u.lives == 3 && u.aliens == Formation()
                            && u.bombs == [] && u.laserCannon == w.laserCannon.(x := 50, y := w.playerY)
                            && u.beam == w.beam.(x := 57, y := 250))
            && (!k.enter ==> u.gameOver && u.aliens == w.aliens && u.score == w.score)
            && (Exits(w, k) <==> !k.enter && k.escape)
  {
  }

  // ---------------------------------------------------------------------------
  // Properties of DrawScreen

  /**
   * One draw tick moves every alien, alive or dead, by 5 * direction and nothing else
   * about it changes but a living one being shot down; dead aliens stay dead; the score
   * grows by exactly the points of the aliens shot down in the tick.
   */
  lemma DrawMovesAliens(w: World, drops: seq<bool>)
    requires Valid(w) && !w.gameOver && |drops| == |w.aliens|
    ensures var d := DrawScreen(w, drops);
            && |d.aliens| == |w.aliens|
            && (forall k :: 0 <= k < |w.aliens| ==>
                  && d.aliens[k].x == w.aliens[k].x + 5 * w.alienDirection
                  && d.aliens[k].y == w.aliens[k].y
                  && (d.aliens[k].status ==> w.aliens[k].status))
            && d.score - w.score == KilledPoints(d.aliens) - KilledPoints(w.aliens)
  {
    var p0 := AlienPass(w.aliens, w.beam, w.score, w.bombs);
    AliensThroughMoves(p0, w.alienDirection, drops, |w.aliens|);
    AliensThroughScore(p0, w.alienDirection, drops, |w.aliens|);
  }

  /**
   * Bombs are never removed: after a draw the bombs are the old ones followed by the ones
   * `Dropped` in this draw, and every one of them, old or new, is one `bombSpeed` lower.
   */
  lemma DrawKeepsBombs(w: World, drops: seq<bool>)
    requires |drops| == |w.aliens|
    ensures var d := DrawScreen(w, drops);
            var all := w.bombs + Dropped(w.aliens, w.alienDirection, drops, |w.aliens|);
            && |d.bombs| == |all| <= |w.bombs| + |w.aliens|
            && (forall j :: 0 <= j < |all| ==> d.bombs[j] == all[j].(y := all[j].y + BombSpeed))
            && forall j :: 0 <= j < |w.bombs| ==> d.bombs[j] == w.bombs[j].(y := w.bombs[j].y + BombSpeed)
  {
    var p0 := AlienPass(w.aliens, w.beam, w.score, w.bombs);
    AliensThroughDrops(p0, w.alienDirection, drops, |w.aliens|);
    var a := AliensThrough(p0, w.alienDirection, drops, |w.aliens|);
    var b0 := BombPass(a.bombs, w.lives, w.gameOver, a.beam, w.laserCannon);
    BombsThroughFall(b0, w.playerY, |a.bombs|);
  }

  /**
   * Lives only go down in a tick, and the game ends in the tick exactly when no lives are
   * left or some alien has come down to the player's row.
   */
  lemma DrawEndsGame(w: World, drops: seq<bool>)
    requires Valid(w) && !w.gameOver && |drops| == |w.aliens|
    ensures var d := DrawScreen(w, drops);
            && d.lives <= w.lives
            && (d.gameOver <==> d.lives <= 0 || Invaded(d.aliens, w.playerY))
  {
    var p0 := AlienPass(w.aliens, w.beam, w.score, w.bombs);
    var a := AliensThrough(p0, w.alienDirection, drops, |w.aliens|);
    var b0 := BombPass(a.bombs, w.lives, w.gameOver, a.beam, w.laserCannon);
    BombsThroughLives(b0, w.playerY, |a.bombs|);
  }

  // ---------------------------------------------------------------------------
  // Consequences of the fixed-index tests

  /**
   * The right-edge test looks at column 7 of the first row, not at the last column: by the
   * time it fires, column 11 is entirely past the right edge of the window.
   */
  lemma RightEdgeTestIsLate(aliens: seq<Sprite>)
    requires InFormation(aliens)
    requires aliens[AliensPerRow - 1].x > WindowWidth - 2 * AlienSize
    ensures aliens[Cols - 1].x > WindowWidth
  {
    assert InPlace(aliens, AliensPerRow - 1);
    assert InPlace(aliens, Cols - 1);
  }

  /**
   * The loss test counts dead aliens too, so it is decided by the bottom row of the
   * formation alone, whether or not any of its aliens is still alive.
   */
  lemma InvadedByBottomRow(aliens: seq<Sprite>, playerY: int)
    requires InFormation(aliens)
    ensures Invaded(aliens, playerY) <==> aliens[(Rows - 1) * Cols].y > playerY - 50
  {
    var bottom := (Rows - 1) * Cols;
    assert InPlace(aliens, bottom);
    if Invaded(aliens, playerY) {
      var k :| 0 <= k < |aliens| && aliens[k].y > playerY - 50;
      assert InPlace(aliens, k);
      assert k / Cols <= 4;
    }
  }
}
