/**
 * The running game as the program holds it: the `Game` struct's fields together with the
 * package-level `aliens`, `bombs`, `barriers`, `laserCannon`, `beam` and `playerYPosition`,
 * all updated in place, and the high-score table. Each method is proved against the
 * tick functions of module `Rules`, whose properties are proved there.
 */
module Invaders {
  import opened Wrappers
  import opened Geometry
  import HighScores
  import Rules
  import Ints

  class Game {
    var loop: int
    var beamShot: bool
    var gameOver: bool
    var alienDirection: int
    var score: int
    var lives: int
    var isPaused: bool
    var gameOverTimer: int
    var showGameOverText: bool
    var aliens: seq<Sprite>
    var bombs: seq<Sprite>
    var barriers: seq<Sprite>
    var laserCannon: Sprite
    var beam: Sprite
    var playerY: int
    /** The name scores are recorded under (the OS user name, or "Player"). */
    const playerName: string
    const table: HighScores.HighScoreTable

    /** The fields as one `Rules.World` value. */
    ghost function State(): Rules.World
      reads this
    {
      Rules.World(loop, beamShot, gameOver, alienDirection, score, lives, isPaused, gameOverTimer,
                  showGameOverText, aliens, bombs, barriers, laserCannon, beam, playerY)
    }

    ghost predicate Valid()
      reads this, table
    {
      Rules.Valid(State()) && table.Valid()
    }

    /** `main`: the `Game` literal, `initGame` and `loadHighScores`, with the player name and file contents given. */
    constructor (name: string, file: Option<string>)
      ensures State() == Rules.Initial()
      ensures playerName == name && table.file == file
      ensures HighScores.IsTopOf(HighScores.ParseFile(file), table.entries)
      ensures Valid()
    {
      loop, beamShot, gameOver, alienDirection, score := 0, false, false, 1, 0;
      lives, isPaused, gameOverTimer, showGameOverText := 3, false, 0, true;
      playerY := Rules.InitialPlayerY;
      laserCannon := Sprite(CannonSize, 50, Rules.InitialPlayerY, true, 0);
      beam := Sprite(BeamSize, 50 + 7, Rules.BeamRestY, false, 0);
      var formation := BuildFormation();
      aliens := formation;
      var barrierWidth := (Rules.WindowWidth - 100) / 4;
      barriers := [Rules.Barrier(100, Rules.BarrierYPosition),
                   Rules.Barrier(100 + barrierWidth, Rules.BarrierYPosition),
                   Rules.Barrier(100 + 2 * barrierWidth, Rules.BarrierYPosition)];
      bombs := [];
      playerName := name;
      table := new HighScores.HighScoreTable(file);
      new;
      assert State() == Rules.Initial();
      table.LoadHighScores();
      Rules.InitialValid();
    }

    /** `Game.Update` for one tick's keys; `exit` is the call to `os.Exit(0)`. */
    method Update(k: Rules.Input) returns (exit: bool)
      requires Valid()
      modifies this
      ensures State() == Rules.Update(old(State()), k)
      ensures exit == Rules.Exits(old(State()), k)
      ensures Valid()
    {
      ghost var w0 := State();
      if gameOver {
        gameOverTimer := gameOverTimer + 1;
        if gameOverTimer % 60 == 0 {
          showGameOverText := !showGameOverText;
        }
        if k.enter {
          isPaused := false;
          ResetGame();
          assert State() == Rules.GameOverTick(w0, k);
          Rules.UpdateValid(w0, k);
          return false;
        }
        assert State() == Rules.GameOverTick(w0, k);
        Rules.UpdateValid(w0, k);
        return k.escape;
      }
      if isPaused {
        return false;
      }
      Steer(k);
      HandleKeys(k);
      FireBeam();
      TurnAtEdge();
      Rules.UpdateValid(w0, k);
      exit := false;
    }

    /** The arrow keys of `Game.Update`. */
    method Steer(k: Rules.Input)
      modifies this`laserCannon, this`playerY, this`barriers
      ensures State() == Rules.Steer(old(State()), k)
    {
      if k.right {
        laserCannon := laserCannon.(x := laserCannon.x + 10);
      }
      if k.left {
        laserCannon := laserCannon.(x := laserCannon.x - 10);
      }
      if k.down {
        playerY := Ints.Min(Rules.WindowHeight - 50, playerY + 5);
        MoveBarriers(Rules.BarrierYPosition + 5);
      }
      if k.up {
        playerY := Ints.Max(100, playerY - 5);
        MoveBarriers(Rules.BarrierYPosition - 5);
      }
    }

    /** Space, Q and Escape in `Game.Update`. */
    method HandleKeys(k: Rules.Input)
      modifies this`beamShot, this`gameOver, this`isPaused
      ensures State() == Rules.Keys(old(State()), k)
    {
      if k.space && !beam.status {
        beamShot := true;
      }
      if k.q {
        gameOver := true;
        isPaused := true;
      }
      if k.escape {
        isPaused := !isPaused;
      }
    }

    /** The armed shot leaving the cannon, in `Game.Update`. */
    method FireBeam()
      modifies this`beam, this`beamShot
      ensures State() == Rules.Fire(old(State()))
    {
      if beamShot {
        beam := beam.(x := laserCannon.x + 7, status := true);
        beamShot := false;
      }
    }

    /** The edge test closing `Game.Update`: turn the formation and lower it. */
    method TurnAtEdge()
      requires |aliens| >= Rules.AliensPerRow
      modifies this`alienDirection, this`aliens
      ensures State() == Rules.Reverse(old(State()))
    {
      if Rules.AtEdge(aliens) {
        alienDirection := alienDirection * -1;
        LowerAliens();
      }
    }

    /** The loop setting every barrier's height. */
    method MoveBarriers(y: int)
      modifies this`barriers
      ensures barriers == Rules.SetBarriersY(old(barriers), y)
    {
      var i := 0;
      while i < |barriers|
        invariant 0 <= i <= |barriers| == |old(barriers)|
        invariant forall j :: 0 <= j < |barriers| ==>
                    barriers[j] == if j < i then old(barriers)[j].(y := y) else old(barriers)[j]
      {
        barriers := barriers[i := barriers[i].(y := y)];
        i := i + 1;
      }
    }

    /** The loop moving every alien 10 pixels down when the formation turns. */
    method LowerAliens()
      modifies this`aliens
      ensures aliens == Rules.Lowered(old(aliens))
    {
      var i := 0;
      while i < |aliens|
        invariant 0 <= i <= |aliens| == |old(aliens)|
        invariant forall j :: 0 <= j < |aliens| ==>
                    aliens[j] == if j < i then old(aliens)[j].(y := old(aliens)[j].y + 10) else old(aliens)[j]
      {
        aliens := aliens[i := aliens[i].(y := aliens[i].y + 10)];
        i := i + 1;
      }
    }

    /** The nested loops of `initGame` and `resetGame` that build the 5 x 12 formation row by row. */
    static method BuildFormation() returns (r: seq<Sprite>)
      ensures r == Rules.Formation()
    {
      r := [];
      var row := 0;
      while row < Rules.Rows
        invariant 0 <= row <= Rules.Rows
        invariant r == Rules.Formation()[..row * Rules.Cols]
      {
        var col := 0;
        while col < Rules.Cols
          invariant 0 <= col <= Rules.Cols
          invariant r == Rules.Formation()[..row * Rules.Cols + col]
        {
          var x := Rules.AliensStartCol + col * (Rules.AlienSize + 10);
          var y := 30 + row * 30;
          var size, points := Alien3Size, 10;
          if row == 0 {
            size, points := Alien1Size, 30;
          } else if row == 1 || row == 2 {
            size, points := Alien2Size, 20;
          }
          Rules.FormationPoints(row, col);
          r := r + [Sprite(size, x, y, true, points)];
          col := col + 1;
        }
        row := row + 1;
      }
    }

    /** `resetBeam`. */
    method ResetBeam()
      modifies this`beam
      ensures beam == Rules.ResetBeam(old(beam))
    {
      beam := beam.(status := false, y := Rules.BeamRestY);
    }

    /** `dropBomb`: a new bomb below the given alien, appended to the bombs. */
    method DropBomb(alien: Sprite)
      modifies this`bombs
      ensures bombs == old(bombs) + [Rules.BombFrom(alien)]
    {
      var torpedo := Sprite(BombSize, alien.x + 7, alien.y, true, 0);
      bombs := bombs + [torpedo];
    }

    /** `Game.resetGame`. */
    method ResetGame()
      modifies this
      ensures State() == Rules.Reset(old(State()))
    {
      loop, beamShot, gameOver, alienDirection, score, lives := 0, false, false, 1, 0, 3;
      bombs := [];
      aliens := BuildFormation();
      laserCannon := laserCannon.(x := 50, y := playerY);
      beam := beam.(x := laserCannon.x + 7, y := Rules.BeamRestY);
    }

    /**
     * `Game.Draw`'s effect on the state: the game screen's updates while the game is not
     * over. The first time the game ends in a draw, the score is offered to the table
     * (later offers in the same draw are rejected); otherwise the table is untouched.
     */
    method Draw(drops: seq<bool>)
      requires Valid() && |drops| == |aliens|
      modifies this, table
      ensures State() == Rules.Draw(old(State()), drops)
      ensures if gameOver && !old(gameOver)
              then HighScores.AddOutcome(old(table.entries), old(table.file), playerName, score,
                                         table.entries, table.file)
              else table.entries == old(table.entries) && table.file == old(table.file)
      ensures Valid()
    {
      if gameOver {
        return;
      }
      Rules.DrawScreenValid(State(), drops);
      DrawGameScreen(drops);
    }

    /**
     * The table after the offers made so far in a draw that started with table `t0` and
     * file `f0`: one offer's outcome once the game is over, untouched before that.
     */
    ghost predicate Offered(t0: seq<HighScores.HighScore>, f0: Option<string>)
      reads this`gameOver, this`score, table
    {
      && table.Valid()
      && if gameOver
         then HighScores.AddOutcome(t0, f0, playerName, score, table.entries, table.file)
         else table.entries == t0 && table.file == f0
    }

    /**
     * `g.gameOver = true; addHighScore(g.score)`. A repeated offer within the same draw is
     * rejected, so the table ends as after exactly one offer.
     */
    method EndGame(ghost t0: seq<HighScores.HighScore>, ghost f0: Option<string>)
      requires |t0| <= HighScores.MaxHighScores && Offered(t0, f0)
      modifies this`gameOver, table
      ensures gameOver && Offered(t0, f0)
    {
      ghost var offeredBefore := gameOver;
      ghost var t1, f1 := table.entries, table.file;
      gameOver := true;
      table.AddHighScore(playerName, score);
      if offeredBefore {
        HighScores.AddIdempotent(t0, f0, playerName, score, t1, f1);
      }
    }

    /**
     * `Game.drawGameScreen` without the rendering: the alien loop, the bomb loop, the beam,
     * the loss test and the frame counter, with `drops[i]` the random draw for alien `i`.
     */
    method DrawGameScreen(drops: seq<bool>)
      requires !gameOver && |drops| == |aliens| && table.Valid()
      modifies this, table
      ensures State() == Rules.DrawScreen(old(State()), drops)
      ensures Offered(old(table.entries), old(table.file))
    {
      ghost var t0, f0 := table.entries, table.file;
      MoveAliens(drops);
      MoveBombs(t0, f0);
      MoveBeam();
      CheckInvasion(t0, f0);
      loop := loop + 1;
    }

    /** The alien loop of `drawGameScreen`. */
    method MoveAliens(drops: seq<bool>)
      requires |drops| == |aliens|
      modifies this`aliens, this`beam, this`score, this`bombs
      ensures State() == Rules.AlienPhase(old(State()), drops)
    {
      ghost var p0 := Rules.AlienPass(aliens, beam, score, bombs);
      var i := 0;
      while i < |aliens|
        invariant 0 <= i <= |aliens| == |p0.aliens| == |drops|
        invariant Rules.AlienPass(aliens, beam, score, bombs) == Rules.AliensThrough(p0, alienDirection, drops, i)
      {
        aliens := aliens[i := aliens[i].(x := aliens[i].x + 5 * alienDirection)];
        if aliens[i].status {
          if Collide(aliens[i], beam) {
            aliens := aliens[i := aliens[i].(status := false)];
            score := score + aliens[i].points;
            ResetBeam();
          }
          if drops[i] {
            DropBomb(aliens[i]);
          }
        }
        i := i + 1;
      }
    }

    /** The bomb loop of `drawGameScreen`, in a draw whose table was `t0`, `f0` at its start. */
    method MoveBombs(ghost t0: seq<HighScores.HighScore>, ghost f0: Option<string>)
      requires |t0| <= HighScores.MaxHighScores && Offered(t0, f0)
      modifies this`bombs, this`lives, this`gameOver, this`beam, this`laserCannon, table
      ensures State() == Rules.BombPhase(old(State()))
      ensures Offered(t0, f0)
    {
      ghost var q0 := Rules.BombPass(bombs, lives, gameOver, beam, laserCannon);
      var j := 0;
      while j < |bombs|
        invariant 0 <= j <= |bombs| == |q0.bombs|
        invariant Rules.BombPass(bombs, lives, gameOver, beam, laserCannon) == Rules.BombsThrough(q0, playerY, j)
        invariant Offered(t0, f0)
      {
        MoveBomb(j, t0, f0);
        j := j + 1;
      }
    }

    /** One iteration of the bomb loop: bomb `j` falls and may hit the cannon. */
    method MoveBomb(j: nat, ghost t0: seq<HighScores.HighScore>, ghost f0: Option<string>)
      requires j < |bombs| && |t0| <= HighScores.MaxHighScores && Offered(t0, f0)
      modifies this`bombs, this`lives, this`gameOver, this`beam, this`laserCannon, table
      ensures Rules.BombPass(bombs, lives, gameOver, beam, laserCannon)
              == Rules.BombStep(Rules.BombPass(old(bombs), old(lives), old(gameOver), old(beam), old(laserCannon)),
                                j, playerY)
      ensures Offered(t0, f0)
    {
      bombs := bombs[j := bombs[j].(y := bombs[j].y + Rules.BombSpeed)];
      if Collide(bombs[j], laserCannon) {
        HitCannon(t0, f0);
      }
    }

    /** A bomb has hit the cannon. */
    method HitCannon(ghost t0: seq<HighScores.HighScore>, ghost f0: Option<string>)
      requires |t0| <= HighScores.MaxHighScores && Offered(t0, f0)
      modifies this`lives, this`gameOver, this`beam, this`laserCannon, table
      ensures Rules.BombPass(bombs, lives, gameOver, beam, laserCannon)
              == Rules.CannonHit(Rules.BombPass(bombs, old(lives), old(gameOver), old(beam), old(laserCannon)), playerY)
      ensures Offered(t0, f0)
    {
      lives := lives - 1;
      if lives <= 0 {
        EndGame(t0, f0);
      } else {
        ResetBeam();
        laserCannon := laserCannon.(y := playerY);
      }
    }

    /** The beam's step in `drawGameScreen`. */
    method MoveBeam()
      modifies this`beam
      ensures State() == Rules.BeamPhase(old(State()))
    {
      if beam.status {
        beam := beam.(y := beam.y - 10);
      }
      if beam.y < 0 {
        ResetBeam();
      }
    }

    /** The loss test of `drawGameScreen`, dead aliens included. */
    method CheckInvasion(ghost t0: seq<HighScores.HighScore>, ghost f0: Option<string>)
      requires |t0| <= HighScores.MaxHighScores && Offered(t0, f0)
      modifies this`gameOver, table
      ensures State() == Rules.InvasionPhase(old(State()))
      ensures Offered(t0, f0)
    {
      var k := 0;
      while k < |aliens|
        invariant 0 <= k <= |aliens|
        invariant gameOver == (old(gameOver) || exists m :: 0 <= m < k && aliens[m].y > playerY - 50)
        invariant Offered(t0, f0)
      {
        if aliens[k].y > playerY - 50 {
          EndGame(t0, f0);
        }
        k := k + 1;
      }
    }
  }
}
