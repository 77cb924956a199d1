/**
 * The game-state core of Heart Catcher: one game object holding the score, the session flags,
 * the difficulty ramp, the statistics, the falling objects and the particles, and the
 * operations the menu buttons, the two interval timers and the canvas taps invoke on it.
 *
 * Timers are not modelled as real time: the spawner and the simulation tick are plain method
 * calls, and the delayed `winGame`/`gameOver` calls a tap schedules are counted in
 * `pendingWins`/`pendingGameOvers` and delivered by `FirePendingWin`/`FirePendingGameOver`.
 */
module Game {
  import opened Sequences
  import opened Objects
  import opened Particles

  /** A hit that leaves the score at or below this schedules the end of the game. */
  const LoseScore: int := -100

  /** The colour of the burst released by consuming an object of kind `k`. */
  function BurstColour(k: Kind): string {
    match k
    case Heart => HeartColour
    case Bomb => BombColour
  }

  class HeartCatcherGame {
    /** Canvas size, fixed for the life of the game. */
    const canvasWidth: real
    const canvasHeight: real
    /** Whether a drawing context was obtained; taps are ignored without one. */
    const hasContext: bool

    const targetScore: int := 500
    const baseSpeed: real := 1.2
    const speedIncrease: real := 0.001

    var score: int
    var gameActive: bool
    var paused: bool
    var objects: seq<FallingObject>
    var currentSpeed: real
    var gameTime: nat
    var objectsClicked: nat
    var objectsMissed: nat
    var particles: seq<Particle>
    /** Win and game-over calls scheduled by taps and not yet delivered. */
    var pendingWins: nat
    var pendingGameOvers: nat

    /** The object invariant: the baseline speed never drops below its initial value, every
        object is well formed and not below the canvas, every particle is alive with at
        most a full life. */
    ghost predicate Valid()
      reads this
    {
      0.0 < canvasHeight &&
      baseSpeed <= currentSpeed &&
      InField(objects, baseSpeed, canvasHeight) &&
      AllAlive(particles)
    }

    /** Play is running: the game is active and not paused. */
    predicate Playing()
      reads this
    {
      gameActive && !paused
    }

    /** A new game object, as set up by the constructor and `initializeVariables`. */
    constructor (canvasWidth: real, canvasHeight: real, hasContext: bool)
      requires 0.0 < canvasHeight
      ensures Valid()
      ensures this.canvasWidth == canvasWidth && this.canvasHeight == canvasHeight
      ensures this.hasContext == hasContext
      ensures score == 0 && !gameActive && !paused
      ensures objects == [] && particles == [] && currentSpeed == baseSpeed
      ensures gameTime == 0 && objectsClicked == 0 && objectsMissed == 0
      ensures pendingWins == 0 && pendingGameOvers == 0
    {
      this.canvasWidth := canvasWidth;
      this.canvasHeight := canvasHeight;
      this.hasContext := hasContext;
      score := 0;
      gameActive := false;
      paused := false;
      objects := [];
      currentSpeed := baseSpeed;
      gameTime := 0;
      objectsClicked := 0;
      objectsMissed := 0;
      particles := [];
      pendingWins := 0;
      pendingGameOvers := 0;
    }

    /** Starts a fresh session. The new state depends on nothing but the constants, so a
        second call leaves the same state as the first. Delayed win and game-over calls
        already scheduled are not cancelled. */
    method StartGame()
      requires Valid()
      modifies this`score, this`objects, this`gameActive, this`paused, this`currentSpeed,
               this`gameTime, this`objectsClicked, this`objectsMissed, this`particles
      ensures Valid()
      ensures score == 0 && objects == [] && particles == []
      ensures gameActive && !paused
      ensures currentSpeed == baseSpeed
      ensures gameTime == 0 && objectsClicked == 0 && objectsMissed == 0
    {
      score := 0;
      objects := [];
      gameActive := true;
      paused := false;
      currentSpeed := baseSpeed;
      gameTime := 0;
      objectsClicked := 0;
      objectsMissed := 0;
      particles := [];
    }

    /** The spawner: while playing, appends one new object made from the draws `d`. */
    method SpawnObject(d: SpawnDraw)
      requires Valid() && ValidSpawnDraw(d)
      modifies this`objects
      ensures Valid()
      ensures !old(Playing()) ==> objects == old(objects)
      ensures old(Playing()) ==> objects == old(objects) + [NewObject(d, canvasWidth, currentSpeed)]
    {
      if paused || !gameActive {
        return;
      }
      var o := NewObject(d, canvasWidth, currentSpeed);
      objects := objects + [o];
    }

    /** The simulation tick: while playing, ramps the baseline speed, counts the tick, lets
        every object fall (dropping and counting the hearts that leave the canvas) and ages
        every particle. `sin` is the sine used for the hearts' pulse. */
    method Update(sin: real -> real)
      requires Valid()
      modifies this`currentSpeed, this`gameTime, this`objects, this`objectsMissed, this`particles
      ensures Valid()
      ensures !old(Playing()) ==> unchanged(this)
      ensures old(Playing()) ==>
        currentSpeed == old(currentSpeed) + speedIncrease &&
        gameTime == old(gameTime) + 1 &&
        objects == Advance(old(objects), sin, canvasHeight) &&
        objectsMissed == old(objectsMissed) + Missed(old(objects), sin, canvasHeight) &&
        particles == Age(old(particles))
    {
      if !gameActive || paused {
        return;
      }
      currentSpeed := currentSpeed + speedIncrease;
      gameTime := gameTime + 1;
      AdvanceKeepsWellFormed(objects, sin, canvasHeight, baseSpeed);
      AgeKeepsLiveParticles(particles);
      MoveObjects(sin);
      AgeParticles();
    }

    /** The object loop of a tick: every object falls, and those below the canvas are removed
        (scanning from the last object to the first), counting the hearts among them. */
    method MoveObjects(sin: real -> real)
      modifies this`objects, this`objectsMissed
      ensures objects == Advance(old(objects), sin, canvasHeight)
      ensures objectsMissed == old(objectsMissed) + Missed(old(objects), sin, canvasHeight)
    {
      ghost var objs := objects;
      var i := |objects| - 1;
      while i >= 0
        invariant -1 <= i < |objs|
        invariant objects == objs[..i + 1] + Advance(objs[i + 1..], sin, canvasHeight)
        invariant objectsMissed == old(objectsMissed) + Missed(objs[i + 1..], sin, canvasHeight)
      {
        ghost var rest := Advance(objs[i + 1..], sin, canvasHeight);
        AdvanceStep(objs, sin, canvasHeight, i);
        var obj := Fall(objects[i], sin);
        ScanStep(objs, rest, i, obj);
        if Gone(obj, canvasHeight) {
          objects := objects[..i] + objects[i + 1..];
          if obj.kind == Heart {
            objectsMissed := objectsMissed + 1;
          }
        } else {
          objects := objects[i := obj];
        }
        i := i - 1;
      }
      assert objs[0..] == objs;
    }

    /** The particle loop of a tick: every particle moves and ages, and those whose life has
        run out are removed (scanning from the last particle to the first). */
    method AgeParticles()
      modifies this`particles
      ensures particles == Age(old(particles))
    {
      ghost var ps := particles;
      var i := |particles| - 1;
      while i >= 0
        invariant -1 <= i < |ps|
        invariant particles == ps[..i + 1] + Age(ps[i + 1..])
      {
        ghost var rest := Age(ps[i + 1..]);
        AgeStep(ps, i);
        var p := Tick(particles[i]);
        ScanStep(ps, rest, i, p);
        if p.life <= 0 {
          particles := particles[..i] + particles[i + 1..];
        } else {
          particles := particles[i := p];
        }
        i := i - 1;
      }
      assert ps[0..] == ps;
    }

    /** A tap at (x, y) in canvas coordinates. While playing (and with a drawing context), it
        consumes the highest-index object whose centre is strictly within width/2 of the tap:
        the score moves by that object's points, the click count grows by one whether it was
        a heart or a bomb, a burst of particles appears at the object's centre, and a win or a
        game over is scheduled when the new score reaches the target or the lose score. A tap
        that hits nothing changes nothing. */
    method HandleClick(x: real, y: real, draws: seq<Draw>)
      requires Valid() && ValidDraws(draws)
      modifies this`score, this`objects, this`particles, this`objectsClicked,
               this`pendingWins, this`pendingGameOvers
      ensures Valid()
      ensures !old(Playing()) || !hasContext ==> unchanged(this)
      ensures old(Playing()) && hasContext && LastHit(old(objects), x, y).None? ==> unchanged(this)
      ensures old(Playing()) && hasContext && LastHit(old(objects), x, y).Some? ==>
        var i := LastHit(old(objects), x, y).value;
        var o := old(objects)[i];
        objects == old(objects)[..i] + old(objects)[i + 1..] &&
        score == old(score) + Points(o.kind) &&
        objectsClicked == old(objectsClicked) + 1 &&
        particles == old(particles) + Burst(o.x + o.width / 2.0, o.y + o.height / 2.0, BurstColour(o.kind), draws) &&
        pendingWins == old(pendingWins) + (if score >= targetScore then 1 else 0) &&
        pendingGameOvers == old(pendingGameOvers) + (if score <= LoseScore then 1 else 0)
    {
      if !gameActive || paused || !hasContext {
        return;
      }
      var i := |objects| - 1;
      while i >= 0
        invariant -1 <= i < |objects|
        invariant forall j :: i < j < |objects| ==> !Hits(objects[j], x, y)
        invariant Valid() && unchanged(this)
      {
        if Hits(objects[i], x, y) {
          assert LastHit(objects, x, y) == Some(i);
          Consume(i, draws);
          break;
        }
        i := i - 1;
      }
    }

    /** The effects of a tap that hit object `i`: the object is removed, the score moves by
        its points, the click count grows by one, its burst appears at its centre, and a win or
        a game over is scheduled when the new score reaches the target or the lose score. */
    method Consume(i: nat, draws: seq<Draw>)
      requires Valid() && ValidDraws(draws) && i < |objects|
      modifies this`score, this`objects, this`particles, this`objectsClicked,
               this`pendingWins, this`pendingGameOvers
      ensures Valid()
      ensures var o := old(objects)[i];
        objects == old(objects)[..i] + old(objects)[i + 1..] &&
        score == old(score) + Points(o.kind) &&
        objectsClicked == old(objectsClicked) + 1 &&
        particles == old(particles) + Burst(o.x + o.width / 2.0, o.y + o.height / 2.0, BurstColour(o.kind), draws) &&
        pendingWins == old(pendingWins) + (if score >= targetScore then 1 else 0) &&
        pendingGameOvers == old(pendingGameOvers) + (if score <= LoseScore then 1 else 0)
    {
      var obj := objects[i];
      var centreX := obj.x + obj.width / 2.0;
      var centreY := obj.y + obj.height / 2.0;
      if obj.kind == Heart {
        score := score + 10;
        CreateParticles(centreX, centreY, HeartColour, draws);
      } else {
        score := score - 20;
        CreateParticles(centreX, centreY, BombColour, draws);
      }
      objectsClicked := objectsClicked + 1;
      InFieldRemove(objects, baseSpeed, canvasHeight, i);
      objects := objects[..i] + objects[i + 1..];
      if score >= targetScore {
        pendingWins := pendingWins + 1;
      }
      if score <= LoseScore {
        pendingGameOvers := pendingGameOvers + 1;
      }
    }

    /** Appends a burst of particles centred on (cx, cy). */
    method CreateParticles(cx: real, cy: real, colour: string, draws: seq<Draw>)
      requires Valid() && ValidDraws(draws)
      modifies this`particles
      ensures Valid()
      ensures particles == old(particles) + Burst(cx, cy, colour, draws)
    {
      ghost var burst := Burst(cx, cy, colour, draws);
      for k := 0 to BurstSize
        invariant particles == old(particles) + burst[..k]
        invariant Valid()
      {
        assert burst[..k + 1] == burst[..k] + [burst[k]];
        particles := particles + [Spark(cx, cy, colour, draws[k])];
      }
      assert burst[..BurstSize] == burst;
    }

    /** Ends the session as won. */
    method WinGame()
      requires Valid()
      modifies this`gameActive
      ensures Valid() && !gameActive
    {
      gameActive := false;
    }

    /** Ends the session as lost and returns to the menu. */
    method GameOver()
      requires Valid()
      modifies this`gameActive
      ensures Valid() && !gameActive
    {
      gameActive := false;
      ShowMenu();
    }

    /** Flips the pause flag; nothing else changes. */
    method TogglePause()
      requires Valid()
      modifies this`paused
      ensures Valid() && paused == !old(paused)
    {
      paused := !paused;
    }

    /** Leaves the session for the menu. */
    method ShowMenu()
      requires Valid()
      modifies this`gameActive
      ensures Valid() && !gameActive
    {
      gameActive := false;
    }

    /** Delivers one delayed win call that a tap scheduled. */
    method FirePendingWin()
      requires Valid() && pendingWins > 0
      modifies this`gameActive, this`pendingWins
      ensures Valid() && !gameActive && pendingWins == old(pendingWins) - 1
    {
      pendingWins := pendingWins - 1;
      WinGame();
    }

    /** Delivers one delayed game-over call that a tap scheduled. */
    method FirePendingGameOver()
      requires Valid() && pendingGameOvers > 0
      modifies this`gameActive, this`pendingGameOvers
      ensures Valid() && !gameActive && pendingGameOvers == old(pendingGameOvers) - 1
    {
      pendingGameOvers := pendingGameOvers - 1;
      GameOver();
    }
  }

  /** Once a session has ended (won, lost or left for the menu), the spawner, the tick and
      taps change nothing. */
  method EndedSessionIsFrozen(g: HeartCatcherGame, d: SpawnDraw, sin: real -> real, x: real, y: real, draws: seq<Draw>)
    requires g.Valid() && !g.gameActive
    requires ValidSpawnDraw(d) && ValidDraws(draws)
    modifies g
    ensures unchanged(g)
  {
    g.SpawnObject(d);
    g.Update(sin);
    g.HandleClick(x, y, draws);
  }

  /** Pausing and resuming restores the original state. */
  method TogglePauseTwice(g: HeartCatcherGame)
    requires g.Valid()
    modifies g
    ensures unchanged(g)
  {
    g.TogglePause();
    g.TogglePause();
  }

  /** While play runs, the baseline speed never decreases from one tick to the next. */
  method SpeedNeverDecreases(g: HeartCatcherGame, sin: real -> real)
    requires g.Valid()
    modifies g
    ensures g.currentSpeed >= old(g.currentSpeed)
  {
    g.Update(sin);
  }

  /** Starting twice leaves the same session as starting once. */
  method StartTwice(g: HeartCatcherGame)
    requires g.Valid()
    modifies g
    ensures g.Valid() && g.Playing()
    ensures g.score == 0 && g.objects == [] && g.particles == [] && g.currentSpeed == g.baseSpeed
    ensures g.gameTime == 0 && g.objectsClicked == 0 && g.objectsMissed == 0
    ensures g.pendingWins == old(g.pendingWins) && g.pendingGameOvers == old(g.pendingGameOvers)
  {
    g.StartGame();
    g.StartGame();
  }
}
