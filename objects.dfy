/**
 * The falling objects of the Heart Catcher game: hearts and bombs.
 *
 * An object is created by the spawner above the top edge of the canvas, falls by its own
 * speed on every tick, leaves the game once its top edge is below the bottom of the canvas,
 * and can be consumed by a tap that lands strictly inside the circle of radius width/2
 * around its centre.
 *
 * Positions, sizes and speeds are real numbers (the source uses floating point); the
 * random draws of the spawner and the sine of the heart's pulse are supplied by the caller.
 */
module Objects {

  datatype Option<T> = None | Some(value: T)

  datatype Kind = Heart | Bomb

  /** One falling object; (x, y) is its top-left corner in canvas coordinates. */
  datatype FallingObject = FallingObject(
    x: real,
    y: real,
    width: real,
    height: real,
    kind: Kind,
    speed: real,
    rotation: real,
    rotationSpeed: real,
    scale: real,
    pulse: real,
    pulseSpeed: real)

  /** Probability of spawning a heart rather than a bomb. */
  const HeartRate: real := 0.7
  /** Smallest object size and the width of the range sizes are drawn from. */
  const MinSize: real := 50.0
  const SizeRange: real := 10.0
  /** Largest random bonus added to the current speed of a new object. */
  const SpeedBonus: real := 0.3
  const SpinRange: real := 0.02
  const PulseSpeed: real := 0.02
  /** Amplitude of a heart's breathing scale. */
  const PulseAmplitude: real := 0.08

  /** A value `Math.random()` can return. */
  predicate Unit(r: real) {
    0.0 <= r < 1.0
  }

  /** The five random draws the spawner makes for one object. */
  datatype SpawnDraw = SpawnDraw(kind: real, size: real, x: real, speed: real, spin: real)

  predicate ValidSpawnDraw(d: SpawnDraw) {
    Unit(d.kind) && Unit(d.size) && Unit(d.x) && Unit(d.speed) && Unit(d.spin)
  }

  /** The shape every object keeps from its creation on: square, of a size in [50, 60),
      falling at least at the given baseline speed. */
  predicate WellFormed(o: FallingObject, baseSpeed: real) {
    o.width == o.height && MinSize <= o.width < MinSize + SizeRange && baseSpeed <= o.speed
  }

  /** Every object is well formed and has not fallen below the canvas. */
  predicate InField(objs: seq<FallingObject>, baseSpeed: real, canvasHeight: real) {
    forall j :: 0 <= j < |objs| ==> WellFormed(objs[j], baseSpeed) && objs[j].y <= canvasHeight
  }

  /** Removing one object keeps the others in the field. */
  lemma InFieldRemove(objs: seq<FallingObject>, baseSpeed: real, canvasHeight: real, i: nat)
    requires i < |objs| && InField(objs, baseSpeed, canvasHeight)
    ensures InField(objs[..i] + objs[i + 1..], baseSpeed, canvasHeight)
  {
    var r := objs[..i] + objs[i + 1..];
    forall j | 0 <= j < |r| ensures WellFormed(r[j], baseSpeed) && r[j].y <= canvasHeight {
      if j < i { assert r[j] == objs[j]; } else { assert r[j] == objs[j + 1]; }
    }
  }

  /** The object the spawner creates from the draws `d`, on a canvas `canvasWidth` wide,
      when the baseline fall speed is `currentSpeed`. */
  function NewObject(d: SpawnDraw, canvasWidth: real, currentSpeed: real): (o: FallingObject)
    requires ValidSpawnDraw(d)
    ensures o.kind == Heart <==> d.kind < HeartRate
    ensures o.width == o.height && MinSize <= o.width < MinSize + SizeRange
    ensures o.y == -o.width
    ensures currentSpeed <= o.speed < currentSpeed + SpeedBonus
    ensures o.rotation == 0.0 && -SpinRange / 2.0 <= o.rotationSpeed < SpinRange / 2.0
    ensures o.scale == 1.0 && o.pulse == 0.0 && o.pulseSpeed == PulseSpeed
    ensures o.width <= canvasWidth ==> 0.0 <= o.x <= canvasWidth - o.width
  {
    var size := MinSize + d.size * SizeRange;
    var room := canvasWidth - size;
    assert 0.0 <= room ==> d.x * room <= room by {
      if 0.0 <= room {
        assert (1.0 - d.x) * room >= 0.0;
      }
    }
    FallingObject(
      x := d.x * room,
      y := -size,
      width := size,
      height := size,
      kind := if d.kind < HeartRate then Heart else Bomb,
      speed := currentSpeed + d.speed * SpeedBonus,
      rotation := 0.0,
      rotationSpeed := (d.spin - 0.5) * SpinRange,
      scale := 1.0,
      pulse := 0.0,
      pulseSpeed := PulseSpeed)
  }

  /** One tick of motion of one object: it falls by its speed and turns by its angular speed;
      a heart also advances its pulse and recomputes its scale from `sin`. */
  function Fall(o: FallingObject, sin: real -> real): FallingObject
  {
    var moved := o.(y := o.y + o.speed, rotation := o.rotation + o.rotationSpeed);
    if o.kind == Heart then
      var pulse := o.pulse + o.pulseSpeed;
      moved.(pulse := pulse, scale := 1.0 + sin(pulse) * PulseAmplitude)
    else
      moved
  }

  /** Falling changes only the vertical position, the rotation and, for a heart, the pulse and
      the scale: kind, horizontal position, shape and speeds stay as they were. */
  lemma FallMovesOnly(o: FallingObject, sin: real -> real)
    ensures Fall(o, sin).kind == o.kind && Fall(o, sin).x == o.x
    ensures Fall(o, sin).width == o.width && Fall(o, sin).height == o.height
    ensures Fall(o, sin).speed == o.speed && Fall(o, sin).rotationSpeed == o.rotationSpeed
    ensures Fall(o, sin).pulseSpeed == o.pulseSpeed
    ensures Fall(o, sin).y == o.y + o.speed && Fall(o, sin).rotation == o.rotation + o.rotationSpeed
    ensures o.kind == Bomb ==> Fall(o, sin).pulse == o.pulse && Fall(o, sin).scale == o.scale
    ensures o.kind == Heart ==>
      Fall(o, sin).pulse == o.pulse + o.pulseSpeed &&
      Fall(o, sin).scale == 1.0 + sin(o.pulse + o.pulseSpeed) * PulseAmplitude
  {
  }

  /** An object that has fallen below the bottom edge of the canvas leaves the game. */
  predicate Gone(o: FallingObject, canvasHeight: real) {
    o.y > canvasHeight
  }

  /** The objects after one tick: each one falls, and those now below the canvas are dropped. */
  function Advance(objs: seq<FallingObject>, sin: real -> real, canvasHeight: real): seq<FallingObject>
  {
    if objs == [] then []
    else
      var o := Fall(objs[0], sin);
      (if Gone(o, canvasHeight) then [] else [o]) + Advance(objs[1..], sin, canvasHeight)
  }

  /** The number of hearts that one tick drops below the canvas (bombs are not counted). */
  function Missed(objs: seq<FallingObject>, sin: real -> real, canvasHeight: real): nat
  {
    if objs == [] then 0
    else
      var o := Fall(objs[0], sin);
      (if objs[0].kind == Heart && Gone(o, canvasHeight) then 1 else 0)
        + Missed(objs[1..], sin, canvasHeight)
  }

  /** Only hearts that leave the canvas count as missed: never more than the objects removed,
      none at all among bombs alone, and every removed object among hearts alone. */
  lemma {:induction false} MissedCountsHeartsOnly(objs: seq<FallingObject>, sin: real -> real, canvasHeight: real)
    ensures Missed(objs, sin, canvasHeight) + |Advance(objs, sin, canvasHeight)| <= |objs|
    ensures (forall j :: 0 <= j < |objs| ==> objs[j].kind == Bomb) ==> Missed(objs, sin, canvasHeight) == 0
    ensures (forall j :: 0 <= j < |objs| ==> objs[j].kind == Heart) ==>
              Missed(objs, sin, canvasHeight) + |Advance(objs, sin, canvasHeight)| == |objs|
  {
    if objs != [] {
      MissedCountsHeartsOnly(objs[1..], sin, canvasHeight);
      assert forall j :: 1 <= j < |objs| ==> objs[1..][j - 1] == objs[j];
    }
  }

  /** The number of hearts among `objs`. */
  function Hearts(objs: seq<FallingObject>): nat
  {
    if objs == [] then 0
    else (if objs[0].kind == Heart then 1 else 0) + Hearts(objs[1..])
  }

  /** Every heart either stays in play or is counted as missed: the missed count of a tick is
      exactly the number of hearts it removes, whatever bombs fall beside them. */
  lemma {:induction false} MissedIsRemovedHearts(objs: seq<FallingObject>, sin: real -> real, canvasHeight: real)
    ensures Missed(objs, sin, canvasHeight) + Hearts(Advance(objs, sin, canvasHeight)) == Hearts(objs)
  {
    if objs != [] {
      MissedIsRemovedHearts(objs[1..], sin, canvasHeight);
      FallMovesOnly(objs[0], sin);
      var o := Fall(objs[0], sin);
      var rest := Advance(objs[1..], sin, canvasHeight);
      if Gone(o, canvasHeight) {
        assert Advance(objs, sin, canvasHeight) == rest;
      } else {
        assert Advance(objs, sin, canvasHeight) == [o] + rest;
        assert ([o] + rest)[1..] == rest;
        assert Hearts([o] + rest) == (if o.kind == Heart then 1 else 0) + Hearts(rest);
      }
    }
  }

  /** One step of the tick's scan: the outcome for the objects from `i` on is the outcome for
      object `i` followed by the outcome for the objects after it. */
  lemma AdvanceStep(objs: seq<FallingObject>, sin: real -> real, canvasHeight: real, i: nat)
    requires i < |objs|
    ensures Advance(objs[i..], sin, canvasHeight)
      == (if Gone(Fall(objs[i], sin), canvasHeight) then [] else [Fall(objs[i], sin)])
         + Advance(objs[i + 1..], sin, canvasHeight)
    ensures Missed(objs[i..], sin, canvasHeight)
      == (if objs[i].kind == Heart && Gone(Fall(objs[i], sin), canvasHeight) then 1 else 0)
         + Missed(objs[i + 1..], sin, canvasHeight)
  {
    assert objs[i..][1..] == objs[i + 1..];
  }

  /** The indices, from `i` on, of the objects that stay in the game after one tick. */
  function KeptFrom(objs: seq<FallingObject>, canvasHeight: real, i: nat): seq<nat>
    requires i <= |objs|
    decreases |objs| - i
  {
    if i == |objs| then []
    else
      (if objs[i].y + objs[i].speed > canvasHeight then [] else [i])
        + KeptFrom(objs, canvasHeight, i + 1)
  }

  /** The indices from `i` on are in range and increasing, and there are no more of them
      than objects from `i` on. */
  lemma {:induction false} KeptFromOrdered(objs: seq<FallingObject>, canvasHeight: real, i: nat)
    requires i <= |objs|
    ensures |KeptFrom(objs, canvasHeight, i)| <= |objs| - i
    ensures forall k :: 0 <= k < |KeptFrom(objs, canvasHeight, i)| ==>
      i <= KeptFrom(objs, canvasHeight, i)[k] < |objs|
    ensures forall k :: 0 < k < |KeptFrom(objs, canvasHeight, i)| ==>
      KeptFrom(objs, canvasHeight, i)[k - 1] < KeptFrom(objs, canvasHeight, i)[k]
    decreases |objs| - i
  {
    if i < |objs| {
      KeptFromOrdered(objs, canvasHeight, i + 1);
      var ks, ks' := KeptFrom(objs, canvasHeight, i), KeptFrom(objs, canvasHeight, i + 1);
      if objs[i].y + objs[i].speed > canvasHeight {
        assert ks == ks';
      } else {
        assert ks == [i] + ks';
      }
    }
  }

  /** An index from `i` on is listed exactly when that object is still in the field after
      falling. */
  lemma {:induction false} KeptFromMembers(objs: seq<FallingObject>, canvasHeight: real, i: nat)
    requires i <= |objs|
    ensures forall j :: i <= j < |objs| ==>
      (j in KeptFrom(objs, canvasHeight, i) <==> objs[j].y + objs[j].speed <= canvasHeight)
    decreases |objs| - i
  {
    if i < |objs| {
      KeptFromMembers(objs, canvasHeight, i + 1);
      KeptFromOrdered(objs, canvasHeight, i + 1);
      var ks, ks' := KeptFrom(objs, canvasHeight, i), KeptFrom(objs, canvasHeight, i + 1);
      assert i !in ks';
      if objs[i].y + objs[i].speed > canvasHeight {
        assert ks == ks';
      } else {
        assert ks == [i] + ks';
      }
    }
  }

  /** The survivors of the objects from `i` on are the fallen objects at the listed indices. */
  lemma {:induction false} AdvanceFrom(objs: seq<FallingObject>, sin: real -> real, canvasHeight: real, i: nat)
    requires i <= |objs|
    ensures |Advance(objs[i..], sin, canvasHeight)| == |KeptFrom(objs, canvasHeight, i)|
    ensures forall k :: 0 <= k < |KeptFrom(objs, canvasHeight, i)| ==>
      KeptFrom(objs, canvasHeight, i)[k] < |objs| &&
      Advance(objs[i..], sin, canvasHeight)[k] == Fall(objs[KeptFrom(objs, canvasHeight, i)[k]], sin)
    decreases |objs| - i
  {
    if i < |objs| {
      AdvanceFrom(objs, sin, canvasHeight, i + 1);
      AdvanceStep(objs, sin, canvasHeight, i);
      KeptFromOrdered(objs, canvasHeight, i);
      var o := Fall(objs[i], sin);
      assert o.y == objs[i].y + objs[i].speed;
      var r, ks := Advance(objs[i..], sin, canvasHeight), KeptFrom(objs, canvasHeight, i);
      var r', ks' := Advance(objs[i + 1..], sin, canvasHeight), KeptFrom(objs, canvasHeight, i + 1);
      if Gone(o, canvasHeight) {
        assert r == r' && ks == ks';
      } else {
        assert r == [o] + r' && ks == [i] + ks';
        assert forall k :: 0 < k < |ks| ==> ks[k] == ks'[k - 1] && r[k] == r'[k - 1];
      }
    }
  }

  /** After one tick the objects left in play are exactly those that have not fallen below
      the canvas, each moved down by its own speed, in their original order. */
  lemma AdvanceKeepsSurvivorsInOrder(objs: seq<FallingObject>, sin: real -> real, canvasHeight: real)
    ensures |Advance(objs, sin, canvasHeight)| == |KeptFrom(objs, canvasHeight, 0)| <= |objs|
    ensures forall k :: 0 <= k < |Advance(objs, sin, canvasHeight)| ==>
      KeptFrom(objs, canvasHeight, 0)[k] < |objs| &&
      Advance(objs, sin, canvasHeight)[k] == Fall(objs[KeptFrom(objs, canvasHeight, 0)[k]], sin)
    ensures forall k :: 0 <= k < |Advance(objs, sin, canvasHeight)| ==>
      Advance(objs, sin, canvasHeight)[k].y
        == objs[KeptFrom(objs, canvasHeight, 0)[k]].y + objs[KeptFrom(objs, canvasHeight, 0)[k]].speed &&
      Advance(objs, sin, canvasHeight)[k].y <= canvasHeight
    ensures forall k :: 0 < k < |KeptFrom(objs, canvasHeight, 0)| ==>
      KeptFrom(objs, canvasHeight, 0)[k - 1] < KeptFrom(objs, canvasHeight, 0)[k]
    ensures forall j :: 0 <= j < |objs| ==>
      (j in KeptFrom(objs, canvasHeight, 0) <==> objs[j].y + objs[j].speed <= canvasHeight)
  {
    AdvanceFrom(objs, sin, canvasHeight, 0);
    KeptFromOrdered(objs, canvasHeight, 0);
    KeptFromMembers(objs, canvasHeight, 0);
    assert objs[0..] == objs;
  }

  /** Falling keeps an object's shape, so the objects left after a tick are as well formed
      as those before it. */
  lemma AdvanceKeepsWellFormed(objs: seq<FallingObject>, sin: real -> real, canvasHeight: real, baseSpeed: real)
    requires forall j :: 0 <= j < |objs| ==> WellFormed(objs[j], baseSpeed)
    ensures InField(Advance(objs, sin, canvasHeight), baseSpeed, canvasHeight)
  {
    AdvanceKeepsSurvivorsInOrder(objs, sin, canvasHeight);
  }

  /** The tap (x, y) lands strictly within width/2 of the object's centre (distance compared
      by its square, which is exact since a distance is never negative). */
  predicate Hits(o: FallingObject, x: real, y: real) {
    var dx := x - (o.x + o.width / 2.0);
    var dy := y - (o.y + o.height / 2.0);
    0.0 < o.width && dx * dx + dy * dy < (o.width / 2.0) * (o.width / 2.0)
  }

  /** A tap on the exact centre of an object of positive width hits it. */
  lemma CentreTapHits(o: FallingObject)
    requires 0.0 < o.width
    ensures Hits(o, o.x + o.width / 2.0, o.y + o.height / 2.0)
  {
  }

  /** A tap outside an object's square never hits it. */
  lemma OutsideSquareMisses(o: FallingObject, x: real, y: real)
    requires o.width == o.height
    requires x <= o.x || o.x + o.width <= x || y <= o.y || o.y + o.height <= y
    ensures !Hits(o, x, y)
  {
    var r := o.width / 2.0;
    var dx := x - (o.x + r);
    var dy := y - (o.y + r);
    if 0.0 < o.width {
      if x <= o.x || o.x + o.width <= x {
        SquareAtLeast(dx, r);
      } else {
        SquareAtLeast(dy, r);
      }
    }
  }

  /** A number at least r away from zero has a square at least r * r. */
  lemma SquareAtLeast(d: real, r: real)
    requires 0.0 <= r && (d <= -r || r <= d)
    ensures d * d >= r * r
  {
    if d < 0.0 {
      assert (-d) * (-d) >= r * (-d) >= r * r;
    } else {
      assert d * d >= r * d >= r * r;
    }
  }

  /** The object a tap consumes: the highest-index (most recently spawned) object that the
      tap hits, or None when it hits none. */
  function LastHit(objs: seq<FallingObject>, x: real, y: real): (r: Option<nat>)
    ensures r.Some? ==> r.value < |objs| && Hits(objs[r.value], x, y)
    ensures r.Some? ==> forall j :: r.value < j < |objs| ==> !Hits(objs[j], x, y)
    ensures r.None? <==> forall j :: 0 <= j < |objs| ==> !Hits(objs[j], x, y)
  {
    if objs == [] then None
    else if Hits(objs[|objs| - 1], x, y) then Some(|objs| - 1)
    else LastHit(objs[..|objs| - 1], x, y)
  }

  /** Points a hit is worth: +10 for a heart, -20 for a bomb. */
  function Points(k: Kind): int {
    match k
    case Heart => 10
    case Bomb => -20
  }
}
