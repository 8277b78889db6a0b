/** The three kinds of entity of the game as values: a raven (the target), a hit
    (the explosion shown where a raven was shot) and a particle (a dot of a
    raven's trail).  Each has its constructor and its one-frame `update` as a
    function; the classes of module Game are proved to follow them.

    Every `Math.random()` the source calls is a parameter here, a number in
    [0, 1).  Positions, sizes and times are exact reals. */
module Entities {
  import opened Colors

  /** A value `Math.random()` can return. */
  predicate IsUnit(u: real) {
    0.0 <= u < 1.0
  }

  /** The nine draws of the raven constructor, in the order it makes them. */
  datatype RavenDraws = RavenDraws(
    size: real, y: real, speedX: real, speedY: real, flap: real,
    red: real, green: real, blue: real, trail: real)

  predicate ValidRavenDraws(d: RavenDraws) {
    && IsUnit(d.size) && IsUnit(d.y) && IsUnit(d.speedX) && IsUnit(d.speedY)
    && IsUnit(d.flap) && IsUnit(d.red) && IsUnit(d.green) && IsUnit(d.blue)
    && IsUnit(d.trail)
  }

  /** The four draws behind one trail particle: its two offsets from the raven
      and then the particle constructor's speed and radius. */
  datatype ParticleDraws = ParticleDraws(offsetX: real, offsetY: real, speed: real, radius: real)

  predicate ValidParticleDraws(d: ParticleDraws) {
    IsUnit(d.offsetX) && IsUnit(d.offsetY) && IsUnit(d.speed) && IsUnit(d.radius)
  }

  const RavenSpriteWidth: real := 271.0
  const RavenSpriteHeight: real := 194.0
  const RavenMaxFrames: int := 4
  const HitMaxFrames: int := 10
  /** The number of particles a flapping raven with a trail emits. */
  const TrailLength: nat := 5
  /** What a particle loses in radius on every update. */
  const RadiusStep: real := 0.1

  /** `Math.floor(u * 255)` for a draw `u`: a channel in 0..254. */
  function Channel(u: real): (c: nat)
    requires IsUnit(u)
    ensures c <= 254
    ensures c as real <= u * 255.0 < c as real + 1.0
  {
    (u * 255.0).Floor
  }

  // ---------------------------------------------------------------------------
  // Particle (app.js:142-173)

  datatype ParticleState = ParticleState(
    x: real, y: real, speedX: real, size: real, radius: real, markedForRemoval: bool)

  /** `new Particle(x, y, size)`. */
  function NewParticle(x: real, y: real, size: real, d: ParticleDraws): (p: ParticleState)
    requires ValidParticleDraws(d)
    ensures p.x == x && p.y == y && p.size == size && !p.markedForRemoval
    ensures 0.5 <= p.speedX < 1.5
    ensures size / 30.0 <= p.radius < 2.0 + size / 30.0
  {
    ParticleState(x, y, d.speed * 1.0 + 0.5, size, d.radius * 2.0 + size / 30.0, false)
  }

  /** A particle is marked exactly when its radius has gone below zero. */
  predicate ParticleInv(p: ParticleState) {
    p.markedForRemoval <==> p.radius < 0.0
  }

  /** `Particle.update()`. */
  function ParticleStep(p: ParticleState): ParticleState {
    var radius := p.radius - RadiusStep;
    p.(x := p.x + p.speedX, radius := radius,
       markedForRemoval := if radius < 0.0 then true else p.markedForRemoval)
  }

  /** `n` successive updates. */
  function ParticleSteps(p: ParticleState, n: nat): ParticleState {
    if n == 0 then p else ParticleStep(ParticleSteps(p, n - 1))
  }

  /** One update moves the particle by exactly its speed, shrinks it by exactly
      0.1, marks it once the radius is negative and never unmarks it. */
  lemma ParticleStepFacts(p: ParticleState)
    ensures var q := ParticleStep(p);
      && q.x == p.x + p.speedX && q.y == p.y && q.speedX == p.speedX && q.size == p.size
      && q.radius == p.radius - 0.1
      && (q.markedForRemoval <==> p.markedForRemoval || q.radius < 0.0)
      && (ParticleInv(p) ==> ParticleInv(q))
  {
  }

  /** After `n` updates the particle has moved `n` times its speed, its radius is
      the initial one less 0.1 per update, and it is marked exactly when that
      radius is negative. */
  lemma {:induction false} ParticleStepsFacts(p: ParticleState, n: nat)
    requires ParticleInv(p)
    ensures var q := ParticleSteps(p, n);
      && q.radius == p.radius - (n as real) * 0.1
      && q.x == p.x + (n as real) * p.speedX
      && q.speedX == p.speedX && q.y == p.y && q.size == p.size
      && ParticleInv(q)
      && (q.markedForRemoval <==> p.radius - (n as real) * 0.1 < 0.0)
  {
    if n > 0 {
      ParticleStepsFacts(p, n - 1);
    }
  }

  // ---------------------------------------------------------------------------
  // Raven (app.js:28-99)

  datatype RavenState = RavenState(
    sizeModifier: real, width: real, height: real,
    x: real, y: real, directionX: real, directionY: real,
    markedForRemoval: bool,
    frame: int, maxFrames: int, timeSinceFlap: real, flapInterval: real,
    randomColor: Rgb, hasTrail: bool)

  /** What every raven satisfies: the constructor's ranges, and its animation
      frame lies in 0..maxFrames + 1.  The raven's colour string is not stored
      here: it is `ColorOf(randomColor)`, fixed when the raven is made. */
  predicate RavenInv(r: RavenState) {
    && 0.2 <= r.sizeModifier < 0.7
    && r.width == RavenSpriteWidth * r.sizeModifier
    && r.height == RavenSpriteHeight * r.sizeModifier
    && 4.0 <= r.directionX < 6.0
    && 50.0 <= r.flapInterval < 100.0
    && r.maxFrames == RavenMaxFrames
    && 0 <= r.frame <= r.maxFrames + 1
    && r.randomColor.red <= 254 && r.randomColor.green <= 254 && r.randomColor.blue <= 254
  }

  /** `new Raven()` on a canvas of the given size: it enters at the right edge,
      entirely within the canvas height when the canvas is tall enough. */
  function NewRaven(d: RavenDraws, canvasWidth: real, canvasHeight: real): (r: RavenState)
    requires ValidRavenDraws(d)
    ensures RavenInv(r)
    ensures r.x == canvasWidth && r.frame == 0 && r.timeSinceFlap == 0.0 && !r.markedForRemoval
    ensures r.height <= canvasHeight ==> 0.0 <= r.y <= canvasHeight - r.height
    ensures -5.0 <= r.directionY < 5.0
    ensures r.hasTrail <==> d.trail > 0.5
  {
    var sizeModifier := d.size * 0.5 + 0.2;
    var width := RavenSpriteWidth * sizeModifier;
    var height := RavenSpriteHeight * sizeModifier;
    var y := SpawnHeight(d.y, canvasHeight, height);
    var channels := Rgb(Channel(d.red), Channel(d.green), Channel(d.blue));
    RavenState(
      sizeModifier, width, height,
      canvasWidth, y, d.speedX * 2.0 + 4.0, d.speedY * 10.0 - 5.0,
      false,
      0, RavenMaxFrames, 0.0, d.flap * 50.0 + 50.0,
      channels, d.trail > 0.5)
  }

  /** `Math.random() * (CANVAS_HEIGHT - height)`: a top edge that keeps a sprite
      of the given height on a canvas that is tall enough. */
  function SpawnHeight(u: real, canvasHeight: real, height: real): (y: real)
    requires IsUnit(u)
    ensures height <= canvasHeight ==> 0.0 <= y <= canvasHeight - height
  {
    var room := canvasHeight - height;
    if 0.0 <= room then UnitScale(u, room); u * room else u * room
  }

  lemma UnitScale(u: real, k: real)
    requires IsUnit(u) && 0.0 <= k
    ensures 0.0 <= u * k <= k
  {
    assert u * k <= 1.0 * k;
  }

  /** The test at app.js:59: the raven is above the top or below the bottom. */
  predicate OutOfBounds(r: RavenState, canvasHeight: real) {
    r.y < 0.0 || r.y > canvasHeight - r.height
  }

  /** The flap timer fires on this update. */
  predicate Flaps(r: RavenState, deltaTime: real) {
    r.timeSinceFlap + deltaTime > r.flapInterval
  }

  /** The raven has left the canvas on the left. */
  predicate Missed(r: RavenState) {
    r.x + r.width < 0.0
  }

  /** The raven's own fields after `Raven.update(deltaTime)`. */
  function RavenStep(r: RavenState, deltaTime: real, canvasHeight: real): RavenState {
    var directionY := if OutOfBounds(r, canvasHeight) then r.directionY * -1.0 else r.directionY;
    var x := r.x - r.directionX;
    var y := r.y + directionY;
    var marked := if x + r.width < 0.0 then true else r.markedForRemoval;
    var t := r.timeSinceFlap + deltaTime;
    if t > r.flapInterval then
      r.(directionY := directionY, x := x, y := y, markedForRemoval := marked,
         frame := if r.frame > r.maxFrames then 0 else r.frame + 1, timeSinceFlap := 0.0)
    else
      r.(directionY := directionY, x := x, y := y, markedForRemoval := marked, timeSinceFlap := t)
  }

  /** The particles `Raven.update` appends to the global list: five, placed
      around the raven's new corner, when it has a trail and the flap fired;
      none otherwise.  Particle `i` uses the draws `jitter(i)`. */
  function Trail(r: RavenState, deltaTime: real, canvasHeight: real, jitter: nat -> ParticleDraws): (ps: seq<ParticleState>)
    requires forall i :: ValidParticleDraws(jitter(i))
  {
    if r.hasTrail && Flaps(r, deltaTime) then Burst(RavenStep(r, deltaTime, canvasHeight), jitter, TrailLength)
    else []
  }

  /** The first `n` particles of a trail around the raven `q` (already moved):
      particle `i` sits at `q`'s corner shifted by `jitter(i)`'s offsets times
      50 and has `q`'s width as its size. */
  function Burst(q: RavenState, jitter: nat -> ParticleDraws, n: nat): seq<ParticleState>
    requires forall i :: ValidParticleDraws(jitter(i))
  {
    seq(n, i requires 0 <= i < n =>
      NewParticle(q.x + jitter(i).offsetX * 50.0, q.y + jitter(i).offsetY * 50.0, q.width, jitter(i)))
  }

  /** What one `Raven.update` does to the raven: it bounces exactly when it was
      out of bounds vertically, then moves; its size, channels, horizontal speed
      and flap interval do not change; it is marked when it has left on the left and a
      mark is never removed; the flap timer restarts and the frame advances
      (wrapping after maxFrames + 1) exactly when the flap fires; and the raven
      invariant is kept. */
  lemma RavenStepFacts(r: RavenState, deltaTime: real, canvasHeight: real)
    requires RavenInv(r)
    ensures var q := RavenStep(r, deltaTime, canvasHeight);
      && RavenInv(q)
      && (OutOfBounds(r, canvasHeight) ==> q.directionY == -r.directionY)
      && (!OutOfBounds(r, canvasHeight) ==> q.directionY == r.directionY)
      && q.x == r.x - r.directionX && q.y == r.y + q.directionY
      && q.width == r.width && q.height == r.height
      && q.randomColor == r.randomColor && q.directionX == r.directionX
      && q.flapInterval == r.flapInterval && q.hasTrail == r.hasTrail
      && (q.markedForRemoval <==> r.markedForRemoval || Missed(q))
      && (Flaps(r, deltaTime) ==>
            q.timeSinceFlap == 0.0 && q.frame == (if r.frame > r.maxFrames then 0 else r.frame + 1))
      && (!Flaps(r, deltaTime) ==> q.timeSinceFlap == r.timeSinceFlap + deltaTime && q.frame == r.frame)
  {
  }

  /** Exactly five particles are emitted when the raven has a trail and flaps,
      none otherwise; each starts unmarked, of the raven's width, within 50 of
      the raven's new corner, and satisfies the particle invariant. */
  lemma TrailFacts(r: RavenState, deltaTime: real, canvasHeight: real, jitter: nat -> ParticleDraws)
    requires RavenInv(r)
    requires forall i :: ValidParticleDraws(jitter(i))
    ensures var ps, q := Trail(r, deltaTime, canvasHeight, jitter), RavenStep(r, deltaTime, canvasHeight);
      && |ps| == (if r.hasTrail && Flaps(r, deltaTime) then TrailLength else 0)
      && forall i :: 0 <= i < |ps| ==>
           && ps[i].size == q.width && ParticleInv(ps[i]) && !ps[i].markedForRemoval
           && q.x <= ps[i].x < q.x + 50.0 && q.y <= ps[i].y < q.y + 50.0
  {
  }

  // ---------------------------------------------------------------------------
  // Hit (app.js:101-140)

  /** A hit; `soundPlays` counts the calls of `sound.play()`. */
  datatype HitState = HitState(
    size: real, x: real, y: real,
    frame: int, maxFrames: int, nextFrame: real, timer: real,
    markedForRemoval: bool, soundPlays: nat)

  /** The frame lies in 0..maxFrames + 1, and a marked hit is on its last frame. */
  predicate HitInv(h: HitState) {
    && h.maxFrames == HitMaxFrames
    && 0 <= h.frame <= h.maxFrames + 1
    && (h.markedForRemoval ==> h.frame == h.maxFrames + 1)
    && 50.0 <= h.nextFrame < 100.0
  }

  /** `new Hit(x, y, size)`: its top-left corner is placed a quarter of its
      size up and to the left of the given corner. */
  function NewHit(x: real, y: real, size: real, u: real): (h: HitState)
    requires IsUnit(u)
    ensures HitInv(h)
    ensures h.x == x - size / 4.0 && h.y == y - size / 4.0 && h.size == size
    ensures h.frame == 0 && h.timer == 0.0 && !h.markedForRemoval && h.soundPlays == 0
  {
    HitState(size, x - size / 4.0, y - size / 4.0, 0, HitMaxFrames, u * 50.0 + 50.0, 0.0, false, 0)
  }

  /** The timer of the explosion animation fires on this update. */
  predicate Ticks(h: HitState, deltaTime: real) {
    h.timer + deltaTime > h.nextFrame
  }

  /** `Hit.update(deltaTime)`. */
  function HitStep(h: HitState, deltaTime: real): HitState {
    var timer := h.timer + deltaTime;
    var plays := if h.frame == 0 then h.soundPlays + 1 else h.soundPlays;
    if timer > h.nextFrame then
      if h.frame > h.maxFrames then h.(timer := 0.0, soundPlays := plays, markedForRemoval := true)
      else h.(timer := 0.0, soundPlays := plays, frame := h.frame + 1)
    else h.(timer := timer, soundPlays := plays)
  }

  /** What one `Hit.update` does: `sound.play()` is called exactly when the
      frame is 0 on entry; the hit is newly marked only on a tick past the last frame; the
      frame advances by one on other ticks and never otherwise; and the hit
      invariant is kept. */
  lemma HitStepFacts(h: HitState, deltaTime: real)
    requires HitInv(h)
    ensures var q := HitStep(h, deltaTime);
      && HitInv(q)
      && q.soundPlays == h.soundPlays + (if h.frame == 0 then 1 else 0)
      && (q.markedForRemoval <==> h.markedForRemoval || (Ticks(h, deltaTime) && h.frame > h.maxFrames))
      && q.frame == (if Ticks(h, deltaTime) && h.frame <= h.maxFrames then h.frame + 1 else h.frame)
      && q.x == h.x && q.y == h.y && q.size == h.size && q.nextFrame == h.nextFrame
  {
  }

  /** The hit after one update per given frame time. */
  function HitSteps(h: HitState, deltaTimes: seq<real>): HitState {
    if deltaTimes == [] then h
    else HitStep(HitSteps(h, deltaTimes[..|deltaTimes| - 1]), deltaTimes[|deltaTimes| - 1])
  }

  /** Once marked, a hit stays marked and its frame no longer changes, whatever
      the frame times; and it keeps its invariant. */
  lemma {:induction false} HitMarkIsSticky(h: HitState, deltaTimes: seq<real>)
    requires HitInv(h)
    ensures HitInv(HitSteps(h, deltaTimes))
    ensures h.markedForRemoval ==>
      HitSteps(h, deltaTimes).markedForRemoval && HitSteps(h, deltaTimes).frame == h.frame
  {
    if deltaTimes != [] {
      HitMarkIsSticky(h, deltaTimes[..|deltaTimes| - 1]);
    }
  }

  /** `sound.play()` is called once per update for as long as a new hit is on
      frame 0: on its first update, and on every following update until the
      first tick of its animation. */
  lemma {:induction false} HitSoundWhileFirstFrame(h: HitState, deltaTimes: seq<real>)
    requires HitInv(h) && h.frame == 0
    requires forall i :: 0 <= i < |deltaTimes| ==> !Ticks(HitSteps(h, deltaTimes[..i]), deltaTimes[i])
    ensures HitSteps(h, deltaTimes).frame == 0
    ensures HitSteps(h, deltaTimes).soundPlays == h.soundPlays + |deltaTimes|
  {
    if deltaTimes != [] {
      var init := deltaTimes[..|deltaTimes| - 1];
      forall i | 0 <= i < |init|
        ensures !Ticks(HitSteps(h, init[..i]), init[i])
      {
        assert init[..i] == deltaTimes[..i];
      }
      HitSoundWhileFirstFrame(h, init);
      assert deltaTimes[..|init|] == init;
    }
  }
}
