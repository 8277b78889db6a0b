/** The objects of app.js and the code that changes them in place: the classes
    Raven, Hit and Particle with their constructors and `update` methods, and
    the global state with the click handler and `animate`, gathered in class
    Game.  Every method is proved to do what the matching function of modules
    Entities and Simulation describes, through the `State()` of an entity and
    the `View()` of the game. */
module Game {
  import opened Colors
  import opened Seqs
  import opened Entities
  import opened Simulation

  class Particle {
    var x: real
    const y: real
    const speedX: real
    const size: real
    var radius: real
    var markedForRemoval: bool

    function State(): ParticleState
      reads this
    {
      ParticleState(x, y, speedX, size, radius, markedForRemoval)
    }

    constructor (x: real, y: real, size: real, d: ParticleDraws)
      requires ValidParticleDraws(d)
      ensures State() == NewParticle(x, y, size, d)
    {
      this.x := x;
      this.y := y;
      speedX := d.speed * 1.0 + 0.5;
      this.size := size;
      radius := d.radius * 2.0 + size / 30.0;
      markedForRemoval := false;
    }

    method Update()
      modifies this
      ensures State() == ParticleStep(old(State()))
    {
      x := x + speedX;
      radius := radius - 0.1;
      if radius < 0.0 {
        markedForRemoval := true;
      }
    }
  }

  class Hit {
    const size: real
    const x: real
    const y: real
    var frame: int
    const maxFrames: int
    const nextFrame: real
    var timer: real
    var markedForRemoval: bool
    /** The number of times `sound.play()` has been called. */
    var soundPlays: nat

    function State(): HitState
      reads this
    {
      HitState(size, x, y, frame, maxFrames, nextFrame, timer, markedForRemoval, soundPlays)
    }

    constructor (x: real, y: real, size: real, u: real)
      requires IsUnit(u)
      ensures State() == NewHit(x, y, size, u)
    {
      this.size := size;
      this.x := x - size / 4.0;
      this.y := y - size / 4.0;
      frame := 0;
      maxFrames := HitMaxFrames;
      nextFrame := u * 50.0 + 50.0;
      timer := 0.0;
      markedForRemoval := false;
      soundPlays := 0;
    }

    method Update(deltaTime: real)
      modifies this
      ensures State() == HitStep(old(State()), deltaTime)
    {
      timer := timer + deltaTime;
      if frame == 0 {
        soundPlays := soundPlays + 1;
      }
      if timer > nextFrame {
        if frame > maxFrames {
          markedForRemoval := true;
        } else {
          frame := frame + 1;
        }
        timer := 0.0;
      }
    }
  }

  class Raven {
    const sizeModifier: real
    const width: real
    const height: real
    var x: real
    var y: real
    const directionX: real
    var directionY: real
    var markedForRemoval: bool
    var frame: int
    const maxFrames: int
    var timeSinceFlap: real
    const flapInterval: real
    const randomColor: Rgb
    /** `this.color`, computed once from the channels. */
    const color: string := ColorOf(randomColor)
    const hasTrail: bool

    function State(): RavenState
      reads this
    {
      RavenState(sizeModifier, width, height, x, y, directionX, directionY, markedForRemoval,
                 frame, maxFrames, timeSinceFlap, flapInterval, randomColor, hasTrail)
    }

    constructor (d: RavenDraws, canvasWidth: real, canvasHeight: real)
      requires ValidRavenDraws(d)
      ensures State() == NewRaven(d, canvasWidth, canvasHeight)
    {
      var modifier := d.size * 0.5 + 0.2;
      sizeModifier := modifier;
      width := RavenSpriteWidth * modifier;
      height := RavenSpriteHeight * modifier;
      x := canvasWidth;
      y := d.y * (canvasHeight - RavenSpriteHeight * modifier);
      directionX := d.speedX * 2.0 + 4.0;
      directionY := d.speedY * 10.0 - 5.0;
      markedForRemoval := false;
      frame := 0;
      maxFrames := RavenMaxFrames;
      timeSinceFlap := 0.0;
      flapInterval := d.flap * 50.0 + 50.0;
      randomColor := Rgb(Channel(d.red), Channel(d.green), Channel(d.blue));
      hasTrail := d.trail > 0.5;
    }

    /** `update(deltaTime)`: moves and animates the raven, appends its trail to
        the game's particles and ends the game when the raven has left the
        canvas on the left.  Trail particle `i` uses the draws `jitter(i)`. */
    method Update(deltaTime: real, jitter: nat -> ParticleDraws, game: Game)
      requires forall i :: ValidParticleDraws(jitter(i))
      requires Distinct(game.particles)
      modifies this, game`particles, game`gameOver
      ensures State() == RavenStep(old(State()), deltaTime, game.canvasHeight)
      ensures ParticleStates(game.particles) ==
              old(ParticleStates(game.particles)) + Trail(old(State()), deltaTime, game.canvasHeight, jitter)
      ensures Distinct(game.particles)
      ensures forall k :: 0 <= k < |game.particles| ==>
        game.particles[k] in old(game.particles) || fresh(game.particles[k])
      ensures game.gameOver == (old(game.gameOver) || Missed(State()))
    {
      var flapped := Move(deltaTime, game.canvasHeight);
      if flapped && hasTrail {
        EmitTrail(jitter, game);
      }
      if x + width < 0.0 {
        game.gameOver := true;
      }
    }

    /** The part of `update` that changes the raven itself: bounce, move, mark,
        and advance the flap animation; `flapped` tells whether the flap timer
        fired. */
    method Move(deltaTime: real, canvasHeight: real) returns (flapped: bool)
      modifies this
      ensures State() == RavenStep(old(State()), deltaTime, canvasHeight)
      ensures flapped == Flaps(old(State()), deltaTime)
    {
      if y < 0.0 || y > canvasHeight - height {
        directionY := directionY * -1.0;
      }
      x := x - directionX;
      y := y + directionY;
      if x + width < 0.0 {
        markedForRemoval := true;
      }
      timeSinceFlap := timeSinceFlap + deltaTime;
      flapped := timeSinceFlap > flapInterval;
      if flapped {
        if frame > maxFrames {
          frame := 0;
        } else {
          frame := frame + 1;
        }
        timeSinceFlap := 0.0;
      }
    }

    /** The loop of `update` that pushes five new particles around the raven's
        corner onto the game's list. */
    method EmitTrail(jitter: nat -> ParticleDraws, game: Game)
      requires forall i :: ValidParticleDraws(jitter(i))
      requires Distinct(game.particles)
      modifies game`particles
      ensures ParticleStates(game.particles) == old(ParticleStates(game.particles)) + Burst(State(), jitter, TrailLength)
      ensures Distinct(game.particles)
      ensures |game.particles| >= |old(game.particles)|
      ensures game.particles[..|old(game.particles)|] == old(game.particles)
      ensures forall k :: 0 <= k < |game.particles| ==>
        game.particles[k] in old(game.particles) || fresh(game.particles[k])
    {
      ghost var n := |game.particles|;
      for i := 0 to TrailLength
        invariant |game.particles| == n + i
        invariant game.particles[..n] == old(game.particles)
        invariant forall k :: n <= k < |game.particles| ==> fresh(game.particles[k])
        invariant Distinct(game.particles)
        invariant ParticleStates(game.particles) == old(ParticleStates(game.particles)) + Burst(State(), jitter, i)
      {
        var p := new Particle(x + jitter(i).offsetX * 50.0, y + jitter(i).offsetY * 50.0, width, jitter(i));
        ParticleStatesAppend(game.particles, p);
        assert Burst(State(), jitter, i + 1) == Burst(State(), jitter, i) + [p.State()];
        game.particles := game.particles + [p];
      }
    }
  }

  /** The abstract values of a list of particles. */
  function ParticleStates(ps: seq<Particle>): (r: seq<ParticleState>)
    reads ps
  {
    seq(|ps|, k requires 0 <= k < |ps| reads ps => ps[k].State())
  }

  lemma ParticleStatesAppend(ps: seq<Particle>, p: Particle)
    ensures ParticleStates(ps + [p]) == ParticleStates(ps) + [p.State()]
  {
  }

  function HitStates(hs: seq<Hit>): (r: seq<HitState>)
    reads hs
  {
    seq(|hs|, k requires 0 <= k < |hs| reads hs => hs[k].State())
  }

  function RavenStates(rs: seq<Raven>): (r: seq<RavenState>)
    reads rs
  {
    seq(|rs|, k requires 0 <= k < |rs| reads rs => rs[k].State())
  }

  /** The key of `ravens.sort((a, b) => a.width - b.width)`. */
  function WidthOf(r: Raven): real {
    r.width
  }

  /** Inserting by width commutes with taking the abstract values. */
  lemma {:induction false} InsertByStates(t: seq<Raven>, x: Raven)
    ensures RavenStates(InsertBy(t, x, WidthOf)) == InsertBy(RavenStates(t), x.State(), RavenWidth)
  {
    if t != [] && WidthOf(t[0]) <= WidthOf(x) {
      InsertByStates(t[1..], x);
      assert RavenStates(t[1..]) == RavenStates(t)[1..];
    }
  }

  /** Sorting by width commutes with taking the abstract values. */
  lemma {:induction false} SortByStates(s: seq<Raven>)
    ensures RavenStates(SortBy(s, WidthOf)) == SortBy(RavenStates(s), RavenWidth)
  {
    if s != [] {
      var init := s[..|s| - 1];
      SortByStates(init);
      InsertByStates(SortBy(init, WidthOf), s[|s| - 1]);
      assert RavenStates(init) == RavenStates(s)[..|s| - 1];
    }
  }

  /** `ravens.filter(raven => !raven.markedForRemoval)`. */
  function LiveRavens(rs: seq<Raven>): (r: seq<Raven>)
    reads rs
    ensures RavenStates(r) == Filter(RavenStates(rs), RavenLive)
    ensures Distinct(rs) ==> Distinct(r)
    ensures forall k :: 0 <= k < |r| ==> r[k] in rs
  {
    var idx := KeptIndices(RavenStates(rs), RavenLive);
    FilterKeepsOrder(RavenStates(rs), RavenLive);
    if Distinct(rs) then PickDistinct(rs, idx); Pick(rs, idx) else Pick(rs, idx)
  }

  /** `hits.filter(exp => !exp.markedForRemoval)`. */
  function LiveHits(hs: seq<Hit>): (r: seq<Hit>)
    reads hs
    ensures HitStates(r) == Filter(HitStates(hs), HitLive)
    ensures Distinct(hs) ==> Distinct(r)
    ensures forall k :: 0 <= k < |r| ==> r[k] in hs
  {
    var idx := KeptIndices(HitStates(hs), HitLive);
    FilterKeepsOrder(HitStates(hs), HitLive);
    if Distinct(hs) then PickDistinct(hs, idx); Pick(hs, idx) else Pick(hs, idx)
  }

  /** `particles.filter(par => !par.markedForRemoval)`. */
  function LiveParticles(ps: seq<Particle>): (r: seq<Particle>)
    reads ps
    ensures ParticleStates(r) == Filter(ParticleStates(ps), ParticleLive)
    ensures Distinct(ps) ==> Distinct(r)
    ensures forall k :: 0 <= k < |r| ==> r[k] in ps
  {
    var idx := KeptIndices(ParticleStates(ps), ParticleLive);
    FilterKeepsOrder(ParticleStates(ps), ParticleLive);
    if Distinct(ps) then PickDistinct(ps, idx); Pick(ps, idx) else Pick(ps, idx)
  }

  /** The global state of app.js:14-22 and the canvas size. */
  class Game {
    const canvasWidth: real
    const canvasHeight: real
    var score: int
    var timeToNextRaven: real
    var ravenInterval: real
    var lastTime: real
    var gameOver: bool
    var ravens: seq<Raven>
    var hits: seq<Hit>
    var particles: seq<Particle>

    function View(): World
      reads this, ravens, hits, particles
    {
      World(score, timeToNextRaven, ravenInterval, lastTime, gameOver,
            RavenStates(ravens), HitStates(hits), ParticleStates(particles))
    }

    /** No entity is held twice, and the state satisfies the game invariant. */
    ghost predicate Valid()
      reads this, ravens, hits, particles
    {
      Distinct(ravens) && Distinct(hits) && Distinct(particles) && WorldInv(View())
    }

    constructor (canvasWidth: real, canvasHeight: real)
      ensures Valid() && View() == Initial()
      ensures this.canvasWidth == canvasWidth && this.canvasHeight == canvasHeight
    {
      this.canvasWidth := canvasWidth;
      this.canvasHeight := canvasHeight;
      score := 0;
      timeToNextRaven := 0.0;
      ravenInterval := RavenInterval;
      lastTime := 0.0;
      gameOver := false;
      ravens := [];
      hits := [];
      particles := [];
    }

    /** The click listener, given the pixel sampled under the pointer; the hit
        made for the raven at position `i` uses the draw `draws(i)`. */
    method Click(pixel: Rgb, draws: nat -> real)
      requires Valid()
      requires forall i :: IsUnit(draws(i))
      modifies this`hits, this`score, ravens
      ensures Valid()
      ensures View() == Simulation.Click(old(View()), pixel, draws)
      ensures forall k :: 0 <= k < |hits| ==> hits[k] in old(hits) || fresh(hits[k])
    {
      ghost var w0 := View();
      var currentColor := CreateColor(pixel.red, pixel.green, pixel.blue);
      ShootAll(currentColor, draws);
      ClickPreservesInv(w0, pixel, draws);
    }

    /** `ravens.forEach(...)` in the click listener: every raven of colour
        `currentColor` is shot, in order. */
    method ShootAll(currentColor: string, draws: nat -> real)
      requires Distinct(ravens) && Distinct(hits)
      requires forall i :: IsUnit(draws(i))
      modifies this`hits, this`score, ravens
      ensures RavenStates(ravens) == MarkMatches(old(RavenStates(ravens)), currentColor)
      ensures HitStates(hits) == old(HitStates(hits)) + ClickHits(old(RavenStates(ravens)), currentColor, draws, |ravens|)
      ensures score == old(score) + MatchCount(old(RavenStates(ravens)), currentColor, |ravens|)
      ensures Distinct(hits)
      ensures forall h :: h in hits ==> h in old(hits) || fresh(h)
    {
      ghost var r0, h0, s0 := RavenStates(ravens), HitStates(hits), score;
      for i := 0 to |ravens|
        invariant score == s0 + MatchCount(r0, currentColor, i)
        invariant ShotUpTo(i, r0, currentColor)
        invariant HitStates(hits) == h0 + ClickHits(r0, currentColor, draws, i)
        invariant Distinct(hits)
        invariant forall h :: h in hits ==> h in old(hits) || fresh(h)
      {
        ShootAt(i, currentColor, draws, r0, h0, s0);
      }
      assert forall k :: 0 <= k < |ravens| ==> RavenStates(ravens)[k] == MarkMatches(r0, currentColor)[k];
    }

    /** The ravens before position `i` have been visited by the click loop and
        the others are as they were: `r0` holds their states before it. */
    ghost predicate ShotUpTo(i: int, r0: seq<RavenState>, currentColor: string)
      reads this, ravens
    {
      && |ravens| == |r0|
      && forall k :: 0 <= k < |ravens| ==>
           ravens[k].State() == if k < i then Shot(r0[k], currentColor) else r0[k]
    }

    /** One turn of the click handler's loop: the ravens before position `i`
        have been visited, the raven at `i` is shot now and its hit, if any,
        is pushed after theirs. */
    method ShootAt(i: nat, currentColor: string, draws: nat -> real,
                   ghost r0: seq<RavenState>, ghost h0: seq<HitState>, ghost s0: int)
      requires i < |ravens| == |r0| && Distinct(ravens) && Distinct(hits)
      requires forall i :: IsUnit(draws(i))
      requires score == s0 + MatchCount(r0, currentColor, i)
      requires ShotUpTo(i, r0, currentColor)
      requires HitStates(hits) == h0 + ClickHits(r0, currentColor, draws, i)
      modifies this`hits, this`score, ravens[i]
      ensures score == s0 + MatchCount(r0, currentColor, i + 1)
      ensures ShotUpTo(i + 1, r0, currentColor)
      ensures HitStates(hits) == h0 + ClickHits(r0, currentColor, draws, i + 1)
      ensures Distinct(hits)
      ensures forall h :: h in hits ==> h in old(hits) || fresh(h)
    {
      var hit := Shoot(ravens[i], currentColor, draws(i));
      forall k | 0 <= k < |ravens| && k != i
        ensures ravens[k].State() == old(ravens[k].State())
      {
        assert ravens[k] != ravens[i];
      }
      AppendAssoc(h0, ClickHits(r0, currentColor, draws, i), HitsFor(r0[i], currentColor, draws(i)));
    }

    /** The body of the click handler's loop for one raven: when its colour is
        the clicked one, a hit is pushed at its place, it is marked and the
        score goes up by one. */
    method Shoot(raven: Raven, currentColor: string, u: real) returns (hit: bool)
      requires IsUnit(u) && Distinct(hits)
      modifies this`hits, this`score, raven
      ensures hit == Matches(old(raven.State()), currentColor)
      ensures raven.State() == Shot(old(raven.State()), currentColor)
      ensures score == old(score) + if hit then 1 else 0
      ensures HitStates(hits) == old(HitStates(hits)) + HitsFor(old(raven.State()), currentColor, u)
      ensures Distinct(hits)
      ensures forall h :: h in hits ==> h in old(hits) || fresh(h)
    {
      hit := raven.color == currentColor;
      if hit {
        var h := new Hit(raven.x, raven.y, raven.width, u);
        hits := hits + [h];
        raven.markedForRemoval := true;
        score := score + 1;
      }
    }

    /** `particles.forEach(obj => obj.update())` over the snapshot. */
    static method UpdateParticles(ps: seq<Particle>)
      requires Distinct(ps)
      modifies ps
      ensures ParticleStates(ps) == StepParticles(old(ParticleStates(ps)))
    {
      for i := 0 to |ps|
        invariant forall k :: 0 <= k < |ps| ==>
          ps[k].State() == if k < i then ParticleStep(old(ps[k].State())) else old(ps[k].State())
      {
        ps[i].Update();
      }
    }

    /** `hits.forEach(obj => obj.update(deltaTime))` over the snapshot. */
    static method UpdateHits(hs: seq<Hit>, deltaTime: real)
      requires Distinct(hs)
      modifies hs
      ensures HitStates(hs) == StepHits(old(HitStates(hs)), deltaTime)
    {
      for i := 0 to |hs|
        invariant forall k :: 0 <= k < |hs| ==>
          hs[k].State() == if k < i then HitStep(old(hs[k].State()), deltaTime) else old(hs[k].State())
      {
        hs[i].Update(deltaTime);
      }
    }

    /** `ravens.forEach(obj => obj.update(deltaTime))` over the snapshot; the
        raven at position `i` draws its trail from `trails(i)`. */
    method UpdateRavens(rs: seq<Raven>, deltaTime: real, trails: nat -> nat -> ParticleDraws)
      requires Distinct(rs) && Distinct(particles)
      requires forall i, j :: ValidParticleDraws(trails(i)(j))
      modifies rs, this`particles, this`gameOver
      ensures RavenStates(rs) == StepRavens(old(RavenStates(rs)), deltaTime, canvasHeight)
      ensures ParticleStates(particles) ==
              old(ParticleStates(particles)) + Trails(old(RavenStates(rs)), deltaTime, canvasHeight, trails, |rs|)
      ensures Distinct(particles)
      ensures forall k :: 0 <= k < |particles| ==> particles[k] in old(particles) || fresh(particles[k])
      ensures gameOver == (old(gameOver) || AnyMissed(old(RavenStates(rs)), deltaTime, canvasHeight))
    {
      ghost var r0, p0, g0 := RavenStates(rs), ParticleStates(particles), gameOver;
      for i := 0 to |rs|
        invariant UpdatedUpTo(rs, i, r0, deltaTime)
        invariant ParticleStates(particles) == p0 + Trails(r0, deltaTime, canvasHeight, trails, i)
        invariant Distinct(particles)
        invariant forall k :: 0 <= k < |particles| ==> particles[k] in old(particles) || fresh(particles[k])
        invariant gameOver == (g0 || AnyMissed(r0[..i], deltaTime, canvasHeight))
      {
        UpdateRavenAt(rs, i, deltaTime, trails, r0, p0, g0);
      }
      assert r0[..|rs|] == r0;
    }

    /** The ravens of `rs` before position `i` have been updated by the loop
        and the others are as they were: `r0` holds their states before it. */
    ghost predicate UpdatedUpTo(rs: seq<Raven>, i: int, r0: seq<RavenState>, deltaTime: real)
      reads this, rs
    {
      && |rs| == |r0|
      && forall k :: 0 <= k < |rs| ==>
           rs[k].State() == if k < i then RavenStep(r0[k], deltaTime, canvasHeight) else r0[k]
    }

    /** The body of that loop for the raven at position `i`: the ravens before
        it have been updated, it is updated now, and its trail is appended
        after theirs. */
    method UpdateRavenAt(rs: seq<Raven>, i: nat, deltaTime: real, trails: nat -> nat -> ParticleDraws,
                         ghost r0: seq<RavenState>, ghost p0: seq<ParticleState>, ghost g0: bool)
      requires i < |rs| == |r0| && Distinct(rs) && Distinct(particles)
      requires forall i, j :: ValidParticleDraws(trails(i)(j))
      requires UpdatedUpTo(rs, i, r0, deltaTime)
      requires ParticleStates(particles) == p0 + Trails(r0, deltaTime, canvasHeight, trails, i)
      requires gameOver == (g0 || AnyMissed(r0[..i], deltaTime, canvasHeight))
      modifies rs[i], this`particles, this`gameOver
      ensures UpdatedUpTo(rs, i + 1, r0, deltaTime)
      ensures ParticleStates(particles) == p0 + Trails(r0, deltaTime, canvasHeight, trails, i + 1)
      ensures Distinct(particles)
      ensures forall k :: 0 <= k < |particles| ==> particles[k] in old(particles) || fresh(particles[k])
      ensures gameOver == (g0 || AnyMissed(r0[..i + 1], deltaTime, canvasHeight))
    {
      rs[i].Update(deltaTime, trails(i), this);
      forall k | 0 <= k < |rs| && k != i
        ensures rs[k].State() == old(rs[k].State())
      {
        assert rs[k] != rs[i];
      }
      AppendAssoc(p0, Trails(r0, deltaTime, canvasHeight, trails, i), Trail(r0[i], deltaTime, canvasHeight, trails(i)));
      MissedPrefix(r0, deltaTime, canvasHeight, i);
    }

    /** `animate(timestamp)`, without the drawing: it returns whether the next
        frame is requested. */
    method Animate(timestamp: real, spawn: RavenDraws, trails: nat -> nat -> ParticleDraws)
      returns (scheduleNext: bool)
      requires Valid()
      requires ValidRavenDraws(spawn)
      requires forall i, j :: ValidParticleDraws(trails(i)(j))
      modifies this, ravens, hits, particles
      ensures Valid()
      ensures View() == Frame(old(View()), timestamp, spawn, trails, canvasWidth, canvasHeight)
      ensures scheduleNext <==> !gameOver
      ensures forall k :: 0 <= k < |ravens| ==> ravens[k] in old(ravens) || fresh(ravens[k])
      ensures forall k :: 0 <= k < |hits| ==> hits[k] in old(hits) || fresh(hits[k])
      ensures forall k :: 0 <= k < |particles| ==> particles[k] in old(particles) || fresh(particles[k])
    {
      ghost var w0 := View();
      assert w0.lastTime == lastTime;
      var deltaTime := Tick(timestamp, spawn);
      ghost var w1 := View();
      UpdateAndSweep(deltaTime, trails);
      PhasesMakeFrame(w0, timestamp, spawn, trails, canvasWidth, canvasHeight, w1, deltaTime, View());
      scheduleNext := !gameOver;
    }

    /** The start of `animate`: the frame time is measured, the spawn timer
        advanced, and a raven spawned when it exceeds the interval. */
    method Tick(timestamp: real, spawn: RavenDraws) returns (deltaTime: real)
      requires ValidRavenDraws(spawn)
      requires Distinct(ravens)
      modifies this`lastTime, this`timeToNextRaven, this`ravens
      ensures deltaTime == timestamp - old(lastTime)
      ensures View() == TickWorld(old(View()), timestamp, spawn, canvasWidth, canvasHeight)
      ensures Distinct(ravens)
      ensures forall k :: 0 <= k < |ravens| ==> ravens[k] in old(ravens) || fresh(ravens[k])
    {
      ghost var w0 := View();
      SpawnStepCases(w0, timestamp, spawn, canvasWidth, canvasHeight);
      deltaTime := timestamp - lastTime;
      lastTime := timestamp;
      timeToNextRaven := timeToNextRaven + deltaTime;
      if timeToNextRaven > ravenInterval {
        timeToNextRaven := 0.0;
        assert View() == w0.(lastTime := timestamp, timeToNextRaven := 0.0);
        SpawnRaven(spawn);
      } else {
        assert View() == w0.(lastTime := timestamp, timeToNextRaven := timeToNextRaven);
      }
    }

    /** The rest of `animate` once the spawn step is done: every entity of
        the snapshot is updated, then the marked ones are dropped. */
    method UpdateAndSweep(deltaTime: real, trails: nat -> nat -> ParticleDraws)
      requires Distinct(ravens) && Distinct(hits) && Distinct(particles)
      requires forall i, j :: ValidParticleDraws(trails(i)(j))
      modifies ravens, hits, particles, this`ravens, this`hits, this`particles, this`gameOver
      ensures View() == SweepWorld(UpdateWorld(old(View()), deltaTime, trails, canvasHeight))
      ensures Distinct(ravens) && Distinct(hits) && Distinct(particles)
      ensures forall k :: 0 <= k < |ravens| ==> ravens[k] in old(ravens) || fresh(ravens[k])
      ensures forall k :: 0 <= k < |hits| ==> hits[k] in old(hits) || fresh(hits[k])
      ensures forall k :: 0 <= k < |particles| ==> particles[k] in old(particles) || fresh(particles[k])
    {
      // the snapshot `[...particles, ...ravens, ...hits]`
      var ps, rs, hs := particles, ravens, hits;
      UpdateAll(ps, rs, hs, deltaTime, trails);
      Sweep();
    }

    /** `[...particles, ...ravens, ...hits].forEach(obj => obj.update(deltaTime))`:
        every entity of the snapshot `ps`, `rs`, `hs` is updated once,
        particles first, then ravens (which append their trails to the live
        list, not to the snapshot), then hits. */
    method UpdateAll(ps: seq<Particle>, rs: seq<Raven>, hs: seq<Hit>, deltaTime: real,
                     trails: nat -> nat -> ParticleDraws)
      requires ps == particles && rs == ravens && hs == hits
      requires Distinct(ps) && Distinct(rs) && Distinct(hs)
      requires forall i, j :: ValidParticleDraws(trails(i)(j))
      modifies ps, rs, hs, this`particles, this`gameOver
      ensures View() == UpdateWorld(old(View()), deltaTime, trails, canvasHeight)
      ensures Distinct(particles)
      ensures forall k :: 0 <= k < |particles| ==> particles[k] in old(particles) || fresh(particles[k])
    {
      ghost var w0 := View();
      UpdateParticles(ps);
      ghost var w1 := w0.(particles := StepParticles(w0.particles));
      assert View() == w1;
      UpdateRavens(rs, deltaTime, trails);
      ghost var w2 := w1.(ravens := StepRavens(w0.ravens, deltaTime, canvasHeight),
                          particles := w1.particles + Trails(w0.ravens, deltaTime, canvasHeight, trails, |w0.ravens|),
                          gameOver := w0.gameOver || AnyMissed(w0.ravens, deltaTime, canvasHeight));
      assert View() == w2;
      UpdateHits(hs, deltaTime);
      assert RavenStates(ravens) == w2.ravens && ParticleStates(particles) == w2.particles;
      assert View() == w2.(hits := StepHits(w0.hits, deltaTime));
    }

    /** The three filters at the end of `animate`: every marked raven, hit and
        particle is dropped. */
    method Sweep()
      requires Distinct(ravens) && Distinct(hits) && Distinct(particles)
      modifies this`ravens, this`hits, this`particles
      ensures View() == SweepWorld(old(View()))
      ensures Distinct(ravens) && Distinct(hits) && Distinct(particles)
      ensures forall k :: 0 <= k < |ravens| ==> ravens[k] in old(ravens) || fresh(ravens[k])
      ensures forall k :: 0 <= k < |hits| ==> hits[k] in old(hits) || fresh(hits[k])
      ensures forall k :: 0 <= k < |particles| ==> particles[k] in old(particles) || fresh(particles[k])
    {
      ravens, hits, particles := LiveRavens(ravens), LiveHits(hits), LiveParticles(particles);
    }

    /** `ravens.push(new Raven())` followed by the sort by width. */
    method SpawnRaven(spawn: RavenDraws)
      requires ValidRavenDraws(spawn)
      requires Distinct(ravens)
      modifies this`ravens
      ensures RavenStates(ravens) == SortBy(old(RavenStates(ravens)) + [NewRaven(spawn, canvasWidth, canvasHeight)], RavenWidth)
      ensures View() == old(View()).(ravens := RavenStates(ravens))
      ensures Distinct(ravens)
      ensures forall k :: 0 <= k < |ravens| ==> ravens[k] in old(ravens) || fresh(ravens[k])
    {
      var raven := new Raven(spawn, canvasWidth, canvasHeight);
      var all := ravens + [raven];
      assert RavenStates(all) == old(RavenStates(ravens)) + [raven.State()];
      SortByCorrect(all, WidthOf);
      SortByStates(all);
      PermutationDistinct(all, SortBy(all, WidthOf));
      ravens := SortBy(all, WidthOf);
      forall k | 0 <= k < |ravens|
        ensures ravens[k] in old(ravens) || fresh(ravens[k])
      {
        assert ravens[k] in multiset(all);
      }
    }
  }
}
