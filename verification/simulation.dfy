/** The global state of the game (app.js:14-22) as one value, and the two things
    that change it: a frame of `animate` and a click.  Module Game runs the same
    steps on objects and is proved to agree with these functions. */
module Simulation {
  import opened Colors
  import opened Seqs
  import opened Entities

  datatype World = World(
    score: int, timeToNextRaven: real, ravenInterval: real, lastTime: real, gameOver: bool,
    ravens: seq<RavenState>, hits: seq<HitState>, particles: seq<ParticleState>)

  /** The milliseconds between two spawns. */
  const RavenInterval: real := 500.0

  /** The state before the first frame. */
  function Initial(): World {
    World(0, 0.0, RavenInterval, 0.0, false, [], [], [])
  }

  function RavenWidth(r: RavenState): real { r.width }
  predicate RavenLive(r: RavenState) { !r.markedForRemoval }
  predicate HitLive(h: HitState) { !h.markedForRemoval }
  predicate ParticleLive(p: ParticleState) { !p.markedForRemoval }

  /** What holds of the state between frames and clicks. */
  predicate WorldInv(w: World) {
    && 0 <= w.score
    && (forall i :: 0 <= i < |w.ravens| ==> RavenInv(w.ravens[i]))
    && (forall i :: 0 <= i < |w.hits| ==> HitInv(w.hits[i]))
    && (forall i :: 0 <= i < |w.particles| ==> ParticleInv(w.particles[i]))
    && SortedBy(w.ravens, RavenWidth)
  }

  lemma InitialInv()
    ensures WorldInv(Initial())
  {
  }

  // ---------------------------------------------------------------------------
  // Click (app.js:194-208)

  /** The test at app.js:202: the raven's colour string, made from its channels
      when it was created, equals the clicked colour. */
  predicate Matches(r: RavenState, color: string) {
    ColorOf(r.randomColor) == color
  }

  /** What the loop body of the click handler does to one raven: a raven of
      colour `color` is marked, any other is left as it is. */
  function Shot(r: RavenState, color: string): RavenState {
    if Matches(r, color) then r.(markedForRemoval := true) else r
  }

  /** The hits the loop body pushes for one raven, with the draw `u`: one at
      the raven's corner when its colour is `color`, none otherwise. */
  function HitsFor(r: RavenState, color: string, u: real): seq<HitState>
    requires IsUnit(u)
  {
    if Matches(r, color) then [NewHit(r.x, r.y, r.width, u)] else []
  }

  /** The hits pushed while the first `n` ravens are visited: one for each raven
      whose colour is `color`, built from its corner and width, with the draw
      `draws(i)` for the raven at position `i`. */
  function ClickHits(rs: seq<RavenState>, color: string, draws: nat -> real, n: nat): seq<HitState>
    requires n <= |rs|
    requires forall i :: IsUnit(draws(i))
  {
    if n == 0 then []
    else ClickHits(rs, color, draws, n - 1) + HitsFor(rs[n - 1], color, draws(n - 1))
  }

  /** The number of ravens among the first `n` whose colour is `color`. */
  function MatchCount(rs: seq<RavenState>, color: string, n: nat): nat
    requires n <= |rs|
  {
    if n == 0 then 0
    else MatchCount(rs, color, n - 1) + (if Matches(rs[n - 1], color) then 1 else 0)
  }

  /** Marks every raven whose colour is `color`. */
  function MarkMatches(rs: seq<RavenState>, color: string): seq<RavenState> {
    seq(|rs|, i requires 0 <= i < |rs| => Shot(rs[i], color))
  }

  /** The click handler, for the pixel `pixel` sampled under the pointer. */
  function Click(w: World, pixel: Rgb, draws: nat -> real): World
    requires forall i :: IsUnit(draws(i))
  {
    var color := ColorOf(pixel);
    w.(ravens := MarkMatches(w.ravens, color),
       hits := w.hits + ClickHits(w.ravens, color, draws, |w.ravens|),
       score := w.score + MatchCount(w.ravens, color, |w.ravens|))
  }

  /** Comparing colour strings compares channels: a raven matches the sampled
      pixel exactly when its channels are the pixel's. */
  lemma MatchesIffSameChannels(r: RavenState, pixel: Rgb)
    ensures Matches(r, ColorOf(pixel)) <==> r.randomColor == pixel
  {
    ColorOfInjective(r.randomColor, pixel);
  }

  /** The ravens that match, as a filter. */
  function MatchesColor(color: string): RavenState -> bool {
    r => Matches(r, color)
  }

  /** The hits pushed are one per matching raven, in the order of the ravens,
      each built from that raven's corner and width; their number is the
      number of matching ravens. */
  lemma {:induction false} ClickHitsAreMatches(rs: seq<RavenState>, color: string, draws: nat -> real, n: nat)
    requires n <= |rs|
    requires forall i :: IsUnit(draws(i))
    ensures var hs, idx := ClickHits(rs, color, draws, n), KeptIndices(rs[..n], MatchesColor(color));
      && |hs| == |idx| == MatchCount(rs, color, n)
      && forall j :: 0 <= j < |idx| ==>
           idx[j] < n && Matches(rs[idx[j]], color) &&
           hs[j] == NewHit(rs[idx[j]].x, rs[idx[j]].y, rs[idx[j]].width, draws(idx[j]))
  {
    if n > 0 {
      ClickHitsAreMatches(rs, color, draws, n - 1);
      var r := rs[n - 1];
      assert rs[..n][..n - 1] == rs[..n - 1];
      assert rs[..n][n - 1] == r;
      var idx0 := KeptIndices(rs[..n - 1], MatchesColor(color));
      var hs0 := ClickHits(rs, color, draws, n - 1);
      if Matches(r, color) {
        assert KeptIndices(rs[..n], MatchesColor(color)) == idx0 + [n - 1];
        assert ClickHits(rs, color, draws, n) == hs0 + [NewHit(r.x, r.y, r.width, draws(n - 1))];
      } else {
        assert KeptIndices(rs[..n], MatchesColor(color)) == idx0;
        assert ClickHits(rs, color, draws, n) == hs0;
      }
    }
  }

  /** The click adds one point per matching raven and one hit per point, marks
      exactly the matching ravens and leaves every other raven as it was; the
      earlier hits, the particles and the timers are untouched. */
  lemma ClickFacts(w: World, pixel: Rgb, draws: nat -> real)
    requires forall i :: IsUnit(draws(i))
    ensures var w', n := Click(w, pixel, draws), MatchCount(w.ravens, ColorOf(pixel), |w.ravens|);
      && w'.score == w.score + n
      && |w'.hits| == |w.hits| + n
      && w'.hits[..|w.hits|] == w.hits
      && |w'.ravens| == |w.ravens|
      && (forall i :: 0 <= i < |w.ravens| ==>
            if Matches(w.ravens[i], ColorOf(pixel))
            then w'.ravens[i] == w.ravens[i].(markedForRemoval := true)
            else w'.ravens[i] == w.ravens[i])
      && w'.particles == w.particles && w'.gameOver == w.gameOver
      && w'.timeToNextRaven == w.timeToNextRaven && w'.lastTime == w.lastTime
  {
    ClickHitsAreMatches(w.ravens, ColorOf(pixel), draws, |w.ravens|);
  }

  /** A click on a colour no raven has changes nothing. */
  lemma {:induction false} ClickWithoutMatch(w: World, pixel: Rgb, draws: nat -> real)
    requires forall i :: IsUnit(draws(i))
    requires forall i :: 0 <= i < |w.ravens| ==> w.ravens[i].randomColor != pixel
    ensures Click(w, pixel, draws) == w
  {
    var color := ColorOf(pixel);
    forall i | 0 <= i < |w.ravens|
      ensures !Matches(w.ravens[i], color)
    {
      MatchesIffSameChannels(w.ravens[i], pixel);
    }
    NoMatchCount(w.ravens, color, draws, |w.ravens|);
    assert MarkMatches(w.ravens, color) == w.ravens;
  }

  lemma {:induction false} NoMatchCount(rs: seq<RavenState>, color: string, draws: nat -> real, n: nat)
    requires n <= |rs|
    requires forall i :: IsUnit(draws(i))
    requires forall i :: 0 <= i < n ==> !Matches(rs[i], color)
    ensures MatchCount(rs, color, n) == 0 && ClickHits(rs, color, draws, n) == []
  {
    if n > 0 {
      NoMatchCount(rs, color, draws, n - 1);
    }
  }

  /** When the ravens have pairwise different channels and the pixel is
      raven `j`'s colour, the click scores one point, adds one hit at that
      raven's place and marks that raven only. */
  lemma ClickOnUniqueColor(w: World, pixel: Rgb, draws: nat -> real, j: nat)
    requires forall i :: IsUnit(draws(i))
    requires forall a, b :: 0 <= a < b < |w.ravens| ==> w.ravens[a].randomColor != w.ravens[b].randomColor
    requires j < |w.ravens| && w.ravens[j].randomColor == pixel
    ensures var w', r := Click(w, pixel, draws), w.ravens[j];
      && w'.score == w.score + 1
      && w'.hits == w.hits + [NewHit(r.x, r.y, r.width, draws(j))]
      && w'.ravens == w.ravens[j := r.(markedForRemoval := true)]
  {
    var color := ColorOf(pixel);
    var rs := w.ravens;
    forall i | 0 <= i < |rs|
      ensures Matches(rs[i], color) <==> i == j
    {
      MatchesIffSameChannels(rs[i], pixel);
    }
    OneMatch(rs, color, draws, j, |rs|);
    assert MarkMatches(rs, color) == rs[j := rs[j].(markedForRemoval := true)];
  }

  lemma {:induction false} OneMatch(rs: seq<RavenState>, color: string, draws: nat -> real, j: nat, n: nat)
    requires j < n <= |rs|
    requires forall i :: IsUnit(draws(i))
    requires forall i :: 0 <= i < n ==> (Matches(rs[i], color) <==> i == j)
    ensures MatchCount(rs, color, n) == 1
    ensures ClickHits(rs, color, draws, n) == [NewHit(rs[j].x, rs[j].y, rs[j].width, draws(j))]
  {
    if n - 1 == j {
      NoMatchCount(rs, color, draws, j);
    } else {
      OneMatch(rs, color, draws, j, n - 1);
    }
  }

  /** A click keeps the invariant: marking changes no width or channel, and
      every new hit starts in range. */
  lemma ClickPreservesInv(w: World, pixel: Rgb, draws: nat -> real)
    requires forall i :: IsUnit(draws(i))
    requires WorldInv(w)
    ensures WorldInv(Click(w, pixel, draws))
  {
    var color := ColorOf(pixel);
    var w' := Click(w, pixel, draws);
    MarkMatchesInv(w.ravens, color);
    ClickHitsInv(w.ravens, color, draws, |w.ravens|);
    var added := ClickHits(w.ravens, color, draws, |w.ravens|);
    assert w'.hits == w.hits + added;
    assert forall i :: 0 <= i < |w'.hits| ==> HitInv(w'.hits[i]) by {
      forall i | 0 <= i < |w'.hits|
        ensures HitInv(w'.hits[i])
      {
        if i >= |w.hits| {
          assert w'.hits[i] == added[i - |w.hits|];
        }
      }
    }
  }

  /** Marking keeps every raven in range and the order by width. */
  lemma MarkMatchesInv(rs: seq<RavenState>, color: string)
    requires forall i :: 0 <= i < |rs| ==> RavenInv(rs[i])
    requires SortedBy(rs, RavenWidth)
    ensures var rs' := MarkMatches(rs, color);
      (forall i :: 0 <= i < |rs'| ==> RavenInv(rs'[i])) && SortedBy(rs', RavenWidth)
  {
    var rs' := MarkMatches(rs, color);
    forall a, b | 0 <= a < b < |rs'|
      ensures RavenWidth(rs'[a]) <= RavenWidth(rs'[b])
    {
      assert RavenWidth(rs[a]) <= RavenWidth(rs[b]);
    }
  }

  /** Every hit a click adds starts in range. */
  lemma {:induction false} ClickHitsInv(rs: seq<RavenState>, color: string, draws: nat -> real, n: nat)
    requires n <= |rs|
    requires forall i :: IsUnit(draws(i))
    ensures forall i :: 0 <= i < |ClickHits(rs, color, draws, n)| ==> HitInv(ClickHits(rs, color, draws, n)[i])
  {
    if n > 0 {
      ClickHitsInv(rs, color, draws, n - 1);
    }
  }

  // ---------------------------------------------------------------------------
  // animate (app.js:210-242)

  /** The spawn timer exceeds the interval on this frame. */
  predicate Spawns(w: World, timestamp: real) {
    w.timeToNextRaven + (timestamp - w.lastTime) > w.ravenInterval
  }

  /** The ravens after the spawn step: a new raven pushed and the array sorted
      by width when the timer fired, unchanged otherwise. */
  function SpawnStep(w: World, timestamp: real, spawn: RavenDraws, canvasWidth: real, canvasHeight: real): seq<RavenState>
    requires ValidRavenDraws(spawn)
  {
    if Spawns(w, timestamp)
    then SortBy(w.ravens + [NewRaven(spawn, canvasWidth, canvasHeight)], RavenWidth)
    else w.ravens
  }

  function StepParticles(ps: seq<ParticleState>): seq<ParticleState> {
    seq(|ps|, i requires 0 <= i < |ps| => ParticleStep(ps[i]))
  }

  function StepRavens(rs: seq<RavenState>, deltaTime: real, canvasHeight: real): seq<RavenState> {
    seq(|rs|, i requires 0 <= i < |rs| => RavenStep(rs[i], deltaTime, canvasHeight))
  }

  function StepHits(hs: seq<HitState>, deltaTime: real): seq<HitState> {
    seq(|hs|, i requires 0 <= i < |hs| => HitStep(hs[i], deltaTime))
  }

  /** The particles the first `n` ravens append while they update; the raven at
      position `i` uses the draws `trails(i)`. */
  function Trails(rs: seq<RavenState>, deltaTime: real, canvasHeight: real,
                  trails: nat -> nat -> ParticleDraws, n: nat): seq<ParticleState>
    requires n <= |rs|
    requires forall i, j :: ValidParticleDraws(trails(i)(j))
  {
    if n == 0 then []
    else Trails(rs, deltaTime, canvasHeight, trails, n - 1) + Trail(rs[n - 1], deltaTime, canvasHeight, trails(n - 1))
  }

  /** Some raven's update leaves it off the left edge. */
  predicate AnyMissed(rs: seq<RavenState>, deltaTime: real, canvasHeight: real) {
    exists i :: 0 <= i < |rs| && Missed(RavenStep(rs[i], deltaTime, canvasHeight))
  }

  /** Extending the visited prefix by one raven. */
  lemma MissedPrefix(rs: seq<RavenState>, deltaTime: real, canvasHeight: real, i: nat)
    requires i < |rs|
    ensures AnyMissed(rs[..i + 1], deltaTime, canvasHeight) <==>
      AnyMissed(rs[..i], deltaTime, canvasHeight) || Missed(RavenStep(rs[i], deltaTime, canvasHeight))
  {
    assert rs[..i + 1] == rs[..i] + [rs[i]];
  }

  /** The three phases of a frame, each as a change of the world: the timers
      and the spawn; the update of every entity (ravens append their trails);
      and the filters. */
  function TickWorld(w: World, timestamp: real, spawn: RavenDraws, canvasWidth: real, canvasHeight: real): World
    requires ValidRavenDraws(spawn)
  {
    var timer := w.timeToNextRaven + (timestamp - w.lastTime);
    w.(lastTime := timestamp,
       timeToNextRaven := if timer > w.ravenInterval then 0.0 else timer,
       ravens := SpawnStep(w, timestamp, spawn, canvasWidth, canvasHeight))
  }

  /** The two cases of the spawn step. */
  lemma SpawnStepCases(w: World, timestamp: real, spawn: RavenDraws, canvasWidth: real, canvasHeight: real)
    requires ValidRavenDraws(spawn)
    ensures Spawns(w, timestamp) ==>
      (SpawnStep(w, timestamp, spawn, canvasWidth, canvasHeight) ==
       SortBy(w.ravens + [NewRaven(spawn, canvasWidth, canvasHeight)], RavenWidth))
    ensures !Spawns(w, timestamp) ==> SpawnStep(w, timestamp, spawn, canvasWidth, canvasHeight) == w.ravens
  {
  }

  function UpdateWorld(w: World, deltaTime: real, trails: nat -> nat -> ParticleDraws, canvasHeight: real): World
    requires forall i, j :: ValidParticleDraws(trails(i)(j))
  {
    w.(ravens := StepRavens(w.ravens, deltaTime, canvasHeight),
       hits := StepHits(w.hits, deltaTime),
       particles := StepParticles(w.particles) + Trails(w.ravens, deltaTime, canvasHeight, trails, |w.ravens|),
       gameOver := w.gameOver || AnyMissed(w.ravens, deltaTime, canvasHeight))
  }

  function SweepWorld(w: World): World {
    w.(ravens := Filter(w.ravens, RavenLive), hits := Filter(w.hits, HitLive),
       particles := Filter(w.particles, ParticleLive))
  }

  /** One call of `animate(timestamp)`: the three phases in order, with the
      frame time measured at the start. */
  function Frame(w: World, timestamp: real, spawn: RavenDraws, trails: nat -> nat -> ParticleDraws,
                 canvasWidth: real, canvasHeight: real): World
    requires ValidRavenDraws(spawn)
    requires forall i, j :: ValidParticleDraws(trails(i)(j))
  {
    var deltaTime := timestamp - w.lastTime;
    SweepWorld(UpdateWorld(TickWorld(w, timestamp, spawn, canvasWidth, canvasHeight), deltaTime, trails, canvasHeight))
  }

  // What a frame makes of each part of the world, one part per lemma, so that
  // a proof about one part does not have to unfold the others.

  lemma FrameRavens(w: World, timestamp: real, spawn: RavenDraws, trails: nat -> nat -> ParticleDraws,
                    canvasWidth: real, canvasHeight: real)
    requires ValidRavenDraws(spawn)
    requires forall i, j :: ValidParticleDraws(trails(i)(j))
    ensures Frame(w, timestamp, spawn, trails, canvasWidth, canvasHeight).ravens ==
            Filter(StepRavens(SpawnStep(w, timestamp, spawn, canvasWidth, canvasHeight), timestamp - w.lastTime,
                              canvasHeight), RavenLive)
  {
    var w1 := TickWorld(w, timestamp, spawn, canvasWidth, canvasHeight);
    var dt := timestamp - w.lastTime;
    var w2 := UpdateWorld(w1, dt, trails, canvasHeight);
    PhasesAreFrame(w, timestamp, spawn, trails, canvasWidth, canvasHeight, w1, dt, w2);
  }

  lemma FrameHits(w: World, timestamp: real, spawn: RavenDraws, trails: nat -> nat -> ParticleDraws,
                  canvasWidth: real, canvasHeight: real)
    requires ValidRavenDraws(spawn)
    requires forall i, j :: ValidParticleDraws(trails(i)(j))
    ensures Frame(w, timestamp, spawn, trails, canvasWidth, canvasHeight).hits ==
            Filter(StepHits(w.hits, timestamp - w.lastTime), HitLive)
  {
    var w1 := TickWorld(w, timestamp, spawn, canvasWidth, canvasHeight);
    var dt := timestamp - w.lastTime;
    var w2 := UpdateWorld(w1, dt, trails, canvasHeight);
    PhasesAreFrame(w, timestamp, spawn, trails, canvasWidth, canvasHeight, w1, dt, w2);
  }

  /** A frame is its three phases, with the frame time measured before the first. */
  lemma PhasesAreFrame(w: World, timestamp: real, spawn: RavenDraws, trails: nat -> nat -> ParticleDraws,
                       canvasWidth: real, canvasHeight: real, w1: World, deltaTime: real, w2: World)
    requires ValidRavenDraws(spawn)
    requires forall i, j :: ValidParticleDraws(trails(i)(j))
    requires w1 == TickWorld(w, timestamp, spawn, canvasWidth, canvasHeight)
    requires deltaTime == timestamp - w.lastTime
    requires w2 == UpdateWorld(w1, deltaTime, trails, canvasHeight)
    ensures Frame(w, timestamp, spawn, trails, canvasWidth, canvasHeight) == SweepWorld(w2)
  {
  }

  lemma FrameParticles(w: World, timestamp: real, spawn: RavenDraws, trails: nat -> nat -> ParticleDraws,
                       canvasWidth: real, canvasHeight: real)
    requires ValidRavenDraws(spawn)
    requires forall i, j :: ValidParticleDraws(trails(i)(j))
    ensures var rs0 := SpawnStep(w, timestamp, spawn, canvasWidth, canvasHeight);
      Frame(w, timestamp, spawn, trails, canvasWidth, canvasHeight).particles ==
      Filter(StepParticles(w.particles) + Trails(rs0, timestamp - w.lastTime, canvasHeight, trails, |rs0|),
             ParticleLive)
  {
    var w1 := TickWorld(w, timestamp, spawn, canvasWidth, canvasHeight);
    var dt := timestamp - w.lastTime;
    var w2 := UpdateWorld(w1, dt, trails, canvasHeight);
    PhasesAreFrame(w, timestamp, spawn, trails, canvasWidth, canvasHeight, w1, dt, w2);
    TickLists(w, timestamp, spawn, canvasWidth, canvasHeight, w1);
    UpdatedParticles(w1, dt, trails, canvasHeight, w2);
    SweptParticles(w2);
  }

  /** The spawn phase changes only the ravens among the lists. */
  lemma TickLists(w: World, timestamp: real, spawn: RavenDraws, canvasWidth: real, canvasHeight: real, w1: World)
    requires ValidRavenDraws(spawn)
    requires w1 == TickWorld(w, timestamp, spawn, canvasWidth, canvasHeight)
    ensures w1.ravens == SpawnStep(w, timestamp, spawn, canvasWidth, canvasHeight)
    ensures w1.hits == w.hits && w1.particles == w.particles
  {
  }

  lemma UpdatedParticles(w1: World, deltaTime: real, trails: nat -> nat -> ParticleDraws, canvasHeight: real,
                         w2: World)
    requires forall i, j :: ValidParticleDraws(trails(i)(j))
    requires w2 == UpdateWorld(w1, deltaTime, trails, canvasHeight)
    ensures w2.particles == StepParticles(w1.particles) + Trails(w1.ravens, deltaTime, canvasHeight, trails, |w1.ravens|)
  {
  }

  lemma SweptParticles(w2: World)
    ensures SweepWorld(w2).particles == Filter(w2.particles, ParticleLive)
  {
  }

  lemma FrameFlags(w: World, timestamp: real, spawn: RavenDraws, trails: nat -> nat -> ParticleDraws,
                   canvasWidth: real, canvasHeight: real)
    requires ValidRavenDraws(spawn)
    requires forall i, j :: ValidParticleDraws(trails(i)(j))
    ensures var w', rs0 := Frame(w, timestamp, spawn, trails, canvasWidth, canvasHeight),
                           SpawnStep(w, timestamp, spawn, canvasWidth, canvasHeight);
      var timer := w.timeToNextRaven + (timestamp - w.lastTime);
      && w'.gameOver == (w.gameOver || AnyMissed(rs0, timestamp - w.lastTime, canvasHeight))
      && w'.score == w.score && w'.ravenInterval == w.ravenInterval && w'.lastTime == timestamp
      && w'.timeToNextRaven == if timer > w.ravenInterval then 0.0 else timer
  {
    var w1 := TickWorld(w, timestamp, spawn, canvasWidth, canvasHeight);
    var dt := timestamp - w.lastTime;
    var w2 := UpdateWorld(w1, dt, trails, canvasHeight);
    PhasesAreFrame(w, timestamp, spawn, trails, canvasWidth, canvasHeight, w1, dt, w2);
  }

  /** At most one raven is spawned per frame, exactly when the timer exceeds the
      interval, and then the timer restarts; the spawned array is sorted by
      width and is a permutation of the old ravens and the new one. */
  lemma SpawnFacts(w: World, timestamp: real, spawn: RavenDraws, canvasWidth: real, canvasHeight: real,
                   trails: nat -> nat -> ParticleDraws)
    requires ValidRavenDraws(spawn)
    requires forall i, j :: ValidParticleDraws(trails(i)(j))
    ensures var rs, w' := SpawnStep(w, timestamp, spawn, canvasWidth, canvasHeight),
                          Frame(w, timestamp, spawn, trails, canvasWidth, canvasHeight);
      && (Spawns(w, timestamp) ==>
            && multiset(rs) == multiset(w.ravens) + multiset{NewRaven(spawn, canvasWidth, canvasHeight)}
            && SortedBy(rs, RavenWidth)
            && w'.timeToNextRaven == 0.0)
      && (!Spawns(w, timestamp) ==>
            rs == w.ravens && w'.timeToNextRaven == w.timeToNextRaven + (timestamp - w.lastTime))
      && |rs| <= |w.ravens| + 1
      && w'.lastTime == timestamp && w'.score == w.score && w'.ravenInterval == w.ravenInterval
  {
    FrameFlags(w, timestamp, spawn, trails, canvasWidth, canvasHeight);
    if Spawns(w, timestamp) {
      SortByCorrect(w.ravens + [NewRaven(spawn, canvasWidth, canvasHeight)], RavenWidth);
    }
  }

  /** After the filters no marked raven, hit or particle remains. */
  lemma FrameRemovesMarked(w: World, timestamp: real, spawn: RavenDraws, trails: nat -> nat -> ParticleDraws,
                           canvasWidth: real, canvasHeight: real)
    requires ValidRavenDraws(spawn)
    requires forall i, j :: ValidParticleDraws(trails(i)(j))
    ensures var w' := Frame(w, timestamp, spawn, trails, canvasWidth, canvasHeight);
      && (forall i :: 0 <= i < |w'.ravens| ==> !w'.ravens[i].markedForRemoval)
      && (forall i :: 0 <= i < |w'.hits| ==> !w'.hits[i].markedForRemoval)
      && (forall i :: 0 <= i < |w'.particles| ==> !w'.particles[i].markedForRemoval)
  {
    var w1 := TickWorld(w, timestamp, spawn, canvasWidth, canvasHeight);
    var dt := timestamp - w.lastTime;
    var w2 := UpdateWorld(w1, dt, trails, canvasHeight);
    PhasesAreFrame(w, timestamp, spawn, trails, canvasWidth, canvasHeight, w1, dt, w2);
    SweepRemovesMarked(w2);
  }

  /** The filters leave no marked raven, hit or particle. */
  lemma SweepRemovesMarked(w: World)
    ensures var w' := SweepWorld(w);
      && (forall i :: 0 <= i < |w'.ravens| ==> !w'.ravens[i].markedForRemoval)
      && (forall i :: 0 <= i < |w'.hits| ==> !w'.hits[i].markedForRemoval)
      && (forall i :: 0 <= i < |w'.particles| ==> !w'.particles[i].markedForRemoval)
  {
    LiveRavensUnmarked(w.ravens);
    LiveHitsUnmarked(w.hits);
    LiveParticlesUnmarked(w.particles);
  }

  lemma {:induction false} LiveRavensUnmarked(rs: seq<RavenState>)
    ensures forall i :: 0 <= i < |Filter(rs, RavenLive)| ==> !Filter(rs, RavenLive)[i].markedForRemoval
  {
    if rs != [] {
      LiveRavensUnmarked(rs[..|rs| - 1]);
    }
  }

  lemma {:induction false} LiveHitsUnmarked(hs: seq<HitState>)
    ensures forall i :: 0 <= i < |Filter(hs, HitLive)| ==> !Filter(hs, HitLive)[i].markedForRemoval
  {
    if hs != [] {
      LiveHitsUnmarked(hs[..|hs| - 1]);
    }
  }

  lemma {:induction false} LiveParticlesUnmarked(ps: seq<ParticleState>)
    ensures forall i :: 0 <= i < |Filter(ps, ParticleLive)| ==> !Filter(ps, ParticleLive)[i].markedForRemoval
  {
    if ps != [] {
      LiveParticlesUnmarked(ps[..|ps| - 1]);
    }
  }

  /** The surviving ravens of a frame are exactly the unmarked updated ones, in
      the order (by width) they were updated in. */
  lemma FrameKeepsRavenOrder(w: World, timestamp: real, spawn: RavenDraws, trails: nat -> nat -> ParticleDraws,
                             canvasWidth: real, canvasHeight: real)
    requires ValidRavenDraws(spawn)
    requires forall i, j :: ValidParticleDraws(trails(i)(j))
    ensures var rs := StepRavens(SpawnStep(w, timestamp, spawn, canvasWidth, canvasHeight), timestamp - w.lastTime, canvasHeight);
      FilteredAt(Frame(w, timestamp, spawn, trails, canvasWidth, canvasHeight).ravens, rs, RavenLive, KeptIndices(rs, RavenLive))
  {
    var rs := StepRavens(SpawnStep(w, timestamp, spawn, canvasWidth, canvasHeight), timestamp - w.lastTime, canvasHeight);
    FrameRavens(w, timestamp, spawn, trails, canvasWidth, canvasHeight);
    FilterKeepsOrder(rs, RavenLive);
  }

  /** The surviving hits are exactly the unmarked updated ones, in order. */
  lemma FrameKeepsHitOrder(w: World, timestamp: real, spawn: RavenDraws, trails: nat -> nat -> ParticleDraws,
                           canvasWidth: real, canvasHeight: real)
    requires ValidRavenDraws(spawn)
    requires forall i, j :: ValidParticleDraws(trails(i)(j))
    ensures var hs := StepHits(w.hits, timestamp - w.lastTime);
      FilteredAt(Frame(w, timestamp, spawn, trails, canvasWidth, canvasHeight).hits, hs, HitLive, KeptIndices(hs, HitLive))
  {
    FrameHits(w, timestamp, spawn, trails, canvasWidth, canvasHeight);
    FilterKeepsOrder(StepHits(w.hits, timestamp - w.lastTime), HitLive);
  }

  /** The surviving particles are exactly the unmarked ones among the updated
      old particles followed by the new trails, in that order. */
  lemma FrameKeepsParticleOrder(w: World, timestamp: real, spawn: RavenDraws, trails: nat -> nat -> ParticleDraws,
                                canvasWidth: real, canvasHeight: real)
    requires ValidRavenDraws(spawn)
    requires forall i, j :: ValidParticleDraws(trails(i)(j))
    ensures var rs0, dt := SpawnStep(w, timestamp, spawn, canvasWidth, canvasHeight), timestamp - w.lastTime;
      var ps := StepParticles(w.particles) + Trails(rs0, dt, canvasHeight, trails, |rs0|);
      FilteredAt(Frame(w, timestamp, spawn, trails, canvasWidth, canvasHeight).particles, ps, ParticleLive,
                 KeptIndices(ps, ParticleLive))
  {
    var rs0, dt := SpawnStep(w, timestamp, spawn, canvasWidth, canvasHeight), timestamp - w.lastTime;
    FrameParticles(w, timestamp, spawn, trails, canvasWidth, canvasHeight);
    FilterKeepsOrder(StepParticles(w.particles) + Trails(rs0, dt, canvasHeight, trails, |rs0|), ParticleLive);
  }

  /** The game ends on a frame exactly when some raven's update leaves it off
      the left edge (or it had already ended); the flag is never reset. */
  lemma FrameGameOver(w: World, timestamp: real, spawn: RavenDraws, trails: nat -> nat -> ParticleDraws,
                      canvasWidth: real, canvasHeight: real)
    requires ValidRavenDraws(spawn)
    requires forall i, j :: ValidParticleDraws(trails(i)(j))
    ensures var w', dt := Frame(w, timestamp, spawn, trails, canvasWidth, canvasHeight), timestamp - w.lastTime;
      var rs := SpawnStep(w, timestamp, spawn, canvasWidth, canvasHeight);
      && (w'.gameOver <==> w.gameOver || exists i :: 0 <= i < |rs| && Missed(RavenStep(rs[i], dt, canvasHeight)))
      && (w.gameOver ==> w'.gameOver)
  {
    FrameFlags(w, timestamp, spawn, trails, canvasWidth, canvasHeight);
  }

  /** A raven that has left the canvas on the left is gone after the frame. */
  lemma FrameDropsMissed(w: World, timestamp: real, spawn: RavenDraws, trails: nat -> nat -> ParticleDraws,
                         canvasWidth: real, canvasHeight: real)
    requires ValidRavenDraws(spawn)
    requires forall i, j :: ValidParticleDraws(trails(i)(j))
    ensures var w' := Frame(w, timestamp, spawn, trails, canvasWidth, canvasHeight);
      forall i :: 0 <= i < |w'.ravens| ==> !Missed(w'.ravens[i])
  {
    var rs := StepRavens(SpawnStep(w, timestamp, spawn, canvasWidth, canvasHeight), timestamp - w.lastTime, canvasHeight);
    FrameRavens(w, timestamp, spawn, trails, canvasWidth, canvasHeight);
    NoLiveMissed(rs);
  }

  /** An updated raven that is unmarked has not left the canvas on the left. */
  lemma NoLiveMissed(rs: seq<RavenState>)
    requires forall i :: 0 <= i < |rs| ==> Missed(rs[i]) ==> rs[i].markedForRemoval
    ensures forall i :: 0 <= i < |Filter(rs, RavenLive)| ==> !Missed(Filter(rs, RavenLive)[i])
  {
    FilterMembers(rs, RavenLive);
    var f := Filter(rs, RavenLive);
    forall i | 0 <= i < |f|
      ensures !Missed(f[i])
    {
      assert f[i] in f;
    }
  }

  lemma {:induction false} TrailsInv(rs: seq<RavenState>, deltaTime: real, canvasHeight: real,
                                     trails: nat -> nat -> ParticleDraws, n: nat)
    requires n <= |rs|
    requires forall i :: 0 <= i < |rs| ==> RavenInv(rs[i])
    requires forall i, j :: ValidParticleDraws(trails(i)(j))
    ensures forall k :: 0 <= k < |Trails(rs, deltaTime, canvasHeight, trails, n)| ==>
      ParticleInv(Trails(rs, deltaTime, canvasHeight, trails, n)[k])
  {
    if n > 0 {
      TrailsInv(rs, deltaTime, canvasHeight, trails, n - 1);
      TrailFacts(rs[n - 1], deltaTime, canvasHeight, trails(n - 1));
    }
  }

  /** The spawn step keeps every raven in range and the array sorted by width. */
  lemma SpawnStepInv(w: World, timestamp: real, spawn: RavenDraws, canvasWidth: real, canvasHeight: real)
    requires ValidRavenDraws(spawn)
    requires WorldInv(w)
    ensures var rs := SpawnStep(w, timestamp, spawn, canvasWidth, canvasHeight);
      (forall i :: 0 <= i < |rs| ==> RavenInv(rs[i])) && SortedBy(rs, RavenWidth)
  {
    var rs := SpawnStep(w, timestamp, spawn, canvasWidth, canvasHeight);
    if Spawns(w, timestamp) {
      var all := w.ravens + [NewRaven(spawn, canvasWidth, canvasHeight)];
      SortByCorrect(all, RavenWidth);
      forall i | 0 <= i < |rs|
        ensures RavenInv(rs[i])
      {
        assert rs[i] in multiset(all);
      }
    }
  }

  /** Updating every raven keeps each in range and the array sorted, as no
      update changes a width. */
  lemma StepRavensInv(rs: seq<RavenState>, deltaTime: real, canvasHeight: real)
    requires forall i :: 0 <= i < |rs| ==> RavenInv(rs[i])
    requires SortedBy(rs, RavenWidth)
    ensures var rs' := StepRavens(rs, deltaTime, canvasHeight);
      (forall i :: 0 <= i < |rs'| ==> RavenInv(rs'[i])) && SortedBy(rs', RavenWidth)
  {
    var rs' := StepRavens(rs, deltaTime, canvasHeight);
    forall i | 0 <= i < |rs|
      ensures RavenInv(rs'[i]) && rs'[i].width == rs[i].width
    {
      RavenStepFacts(rs[i], deltaTime, canvasHeight);
    }
  }

  /** A frame keeps the invariant: ravens stay in range and sorted by width,
      hits stay in range, and particles (old and new) stay marked exactly when
      their radius is below zero.  Each phase keeps it. */
  lemma FramePreservesInv(w: World, timestamp: real, spawn: RavenDraws, trails: nat -> nat -> ParticleDraws,
                          canvasWidth: real, canvasHeight: real)
    requires ValidRavenDraws(spawn)
    requires forall i, j :: ValidParticleDraws(trails(i)(j))
    requires WorldInv(w)
    ensures WorldInv(Frame(w, timestamp, spawn, trails, canvasWidth, canvasHeight))
  {
    var w1 := TickWorld(w, timestamp, spawn, canvasWidth, canvasHeight);
    var dt := timestamp - w.lastTime;
    PhasesMakeFrame(w, timestamp, spawn, trails, canvasWidth, canvasHeight, w1, dt,
                    SweepWorld(UpdateWorld(w1, dt, trails, canvasHeight)));
  }

  /** The phases run one after the other make up the frame, and the state
      they reach keeps the invariant. */
  lemma PhasesMakeFrame(w: World, timestamp: real, spawn: RavenDraws, trails: nat -> nat -> ParticleDraws,
                        canvasWidth: real, canvasHeight: real, w1: World, deltaTime: real, w': World)
    requires ValidRavenDraws(spawn)
    requires forall i, j :: ValidParticleDraws(trails(i)(j))
    requires WorldInv(w)
    requires w1 == TickWorld(w, timestamp, spawn, canvasWidth, canvasHeight)
    requires deltaTime == timestamp - w.lastTime
    requires w' == SweepWorld(UpdateWorld(w1, deltaTime, trails, canvasHeight))
    ensures w' == Frame(w, timestamp, spawn, trails, canvasWidth, canvasHeight) && WorldInv(w')
  {
    TickPreservesInv(w, timestamp, spawn, canvasWidth, canvasHeight);
    PhasesAreFrame(w, timestamp, spawn, trails, canvasWidth, canvasHeight, w1, deltaTime,
                   UpdateWorld(w1, deltaTime, trails, canvasHeight));
    UpdateThenSweepInv(w1, deltaTime, trails, canvasHeight);
  }

  lemma UpdateThenSweepInv(w: World, deltaTime: real, trails: nat -> nat -> ParticleDraws, canvasHeight: real)
    requires forall i, j :: ValidParticleDraws(trails(i)(j))
    requires WorldInv(w)
    ensures WorldInv(SweepWorld(UpdateWorld(w, deltaTime, trails, canvasHeight)))
  {
    UpdatePreservesInv(w, deltaTime, trails, canvasHeight);
    SweepPreservesInv(UpdateWorld(w, deltaTime, trails, canvasHeight));
  }

  lemma TickPreservesInv(w: World, timestamp: real, spawn: RavenDraws, canvasWidth: real, canvasHeight: real)
    requires ValidRavenDraws(spawn)
    requires WorldInv(w)
    ensures WorldInv(TickWorld(w, timestamp, spawn, canvasWidth, canvasHeight))
  {
    SpawnStepInv(w, timestamp, spawn, canvasWidth, canvasHeight);
  }

  lemma UpdatePreservesInv(w: World, deltaTime: real, trails: nat -> nat -> ParticleDraws, canvasHeight: real)
    requires forall i, j :: ValidParticleDraws(trails(i)(j))
    requires WorldInv(w)
    ensures WorldInv(UpdateWorld(w, deltaTime, trails, canvasHeight))
  {
    var w' := UpdateWorld(w, deltaTime, trails, canvasHeight);
    StepRavensInv(w.ravens, deltaTime, canvasHeight);
    forall i | 0 <= i < |w'.hits|
      ensures HitInv(w'.hits[i])
    {
      HitStepFacts(w.hits[i], deltaTime);
    }
    var stepped := StepParticles(w.particles);
    var trail := Trails(w.ravens, deltaTime, canvasHeight, trails, |w.ravens|);
    TrailsInv(w.ravens, deltaTime, canvasHeight, trails, |w.ravens|);
    forall i | 0 <= i < |w'.particles|
      ensures ParticleInv(w'.particles[i])
    {
      if i < |stepped| {
        ParticleStepFacts(w.particles[i]);
      } else {
        assert w'.particles[i] == trail[i - |stepped|];
      }
    }
  }

  lemma SweepPreservesInv(w: World)
    requires WorldInv(w)
    ensures WorldInv(SweepWorld(w))
  {
    FilterSorted(w.ravens, RavenWidth, RavenLive);
    FilterPreserves(w.ravens, RavenLive, RavenInv);
    FilterPreserves(w.hits, HitLive, HitInv);
    FilterPreserves(w.particles, ParticleLive, ParticleInv);
  }

  /** The first spawn of an empty game: exactly one raven, which the frame keeps
      on a canvas of non-negative width; no score and no hit. More than 500 ms
      have passed and a flap interval is below 100 ms, so the raven flaps in
      that same frame and leaves a trail exactly when it has one. */
  lemma FirstSpawn(timestamp: real, spawn: RavenDraws, trails: nat -> nat -> ParticleDraws,
                   canvasWidth: real, canvasHeight: real)
    requires ValidRavenDraws(spawn)
    requires forall i, j :: ValidParticleDraws(trails(i)(j))
    requires timestamp > RavenInterval && 0.0 <= canvasWidth
    ensures var w', r := Frame(Initial(), timestamp, spawn, trails, canvasWidth, canvasHeight),
                        NewRaven(spawn, canvasWidth, canvasHeight);
      && w'.ravens == [RavenStep(r, timestamp, canvasHeight)]
      && w'.score == 0 && w'.hits == [] && !w'.gameOver
      && |w'.particles| == (if r.hasTrail then TrailLength else 0)
  {
    var r := NewRaven(spawn, canvasWidth, canvasHeight);
    var w1 := TickWorld(Initial(), timestamp, spawn, canvasWidth, canvasHeight);
    FirstTick(timestamp, spawn, canvasWidth, canvasHeight, w1);
    FirstUpdate(w1, r, timestamp, trails, canvasHeight);
    assert timestamp - Initial().lastTime == timestamp;
  }

  /** The update and the sweep of a frame whose world holds only a raven
      that has just been made, more than 500 ms after the start. */
  lemma FirstUpdate(w1: World, r: RavenState, timestamp: real, trails: nat -> nat -> ParticleDraws,
                    canvasHeight: real)
    requires forall i, j :: ValidParticleDraws(trails(i)(j))
    requires RavenInv(r) && 0.0 <= r.x && !r.markedForRemoval
    requires r.timeSinceFlap == 0.0 && timestamp > RavenInterval
    requires w1.ravens == [r] && w1.hits == [] && w1.particles == [] && w1.score == 0 && !w1.gameOver
    ensures var w' := SweepWorld(UpdateWorld(w1, timestamp, trails, canvasHeight));
      && w'.ravens == [RavenStep(r, timestamp, canvasHeight)]
      && w'.score == 0 && w'.hits == [] && !w'.gameOver
      && |w'.particles| == (if r.hasTrail then TrailLength else 0)
  {
    FirstTrail(r, timestamp, canvasHeight, trails(0));
    var w2 := UpdateWorld(w1, timestamp, trails, canvasHeight);
    SoleRavenUpdate(w1, r, timestamp, trails, canvasHeight, w2);
    SoleRavenSweep(w2);
  }

  /** A raven whose flap timer is still at zero flaps after more than 500 ms,
      so its update emits a full trail exactly when it has one. */
  lemma FirstTrail(r: RavenState, deltaTime: real, canvasHeight: real, jitter: nat -> ParticleDraws)
    requires RavenInv(r) && r.timeSinceFlap == 0.0 && deltaTime > RavenInterval
    requires forall i :: ValidParticleDraws(jitter(i))
    ensures |Trail(r, deltaTime, canvasHeight, jitter)| == (if r.hasTrail then TrailLength else 0)
  {
    assert Flaps(r, deltaTime);
    TrailFacts(r, deltaTime, canvasHeight, jitter);
  }

  /** The spawn step of the first frame pushes the one new raven. */
  lemma FirstTick(timestamp: real, spawn: RavenDraws, canvasWidth: real, canvasHeight: real, w1: World)
    requires ValidRavenDraws(spawn)
    requires timestamp > RavenInterval
    requires w1 == TickWorld(Initial(), timestamp, spawn, canvasWidth, canvasHeight)
    ensures w1.ravens == [NewRaven(spawn, canvasWidth, canvasHeight)]
    ensures w1.hits == [] && w1.particles == [] && w1.score == 0 && !w1.gameOver
  {
    var r := NewRaven(spawn, canvasWidth, canvasHeight);
    assert Spawns(Initial(), timestamp);
    assert Initial().ravens + [r] == [r];
    assert SortBy([r], RavenWidth) == InsertBy(SortBy([], RavenWidth), r, RavenWidth) == [r] by {
      assert [r][..0] == [];
    }
  }

  /** Updating a world with one raven and nothing else: the raven moves and
      leaves its trail, if any, as the only particles. */
  lemma SoleRavenUpdate(w1: World, r: RavenState, deltaTime: real, trails: nat -> nat -> ParticleDraws,
                        canvasHeight: real, w2: World)
    requires forall i, j :: ValidParticleDraws(trails(i)(j))
    requires RavenInv(r) && 0.0 <= r.x && !r.markedForRemoval
    requires w1.ravens == [r] && w1.hits == [] && w1.particles == [] && !w1.gameOver
    requires w2 == UpdateWorld(w1, deltaTime, trails, canvasHeight)
    ensures var q := RavenStep(r, deltaTime, canvasHeight);
      && w2.ravens == [q] && !q.markedForRemoval && w2.hits == [] && !w2.gameOver
      && w2.particles == Trail(r, deltaTime, canvasHeight, trails(0))
      && (forall i :: 0 <= i < |w2.particles| ==> !w2.particles[i].markedForRemoval)
      && w2.score == w1.score
  {
    var q := RavenStep(r, deltaTime, canvasHeight);
    RavenStepFacts(r, deltaTime, canvasHeight);
    assert StepRavens([r], deltaTime, canvasHeight) == [q];
    var tr := Trail(r, deltaTime, canvasHeight, trails(0));
    TrailFacts(r, deltaTime, canvasHeight, trails(0));
    assert Trails([r], deltaTime, canvasHeight, trails, 1) == tr;
    assert StepParticles([]) + tr == tr;
    assert !AnyMissed([r], deltaTime, canvasHeight);
  }

  /** The filters keep a world whose one raven and particles are unmarked. */
  lemma SoleRavenSweep(w2: World)
    requires |w2.ravens| == 1 && !w2.ravens[0].markedForRemoval && w2.hits == []
    requires forall i :: 0 <= i < |w2.particles| ==> !w2.particles[i].markedForRemoval
    ensures SweepWorld(w2) == w2
  {
    assert Filter(w2.ravens, RavenLive) == w2.ravens by {
      assert w2.ravens[..0] == [];
    }
    FilterAll(w2.particles, ParticleLive);
  }

}
