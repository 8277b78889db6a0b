# Raven shooter: a verified model of the game core

`app.js` is a small canvas game. Ravens fly in from the right edge of the
screen and flap their wings. Some of them leave trails of shrinking
particles. The player shoots them by clicking. Each raven is also painted, as
a flat rectangle in its own random colour, on a hidden collision canvas. A
click samples the pixel under the pointer and turns it into a colour string
with `createColor`. Every raven whose colour string is equal to it is shot:
it is marked for removal, a hit (an explosion with a sound) appears at its
place, and the score goes up by one. Each call of `animate(timestamp)` does
these steps in order:

1. It measures the frame time.
2. It advances the spawn timer, and spawns a raven and re-sorts the ravens by
   width when the timer passes the interval.
3. It updates every particle, raven and hit of a snapshot of the three lists.
4. It drops everything that is marked.
5. It requests the next frame unless a raven has left the screen on the left,
   which ends the game.

The project models this in five modules:

- **Colors** (`colors.dfy`): `createColor` and the decimal rendering of a
  channel. It proves that the colour string is injective, so that comparing
  strings compares channel triples.
- **Seqs** (`seqs.dfy`): `Array.prototype.filter` and the stable sort by a
  numeric key that the game loop uses. It proves order preservation,
  membership, sortedness, permutation and stability.
- **Entities** (`entities.dfy`): a raven, a hit and a particle as values, each
  with its constructor and its one-frame `update` as functions, plus the
  invariants each update keeps.
- **Simulation** (`simulation.dfy`): the global state (`score`,
  `timeToNextRaven`, `ravenInterval`, `lastTime`, `gameOver`, the three lists)
  as a `World`, the click and one frame of `animate` as functions, and the
  lemmas about them.
- **Game** (`game.dfy`): the same code on objects, changing them in place. It
  has classes `Raven`, `Hit` and `Particle` with mutable fields and `update`
  methods, and a class `Game` holding the globals with the methods `Click`
  and `Animate`. Each method is proved to leave the objects in the state the
  matching Simulation or Entities function computes: a raven's, hit's or
  particle's `State()`, and the `View()` of the whole game.

Every `Math.random()` call is a parameter of the model, a real number in
[0, 1):

- `RavenDraws`: the nine draws of the raven constructor, in source order.
- `ParticleDraws`: the two offset draws of a trail particle and the two draws
  of the particle constructor.
- `draws(i)`: the draw for the hit made for the raven at position `i`.
- `trails(i)(j)`: the draws for particle `j` of the trail of the raven at
  position `i`.

The pixel under the pointer is a parameter of `Click`. The canvas size is a
parameter of `Game`.

Some behaviours of the code are easy to misread. The model follows the code:

- **Every matching raven is hit, not only the first.** The click handler uses
  `forEach` over all ravens (app.js:201-207). `ClickFacts` and
  `ClickHitsAreMatches` state this.
- **Marked ravens can be hit again.** The click handler does not test
  `markedForRemoval`. Two clicks on one raven between two frames score twice.
- **`sound.play()` is called more than once.** It is called on every update
  while the hit is on frame 0, not only on its first update (app.js:120). The
  model counts these calls. `HitSoundWhileFirstFrame` states this.
- **A particle is removed only when its radius is below zero.** The test is
  the strict `radius < 0` (app.js:154); a radius of exactly zero is kept.
  `ParticleStepsFacts` states this.
- **A new raven updates in the frame that spawns it.** It can flap and emit a
  trail in that same frame, because the spawn comes before the update
  (app.js:223-234). `FirstSpawn` states this.
- **A shot raven still updates.** A raven marked by a click is updated once
  more in the next frame. If that update takes it off the left edge, it can
  still end the game.

## Model

The source is modelled by these functions:
- `Colors.CreateColor` models `createColor` (app.js:24-26).
- `Entities.NewRaven`, `Entities.RavenStep`, `Entities.Trail` and `Entities.Burst` model the Raven constructor and `update` (app.js:29-83).
- `Entities.NewHit` and `Entities.HitStep` model the Hit constructor and `update` (app.js:102-126).
- `Entities.NewParticle` and `Entities.ParticleStep` model the Particle constructor and `update` (app.js:143-155).
- `Simulation.Click` models the click listener (app.js:194-208).
- `Simulation.Frame` models `animate` (app.js:210-242), as the composition of `TickWorld` (app.js:219-229), `UpdateWorld` (app.js:231-234) and `SweepWorld` (app.js:236-238).
- `Seqs.Filter` models `Array.prototype.filter` (app.js:236-238).
- `Seqs.SortBy` models the stable `sort` by width (app.js:226-228).

The rows below name the members whose contracts state what these functions and the methods of module Game do.

| member | source | states |
|---|---|---|
| `Colors.DecimalRoundTrip` | app.js:24-26 | reading the decimal rendering of a channel back gives the channel |
| `Colors.DecimalDigits` | app.js:24-26 | the rendering of a channel is a non-empty string of digits |
| `Colors.DecimalInjective` | app.js:24-26 | two channels have the same rendering exactly when they are equal |
| `Colors.ChannelsInjective` | app.js:24-26 | the part of the colour string after "rgb(" determines all three channels |
| `Colors.CreateColorInjective` | app.js:24-26 | two `createColor` strings are equal if and only if their channel triples are equal |
| `Colors.ColorOfInjective` | app.js:52-55 | a raven's colour string and a sampled pixel's colour string are equal if and only if their channel triples are equal |
| `Entities.Channel` | app.js:47-49 | `Math.floor(Math.random() * 255)` is the floor of the scaled draw and lies in 0..254 |
| `Entities.NewParticle` | app.js:143-150 | a new particle is unmarked, at the given place and of the given size, with speed in [0.5, 1.5) and radius in [size/30, 2 + size/30) |
| `Entities.ParticleStepFacts` | app.js:151-155 | one update moves the particle by its speed, shrinks its radius by exactly 0.1, marks it when the radius is below zero, never unmarks it, and keeps "marked if and only if radius < 0" |
| `Entities.ParticleStepsFacts` | app.js:151-155 | after n updates the radius is the initial radius minus 0.1·n, x has moved n times the speed, and the particle is marked exactly when that radius is below zero |
| `Entities.NewRaven` | app.js:29-57 | a new raven enters at the right edge, unmarked, on frame 0 with a fresh flap timer; its size factor, speeds, flap interval and channels are in the constructor's ranges; it lies within the canvas height when the canvas is tall enough; it has a trail exactly when the trail draw is above 0.5 |
| `Entities.SpawnHeight` | app.js:36 | the top edge keeps the sprite within a canvas that is tall enough |
| `Entities.RavenStepFacts` | app.js:58-81 | one update reverses the vertical speed exactly when the raven was out of bounds, moves it, marks it exactly when it has left on the left (never unmarking it), and on a flap restarts the timer and advances the frame, wrapping past maxFrames + 1; otherwise it accumulates the time; size, channels, horizontal speed, flap interval and trail flag do not change; the raven invariant is kept |
| `Entities.TrailFacts` | app.js:71-80 | an update emits exactly five particles when the raven has a trail and flaps, none otherwise; each is unmarked, of the raven's width, and within 50 of the moved raven's corner |
| `Entities.NewHit` | app.js:102-117 | a new hit has its top-left corner a quarter of its size up and left of the raven's corner, with the raven's width as its size, on frame 0, unmarked, with no `sound.play()` call yet |
| `Entities.HitStepFacts` | app.js:118-126 | one update calls `sound.play()` exactly when the frame is 0, advances the frame on a tick that is not past the last frame, marks the hit only on a tick past the last frame, and keeps the hit invariant |
| `Entities.HitMarkIsSticky` | app.js:118-126 | once a hit is marked it stays marked and its frame no longer changes, for any sequence of frame times |
| `Entities.HitSoundWhileFirstFrame` | app.js:118-120 | while a hit's animation has not ticked, it stays on frame 0 and `sound.play()` is called once per update |
| `Seqs.FilterKeepsOrder` | app.js:236-238 | `filter` keeps exactly the elements that pass the test, each once, in their original relative order |
| `Seqs.FilterMembers` | app.js:236-238 | an element survives `filter` if and only if it was in the list and passes the test |
| `Seqs.FilterSubset` | app.js:236-238 | `filter` never makes a list longer and never adds an element |
| `Seqs.FilterSorted` | app.js:236 | filtering a list sorted by width leaves it sorted |
| `Seqs.SortByCorrect` | app.js:226-228 | the sort by width yields a permutation of its input, ordered by width |
| `Seqs.SortByStable` | app.js:226-228 | the sort is stable: ravens of equal width keep their relative order |
| `Simulation.InitialInv` | app.js:14-22 | the state before the first frame satisfies the game invariant |
| `Simulation.MatchesIffSameChannels` | app.js:196-202 | a raven matches the clicked colour exactly when its channels are the sampled pixel's |
| `Simulation.ClickHitsAreMatches` | app.js:201-207 | the hits pushed by the click loop are one per matching raven, in raven order, each built from that raven's corner and width; their number is the number of matching ravens |
| `Simulation.ClickFacts` | app.js:194-208 | a click adds one point and one hit per matching raven, marks exactly the matching ravens, leaves the others and the earlier hits unchanged, and changes no particle, timer or game-over flag |
| `Simulation.ClickWithoutMatch` | app.js:194-208 | a click on a colour that no raven has changes nothing |
| `Simulation.ClickOnUniqueColor` | app.js:194-208 | when the ravens' channels are pairwise different and the pixel is raven j's colour, the click scores exactly one point, adds one hit at raven j and marks raven j only |
| `Simulation.ClickPreservesInv` | app.js:194-208 | a click keeps the game invariant |
| `Simulation.SpawnFacts` | app.js:219-229 | at most one raven is spawned per frame, exactly when the timer passes the interval; then the ravens are a permutation of the old ones plus the new one, sorted by width, and the timer restarts |
| `Simulation.FrameRemovesMarked` | app.js:236-238 | after a frame no marked raven, hit or particle remains |
| `Simulation.SweepRemovesMarked` | app.js:236-238 | the three filters leave no marked raven, hit or particle |
| `Simulation.FrameKeepsRavenOrder` | app.js:231-236 | the surviving ravens are exactly the unmarked updated ones, in their order by width |
| `Simulation.FrameKeepsHitOrder` | app.js:231-237 | the surviving hits are exactly the unmarked updated ones, in order |
| `Simulation.FrameKeepsParticleOrder` | app.js:231-238 | the surviving particles are exactly the unmarked ones among the updated old particles and the new trails, in that order |
| `Simulation.FrameGameOver` | app.js:82 | the game is over after a frame if and only if it was over before or some raven's update takes it off the left edge; the flag is never reset |
| `Simulation.FrameDropsMissed` | app.js:64 | no raven that has left the canvas on the left survives the frame |
| `Simulation.FramePreservesInv` | app.js:210-242 | a frame keeps the game invariant: ravens in range and sorted by width, hits in range, every particle (old and new) marked exactly when its radius is below zero, score non-negative |
| `Simulation.TickPreservesInv` | app.js:219-229 | the timer and spawn step keeps the invariant |
| `Simulation.UpdatePreservesInv` | app.js:231-234 | updating every entity of the snapshot keeps the invariant |
| `Simulation.SweepPreservesInv` | app.js:236-238 | the filters keep the invariant |
| `Simulation.FirstSpawn` | app.js:219-238 | the first frame after more than 500 ms of an empty game leaves exactly one raven, updated once; no score, no hit, no game over; the raven always flaps in that frame, so there are five particles exactly when it has a trail, none otherwise |
| `Game.Particle.constructor` | app.js:143-150 | the new object's state is `NewParticle` of its arguments |
| `Game.Particle.Update` | app.js:151-155 | the object's new state is one `ParticleStep` of its old state |
| `Game.Hit.constructor` | app.js:102-117 | the new object's state is `NewHit` of its arguments |
| `Game.Hit.Update` | app.js:118-126 | the object's new state is one `HitStep` of its old state |
| `Game.Raven.constructor` | app.js:29-57 | the new object's state is `NewRaven` of the draws and the canvas size |
| `Game.Raven.Update` | app.js:58-83 | the raven's new state is `RavenStep` of its old state; the game's particles gain exactly its `Trail`, and every particle object afterwards was there before or is new; the game is over exactly when it was or the raven has left on the left |
| `Game.Raven.Move` | app.js:59-70 | the raven's new state is `RavenStep` of its old state, and it reports whether the flap timer fired |
| `Game.Raven.EmitTrail` | app.js:71-80 | the game's particles gain exactly the five particles of `Burst` around the raven's corner, appended after the old objects, which stay in place; the list stays free of duplicates |
| `Game.SortByStates` | app.js:226-228 | sorting the raven objects by width and then taking their states is the same as sorting their states |
| `Game.LiveRavens` | app.js:236 | the kept raven objects have exactly the filtered states, and no object is held twice; every kept object comes from the input |
| `Game.LiveHits` | app.js:237 | the kept hit objects have exactly the filtered states, and no object is held twice; every kept object comes from the input |
| `Game.LiveParticles` | app.js:238 | the kept particle objects have exactly the filtered states, and no object is held twice; every kept object comes from the input |
| `Game.Game.constructor` | app.js:14-22 | the new game is the initial state, satisfying the invariant |
| `Game.Game.Click` | app.js:194-208 | the click listener turns the game's view into `Click` of the old view and keeps the invariant; every hit object afterwards was there before or is new |
| `Game.Game.ShootAll` | app.js:201-207 | the loop marks exactly the matching ravens, appends their hits in order and adds their number to the score |
| `Game.Game.ShootAt` | app.js:202-206 | one turn of the click loop extends the processed prefix by one raven |
| `Game.Game.Shoot` | app.js:202-206 | the body of the click loop for one raven: it reports a match exactly when the raven's colour is the clicked one, and then marks the raven, pushes its hit and adds one point |
| `Game.Game.UpdateParticles` | app.js:231-234 | every particle of the snapshot is updated exactly once |
| `Game.Game.UpdateHits` | app.js:231-234 | every hit of the snapshot is updated exactly once |
| `Game.Game.UpdateRavens` | app.js:231-234 | every raven of the snapshot is updated exactly once; their trails are appended in raven order; game over is set exactly when some raven has left on the left |
| `Game.Game.UpdateRavenAt` | app.js:231-234 | one turn of the raven update loop extends the processed prefix by one raven and its trail |
| `Game.Game.Animate` | app.js:210-242 | `animate` turns the game's view into `Frame` of the old view, keeps the invariant, and requests the next frame exactly when the game is not over; every raven, hit and particle object afterwards was there before or is new |
| `Game.Game.Tick` | app.js:219-229 | measures the frame time and performs the timer and spawn step |
| `Game.Game.UpdateAndSweep` | app.js:231-238 | the update of the snapshot, then the filters |
| `Game.Game.UpdateAll` | app.js:231-234 | `[...particles, ...ravens, ...hits].forEach(update)`: particles first, then ravens (their trails go to the live list, not the snapshot), then hits |
| `Game.Game.Sweep` | app.js:236-238 | the three filters, with no object held twice afterwards and every kept object one that was there before |
| `Game.Game.SpawnRaven` | app.js:225-228 | a fresh raven is pushed and the list is sorted by width; only the ravens change |

## Left out

- Drawing is not modelled. This covers `draw` of every class, `drawScore`,
  `drawGameOver`, `clearRect`, the canvas style and the font. None of it
  changes the game state.
- The collision canvas and `getImageData` are not modelled. The sampled pixel
  is a parameter of the click. Which raven's rectangle lies under the pointer
  is outside the model. So the model does not show that a click hits the
  raven under the pointer. It shows what the handler does with the pixel it
  reads.
- `Image` and `Audio` are not modelled. Loading an image or a sound has no
  effect on the game. The calls of `sound.play()` are counted in the hit's
  `soundPlays` field. What a repeated call does to audio that is already
  playing is not modelled.
- `requestAnimationFrame` and `addEventListener` are left out. `Animate` models
  one call and returns whether the next frame is requested. Clicks are
  separate calls of `Click` between frames. Both methods ensure that every
  object left in the game's lists was there before or is new, so a caller can
  make any sequence of these calls. The browser's choice of when frames and
  clicks happen is not modelled.
- `Math.random()` is left out. Each value it returns is a parameter in [0, 1).
- The model uses exact real numbers, not IEEE-754 doubles. For example, 0.1
  is exactly one tenth, so rounding in positions, radii and times is not
  modelled.
- The canvas size is a parameter. The model reads `window.innerWidth` and
  `window.innerHeight` once, as app.js:4-5 does. The source uses both
  `canvas.height` (app.js:59) and `CANVAS_HEIGHT` (app.js:36); nothing in the
  code changes either after start-up, so the model uses one height.
- The raven made at app.js:175 is not modelled. It is built at load time and
  never added to the list, so it only consumes random draws.
- The raven state holds no colour string. Its colour string is computed from
  its channels, as the constructor does at app.js:52-55. The `Raven` class
  keeps the field `color`, fixed to that string when the raven is made.
- The initial call `animate(0)` is not special in the model. It is a frame
  with timestamp 0, and so has frame time 0.
