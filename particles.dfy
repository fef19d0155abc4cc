/** The particle overlay (`ParticleOverlay`): a fixed set of particles that
    drift over the canvas, one update per animation frame. Every
    `Math.random()` draw is a parameter, a real in [0, 1); coordinates and
    velocities are reals. */
module Particles {

  /** The overlay's `mode` prop: `'frost'`, or anything else (the application
      passes `'ash'`), which behaves as ash. */
  datatype Mode = Ash | Frost

  /** The three colours a particle can be given at creation. */
  datatype Color =
    | FrostBlue   // '200, 230, 255'
    | WarningRed  // '200, 50, 50'
    | AshGray     // '200, 200, 200'

  datatype Particle = Particle(x: real, y: real, vx: real, vy: real, size: real, alpha: real, color: Color)

  /** The draws `createParticles` makes for one particle, in source order. */
  datatype SpawnDraws = SpawnDraws(x: real, y: real, vx: real, vy: real, size: real, alpha: real, color: real)

  /** The draws one frame makes for one particle: velocity jitter (frost only)
      and opacity jitter. */
  datatype StepDraws = StepDraws(vx: real, vy: real, alpha: real)

  /** A value `Math.random()` can return. */
  predicate Unit(r: real) {
    0.0 <= r < 1.0
  }

  predicate SpawnDrawsValid(d: SpawnDraws) {
    Unit(d.x) && Unit(d.y) && Unit(d.vx) && Unit(d.vy) && Unit(d.size) && Unit(d.alpha) && Unit(d.color)
  }

  /** How many particles `createParticles` makes: 250 in frost mode, 80 otherwise. */
  function ParticleCount(mode: Mode): (n: nat)
    ensures mode == Frost ==> n == 250
    ensures mode == Ash ==> n == 80
  {
    if mode == Frost then 250 else 80
  }

  /** The bounds that hold after every frame: opacity in (0, 0.8], x in
      [0, width], y at most height and, in frost mode, vx in [-1, 1] and vy in
      [0.1, 1.5]. */
  predicate Settled(mode: Mode, width: real, height: real, p: Particle) {
    && 0.0 < p.alpha <= 0.8
    && 0.0 <= p.x <= width
    && p.y <= height
    && (mode == Frost ==> -1.0 <= p.vx <= 1.0 && 0.1 <= p.vy <= 1.5)
  }

  /** One particle of `createParticles` on a `width` x `height` canvas. */
  function Spawn(mode: Mode, width: real, height: real, d: SpawnDraws): (p: Particle)
    ensures SpawnDrawsValid(d) && 0.0 <= width ==> 0.0 <= p.x <= width && (0.0 < width ==> p.x < width)
    ensures SpawnDrawsValid(d) && 0.0 <= height ==> 0.0 <= p.y <= height && (0.0 < height ==> p.y < height)
    ensures SpawnDrawsValid(d) ==> 0.1 <= p.alpha < 0.6 && 0.5 <= p.size < 2.5
    ensures SpawnDrawsValid(d) && mode == Frost ==> -0.4 <= p.vx < 0.4 && 0.2 <= p.vy < 1.0
    ensures SpawnDrawsValid(d) && mode == Ash ==> -0.25 <= p.vx < 0.25 && 0.2 <= p.vy < 0.7
    ensures p.color == FrostBlue <==> mode == Frost
    ensures mode == Ash ==> (p.color == WarningRed <==> d.color > 0.9)
  {
    UnitScale(d.x, width);
    UnitScale(d.y, height);
    Particle(
      d.x * width,
      d.y * height,
      if mode == Frost then (d.vx - 0.5) * 0.8 else (d.vx - 0.5) * 0.5,
      if mode == Frost then d.vy * 0.8 + 0.2 else d.vy * 0.5 + 0.2,
      d.size * 2.0 + 0.5,
      d.alpha * 0.5 + 0.1,
      if mode == Frost then FrostBlue else if d.color > 0.9 then WarningRed else AshGray)
  }

  /** A draw scaled by a non-negative extent stays within [0, extent], and
      strictly below it when the extent is positive. */
  lemma UnitScale(r: real, extent: real)
    ensures Unit(r) && 0.0 <= extent ==> 0.0 <= r * extent <= extent
    ensures Unit(r) && 0.0 < extent ==> r * extent < extent
  {
    assert extent - r * extent == (1.0 - r) * extent;
  }

  /** A freshly created particle already satisfies the per-frame bounds. */
  lemma SpawnSettled(mode: Mode, width: real, height: real, d: SpawnDraws)
    requires SpawnDrawsValid(d) && 0.0 <= width && 0.0 <= height
    ensures Settled(mode, width, height, Spawn(mode, width, height, d))
  {
  }

  /** The per-particle body of `render` on a `width` x `height` canvas: move,
      jitter and cap the velocity (frost), jitter the opacity, wrap the position,
      reset the opacity. Each `if` of the source is one step here, in order. */
  function Step(mode: Mode, width: real, height: real, p: Particle, d: StepDraws): (r: Particle)
    ensures r.size == p.size && r.color == p.color
    ensures 0.0 < r.alpha <= 0.8
    ensures 0.0 <= width ==> 0.0 <= r.x <= width
    ensures -10.0 <= height ==> r.y <= height
    ensures p.y + p.vy > height ==> r.y == -10.0
    ensures p.y + p.vy <= height ==> r.y == p.y + p.vy
    ensures mode == Frost ==> -1.0 <= r.vx <= 1.0 && 0.1 <= r.vy <= 1.5
    ensures mode == Ash ==> r.vx == p.vx && r.vy == p.vy
    // horizontal motion: advance by vx, wrap to 0 past the right edge and to
    // width past the left one
    ensures p.x + p.vx > width ==> r.x == 0.0
    ensures 0.0 <= p.x + p.vx <= width ==> r.x == p.x + p.vx
    ensures p.x + p.vx < 0.0 && p.x + p.vx <= width ==> r.x == width
    // frost velocity: a random-walk step of at most 0.01, then the caps
    ensures mode == Frost && -1.0 <= p.vx + (d.vx - 0.5) * 0.02 <= 1.0 ==> r.vx == p.vx + (d.vx - 0.5) * 0.02
    ensures mode == Frost && p.vx + (d.vx - 0.5) * 0.02 > 1.0 ==> r.vx == 1.0
    ensures mode == Frost && p.vx + (d.vx - 0.5) * 0.02 < -1.0 ==> r.vx == -1.0
    ensures mode == Frost && 0.1 <= p.vy + (d.vy - 0.5) * 0.02 <= 1.5 ==> r.vy == p.vy + (d.vy - 0.5) * 0.02
    ensures mode == Frost && p.vy + (d.vy - 0.5) * 0.02 > 1.5 ==> r.vy == 1.5
    ensures mode == Frost && p.vy + (d.vy - 0.5) * 0.02 < 0.1 ==> r.vy == 0.1
    // opacity: a random-walk step of at most 0.005, then the resets
    ensures 0.0 < p.alpha + (d.alpha - 0.5) * 0.01 <= 0.8 ==> r.alpha == p.alpha + (d.alpha - 0.5) * 0.01
    ensures p.alpha + (d.alpha - 0.5) * 0.01 <= 0.0 ==> r.alpha == 0.1
    ensures p.alpha + (d.alpha - 0.5) * 0.01 > 0.8 ==> r.alpha == 0.8
  {
    var x0 := p.x + p.vx;
    var y0 := p.y + p.vy;
    var vx := if mode == Frost then
        var v0 := p.vx + (d.vx - 0.5) * 0.02;
        var v1 := if v0 > 1.0 then 1.0 else v0;
        if v1 < -1.0 then -1.0 else v1
      else p.vx;
    var vy := if mode == Frost then
        var v0 := p.vy + (d.vy - 0.5) * 0.02;
        var v1 := if v0 > 1.5 then 1.5 else v0;
        if v1 < 0.1 then 0.1 else v1
      else p.vy;
    var a0 := p.alpha + (d.alpha - 0.5) * 0.01;
    var y := if y0 > height then -10.0 else y0;
    var x1 := if x0 > width then 0.0 else x0;
    var x := if x1 < 0.0 then width else x1;
    var a1 := if a0 <= 0.0 then 0.1 else a0;
    var alpha := if a1 > 0.8 then 0.8 else a1;
    p.(x := x, y := y, vx := vx, vy := vy, alpha := alpha)
  }

  /** A particle's opacity moves by less than 0.005 in one frame unless a
      bound resets it. */
  lemma AlphaDriftIsSmall(mode: Mode, width: real, height: real, p: Particle, d: StepDraws)
    requires Unit(d.alpha) && 0.005 < p.alpha <= 0.795
    ensures -0.005 <= Step(mode, width, height, p, d).alpha - p.alpha < 0.005
  {
  }

  /** Opacity can fall below 0.1: only values at or below 0 are reset. */
  lemma AlphaCanDropBelowTenth()
    ensures Step(Ash, 100.0, 100.0, Particle(50.0, 50.0, 0.0, 0.0, 1.0, 0.1, AshGray), StepDraws(0.0, 0.0, 0.0)).alpha == 0.095
  {
  }

  /** A particle leaving the left edge lands exactly on x == width. */
  lemma LeftWrapLandsOnWidth()
    ensures Step(Ash, 100.0, 100.0, Particle(0.0, 50.0, -1.0, 0.0, 1.0, 0.5, AshGray), StepDraws(0.0, 0.0, 0.5)).x == 100.0
  {
  }

  /** The `forEach` of one frame, over the particle list. */
  function StepAll(mode: Mode, width: real, height: real, ps: seq<Particle>, ds: seq<StepDraws>): (r: seq<Particle>)
    requires |ds| == |ps|
    ensures |r| == |ps|
    decreases |ps|
  {
    if ps == [] then [] else [Step(mode, width, height, ps[0], ds[0])] + StepAll(mode, width, height, ps[1..], ds[1..])
  }

  /** Particle k after a frame is particle k stepped with its own draws. */
  lemma {:induction false} StepAllAt(mode: Mode, width: real, height: real, ps: seq<Particle>, ds: seq<StepDraws>, k: nat)
    requires |ds| == |ps| && k < |ps|
    ensures StepAll(mode, width, height, ps, ds)[k] == Step(mode, width, height, ps[k], ds[k])
    decreases |ps|
  {
    if k > 0 {
      StepAllAt(mode, width, height, ps[1..], ds[1..], k - 1);
    }
  }

  predicate AllSettled(mode: Mode, width: real, height: real, ps: seq<Particle>) {
    forall i :: 0 <= i < |ps| ==> Settled(mode, width, height, ps[i])
  }

  /** After any frame every particle satisfies the bounds, whatever the draws. */
  lemma StepAllSettles(mode: Mode, width: real, height: real, ps: seq<Particle>, ds: seq<StepDraws>)
    requires |ds| == |ps| && 0.0 <= width && 0.0 <= height
    ensures AllSettled(mode, width, height, StepAll(mode, width, height, ps, ds))
  {
    forall i | 0 <= i < |ps|
      ensures Settled(mode, width, height, StepAll(mode, width, height, ps, ds)[i])
    {
      StepAllAt(mode, width, height, ps, ds, i);
    }
  }

  /** Draws for a sequence of frames, one per particle per frame. */
  predicate FramesFit(frames: seq<seq<StepDraws>>, n: nat) {
    forall f :: 0 <= f < |frames| ==> |frames[f]| == n
  }

  /** The render loop run for `|frames|` frames on a canvas of fixed size. */
  function Animate(mode: Mode, width: real, height: real, ps: seq<Particle>, frames: seq<seq<StepDraws>>): (r: seq<Particle>)
    requires FramesFit(frames, |ps|)
    ensures |r| == |ps|
    decreases |frames|
  {
    if frames == [] then ps
    else Animate(mode, width, height, StepAll(mode, width, height, ps, frames[0]), frames[1..])
  }

  /** Starting from particles inside the bounds (as created), the bounds hold
      after any number of frames. */
  lemma {:induction false} AnimateKeepsSettled(mode: Mode, width: real, height: real, ps: seq<Particle>, frames: seq<seq<StepDraws>>)
    requires FramesFit(frames, |ps|) && 0.0 <= width && 0.0 <= height
    requires AllSettled(mode, width, height, ps)
    ensures AllSettled(mode, width, height, Animate(mode, width, height, ps, frames))
    decreases |frames|
  {
    if frames != [] {
      var next := StepAll(mode, width, height, ps, frames[0]);
      StepAllSettles(mode, width, height, ps, frames[0]);
      assert FramesFit(frames[1..], |next|) by {
        forall f | 0 <= f < |frames[1..]| ensures |frames[1..][f]| == |next| {
          assert frames[1..][f] == frames[f + 1];
        }
      }
      AnimateKeepsSettled(mode, width, height, next, frames[1..]);
    }
  }

  /** `createParticles`: pushes `ParticleCount(mode)` particles, one per
      draw record, onto an empty list. */
  method CreateParticles(mode: Mode, width: real, height: real, draws: seq<SpawnDraws>) returns (ps: seq<Particle>)
    requires |draws| == ParticleCount(mode)
    ensures |ps| == ParticleCount(mode)
    ensures forall i :: 0 <= i < |ps| ==> ps[i] == Spawn(mode, width, height, draws[i])
    ensures (forall i :: 0 <= i < |draws| ==> SpawnDrawsValid(draws[i])) && 0.0 <= width && 0.0 <= height ==>
      AllSettled(mode, width, height, ps)
  {
    ps := [];
    var count := ParticleCount(mode);
    for i := 0 to count
      invariant |ps| == i
      invariant forall j :: 0 <= j < i ==> ps[j] == Spawn(mode, width, height, draws[j])
    {
      ps := ps + [Spawn(mode, width, height, draws[i])];
    }
    if (forall i :: 0 <= i < |draws| ==> SpawnDrawsValid(draws[i])) && 0.0 <= width && 0.0 <= height {
      forall i | 0 <= i < |ps| ensures Settled(mode, width, height, ps[i]) {
        SpawnSettled(mode, width, height, draws[i]);
      }
    }
  }

  /** One frame of `render`: every particle of the array is updated in place. */
  method Render(mode: Mode, width: real, height: real, particles: array<Particle>, ds: seq<StepDraws>)
    requires |ds| == particles.Length
    modifies particles
    ensures particles[..] == StepAll(mode, width, height, old(particles[..]), ds)
  {
    for i := 0 to particles.Length
      invariant forall k :: 0 <= k < i ==> particles[k] == Step(mode, width, height, old(particles[k]), ds[k])
      invariant forall k :: i <= k < particles.Length ==> particles[k] == old(particles[k])
    {
      particles[i] := Step(mode, width, height, particles[i], ds[i]);
    }
    ghost var before := old(particles[..]);
    forall k | 0 <= k < particles.Length
      ensures particles[..][k] == StepAll(mode, width, height, before, ds)[k]
    {
      StepAllAt(mode, width, height, before, ds, k);
    }
  }
}
