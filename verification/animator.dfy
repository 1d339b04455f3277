/** The animator's state and its three entry points: mounting, the resize
    handler `updateDimensions`, and one call of `animate(time)` restricted to
    its state updates (painting is not modelled). */
module Animator {
  import opened Host
  import opened Stars
  import opened ShootingStars

  /** The minimum time in ms that must have passed since the last spawn. */
  const Cooldown: real := 2000.0

  /** The per-frame chance of a spawn once the cooldown has passed. */
  const SpawnChance: real := 0.02

  /** The refs the component keeps: viewport size, star list, shooting-star
      list and the time of the last spawn. */
  datatype Scene = Scene(
    width: Dim,
    height: Dim,
    stars: seq<Star>,
    shooting: seq<ShootingStar>,
    lastSpawn: real)

  /** Every star is valid for the current viewport and every shooting star is live. */
  ghost predicate SceneInvariant(a: Scene) {
    && AllStarsValid(a.stars, a.width, a.height)
    && (forall i :: 0 <= i < |a.shooting| ==> Live(a.shooting[i]))
  }

  /** `updateDimensions`: take the new size and reseed all stars with the
      default count; shooting stars and the spawn clock are left as they are. */
  function Resize(a: Scene, width: Dim, height: Dim, rng: Rng): (res: (Scene, Rng))
    ensures var (b, next) := res;
      && b.width == width && b.height == height
      && |b.stars| == DefaultCount
      && AllStarsValid(b.stars, width, height)
      && b.shooting == a.shooting
      && b.lastSpawn == a.lastSpawn
      && Consumed(rng, next, 6 * DefaultCount, 8 * DefaultCount)
    ensures res.0.stars == SeedStars(rng, width, height, DefaultCount).0
    ensures res.1 == SeedStars(rng, width, height, DefaultCount).1
  {
    var (stars, next) := SeedStars(rng, width, height, DefaultCount);
    (Scene(width, height, stars, a.shooting, a.lastSpawn), next)
  }

  /** Mounting: empty refs and a zero spawn clock, then one `updateDimensions`. */
  function Mount(width: Dim, height: Dim, rng: Rng): (res: (Scene, Rng))
    ensures SceneInvariant(res.0)
    ensures res.0.width == width && res.0.height == height
    ensures res.0.shooting == [] && res.0.lastSpawn == 0.0
    ensures |res.0.stars| == DefaultCount
  {
    Resize(Scene(0.0, 0.0, [], [], 0.0), width, height, rng)
  }

  /** The spawn gate `time - last > 2000 && Math.random() < 0.02`. The draw is
      taken only when the cooldown has passed, because `&&` short-circuits. */
  function SpawnGate(time: real, lastSpawn: real, rng: Rng): (res: (bool, Rng))
    ensures res.0 <==> time - lastSpawn > Cooldown && rng.Peek() < SpawnChance
    ensures time - lastSpawn > Cooldown ==> Consumed(rng, res.1, 1, 1)
    ensures time - lastSpawn <= Cooldown ==> !res.0 && res.1 == rng
  {
    if time - lastSpawn > Cooldown then (rng.Peek() < SpawnChance, rng.Next())
    else (false, rng)
  }

  /** Whether the frame at `time` spawns a shooting star. */
  predicate Fires(a: Scene, time: real, rng: Rng) {
    SpawnGate(time, a.lastSpawn, rng).0
  }

  /** The state update of `animate(time)`: twinkle every star, advance every
      shooting star (removing the expired ones), then maybe spawn one at the
      end of the list and restart the cooldown clock. */
  function Frame(a: Scene, time: real, rng: Rng, cos: real -> Wave, sin: real -> Wave, pi: real)
    : (res: (Scene, Rng))
    requires pi > 0.0
    ensures var (b, next) := res;
      var survivors := Advance(a.shooting, a.width, a.height, cos, sin);
      && b.width == a.width && b.height == a.height
      && |b.stars| == |a.stars|
      && (forall i :: 0 <= i < |b.stars| ==> b.stars[i] == a.stars[i].(brightness := b.stars[i].brightness))
      && (Fires(a, time, rng) ==>
            && time - a.lastSpawn > Cooldown
            && b.lastSpawn == time
            && |b.shooting| == |survivors| + 1
            && b.shooting[..|survivors|] == survivors
            && b.shooting[|survivors|].brightness == 1.0
            && b.shooting[|survivors|].trail == [])
      && (!Fires(a, time, rng) ==> b.lastSpawn == a.lastSpawn && b.shooting == survivors)
      && |b.shooting| <= |a.shooting| + 1
    ensures res.0.stars == TwinkleAll(a.stars, time, sin)
    ensures Fires(a, time, rng) ==>
      var g := SpawnGate(time, a.lastSpawn, rng).1;
      res.0.shooting[|res.0.shooting| - 1] == Create(g, a.width, a.height, pi).0
      && res.1 == Create(g, a.width, a.height, pi).1
    ensures !Fires(a, time, rng) ==> res.1 == SpawnGate(time, a.lastSpawn, rng).1
  {
    var stars := TwinkleAll(a.stars, time, sin);
    var survivors := Advance(a.shooting, a.width, a.height, cos, sin);
    var (fire, r1) := SpawnGate(time, a.lastSpawn, rng);
    if fire then
      var (s, r2) := Create(r1, a.width, a.height, pi);
      assert (survivors + [s])[..|survivors|] == survivors;
      (Scene(a.width, a.height, stars, survivors + [s], time), r2)
    else
      (Scene(a.width, a.height, stars, survivors, a.lastSpawn), r1)
  }

  /** A frame keeps the scene invariant: stars stay valid, and every shooting
      star after the frame — survivor or newly spawned — is live. */
  lemma FrameKeepsInvariant(a: Scene, time: real, rng: Rng, cos: real -> Wave, sin: real -> Wave, pi: real)
    requires pi > 0.0
    ensures SceneInvariant(a) ==> SceneInvariant(Frame(a, time, rng, cos, sin, pi).0)
  {
    if !SceneInvariant(a) { return; }
    var b := Frame(a, time, rng, cos, sin, pi).0;
    TwinkleKeepsInvariant(a.stars, time, sin, a.width, a.height);
    assert b.stars == TwinkleAll(a.stars, time, sin);
    AdvanceKeepsLive(a.shooting, a.width, a.height, cos, sin);
    var survivors := Advance(a.shooting, a.width, a.height, cos, sin);
    forall i | 0 <= i < |b.shooting|
      ensures Live(b.shooting[i])
    {
      if i < |survivors| {
        assert b.shooting[i] == b.shooting[..|survivors|][i];
        assert b.shooting[i] in survivors;
      }
    }
  }

  /** A resize keeps the scene invariant. */
  lemma ResizeKeepsInvariant(a: Scene, width: Dim, height: Dim, rng: Rng)
    requires SceneInvariant(a)
    ensures SceneInvariant(Resize(a, width, height, rng).0)
  {
  }

  /** The cooldown test is strict: exactly 2000 ms after the last spawn no
      shooting star can appear, whatever the draw. */
  lemma CooldownIsStrict(a: Scene, rng: Rng, cos: real -> Wave, sin: real -> Wave, pi: real)
    requires pi > 0.0
    ensures Frame(a, a.lastSpawn + Cooldown, rng, cos, sin, pi).0.shooting
         == Advance(a.shooting, a.width, a.height, cos, sin)
  {
  }

  /** A resize to a zero-sized viewport still seeds the default number of
      stars, every one at the origin. */
  lemma ResizeToZero(a: Scene, rng: Rng)
    ensures var b := Resize(a, 0.0, 0.0, rng).0;
      && |b.stars| == DefaultCount
      && forall i :: 0 <= i < |b.stars| ==> b.stars[i].x == 0.0 && b.stars[i].y == 0.0
  {
    var b := Resize(a, 0.0, 0.0, rng).0;
    forall i | 0 <= i < |b.stars|
      ensures b.stars[i].x == 0.0 && b.stars[i].y == 0.0
    {
      assert StarInvariant(b.stars[i], 0.0, 0.0);
    }
  }

  /** `ts` are spawn times each more than the cooldown after the one before,
      the first more than the cooldown after `prev`. */
  ghost predicate Spaced(prev: real, ts: seq<real>) {
    forall i :: 0 <= i < |ts| ==> ts[i] - (if i == 0 then prev else ts[i - 1]) > Cooldown
  }

  lemma SpacedCons(prev: real, t: real, ts: seq<real>)
    requires t - prev > Cooldown
    requires Spaced(t, ts)
    ensures Spaced(prev, [t] + ts)
  {
    var us := [t] + ts;
    forall i | 0 <= i < |us|
      ensures us[i] - (if i == 0 then prev else us[i - 1]) > Cooldown
    {
      if i == 1 {
        assert us[1] == ts[0] && us[0] == t;
        assert ts[0] - t > Cooldown;
      } else if i > 1 {
        assert us[i] == ts[i - 1] && us[i - 1] == ts[i - 2];
        assert ts[i - 1] - ts[i - 2] > Cooldown;
      }
    }
  }

  datatype Trace = Trace(scene: Scene, rng: Rng, spawns: seq<real>)

  function LastOr(prev: real, ts: seq<real>): real {
    if |ts| == 0 then prev else ts[|ts| - 1]
  }

  /** Frames at the given timestamps, in order, recording the time of every
      spawn. Whatever the timestamps, consecutive spawns are more than the
      cooldown apart, each frame spawns at most once, the spawn clock holds the
      last spawn, and the scene invariant is kept. */
  function Run(a: Scene, times: seq<real>, rng: Rng, cos: real -> Wave, sin: real -> Wave, pi: real)
    : (r: Trace)
    requires pi > 0.0
    ensures Spaced(a.lastSpawn, r.spawns)
    ensures |r.spawns| <= |times|
    ensures r.scene.lastSpawn == LastOr(a.lastSpawn, r.spawns)
    ensures SceneInvariant(a) ==> SceneInvariant(r.scene)
    ensures forall k :: 0 <= k < |r.spawns| ==> r.spawns[k] in times
    ensures |times| > 0 && Fires(a, times[0], rng) ==>
      && |r.spawns| > 0 && r.spawns[0] == times[0]
      && forall k :: 1 <= k < |r.spawns| ==> r.spawns[k] in times[1..]
    ensures |times| > 0 && !Fires(a, times[0], rng) ==>
      && |r.spawns| < |times|
      && forall k :: 0 <= k < |r.spawns| ==> r.spawns[k] in times[1..]
    decreases |times|
  {
    if |times| == 0 then Trace(a, rng, [])
    else
      var fire := Fires(a, times[0], rng);
      var (b, next) := Frame(a, times[0], rng, cos, sin, pi);
      var rest := Run(b, times[1..], next, cos, sin, pi);
      FrameKeepsInvariant(a, times[0], rng, cos, sin, pi);
      assert forall k :: 0 <= k < |rest.spawns| ==> rest.spawns[k] in times[1..];
      if fire then
        SpacedCons(a.lastSpawn, times[0], rest.spawns);
        Trace(rest.scene, rest.rng, [times[0]] + rest.spawns)
      else
        Trace(rest.scene, rest.rng, rest.spawns)
  }

  /** Running the frames `xs` and then the frames `ys` is running `xs + ys`:
      the scene and the draw stream are threaded through every frame, and the
      spawn log of the whole run is the two logs one after the other. So every
      frame of a run counts, and no spawn of a later frame is left out. */
  lemma {:induction false} RunAppend(a: Scene, xs: seq<real>, ys: seq<real>, rng: Rng,
                                     cos: real -> Wave, sin: real -> Wave, pi: real)
    requires pi > 0.0
    ensures var r1 := Run(a, xs, rng, cos, sin, pi);
      var r2 := Run(r1.scene, ys, r1.rng, cos, sin, pi);
      Run(a, xs + ys, rng, cos, sin, pi) == Trace(r2.scene, r2.rng, r1.spawns + r2.spawns)
    decreases |xs|
  {
    if |xs| == 0 {
      assert xs + ys == ys;
    } else {
      var (b, next) := Frame(a, xs[0], rng, cos, sin, pi);
      assert (xs + ys)[0] == xs[0];
      assert (xs + ys)[1..] == xs[1..] + ys;
      RunAppend(b, xs[1..], ys, next, cos, sin, pi);
      var rest1 := Run(b, xs[1..], next, cos, sin, pi);
      var r2 := Run(rest1.scene, ys, rest1.rng, cos, sin, pi);
      assert [xs[0]] + (rest1.spawns + r2.spawns) == ([xs[0]] + rest1.spawns) + r2.spawns;
    }
  }

  /** A run of one frame is that frame: its scene and draw stream are what
      `Frame` leaves, and its log is the frame time exactly when the frame
      spawns. With `RunAppend` this makes every run the frames applied in turn. */
  lemma RunOne(a: Scene, t: real, rng: Rng, cos: real -> Wave, sin: real -> Wave, pi: real)
    requires pi > 0.0
    ensures var (b, next) := Frame(a, t, rng, cos, sin, pi);
      Run(a, [t], rng, cos, sin, pi) == Trace(b, next, if Fires(a, t, rng) then [t] else [])
  {
    assert [t][1..] == [];
  }
}
