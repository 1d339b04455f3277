/** The transient shooting stars: `createShootingStar`, and the state update
    `animate` applies to each of them per frame — the throttled trail, the
    movement along the angle, the fade and the removal test — over the whole
    list, iterated backwards with in-place `splice`. */
module ShootingStars {
  import opened Host

  datatype TrailPoint = TrailPoint(x: real, y: real, size: real)

  datatype ShootingStar = ShootingStar(
    x: real,
    y: real,
    angle: real,
    length: real,
    speed: real,
    brightness: real,
    trail: seq<TrailPoint>,
    trailPoints: int)

  /** How far beyond each viewport edge a shooting star may travel. */
  const Margin: real := 50.0

  /** The brightness a shooting star loses every frame. */
  const Fade: real := 0.01

  /** A trail sample is taken on every `SampleEvery`-th frame. */
  const SampleEvery: int := 3

  /** The largest trail-sample size (`Math.min(3, ...)`). */
  const MaxSampleSize: real := 3.0

  /** The shape every shooting star keeps from creation on: a trail counter in
      0..2, a trail no longer than `length` whose sample sizes are in (0,3],
      and length and speed in their draw ranges. */
  ghost predicate TrailInvariant(s: ShootingStar) {
    && 0 <= s.trailPoints < SampleEvery
    && |s.trail| as real <= s.length
    && (forall i :: 0 <= i < |s.trail| ==> 0.0 < s.trail[i].size <= MaxSampleSize)
    && 40.0 <= s.length < 120.0
    && 5.0 <= s.speed < 15.0
  }

  /** A shooting star that may be in the active list: the trail invariant and
      a brightness in (0,1]. */
  ghost predicate Live(s: ShootingStar) {
    TrailInvariant(s) && 0.0 < s.brightness <= 1.0
  }

  /** `Math.floor(Math.random() * 4)`: the edge a shooting star starts from
      (0 top, 1 right, 2 bottom, 3 left). */
  function EdgeOf(d: UnitDraw): (e: int)
    ensures 0 <= e <= 3
  {
    (d * 4.0).Floor
  }

  /** `Math.random() * Math.PI * 0.5 + Math.PI * start`: a quarter turn starting at
      `start` half-turns. */
  function QuarterTurn(d: UnitDraw, pi: real, start: real): (angle: real)
    requires pi > 0.0
    ensures pi * start <= angle < pi * start + pi * 0.5
  {
    var rest: real := 1.0 - d;
    MulNonneg(d * 0.5, pi);
    MulPos(rest * 0.5, pi);
    assert d * pi * 0.5 == pi * 0.5 - rest * 0.5 * pi;
    d * pi * 0.5 + pi * start
  }

  /** `createShootingStar(width, height)` with `pi` for `Math.PI`. Draws, in
      order: the edge, the position along it, the angle, the length and the
      speed. The `default` branch of the source's switch equals the top-edge
      case; no draw reaches it. */
  function Create(rng: Rng, width: Dim, height: Dim, pi: real): (res: (ShootingStar, Rng))
    requires pi > 0.0
    ensures var (s, next) := res; var e := EdgeOf(rng.Peek());
      && (e == 0 ==> s.y == 0.0 && 0.0 <= s.x <= width && (width > 0.0 ==> s.x < width))
      && (e == 1 ==> s.x == width && 0.0 <= s.y <= height && (height > 0.0 ==> s.y < height))
      && (e == 2 ==> s.y == height && 0.0 <= s.x <= width && (width > 0.0 ==> s.x < width))
      && (e == 3 ==> s.x == 0.0 && 0.0 <= s.y <= height && (height > 0.0 ==> s.y < height))
      && pi * 0.25 + pi * 0.5 * e as real <= s.angle < pi * 0.75 + pi * 0.5 * e as real
      && 40.0 <= s.length < 120.0
      && 5.0 <= s.speed < 15.0
      && s.brightness == 1.0
      && s.trail == []
      && s.trailPoints == 0
      && Live(s)
      && Consumed(rng, next, 5, 5)
  {
    var e := EdgeOf(rng.Peek());
    var along := rng.Ahead(1);
    var turn := rng.Ahead(2);
    var (x, y, angle) :=
      if e == 1 then (width, Scale(along, height), QuarterTurn(turn, pi, 0.75))
      else if e == 2 then (Scale(along, width), height, QuarterTurn(turn, pi, 1.25))
      else if e == 3 then (0.0, Scale(along, height), QuarterTurn(turn, pi, 1.75))
      else (Scale(along, width), 0.0, QuarterTurn(turn, pi, 0.25));
    var length := rng.Ahead(3) * 80.0 + 40.0;
    var speed := rng.Ahead(4) * 10.0 + 5.0;
    (ShootingStar(x, y, angle, length, speed, 1.0, [], 0), Rng(rng.draw, rng.pos + 5))
  }

  /** Whether this frame's step takes a trail sample. */
  predicate Samples(s: ShootingStar) {
    s.trailPoints + 1 >= SampleEvery
  }

  /** The sample a step records: the position before the move and a size that
      shrinks with the brightness, capped at 3. */
  function SampleOf(s: ShootingStar): (p: TrailPoint)
    ensures p.x == s.x && p.y == s.y
    ensures p.size <= MaxSampleSize
    ensures s.brightness > 0.0 ==> p.size > 0.0
  {
    TrailPoint(s.x, s.y, if MaxSampleSize < s.brightness * 4.0 then MaxSampleSize else s.brightness * 4.0)
  }

  /** `trail.push(p)`, then `trail.shift()` when the trail is longer than `length`. */
  function PushBounded(trail: seq<TrailPoint>, p: TrailPoint, length: real): (t: seq<TrailPoint>)
    ensures length >= 1.0 ==> |t| > 0 && t[|t| - 1] == p
    ensures t == trail + [p] || t == (trail + [p])[1..]
    ensures (|trail| + 1) as real <= length ==> t == trail + [p]
    ensures (|trail| + 1) as real > length ==> t == (trail + [p])[1..]
    ensures |trail| as real <= length ==> |t| as real <= length
  {
    var pushed := trail + [p];
    if |pushed| as real > length then pushed[1..] else pushed
  }

  /** One shooting star's update in one frame, with `cos` and `sin` standing for
      `Math.cos` and `Math.sin`: count the frame (sampling on every third), move
      along the angle, fade. */
  function Step(s: ShootingStar, cos: real -> Wave, sin: real -> Wave): (t: ShootingStar)
    ensures t.angle == s.angle && t.length == s.length && t.speed == s.speed
    ensures t.x - s.x == cos(s.angle) * s.speed && t.y - s.y == sin(s.angle) * s.speed
    ensures t.brightness == s.brightness - Fade
    ensures Samples(s) ==> t.trailPoints == 0 && t.trail == PushBounded(s.trail, SampleOf(s), s.length)
    ensures !Samples(s) ==> t.trailPoints == s.trailPoints + 1 && t.trail == s.trail
    ensures Live(s) ==> TrailInvariant(t)
  {
    var counted := s.trailPoints + 1;
    var (points, trail) :=
      if counted >= SampleEvery then (0, PushBounded(s.trail, SampleOf(s), s.length))
      else (counted, s.trail);
    ShootingStar(s.x + cos(s.angle) * s.speed, s.y + sin(s.angle) * s.speed,
                 s.angle, s.length, s.speed, s.brightness - Fade, trail, points)
  }

  /** The removal test, applied after the step: faded out, or more than the
      margin beyond any viewport edge. */
  predicate Expired(t: ShootingStar, width: Dim, height: Dim) {
    || t.brightness <= 0.0
    || t.x < -Margin || t.x > width + Margin
    || t.y < -Margin || t.y > height + Margin
  }

  /** The functional reading of the per-frame loop: every shooting star steps,
      and exactly the stepped ones that are not expired stay, in their order. */
  function Advance(ss: seq<ShootingStar>, width: Dim, height: Dim,
                   cos: real -> Wave, sin: real -> Wave): (rs: seq<ShootingStar>)
    ensures |rs| <= |ss|
    ensures forall t :: t in rs ==> !Expired(t, width, height)
    decreases |ss|
  {
    if |ss| == 0 then []
    else
      var t := Step(ss[0], cos, sin);
      (if Expired(t, width, height) then [] else [t]) + Advance(ss[1..], width, height, cos, sin)
  }

  /** The loop as the source writes it: from the last index down to 0, update
      the star in place and `splice` it out when it has expired. Iterating
      backwards keeps the indices still to visit valid after a removal. */
  method AdvanceInPlace(ss: seq<ShootingStar>, width: Dim, height: Dim,
                        cos: real -> Wave, sin: real -> Wave) returns (rs: seq<ShootingStar>)
    ensures rs == Advance(ss, width, height, cos, sin)
  {
    rs := ss;
    var i := |ss|;
    while i > 0
      invariant 0 <= i <= |ss|
      invariant rs == ss[..i] + Advance(ss[i..], width, height, cos, sin)
      decreases i
    {
      i := i - 1;
      assert rs[i] == ss[i];
      var t := Step(rs[i], cos, sin);
      assert ss[i..][1..] == ss[i + 1..];
      assert ss[..i + 1] == ss[..i] + [ss[i]];
      var kept := if Expired(t, width, height) then [] else [t];
      assert Advance(ss[i..], width, height, cos, sin)
          == kept + Advance(ss[i + 1..], width, height, cos, sin);
      rs := rs[i := t];
      if Expired(t, width, height) {
        rs := rs[..i] + rs[i + 1..];
      }
    }
    assert ss[..0] == [];
    assert ss[0..] == ss;
  }

  /** A stepped star survives exactly when it is not expired: each one that
      is not expired is in the result, and each result is such a star. */
  lemma {:induction false} AdvanceMembership(ss: seq<ShootingStar>, width: Dim, height: Dim,
                                             cos: real -> Wave, sin: real -> Wave)
    ensures forall i :: 0 <= i < |ss| && !Expired(Step(ss[i], cos, sin), width, height) ==>
      Step(ss[i], cos, sin) in Advance(ss, width, height, cos, sin)
    ensures forall t :: t in Advance(ss, width, height, cos, sin) ==>
      exists i :: 0 <= i < |ss| && t == Step(ss[i], cos, sin)
    decreases |ss|
  {
    if |ss| > 0 {
      AdvanceMembership(ss[1..], width, height, cos, sin);
      forall i | 1 <= i < |ss|
        ensures ss[i] == ss[1..][i - 1]
      {
      }
    }
  }

  /** Removal keeps the survivors' relative order: the loop over a list is the
      loop over its front followed by the loop over its back. */
  lemma {:induction false} AdvanceAppend(a: seq<ShootingStar>, b: seq<ShootingStar>, width: Dim, height: Dim,
                                         cos: real -> Wave, sin: real -> Wave)
    ensures Advance(a + b, width, height, cos, sin)
         == Advance(a, width, height, cos, sin) + Advance(b, width, height, cos, sin)
    decreases |a|
  {
    if |a| > 0 {
      assert (a + b)[1..] == a[1..] + b;
      AdvanceAppend(a[1..], b, width, height, cos, sin);
    } else {
      assert a + b == b;
    }
  }

  /** Every shooting star that survives a frame is still live and lies within
      the margin around the viewport. */
  lemma {:induction false} AdvanceKeepsLive(ss: seq<ShootingStar>, width: Dim, height: Dim,
                                            cos: real -> Wave, sin: real -> Wave)
    requires forall i :: 0 <= i < |ss| ==> Live(ss[i])
    ensures forall t :: t in Advance(ss, width, height, cos, sin) ==>
      && Live(t)
      && -Margin <= t.x <= width + Margin
      && -Margin <= t.y <= height + Margin
    decreases |ss|
  {
    if |ss| > 0 {
      assert forall i :: 0 <= i < |ss[1..]| ==> ss[1..][i] == ss[i + 1];
      AdvanceKeepsLive(ss[1..], width, height, cos, sin);
    }
  }

  /** `k` consecutive frames of one shooting star. */
  function Steps(s: ShootingStar, k: nat, cos: real -> Wave, sin: real -> Wave): ShootingStar
    decreases k
  {
    if k == 0 then s else Steps(Step(s, cos, sin), k - 1, cos, sin)
  }

  /** Over `k` frames the star moves `k` times its per-frame displacement along
      a fixed angle and loses exactly `k` hundredths of brightness. */
  lemma {:induction false} StepsDrift(s: ShootingStar, k: nat, cos: real -> Wave, sin: real -> Wave)
    ensures var t := Steps(s, k, cos, sin);
      && t.angle == s.angle && t.length == s.length && t.speed == s.speed
      && t.x == s.x + k as real * (cos(s.angle) * s.speed)
      && t.y == s.y + k as real * (sin(s.angle) * s.speed)
      && t.brightness == s.brightness - k as real * Fade
    decreases k
  {
    if k > 0 {
      StepsDrift(Step(s, cos, sin), k - 1, cos, sin);
    }
  }

  /** A new shooting star (brightness 1) is faded out, and so removed, on its
      100th frame at the latest, and is not faded before that. */
  lemma Lifetime(s: ShootingStar, k: nat, cos: real -> Wave, sin: real -> Wave)
    requires s.brightness == 1.0
    ensures k < 100 ==> Steps(s, k, cos, sin).brightness > 0.0
    ensures k >= 100 ==> Steps(s, k, cos, sin).brightness <= 0.0
  {
    StepsDrift(s, k, cos, sin);
  }

  /** From any counter value, each run of three frames takes exactly one trail
      sample and brings the counter back where it was. */
  lemma ThrottleCycle(s: ShootingStar, cos: real -> Wave, sin: real -> Wave)
    requires 0 <= s.trailPoints < SampleEvery
    ensures Steps(s, 3, cos, sin).trailPoints == s.trailPoints
    ensures var s1 := Step(s, cos, sin); var s2 := Step(s1, cos, sin);
      (if Samples(s) then 1 else 0) + (if Samples(s1) then 1 else 0) + (if Samples(s2) then 1 else 0) == 1
  {
  }
}
