/** The persistent background stars: seeding (`initStars`) and the per-frame
    twinkle of `animate`. Stars never move; only their brightness changes. */
module Stars {
  import opened Host

  datatype Kind = Normal | Glowing

  datatype Star = Star(
    x: real,
    y: real,
    size: real,
    brightness: real,
    baseBrightness: real,
    speed: real,
    kind: Kind,
    color: string)

  /** The palette `initStars` picks from; entry 0 is white. */
  const Palette: seq<string> := ["#ffffff", "#4facfe", "#00f2fe", "#f6d365", "#a6c0fe"]

  /** The count `initStars` uses when called without one, as on every resize. */
  const DefaultCount: nat := 120

  /** What every seeded star satisfies for the viewport it was seeded in, and
      keeps through every twinkle: a position on the viewport (the right and
      bottom edges are excluded unless the extent is zero), sizes and rates in
      their draw ranges, a palette colour that is non-white only for bright
      stars, and a stored brightness within half of base either side. */
  ghost predicate StarInvariant(s: Star, width: Dim, height: Dim) {
    && 0.0 <= s.x <= width && (width > 0.0 ==> s.x < width)
    && 0.0 <= s.y <= height && (height > 0.0 ==> s.y < height)
    && 0.5 <= s.size < 3.5
    && 0.5 <= s.baseBrightness < 1.0
    && 0.0005 <= s.speed < 0.0025
    && s.color in Palette
    && (s.color != Palette[0] ==> s.baseBrightness > 0.8)
    && s.baseBrightness - 0.5 <= s.brightness <= s.baseBrightness + 0.5
  }

  ghost predicate AllStarsValid(stars: seq<Star>, width: Dim, height: Dim) {
    forall i :: 0 <= i < |stars| ==> StarInvariant(stars[i], width, height)
  }

  /** `Math.floor(Math.random() * (colors.length - 1)) + 1`: never entry 0. */
  function PaletteIndex(d: UnitDraw): (i: nat)
    ensures 1 <= i < |Palette|
  {
    (d * (|Palette| - 1) as real).Floor + 1
  }

  lemma TintsAreNotWhite()
    ensures forall i :: 1 <= i < |Palette| ==> Palette[i] != Palette[0]
  {
  }

  /** The colour of a star of base brightness `base`. The tint gate is drawn
      only for a star brighter than 0.8, because `&&` short-circuits, and the
      tint only when the gate passes. */
  function SeedColour(base: real, rng: Rng): (res: (string, Rng))
    ensures res.0 in Palette
    ensures res.0 != Palette[0] <==> base > 0.8 && rng.Peek() < 0.5
    ensures base <= 0.8 ==> res.1 == rng
    ensures base > 0.8 && rng.Peek() >= 0.5 ==> res.1 == rng.Next()
    ensures base > 0.8 && rng.Peek() < 0.5 ==>
      res.0 == Palette[PaletteIndex(rng.Ahead(1))] && res.1 == rng.Next().Next()
    ensures Consumed(rng, res.1, 0, 2)
  {
    TintsAreNotWhite();
    if base > 0.8 && rng.Peek() < 0.5 then
      (Palette[PaletteIndex(rng.Next().Peek())], rng.Next().Next())
    else if base > 0.8 then (Palette[0], rng.Next())
    else (Palette[0], rng)
  }

  /** How many draws the colour choice takes: none for a star of base 0.8 or
      less, one when the gate draw `gate` fails, two when it passes. */
  function ColourDraws(base: real, gate: UnitDraw): nat {
    if base <= 0.8 then 0 else if gate >= 0.5 then 1 else 2
  }

  /** One iteration of the `initStars` loop. The draws are taken in program
      order: base brightness, kind, the colour draws, then x, y, size and speed. */
  function SeedStar(rng: Rng, width: Dim, height: Dim): (res: (Star, Rng))
    ensures var (s, next) := res; var k := ColourDraws(s.baseBrightness, rng.Ahead(2));
      && StarInvariant(s, width, height)
      && s.brightness == s.baseBrightness
      && (s.kind == Glowing <==> rng.Ahead(1) < 0.1)
      && (s.color != Palette[0] <==> s.baseBrightness > 0.8 && rng.Ahead(2) < 0.5)
      && s.baseBrightness == rng.Peek() * 0.5 + 0.5
      && s.x == Scale(rng.Ahead(2 + k), width)
      && s.y == Scale(rng.Ahead(3 + k), height)
      && s.size == rng.Ahead(4 + k) * 3.0 + 0.5
      && s.speed == rng.Ahead(5 + k) * 0.002 + 0.0005
      && next == Rng(rng.draw, rng.pos + 6 + k)
      && Consumed(rng, next, 6, 8)
  {
    var base := rng.Peek() * 0.5 + 0.5;
    var kind := if rng.Ahead(1) < 0.1 then Glowing else Normal;
    var colour := SeedColour(base, rng.Next().Next());
    var r := colour.1;
    var x := Scale(r.Ahead(0), width);
    var y := Scale(r.Ahead(1), height);
    var size := r.Ahead(2) * 3.0 + 0.5;
    var speed := r.Ahead(3) * 0.002 + 0.0005;
    (Star(x, y, size, base, base, speed, kind, colour.0), Rng(r.draw, r.pos + 4))
  }

  /** `initStars(width, height, count)`: a fresh list of exactly `count` stars,
      seeded one after another from the draw stream. */
  function SeedStars(rng: Rng, width: Dim, height: Dim, count: nat): (res: (seq<Star>, Rng))
    ensures var (stars, next) := res;
      && |stars| == count
      && AllStarsValid(stars, width, height)
      && (forall i :: 0 <= i < |stars| ==> stars[i].brightness == stars[i].baseBrightness)
      && Consumed(rng, next, 6 * count, 8 * count)
    decreases count
  {
    if count == 0 then ([], rng)
    else
      var (s, r1) := SeedStar(rng, width, height);
      var (rest, r2) := SeedStars(r1, width, height, count - 1);
      ([s] + rest, r2)
  }

  /** The brightness the frame paints with: the stored one clamped to [0,1]. */
  function DrawnBrightness(s: Star): (b: real)
    ensures 0.0 <= b <= 1.0
    ensures 0.0 <= s.brightness <= 1.0 ==> b == s.brightness
    ensures s.brightness < 0.0 ==> b == 0.0
    ensures s.brightness > 1.0 ==> b == 1.0
  {
    var capped := if s.brightness < 1.0 then s.brightness else 1.0;
    if capped > 0.0 then capped else 0.0
  }

  /** The twinkle of one star at frame time `time`, with `sin` standing for
      `Math.sin`: only the stored brightness changes, to base plus half a sine. */
  function Twinkle(s: Star, time: real, sin: real -> Wave): (t: Star)
    ensures t == s.(brightness := t.brightness)
    ensures s.baseBrightness - 0.5 <= t.brightness <= s.baseBrightness + 0.5
  {
    s.(brightness := s.baseBrightness + sin(time * s.speed) * 0.5)
  }

  /** The `stars.forEach` of one frame: every star twinkles in place. */
  function TwinkleAll(stars: seq<Star>, time: real, sin: real -> Wave): (ts: seq<Star>)
    ensures |ts| == |stars|
    ensures forall i :: 0 <= i < |ts| ==> ts[i] == stars[i].(brightness := ts[i].brightness)
    ensures forall i :: 0 <= i < |ts| ==>
      stars[i].baseBrightness - 0.5 <= ts[i].brightness <= stars[i].baseBrightness + 0.5
  {
    seq(|stars|, i requires 0 <= i < |stars| => Twinkle(stars[i], time, sin))
  }

  /** Twinkling keeps every seeded star valid, and for a valid star the stored
      brightness stays in [0,1.5), so it may exceed 1 and is clamped only for
      painting. */
  lemma TwinkleKeepsInvariant(stars: seq<Star>, time: real, sin: real -> Wave, width: Dim, height: Dim)
    requires AllStarsValid(stars, width, height)
    ensures AllStarsValid(TwinkleAll(stars, time, sin), width, height)
    ensures forall t :: t in TwinkleAll(stars, time, sin) ==> 0.0 <= t.brightness < 1.5
  {
  }
}
