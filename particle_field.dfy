/** `CosmicParticleCanvas` of js/supernova.js: a pool of drifting particles
    on a canvas, pushed away from the mouse, wrapped at the edges, and
    joined by faint lines when two of them are close.

    Numbers are exact reals. `Math.random()` is a sequence of samples in
    [0, 1), consumed seven per particle in the order the source draws them.
    `Math.sqrt(dx * dx + dy * dy)` is the parameter `dist`, which is only
    assumed non-negative. Drawing calls are left out; a frame returns the
    lines it would stroke. */
module SupernovaParticles {
  import opened Wrappers

  /** `this.mouse.radius`. */
  const Radius: real := 150.0
  /** Particles closer than this are joined by a line. */
  const LinkDistance: real := 100.0
  /** Entries of the `getRandomColor` palette. */
  const PaletteSize: nat := 4

  datatype Particle = Particle(x: real, y: real, size: real, speedX: real, speedY: real,
                               opacity: real, color: nat)

  /** One stroked connection: the two particle indices and the stroke alpha. */
  datatype Line = Line(i: nat, j: nat, alpha: real)

  /** The distance between two points `(x1, y1)`, `(x2, y2)`. */
  type Dist = (real, real, real, real) -> real

  ghost predicate NonNegative(dist: Dist)
  {
    forall x1, y1, x2, y2 :: dist(x1, y1, x2, y2) >= 0.0
  }

  predicate Sample(r: real)
  {
    0.0 <= r < 1.0
  }

  predicate AllSamples(samples: seq<real>)
  {
    forall k :: 0 <= k < |samples| ==> Sample(samples[k])
  }

  /** The pool `createParticles(count)` pushes, particle `k` from the
      samples at `7 * k`. */
  function SpawnPool(samples: seq<real>, count: nat, width: real, height: real): (pool: seq<Particle>)
    requires |samples| == 7 * count && AllSamples(samples)
    requires width >= 0.0 && height >= 0.0
    ensures |pool| == count
    ensures forall k :: 0 <= k < count ==> InBounds(pool[k], width, height)
  {
    seq(count, k requires 0 <= k < count => Spawn(samples, 7 * k, width, height))
  }

  predicate InBounds(p: Particle, width: real, height: real)
  {
    0.0 <= p.x <= width && 0.0 <= p.y <= height
  }

  /** A sample scaled to a non-negative extent stays within it. */
  lemma Scaled(r: real, extent: real)
    requires Sample(r) && extent >= 0.0
    ensures 0.0 <= r * extent <= extent
  {
    assert (1.0 - r) * extent >= 0.0;
  }

  /** One `push` of `createParticles`, from the seven samples at `at`. */
  function Spawn(r: seq<real>, at: nat, width: real, height: real): (p: Particle)
    requires at + 7 <= |r| && AllSamples(r)
    requires width >= 0.0 && height >= 0.0
    ensures InBounds(p, width, height)
    ensures 0.5 <= p.size < 2.5 && 0.2 <= p.opacity < 0.7
    ensures -0.25 <= p.speedX < 0.25 && -0.25 <= p.speedY < 0.25
    ensures p.color < PaletteSize
  {
    assert Sample(r[at]) && Sample(r[at + 1]) && Sample(r[at + 2]) && Sample(r[at + 3]);
    assert Sample(r[at + 4]) && Sample(r[at + 5]) && Sample(r[at + 6]);
    var v := r[at + 6] * PaletteSize as real;
    assert 0.0 <= v < 4.0;
    Scaled(r[at], width);
    Scaled(r[at + 1], height);
    var c := v.Floor;
    assert 0 <= c < PaletteSize;
    Particle(r[at] * width, r[at + 1] * height, r[at + 2] * 2.0 + 0.5,
             (r[at + 3] - 0.5) * 0.5, (r[at + 4] - 0.5) * 0.5, r[at + 5] * 0.5 + 0.2, c as nat)
  }

  /** Strength of the mouse's push at distance `d`. */
  function Force(d: real): (f: real)
    requires 0.0 <= d < Radius
    ensures 0.0 < f <= 1.0
  {
    (Radius - d) / Radius
  }

  /** The mouse interaction: a particle within `Radius` of the mouse is
      moved a little further away along the line joining them. */
  function Pushed(x: real, y: real, mouse: Option<(real, real)>, dist: Dist): (real, real)
    requires NonNegative(dist)
  {
    match mouse
    case None => (x, y)
    case Some((mx, my)) =>
      var d := dist(x, y, mx, my);
      if d < Radius then
        var force := Force(d);
        (x + (x - mx) * force * 0.03, y + (y - my) * force * 0.03)
      else (x, y)
  }

  /** The two edge checks for one coordinate, in source order. */
  function Wrap(v: real, limit: real): (w: real)
    requires limit >= 0.0
    ensures 0.0 <= w <= limit
    ensures 0.0 <= v <= limit ==> w == v
    ensures v < 0.0 ==> w == limit
    ensures v > limit ==> w == 0.0
  {
    var a := if v < 0.0 then limit else v;
    if a > limit then 0.0 else a
  }

  /** The update of one particle in a frame: drift, mouse push, wrap. */
  function Step(p: Particle, mouse: Option<(real, real)>, dist: Dist, width: real, height: real): (q: Particle)
    requires NonNegative(dist) && width >= 0.0 && height >= 0.0
    ensures InBounds(q, width, height)
    ensures q == p.(x := q.x, y := q.y)
  {
    var (x, y) := Pushed(p.x + p.speedX, p.y + p.speedY, mouse, dist);
    p.(x := Wrap(x, width), y := Wrap(y, height))
  }

  /** Alpha of the line between particles at distance `d`. */
  function Alpha(d: real): (a: real)
    requires 0.0 <= d < LinkDistance
    ensures 0.0 < a <= 0.1
  {
    0.1 * (1.0 - d / LinkDistance)
  }

  /** Lines fade with distance: full alpha 0.1 for touching particles,
      strictly fainter the further apart, towards 0 at `LinkDistance`. */
  lemma AlphaDecreasing(d1: real, d2: real)
    requires 0.0 <= d1 < d2 < LinkDistance
    ensures Alpha(0.0) == 0.1
    ensures Alpha(d1) > Alpha(d2)
    ensures LinkDistance - d2 <= 1.0 ==> Alpha(d2) <= 0.001
  {
  }

  function Gap(p: Particle, q: Particle, dist: Dist): real
  {
    dist(p.x, p.y, q.x, q.y)
  }

  /** Whether `i` before `j` in the order the frame strokes lines. */
  predicate Precedes(l: Line, m: Line)
  {
    l.i < m.i || (l.i == m.i && l.j < m.j)
  }

  /** Some line of `r` joins `i` to `j`. */
  predicate HasLine(r: seq<Line>, i: nat, j: nat)
  {
    exists k :: 0 <= k < |r| && r[k].i == i && r[k].j == j
  }

  /** The lines of row `i`: particle `p` (already moved) against the first
      `m` particles of `rest`, the particles after it, which this frame has
      not moved yet. */
  function RowLines(p: Particle, i: nat, rest: seq<Particle>, m: nat, dist: Dist): (r: seq<Line>)
    requires m <= |rest| && NonNegative(dist)
    ensures forall k :: 0 <= k < |r| ==> r[k].i == i && i < r[k].j <= i + m && 0.0 < r[k].alpha <= 0.1
    ensures forall a, b :: 0 <= a < b < |r| ==> r[a].j < r[b].j
  {
    if m == 0 then []
    else
      var q := rest[m - 1];
      var d := Gap(p, q, dist);
      RowLines(p, i, rest, m - 1, dist) + (if d < LinkDistance then [Line(i, i + m, Alpha(d))] else [])
  }

  /** The lines of rows `0..n-1` of a frame that starts from `frame`: row
      `i` compares `moved[i]`, particle `i` after its update, with the
      particles after it, which the frame has not moved yet. */
  function FrameLines(moved: seq<Particle>, frame: seq<Particle>, n: nat, dist: Dist): (r: seq<Line>)
    requires |moved| == |frame| && n <= |frame| && NonNegative(dist)
    ensures forall k :: 0 <= k < |r| ==> r[k].i < n && r[k].i < r[k].j < |frame| && 0.0 < r[k].alpha <= 0.1
    ensures forall a, b :: 0 <= a < b < |r| ==> Precedes(r[a], r[b])
  {
    if n == 0 then []
    else
      var prev := FrameLines(moved, frame, n - 1, dist);
      var row := RowLines(moved[n - 1], n - 1, frame[n..], |frame| - n, dist);
      assert forall a, b :: 0 <= a < |prev| && 0 <= b < |row| ==> Precedes(prev[a], row[b]);
      prev + row
  }

  /** Row `i` holds a line to `j` exactly when `j` comes after `i` and the
      two are closer than `LinkDistance`, with the alpha for that distance. */
  lemma {:induction false} RowLinesIff(p: Particle, i: nat, rest: seq<Particle>, m: nat, dist: Dist, j: nat)
    requires m <= |rest| && NonNegative(dist)
    ensures HasLine(RowLines(p, i, rest, m, dist), i, j)
        <==> (i < j <= i + m && Gap(p, rest[j - i - 1], dist) < LinkDistance)
    ensures forall k :: 0 <= k < |RowLines(p, i, rest, m, dist)| && RowLines(p, i, rest, m, dist)[k].j == j ==>
              RowLines(p, i, rest, m, dist)[k].alpha == Alpha(Gap(p, rest[j - i - 1], dist))
  {
    if m > 0 {
      RowLinesIff(p, i, rest, m - 1, dist, j);
      var prev := RowLines(p, i, rest, m - 1, dist);
      var d := Gap(p, rest[m - 1], dist);
      var tail := if d < LinkDistance then [Line(i, i + m, Alpha(d))] else [];
      var r := RowLines(p, i, rest, m, dist);
      assert r == prev + tail;
      if j == i + m && d < LinkDistance {
        assert r[|prev|].j == j;
      }
      if i < j < i + m && Gap(p, rest[j - i - 1], dist) < LinkDistance {
        var k :| 0 <= k < |prev| && prev[k].j == j;
        assert r[k] == prev[k];
      }
      forall k | 0 <= k < |r| && r[k].j == j
        ensures i < j <= i + m && Gap(p, rest[j - i - 1], dist) < LinkDistance
        ensures r[k].alpha == Alpha(Gap(p, rest[j - i - 1], dist))
      {
        if k < |prev| {
          assert prev[k] == r[k];
        } else {
          assert r[k] == tail[k - |prev|];
        }
      }
    }
  }

  /** Every line of `r` joining `i` to `j` has alpha `a`. */
  predicate AlphaOf(r: seq<Line>, i: nat, j: nat, a: real)
  {
    forall k :: 0 <= k < |r| && r[k].i == i && r[k].j == j ==> r[k].alpha == a
  }

  /** Lines of two runs put together are the lines of either run. */
  lemma LinesConcat(r: seq<Line>, s: seq<Line>, i: nat, j: nat, a: real)
    ensures HasLine(r + s, i, j) <==> HasLine(r, i, j) || HasLine(s, i, j)
    ensures AlphaOf(r + s, i, j, a) <==> AlphaOf(r, i, j, a) && AlphaOf(s, i, j, a)
  {
    if HasLine(r, i, j) {
      var k :| 0 <= k < |r| && r[k].i == i && r[k].j == j;
      assert (r + s)[k] == r[k];
    }
    if HasLine(s, i, j) {
      var k :| 0 <= k < |s| && s[k].i == i && s[k].j == j;
      assert (r + s)[|r| + k] == s[k];
    }
    if AlphaOf(r, i, j, a) && AlphaOf(s, i, j, a) {
      forall k | 0 <= k < |r + s| && (r + s)[k].i == i && (r + s)[k].j == j
        ensures (r + s)[k].alpha == a
      {
        if k >= |r| {
          assert (r + s)[k] == s[k - |r|];
        }
      }
    }
    if AlphaOf(r + s, i, j, a) {
      forall k | 0 <= k < |r| && r[k].i == i && r[k].j == j
        ensures r[k].alpha == a
      {
        assert (r + s)[k] == r[k];
      }
      forall k | 0 <= k < |s| && s[k].i == i && s[k].j == j
        ensures s[k].alpha == a
      {
        assert (r + s)[|r| + k] == s[k];
      }
    }
  }

  /** A frame's lines are its earlier rows' lines, then the last row's. */
  lemma FrameLinesUnfold(moved: seq<Particle>, frame: seq<Particle>, n: nat, dist: Dist)
    requires |moved| == |frame| && 0 < n <= |frame| && NonNegative(dist)
    ensures FrameLines(moved, frame, n, dist)
        == FrameLines(moved, frame, n - 1, dist) + RowLines(moved[n - 1], n - 1, frame[n..], |frame| - n, dist)
  {
  }

  /** The first `n` rows read only the first `n` moved particles. */
  lemma {:induction false} FrameLinesAgree(m1: seq<Particle>, m2: seq<Particle>, frame: seq<Particle>,
                                           n: nat, dist: Dist)
    requires |m1| == |frame| && |m2| == |frame| && n <= |frame| && NonNegative(dist)
    requires forall k :: 0 <= k < n ==> m1[k] == m2[k]
    ensures FrameLines(m1, frame, n, dist) == FrameLines(m2, frame, n, dist)
  {
    if n > 0 {
      FrameLinesAgree(m1, m2, frame, n - 1, dist);
    }
  }

  /** Updating particle `i` of a pool whose particles from `i` on have not
      moved adds row `i` to the frame's lines, and leaves the particles
      after `i` unmoved. */
  lemma FrameStep(ps: seq<Particle>, frame: seq<Particle>, i: nat, p: Particle, dist: Dist)
    requires |ps| == |frame| && i < |frame| && ps[i..] == frame[i..] && NonNegative(dist)
    ensures ps[i := p][i + 1..] == frame[i + 1..]
    ensures FrameLines(ps[i := p], frame, i + 1, dist)
        == FrameLines(ps, frame, i, dist) + RowLines(p, i, frame[i + 1..], |frame| - (i + 1), dist)
  {
    var q := ps[i := p];
    assert q[i + 1..] == ps[i + 1..];
    assert ps[i + 1..] == ps[i..][1..];
    assert frame[i + 1..] == frame[i..][1..];
    FrameLinesUnfold(q, frame, i + 1, dist);
    assert q[i] == p;
    FrameLinesAgree(ps, q, frame, i, dist);
  }

  /** Row `n - 1` of a frame, read in the frame's indices. */
  lemma LastRowLines(moved: seq<Particle>, frame: seq<Particle>, n: nat, dist: Dist, i: nat, j: nat)
    requires |moved| == |frame| && 0 < n <= |frame| && NonNegative(dist)
    ensures var row := RowLines(moved[n - 1], n - 1, frame[n..], |frame| - n, dist);
      HasLine(row, i, j) <==> (i == n - 1 && i < j < |frame| && Gap(moved[i], frame[j], dist) < LinkDistance)
    ensures var row := RowLines(moved[n - 1], n - 1, frame[n..], |frame| - n, dist);
      i < j < |frame| && Gap(moved[i], frame[j], dist) < LinkDistance ==>
        AlphaOf(row, i, j, Alpha(Gap(moved[i], frame[j], dist)))
  {
    var row := RowLines(moved[n - 1], n - 1, frame[n..], |frame| - n, dist);
    RowLinesIff(moved[n - 1], n - 1, frame[n..], |frame| - n, dist, j);
    if n - 1 < j < |frame| {
      assert frame[n..][j - (n - 1) - 1] == frame[j];
    }
    if i != n - 1 {
      assert !HasLine(row, i, j);
    }
  }

  /** A frame strokes the pair `(i, j)` exactly when `i < j`, and particle
      `i` after its update is closer than `LinkDistance` to particle `j`
      before its update; the line's alpha is `Alpha` of that distance. */
  lemma {:induction false} FrameLinesIff(moved: seq<Particle>, frame: seq<Particle>, n: nat, dist: Dist,
                                         i: nat, j: nat)
    requires |moved| == |frame| && n <= |frame| && NonNegative(dist)
    ensures HasLine(FrameLines(moved, frame, n, dist), i, j)
        <==> (i < n && i < j < |frame| && Gap(moved[i], frame[j], dist) < LinkDistance)
    ensures i < j < |frame| && Gap(moved[i], frame[j], dist) < LinkDistance ==>
        AlphaOf(FrameLines(moved, frame, n, dist), i, j, Alpha(Gap(moved[i], frame[j], dist)))
  {
    if n > 0 {
      FrameLinesIff(moved, frame, n - 1, dist, i, j);
      FrameLinesUnfold(moved, frame, n, dist);
      LastRowLines(moved, frame, n, dist, i, j);
      var prev := FrameLines(moved, frame, n - 1, dist);
      var row := RowLines(moved[n - 1], n - 1, frame[n..], |frame| - n, dist);
      if i < j < |frame| && Gap(moved[i], frame[j], dist) < LinkDistance {
        LinesConcat(prev, row, i, j, Alpha(Gap(moved[i], frame[j], dist)));
      } else {
        LinesConcat(prev, row, i, j, 0.0);
      }
    }
  }

  /** Each unordered pair is stroked at most once in a frame. */
  lemma EachPairOnce(moved: seq<Particle>, frame: seq<Particle>, dist: Dist)
    requires |moved| == |frame| && NonNegative(dist)
    ensures var r := FrameLines(moved, frame, |frame|, dist);
      forall a, b :: 0 <= a < |r| && 0 <= b < |r| && a != b ==>
        {r[a].i, r[a].j} != {r[b].i, r[b].j}
  {
    var r := FrameLines(moved, frame, |frame|, dist);
    forall a, b | 0 <= a < |r| && 0 <= b < |r| && a != b
      ensures {r[a].i, r[a].j} != {r[b].i, r[b].j}
    {
      var (lo, hi) := if a < b then (a, b) else (b, a);
      assert Precedes(r[lo], r[hi]);
      assert r[lo].i < r[lo].j && r[hi].i < r[hi].j;
      if r[lo].i < r[hi].i {
        assert r[lo].i !in {r[hi].i, r[hi].j};
      } else {
        assert r[lo].j !in {r[hi].i, r[hi].j};
      }
    }
  }

  class CosmicParticleCanvas {
    var width: real
    var height: real
    var particles: seq<Particle>
    /** `this.mouse.x`/`y`, `None` while they are `null`. */
    var mouse: Option<(real, real)>
    /** The lines stroked by the most recent frame, in stroke order. */
    var frameLines: seq<Line>

    ghost predicate Valid()
      reads this
    {
      width >= 0.0 && height >= 0.0
      && forall k :: 0 <= k < |particles| ==> InBounds(particles[k], width, height)
    }

    /** `new CosmicParticleCanvas(id)` on a canvas that exists: `init()`
        sizes it to the window, creates 100 particles and draws the first
        frame at once, before any mouse position is known. So each particle
        has taken one `Step` from where it spawned, and the first frame's
        lines are stroked. */
    constructor (innerWidth: nat, innerHeight: nat, samples: seq<real>, dist: Dist)
      requires |samples| == 7 * 100 && AllSamples(samples) && NonNegative(dist)
      ensures Valid()
      ensures width == innerWidth as real && height == innerHeight as real && mouse == None
      ensures |particles| == 100
      ensures forall k :: 0 <= k < 100 ==>
        particles[k] == Step(Spawn(samples, 7 * k, width, height), None, dist, width, height)
      ensures frameLines == FrameLines(particles, SpawnPool(samples, 100, width, height), 100, dist)
    {
      width, height := innerWidth as real, innerHeight as real;
      mouse := None;
      particles := [];
      frameLines := [];
      new;
      CreateParticles(100, samples);
      assert particles == SpawnPool(samples, 100, width, height);
      Animate(dist);
    }

    /** `resize()`: the canvas takes the window's size. Particles keep their
        coordinates, so some may lie outside a smaller canvas until the next
        frame wraps them. */
    method Resize(innerWidth: nat, innerHeight: nat)
      modifies this
      ensures width == innerWidth as real && height == innerHeight as real
      ensures particles == old(particles) && mouse == old(mouse) && frameLines == old(frameLines)
    {
      width, height := innerWidth as real, innerHeight as real;
    }

    /** `createParticles(count)`: the old pool is discarded and exactly
        `count` fresh particles are pushed, each from its seven samples. */
    method CreateParticles(count: nat, samples: seq<real>)
      requires width >= 0.0 && height >= 0.0
      requires |samples| == 7 * count && AllSamples(samples)
      modifies this
      ensures Valid()
      ensures |particles| == count
      ensures forall k :: 0 <= k < count ==> particles[k] == Spawn(samples, 7 * k, width, height)
      ensures width == old(width) && height == old(height) && mouse == old(mouse)
      ensures frameLines == old(frameLines)
    {
      particles := [];
      var i := 0;
      while i < count
        invariant 0 <= i <= count && |particles| == i
        invariant width == old(width) && height == old(height) && mouse == old(mouse)
        invariant frameLines == old(frameLines)
        invariant forall k :: 0 <= k < i ==> particles[k] == Spawn(samples, 7 * k, width, height)
      {
        particles := particles + [Spawn(samples, 7 * i, width, height)];
        i := i + 1;
      }
    }

    /** The window `resize` listener: resize, then a fresh pool of 100. */
    method OnWindowResize(innerWidth: nat, innerHeight: nat, samples: seq<real>)
      requires |samples| == 7 * 100 && AllSamples(samples)
      modifies this
      ensures Valid()
      ensures width == innerWidth as real && height == innerHeight as real && mouse == old(mouse)
      ensures frameLines == old(frameLines)
      ensures |particles| == 100
      ensures forall k :: 0 <= k < 100 ==> particles[k] == Spawn(samples, 7 * k, width, height)
    {
      Resize(innerWidth, innerHeight);
      CreateParticles(100, samples);
    }

    /** The `mousemove` listener. */
    method OnMouseMove(x: real, y: real)
      modifies this
      ensures mouse == Some((x, y))
      ensures width == old(width) && height == old(height) && particles == old(particles)
      ensures frameLines == old(frameLines)
    {
      mouse := Some((x, y));
    }

    /** The `mouseout` listener: the mouse position is forgotten. */
    method OnMouseOut()
      modifies this
      ensures mouse == None
      ensures width == old(width) && height == old(height) && particles == old(particles)
      ensures frameLines == old(frameLines)
    {
      mouse := None;
    }

    /** The connection loop of one particle over `particles.slice(index + 1)`. */
    static method ConnectRow(p: Particle, i: nat, rest: seq<Particle>, dist: Dist) returns (row: seq<Line>)
      requires NonNegative(dist)
      ensures row == RowLines(p, i, rest, |rest|, dist)
    {
      row := [];
      var m := 0;
      while m < |rest|
        invariant 0 <= m <= |rest|
        invariant row == RowLines(p, i, rest, m, dist)
      {
        var other := rest[m];
        var d := dist(p.x, p.y, other.x, other.y);
        if d < LinkDistance {
          row := row + [Line(i, i + 1 + m, Alpha(d))];
        }
        m := m + 1;
      }
    }

    /** The `forEach` of `animate()` over a pool, given the update `step`
        of one particle: each particle in turn is updated in place, then
        compared with the particles after it, which have not moved yet. */
    static method Frame(frame: seq<Particle>, step: Particle -> Particle, dist: Dist)
      returns (ps: seq<Particle>, lines: seq<Line>)
      requires NonNegative(dist)
      ensures |ps| == |frame|
      ensures forall k :: 0 <= k < |frame| ==> ps[k] == step(frame[k])
      ensures lines == FrameLines(ps, frame, |frame|, dist)
    {
      ps := frame;
      lines := [];
      var i := 0;
      while i < |frame|
        invariant 0 <= i <= |frame| && |ps| == |frame|
        invariant forall k :: 0 <= k < i ==> ps[k] == step(frame[k])
        invariant ps[i..] == frame[i..]
        invariant lines == FrameLines(ps, frame, i, dist)
      {
        assert ps[i] == frame[i];
        var p := step(ps[i]);
        FrameStep(ps, frame, i, p, dist);
        ps := ps[i := p];
        // `particles.slice(i + 1)`, whose particles have not moved yet.
        var row := ConnectRow(p, i, frame[i + 1..], dist);
        lines := lines + row;
        i := i + 1;
      }
    }

    /** `animate()`: one frame over the pool, each particle taking its
        `Step`. */
    method Animate(dist: Dist)
      requires width >= 0.0 && height >= 0.0 && NonNegative(dist)
      modifies this
      ensures Valid()
      ensures |particles| == |old(particles)|
      ensures forall k :: 0 <= k < |particles| ==> particles[k] == Step(old(particles)[k], mouse, dist, width, height)
      ensures frameLines == FrameLines(particles, old(particles), |old(particles)|, dist)
      ensures width == old(width) && height == old(height) && mouse == old(mouse)
    {
      var w, h, m := width, height, mouse;
      particles, frameLines := Frame(particles, p => Step(p, m, dist, w, h), dist);
    }
  }
}
