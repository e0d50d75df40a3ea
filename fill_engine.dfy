/**
 * The paint bucket's raster engine: a stack-based, 4-connected flood fill with
 * a colour tolerance (`floodFill`), and the one-pixel dilation that closes the
 * seams anti-aliasing leaves at the edge of a fill (`expandFill`).
 *
 * A buffer is the RGBA byte array of an `ImageData` of `w` by `h` pixels:
 * pixel (x, y) is number `y * w + x` and occupies bytes `4 * (y * w + x)` up to
 * `4 * (y * w + x) + 3` (red, green, blue, alpha).
 */
module FillEngine {

  /** One channel of a pixel: an element of a `Uint8ClampedArray`. */
  type Byte = b: int | 0 <= b < 256

  /** An `[R, G, B, A]` colour. */
  datatype Color = Color(r: Byte, g: Byte, b: Byte, a: Byte)

  /** A pixel position `(x, y)`, as the flood fill's stack holds them. */
  type Point = (int, int)

  predicate InBounds(w: int, h: int, x: int, y: int) {
    0 <= x < w && 0 <= y < h
  }

  /** The pixel number `y * w + x` of an in-bounds position. */
  function Idx(w: nat, h: nat, x: int, y: int): (k: nat)
    requires InBounds(w, h, x, y)
    ensures k < w * h
  {
    MulBound(w, y, h);
    y * w + x
  }

  /** The position can be read back from its pixel number: column `k % w`, row `k / w`. */
  lemma IdxInverse(w: nat, h: nat, x: int, y: int)
    requires InBounds(w, h, x, y)
    ensures Idx(w, h, x, y) % w == x && Idx(w, h, x, y) / w == y
  {
    DivModUnique(y * w + x, w, y, x);
  }

  /** Distinct positions have distinct pixel numbers. */
  lemma IdxInjective(w: nat, h: nat, p: Point, q: Point)
    requires InBounds(w, h, p.0, p.1) && InBounds(w, h, q.0, q.1)
    requires Idx(w, h, p.0, p.1) == Idx(w, h, q.0, q.1)
    ensures p == q
  {
    IdxInverse(w, h, p.0, p.1);
    IdxInverse(w, h, q.0, q.1);
  }

  lemma MulBound(w: nat, y: nat, h: nat)
    requires y < h
    ensures y * w + w <= w * h
  {
    var e := h - y - 1;
    assert h == y + 1 + e;
    assert w * h == w * y + w + w * e;
    assert w * e >= 0;
  }

  lemma MulAtLeast(a: nat, d: nat)
    ensures (a + 1) * d >= d
  {
  }

  /** Euclidean division is unique: `n == q * d + r` with `0 <= r < d` fixes quotient and remainder. */
  lemma DivModUnique(n: int, d: int, q: int, r: int)
    requires 0 <= r < d && n == q * d + r
    ensures n / d == q && n % d == r
  {
    var q', r' := n / d, n % d;
    assert n == q' * d + r' && 0 <= r' < d;
    if q > q' {
      MulAtLeast(q - q' - 1, d);
    } else if q < q' {
      MulAtLeast(q' - q - 1, d);
    }
  }

  /** The position of pixel number `k`; the inverse of `Idx`. */
  function Coord(w: nat, h: nat, k: int): (p: Point)
    requires 0 <= k < w * h
    ensures InBounds(w, h, p.0, p.1) && Idx(w, h, p.0, p.1) == k
  {
    (k % w, k / w)
  }

  /** The colour of pixel number `k` of buffer `s`. */
  function PixelAt(s: seq<Byte>, k: int): Color
    requires 0 <= k && 4 * k + 3 < |s|
  {
    Color(s[4 * k], s[4 * k + 1], s[4 * k + 2], s[4 * k + 3])
  }

  /** Channel `i` (0 red, 1 green, 2 blue, 3 alpha) of a colour. */
  function Channel(c: Color, i: int): Byte {
    if i == 0 then c.r else if i == 1 then c.g else if i == 2 then c.b else c.a
  }

  function Abs(n: int): nat {
    if n < 0 then -n else n
  }

  /** R, G and B of `c` each within `tolerance` of those of `d`; alpha is not compared. */
  predicate Near(c: Color, d: Color, tolerance: int) {
    Abs(c.r - d.r) <= tolerance && Abs(c.g - d.g) <= tolerance && Abs(c.b - d.b) <= tolerance
  }

  /** Two buffers of `n` pixels that agree on every pixel are equal. */
  lemma SamePixels(a: seq<Byte>, b: seq<Byte>, n: nat)
    requires |a| == |b| == n * 4
    requires forall k :: 0 <= k < n ==> PixelAt(a, k) == PixelAt(b, k)
    ensures a == b
  {
    forall j | 0 <= j < |a|
      ensures a[j] == b[j]
    {
      var k := j / 4;
      assert PixelAt(a, k) == PixelAt(b, k);
      assert j == 4 * k + j % 4;
    }
  }

  // ---------------------------------------------------------------------------
  // The flood fill's specification: the 4-connected region of the seed.
  // ---------------------------------------------------------------------------

  /** The 4-neighbours of a position: left, right, up, down. */
  predicate Adjacent(p: Point, q: Point) {
    (q.1 == p.1 && (q.0 == p.0 - 1 || q.0 == p.0 + 1))
    || (q.0 == p.0 && (q.1 == p.1 - 1 || q.1 == p.1 + 1))
  }

  /** Position `p` is inside the image and its R, G and B are each within `tolerance` of the seed colour `sc`. */
  predicate Joins(s: seq<Byte>, w: nat, h: nat, sc: Color, tolerance: int, p: Point)
    requires |s| == w * h * 4
  {
    InBounds(w, h, p.0, p.1) && Near(PixelAt(s, Idx(w, h, p.0, p.1)), sc, tolerance)
  }

  /** A walk from the seed through 4-neighbours, every step of which joins the fill. */
  ghost predicate IsFillPath(s: seq<Byte>, w: nat, h: nat, seed: Point, sc: Color, tolerance: int, path: seq<Point>)
    requires |s| == w * h * 4
  {
    && 0 < |path| && path[0] == seed
    && (forall i :: 0 <= i < |path| ==> Joins(s, w, h, sc, tolerance, path[i]))
    && (forall i, j :: 0 <= i < j < |path| && j == i + 1 ==> Adjacent(path[i], path[j]))
  }

  /** `p` lies in the 4-connected region of pixels joining the fill that contains the seed. */
  ghost predicate InRegion(s: seq<Byte>, w: nat, h: nat, seed: Point, sc: Color, tolerance: int, p: Point)
    requires |s| == w * h * 4
  {
    exists path :: IsFillPath(s, w, h, seed, sc, tolerance, path) && path[|path| - 1] == p
  }

  /**
   * The paint bucket recolours `p`: the seed is in the image, its colour is not
   * already within `tolerance` of the fill colour, and `p` is in the seed's region.
   */
  ghost predicate Recolors(s: seq<Byte>, w: nat, h: nat, sx: int, sy: int, fill: Color, tolerance: int, p: Point)
    requires |s| == w * h * 4
  {
    && InBounds(w, h, sx, sy)
    && !Near(PixelAt(s, Idx(w, h, sx, sy)), fill, tolerance)
    && InRegion(s, w, h, (sx, sy), PixelAt(s, Idx(w, h, sx, sy)), tolerance, p)
  }

  /** The buffer after `floodFill(ctx, sx, sy, fill, tolerance)`: the recoloured pixels take all four channels of `fill`. */
  ghost function FloodFilled(s: seq<Byte>, w: nat, h: nat, sx: int, sy: int, fill: Color, tolerance: int): (r: seq<Byte>)
    requires |s| == w * h * 4
    ensures |r| == |s|
  {
    seq(|s|, j requires 0 <= j < |s| =>
      if Recolors(s, w, h, sx, sy, fill, tolerance, Coord(w, h, j / 4)) then Channel(fill, j % 4) else s[j])
  }

  /** Pixel by pixel, the flood fill paints exactly the recoloured pixels with the fill colour and keeps the others. */
  lemma FloodFilledPixel(s: seq<Byte>, w: nat, h: nat, sx: int, sy: int, fill: Color, tolerance: int, x: int, y: int)
    requires |s| == w * h * 4 && InBounds(w, h, x, y)
    ensures PixelAt(FloodFilled(s, w, h, sx, sy, fill, tolerance), Idx(w, h, x, y))
         == if Recolors(s, w, h, sx, sy, fill, tolerance, (x, y)) then fill else PixelAt(s, Idx(w, h, x, y))
  {
    var k := Idx(w, h, x, y);
    IdxInverse(w, h, x, y);
    assert Coord(w, h, k) == (x, y);
    assert (4 * k) / 4 == k && (4 * k + 1) / 4 == k && (4 * k + 2) / 4 == k && (4 * k + 3) / 4 == k;
  }

  /** A click outside the image, or on a pixel already within tolerance of the fill colour, leaves the buffer as it was. */
  lemma FloodFillNoOp(s: seq<Byte>, w: nat, h: nat, sx: int, sy: int, fill: Color, tolerance: int)
    requires |s| == w * h * 4
    requires !InBounds(w, h, sx, sy) || Near(PixelAt(s, Idx(w, h, sx, sy)), fill, tolerance)
    ensures FloodFilled(s, w, h, sx, sy, fill, tolerance) == s
  {
  }

  /** Every recoloured pixel has R, G and B within tolerance of the original seed colour. */
  lemma RecoloredJoins(s: seq<Byte>, w: nat, h: nat, sx: int, sy: int, fill: Color, tolerance: int, p: Point)
    requires |s| == w * h * 4
    requires Recolors(s, w, h, sx, sy, fill, tolerance, p)
    ensures Joins(s, w, h, PixelAt(s, Idx(w, h, sx, sy)), tolerance, p)
  {
    var sc := PixelAt(s, Idx(w, h, sx, sy));
    var path :| IsFillPath(s, w, h, (sx, sy), sc, tolerance, path) && path[|path| - 1] == p;
  }

  /**
   * Growing the visited set, and keeping every pending position either pending
   * or visited, keeps the neighbours of `p` covered.
   */
  lemma CoveredMono(v1: seq<bool>, s1: seq<Point>, v2: seq<bool>, s2: seq<Point>, w: nat, h: nat, p: Point)
    requires |v1| == |v2| == w * h
    requires NeighboursCovered(v1, s1, w, h, p)
    requires forall j :: 0 <= j < w * h && v1[j] ==> v2[j]
    requires forall q :: q in s1 && InBounds(w, h, q.0, q.1) ==> q in s2 || v2[Idx(w, h, q.0, q.1)]
    ensures NeighboursCovered(v2, s2, w, h, p)
  {
  }

  /** Appending a joining 4-neighbour of its end extends a fill path. */
  lemma ExtendPath(s: seq<Byte>, w: nat, h: nat, seed: Point, sc: Color, tolerance: int, path: seq<Point>, q: Point)
    requires |s| == w * h * 4
    requires IsFillPath(s, w, h, seed, sc, tolerance, path)
    requires Adjacent(path[|path| - 1], q) && Joins(s, w, h, sc, tolerance, q)
    ensures IsFillPath(s, w, h, seed, sc, tolerance, path + [q])
  {
  }

  /**
   * The region is closed: a joining 4-neighbour of a recoloured pixel is
   * recoloured too, so the fill does not stop short of the region's edge.
   */
  lemma RecolorsClosed(s: seq<Byte>, w: nat, h: nat, sx: int, sy: int, fill: Color, tolerance: int, p: Point, q: Point)
    requires |s| == w * h * 4
    requires Recolors(s, w, h, sx, sy, fill, tolerance, p)
    requires Adjacent(p, q) && Joins(s, w, h, PixelAt(s, Idx(w, h, sx, sy)), tolerance, q)
    ensures Recolors(s, w, h, sx, sy, fill, tolerance, q)
  {
    var sc := PixelAt(s, Idx(w, h, sx, sy));
    var path :| IsFillPath(s, w, h, (sx, sy), sc, tolerance, path) && path[|path| - 1] == p;
    ExtendPath(s, w, h, (sx, sy), sc, tolerance, path, q);
    assert (path + [q])[|path + [q]| - 1] == q;
  }

  /** The seed itself is recoloured whenever the fill does anything (and the tolerance is not negative). */
  lemma SeedRecolored(s: seq<Byte>, w: nat, h: nat, sx: int, sy: int, fill: Color, tolerance: int)
    requires |s| == w * h * 4 && InBounds(w, h, sx, sy) && 0 <= tolerance
    requires !Near(PixelAt(s, Idx(w, h, sx, sy)), fill, tolerance)
    ensures Recolors(s, w, h, sx, sy, fill, tolerance, (sx, sy))
  {
    var sc := PixelAt(s, Idx(w, h, sx, sy));
    assert IsFillPath(s, w, h, (sx, sy), sc, tolerance, [(sx, sy)]);
  }

  /** A larger tolerance never shrinks the region of a seed. */
  lemma RegionToleranceMonotone(s: seq<Byte>, w: nat, h: nat, seed: Point, sc: Color, t1: int, t2: int, p: Point)
    requires |s| == w * h * 4 && t1 <= t2
    requires InRegion(s, w, h, seed, sc, t1, p)
    ensures InRegion(s, w, h, seed, sc, t2, p)
  {
    var path :| IsFillPath(s, w, h, seed, sc, t1, path) && path[|path| - 1] == p;
    assert IsFillPath(s, w, h, seed, sc, t2, path);
  }

  /**
   * The whole operation is not monotone in the tolerance: the no-op test against
   * the fill colour uses the same tolerance, so on a one-pixel image of colour
   * (0, 0, 3) filled with black, tolerance 2 recolours the pixel and tolerance 5
   * leaves it alone.
   */
  lemma ToleranceGuardNotMonotone()
    ensures var s := [0, 0, 3, 255];
            var black := Color(0, 0, 0, 255);
            && FloodFilled(s, 1, 1, 0, 0, black, 2) == [0, 0, 0, 255]
            && FloodFilled(s, 1, 1, 0, 0, black, 5) == s
  {
    var s: seq<Byte> := [0, 0, 3, 255];
    var black := Color(0, 0, 0, 255);
    SeedRecolored(s, 1, 1, 0, 0, black, 2);
    var r := FloodFilled(s, 1, 1, 0, 0, black, 2);
    FloodFilledPixel(s, 1, 1, 0, 0, black, 2, 0, 0);
    assert PixelAt(r, 0) == black;
    FloodFillNoOp(s, 1, 1, 0, 0, black, 5);
  }

  // ---------------------------------------------------------------------------
  // floodFill
  // ---------------------------------------------------------------------------

  /** Every in-bounds 4-neighbour of `p` has been visited or is still on the stack. */
  ghost predicate Covered(visited: seq<bool>, stack: seq<Point>, w: nat, h: nat, q: Point)
    requires |visited| == w * h
  {
    InBounds(w, h, q.0, q.1) ==> visited[Idx(w, h, q.0, q.1)] || q in stack
  }

  ghost predicate NeighboursCovered(visited: seq<bool>, stack: seq<Point>, w: nat, h: nat, p: Point)
    requires |visited| == w * h
  {
    && Covered(visited, stack, w, h, (p.0 - 1, p.1))
    && Covered(visited, stack, w, h, (p.0 + 1, p.1))
    && Covered(visited, stack, w, h, (p.0, p.1 - 1))
    && Covered(visited, stack, w, h, (p.0, p.1 + 1))
  }

  /** `p` has been visited and joins the fill: the loop has painted it. */
  ghost predicate Painted(s: seq<Byte>, visited: seq<bool>, w: nat, h: nat, sc: Color, tolerance: int, p: Point)
    requires |s| == w * h * 4 && |visited| == w * h
  {
    Joins(s, w, h, sc, tolerance, p) && visited[Idx(w, h, p.0, p.1)]
  }

  /**
   * Once the stack is empty, every painted pixel's neighbours have been visited;
   * then the end of any fill path that starts at a painted seed is painted.
   */
  lemma {:induction false} PathPainted(s: seq<Byte>, visited: seq<bool>, w: nat, h: nat, seed: Point, sc: Color,
                                       tolerance: int, path: seq<Point>)
    requires |s| == w * h * 4 && |visited| == w * h
    requires IsFillPath(s, w, h, seed, sc, tolerance, path)
    requires Painted(s, visited, w, h, sc, tolerance, seed)
    requires forall p :: Painted(s, visited, w, h, sc, tolerance, p) ==> NeighboursCovered(visited, [], w, h, p)
    ensures Painted(s, visited, w, h, sc, tolerance, path[|path| - 1])
    decreases |path|
  {
    if 1 < |path| {
      var prefix := path[..|path| - 1];
      assert IsFillPath(s, w, h, seed, sc, tolerance, prefix);
      PathPainted(s, visited, w, h, seed, sc, tolerance, prefix);
      var p, q := path[|path| - 2], path[|path| - 1];
      assert NeighboursCovered(visited, [], w, h, p);
      assert Adjacent(p, q);
    }
  }

  /** Each unvisited pixel is one step of the loop's termination measure. */
  function CountUnvisited(v: seq<bool>): nat {
    if v == [] then 0 else (if v[0] then 0 else 1) + CountUnvisited(v[1..])
  }

  lemma {:induction false} VisitDecreases(v: seq<bool>, k: int)
    requires 0 <= k < |v| && !v[k]
    ensures CountUnvisited(v[k := true]) < CountUnvisited(v)
    decreases |v|
  {
    if k > 0 {
      assert v[k := true][1..] == v[1..][k - 1 := true];
      VisitDecreases(v[1..], k - 1);
    }
  }

  /** Writes colour `c` into the four bytes of pixel number `k`. */
  method PaintPixel(data: array<Byte>, k: nat, c: Color)
    requires 4 * k + 3 < data.Length
    modifies data
    ensures PixelAt(data[..], k) == c
    ensures forall j :: 0 <= j < data.Length && (j < 4 * k || 4 * k + 3 < j) ==> data[j] == old(data[j])
    ensures forall k' :: 0 <= k' && 4 * k' + 3 < data.Length && k' != k ==> PixelAt(data[..], k') == PixelAt(old(data[..]), k')
  {
    data[4 * k] := c.r;
    data[4 * k + 1] := c.g;
    data[4 * k + 2] := c.b;
    data[4 * k + 3] := c.a;
  }

  /**
   * `stack` with the in-bounds 4-neighbours of `p` pushed in the loop's order:
   * left, right, up, down. Every pushed position is a neighbour of `p`, and
   * every in-bounds neighbour of an in-bounds `p` is pushed.
   */
  function PushNeighbours(stack: seq<Point>, w: nat, h: nat, p: Point): (r: seq<Point>)
    ensures |stack| <= |r| && r[..|stack|] == stack
    ensures forall i :: |stack| <= i < |r| ==> Adjacent(p, r[i])
    ensures InBounds(w, h, p.0, p.1) ==> forall q :: Adjacent(p, q) && InBounds(w, h, q.0, q.1) ==> q in r
  {
    stack
    + (if p.0 > 0 then [(p.0 - 1, p.1)] else [])
    + (if p.0 < w - 1 then [(p.0 + 1, p.1)] else [])
    + (if p.1 > 0 then [(p.0, p.1 - 1)] else [])
    + (if p.1 < h - 1 then [(p.0, p.1 + 1)] else [])
  }

  /** `d` is the original buffer `s0` with exactly the visited pixels that join the fill painted. */
  ghost predicate PixelsPainted(s0: seq<Byte>, d: seq<Byte>, visited: seq<bool>, w: nat, h: nat, sc: Color,
                                fill: Color, tolerance: int)
    requires |s0| == |d| == w * h * 4 && |visited| == w * h
  {
    forall k :: 0 <= k < w * h ==>
      PixelAt(d, k) == if visited[k] && Near(PixelAt(s0, k), sc, tolerance) then fill else PixelAt(s0, k)
  }

  /** Every painted pixel lies in the seed's region and has its neighbours visited or pending. */
  ghost predicate PaintedClosed(s0: seq<Byte>, visited: seq<bool>, stack: seq<Point>, w: nat, h: nat, seed: Point,
                                sc: Color, tolerance: int)
    requires |s0| == w * h * 4 && |visited| == w * h
  {
    forall p :: Painted(s0, visited, w, h, sc, tolerance, p) ==>
      InRegion(s0, w, h, seed, sc, tolerance, p) && NeighboursCovered(visited, stack, w, h, p)
  }

  /** Every pending position is the seed or a neighbour of a painted pixel, its `parents` entry. */
  ghost predicate PendingFromPainted(s0: seq<Byte>, visited: seq<bool>, stack: seq<Point>, parents: seq<Point>,
                                     w: nat, h: nat, seed: Point, sc: Color, tolerance: int)
    requires |s0| == w * h * 4 && |visited| == w * h && |parents| == |stack|
  {
    forall i {:trigger parents[i]} :: 0 <= i < |stack| ==>
      || stack[i] == seed
      || (&& Joins(s0, w, h, sc, tolerance, parents[i])
          && visited[Idx(w, h, parents[i].0, parents[i].1)]
          && Adjacent(parents[i], stack[i]))
  }

  /**
   * What the loop of `FloodFill` keeps: the four predicates above, and the seed
   * is visited or pending.
   */
  ghost predicate FillInvariant(s0: seq<Byte>, d: seq<Byte>, visited: seq<bool>, stack: seq<Point>, parents: seq<Point>,
                                w: nat, h: nat, seed: Point, sc: Color, fill: Color, tolerance: int)
    requires |s0| == w * h * 4
  {
    && |d| == |s0| && |visited| == w * h && |parents| == |stack|
    && PixelsPainted(s0, d, visited, w, h, sc, fill, tolerance)
    && PaintedClosed(s0, visited, stack, w, h, seed, sc, tolerance)
    && PendingFromPainted(s0, visited, stack, parents, w, h, seed, sc, tolerance)
    && (InBounds(w, h, seed.0, seed.1) ==> visited[Idx(w, h, seed.0, seed.1)] || seed in stack)
  }

  /** Before the loop: nothing is visited and the seed alone is pending. */
  lemma InvariantStart(s0: seq<Byte>, w: nat, h: nat, seed: Point, sc: Color, fill: Color, tolerance: int)
    requires |s0| == w * h * 4
    ensures FillInvariant(s0, s0, seq(w * h, _ => false), [seed], [seed], w, h, seed, sc, fill, tolerance)
  {
  }

  /** Dropping the top of the stack keeps the pending positions justified. */
  lemma PendingPop(s0: seq<Byte>, visited: seq<bool>, stack: seq<Point>, parents: seq<Point>,
                   w: nat, h: nat, seed: Point, sc: Color, tolerance: int, top: Point, parent: Point)
    requires |s0| == w * h * 4 && |visited| == w * h && |parents| == |stack|
    requires PendingFromPainted(s0, visited, stack + [top], parents + [parent], w, h, seed, sc, tolerance)
    ensures PendingFromPainted(s0, visited, stack, parents, w, h, seed, sc, tolerance)
  {
    forall i | 0 <= i < |stack|
      ensures || stack[i] == seed
              || (&& Joins(s0, w, h, sc, tolerance, parents[i])
                  && visited[Idx(w, h, parents[i].0, parents[i].1)]
                  && Adjacent(parents[i], stack[i]))
    {
      assert (stack + [top])[i] == stack[i] && (parents + [parent])[i] == parents[i];
    }
  }

  /** Marking one more pixel visited keeps the pending positions justified. */
  lemma PendingVisit(s0: seq<Byte>, visited: seq<bool>, stack: seq<Point>, parents: seq<Point>,
                     w: nat, h: nat, seed: Point, sc: Color, tolerance: int, k: int)
    requires |s0| == w * h * 4 && |visited| == w * h && |parents| == |stack| && 0 <= k < w * h
    requires PendingFromPainted(s0, visited, stack, parents, w, h, seed, sc, tolerance)
    ensures PendingFromPainted(s0, visited[k := true], stack, parents, w, h, seed, sc, tolerance)
  {
    var v := visited[k := true];
    forall i | 0 <= i < |stack|
      ensures || stack[i] == seed
              || (&& Joins(s0, w, h, sc, tolerance, parents[i])
                  && v[Idx(w, h, parents[i].0, parents[i].1)]
                  && Adjacent(parents[i], stack[i]))
    {
      assert parents[i] == parents[i];
    }
  }

  /** An unvisited pixel still has its original colour. */
  lemma UnvisitedUnpainted(s0: seq<Byte>, d: seq<Byte>, visited: seq<bool>, w: nat, h: nat, sc: Color,
                           fill: Color, tolerance: int, k: int)
    requires |s0| == |d| == w * h * 4 && |visited| == w * h && 0 <= k < w * h && !visited[k]
    requires PixelsPainted(s0, d, visited, w, h, sc, fill, tolerance)
    ensures PixelAt(d, k) == PixelAt(s0, k)
  {
  }

  /** A popped position that is outside the image or already visited is dropped. */
  lemma InvariantSkip(s0: seq<Byte>, d: seq<Byte>, visited: seq<bool>, stack: seq<Point>, parents: seq<Point>,
                      w: nat, h: nat, seed: Point, sc: Color, fill: Color, tolerance: int, top: Point, parent: Point)
    requires |s0| == w * h * 4
    requires FillInvariant(s0, d, visited, stack + [top], parents + [parent], w, h, seed, sc, fill, tolerance)
    requires !InBounds(w, h, top.0, top.1) || visited[Idx(w, h, top.0, top.1)]
    ensures FillInvariant(s0, d, visited, stack, parents, w, h, seed, sc, fill, tolerance)
  {
    PendingPop(s0, visited, stack, parents, w, h, seed, sc, tolerance, top, parent);
    forall p | Painted(s0, visited, w, h, sc, tolerance, p)
      ensures NeighboursCovered(visited, stack, w, h, p)
    {
      forall q | q in stack + [top] && InBounds(w, h, q.0, q.1)
        ensures q in stack || visited[Idx(w, h, q.0, q.1)]
      {
      }
      CoveredMono(visited, stack + [top], visited, stack, w, h, p);
    }
  }

  /** A popped, unvisited position that does not join the fill is marked visited and left unpainted. */
  lemma InvariantReject(s0: seq<Byte>, d: seq<Byte>, visited: seq<bool>, stack: seq<Point>, parents: seq<Point>,
                        w: nat, h: nat, seed: Point, sc: Color, fill: Color, tolerance: int, top: Point, parent: Point)
    requires |s0| == w * h * 4
    requires FillInvariant(s0, d, visited, stack + [top], parents + [parent], w, h, seed, sc, fill, tolerance)
    requires InBounds(w, h, top.0, top.1) && !Joins(s0, w, h, sc, tolerance, top)
    ensures FillInvariant(s0, d, visited[Idx(w, h, top.0, top.1) := true], stack, parents,
                          w, h, seed, sc, fill, tolerance)
  {
    var k := Idx(w, h, top.0, top.1);
    var v := visited[k := true];
    PendingPop(s0, visited, stack, parents, w, h, seed, sc, tolerance, top, parent);
    PendingVisit(s0, visited, stack, parents, w, h, seed, sc, tolerance, k);
    forall p | Painted(s0, v, w, h, sc, tolerance, p)
      ensures InRegion(s0, w, h, seed, sc, tolerance, p) && NeighboursCovered(v, stack, w, h, p)
    {
      if Idx(w, h, p.0, p.1) == k {
        IdxInjective(w, h, p, top);
      }
      assert Painted(s0, visited, w, h, sc, tolerance, p);
      CoveredMono(visited, stack + [top], v, stack, w, h, p);
    }
  }

  /** Painting the joining pixel `k` keeps the buffer equal to the original with the visited, joining pixels painted. */
  lemma PaintKeepsPixels(s0: seq<Byte>, d: seq<Byte>, d': seq<Byte>, visited: seq<bool>, w: nat, h: nat,
                         sc: Color, fill: Color, tolerance: int, k: int)
    requires |s0| == |d| == |d'| == w * h * 4 && |visited| == w * h && 0 <= k < w * h
    requires PixelsPainted(s0, d, visited, w, h, sc, fill, tolerance)
    requires Near(PixelAt(s0, k), sc, tolerance) && PixelAt(d', k) == fill
    requires forall j :: 0 <= j < w * h && j != k ==> PixelAt(d', j) == PixelAt(d, j)
    ensures PixelsPainted(s0, d', visited[k := true], w, h, sc, fill, tolerance)
  {
  }

  /** The newly painted pixel `top` lies in the seed's region: it is the seed, or a neighbour of its painted parent. */
  lemma PaintedInRegion(s0: seq<Byte>, visited: seq<bool>, stack: seq<Point>, w: nat, h: nat, seed: Point,
                        sc: Color, tolerance: int, top: Point, parent: Point)
    requires |s0| == w * h * 4 && |visited| == w * h
    requires PaintedClosed(s0, visited, stack, w, h, seed, sc, tolerance)
    requires Joins(s0, w, h, sc, tolerance, top)
    requires || top == seed
             || (&& Joins(s0, w, h, sc, tolerance, parent)
                 && visited[Idx(w, h, parent.0, parent.1)]
                 && Adjacent(parent, top))
    ensures InRegion(s0, w, h, seed, sc, tolerance, top)
  {
    if top == seed {
      assert IsFillPath(s0, w, h, seed, sc, tolerance, [seed]);
    } else {
      assert Painted(s0, visited, w, h, sc, tolerance, parent);
      var path :| IsFillPath(s0, w, h, seed, sc, tolerance, path) && path[|path| - 1] == parent;
      ExtendPath(s0, w, h, seed, sc, tolerance, path, top);
      assert (path + [top])[|path + [top]| - 1] == top;
    }
  }

  /** Painting `top` and pushing its neighbours keeps every painted pixel's neighbours covered. */
  lemma PaintKeepsClosed(s0: seq<Byte>, visited: seq<bool>, stack: seq<Point>, w: nat, h: nat, seed: Point,
                         sc: Color, tolerance: int, top: Point)
    requires |s0| == w * h * 4 && |visited| == w * h
    requires PaintedClosed(s0, visited, stack + [top], w, h, seed, sc, tolerance)
    requires InBounds(w, h, top.0, top.1) && InRegion(s0, w, h, seed, sc, tolerance, top)
    ensures PaintedClosed(s0, visited[Idx(w, h, top.0, top.1) := true], PushNeighbours(stack, w, h, top),
                          w, h, seed, sc, tolerance)
  {
    var k := Idx(w, h, top.0, top.1);
    var v := visited[k := true];
    var stack' := PushNeighbours(stack, w, h, top);
    forall q | q in stack + [top] && InBounds(w, h, q.0, q.1)
      ensures q in stack' || v[Idx(w, h, q.0, q.1)]
    {
      if q != top {
        var i :| 0 <= i < |stack| && stack[i] == q;
        assert stack'[i] == q;
      }
    }
    forall p | Painted(s0, v, w, h, sc, tolerance, p)
      ensures InRegion(s0, w, h, seed, sc, tolerance, p) && NeighboursCovered(v, stack', w, h, p)
    {
      if p != top {
        if Idx(w, h, p.0, p.1) == k {
          IdxInjective(w, h, p, top);
        }
        assert Painted(s0, visited, w, h, sc, tolerance, p);
        CoveredMono(visited, stack + [top], v, stack', w, h, p);
      }
    }
  }

  /** Pushing the neighbours of the newly painted `top`, with `top` as their parent, keeps the pending positions justified. */
  lemma PaintKeepsPending(s0: seq<Byte>, visited: seq<bool>, stack: seq<Point>, parents: seq<Point>,
                          parents': seq<Point>, w: nat, h: nat, seed: Point, sc: Color, tolerance: int, top: Point)
    requires |s0| == w * h * 4 && |visited| == w * h && |parents| == |stack|
    requires PendingFromPainted(s0, visited, stack, parents, w, h, seed, sc, tolerance)
    requires InBounds(w, h, top.0, top.1) && Joins(s0, w, h, sc, tolerance, top)
    requires |parents'| == |PushNeighbours(stack, w, h, top)|
    requires parents'[..|parents|] == parents && forall i :: |parents| <= i < |parents'| ==> parents'[i] == top
    ensures PendingFromPainted(s0, visited[Idx(w, h, top.0, top.1) := true], PushNeighbours(stack, w, h, top),
                               parents', w, h, seed, sc, tolerance)
  {
    var k := Idx(w, h, top.0, top.1);
    var v := visited[k := true];
    var stack' := PushNeighbours(stack, w, h, top);
    forall i | 0 <= i < |stack'|
      ensures || stack'[i] == seed
              || (&& Joins(s0, w, h, sc, tolerance, parents'[i])
                  && v[Idx(w, h, parents'[i].0, parents'[i].1)]
                  && Adjacent(parents'[i], stack'[i]))
    {
      if i < |stack| {
        assert stack'[i] == stack[i] && parents'[i] == parents[i];
      } else {
        assert parents'[i] == top;
      }
    }
  }

  /**
   * A popped, unvisited position that joins the fill is marked visited, painted,
   * and its in-bounds neighbours are pushed with it as their parent.
   */
  lemma InvariantPaint(s0: seq<Byte>, d: seq<Byte>, d': seq<Byte>, visited: seq<bool>, stack: seq<Point>,
                       parents: seq<Point>, w: nat, h: nat, seed: Point, sc: Color, fill: Color, tolerance: int,
                       top: Point, parent: Point, parents': seq<Point>)
    requires |s0| == w * h * 4
    requires FillInvariant(s0, d, visited, stack + [top], parents + [parent], w, h, seed, sc, fill, tolerance)
    requires InBounds(w, h, top.0, top.1) && !visited[Idx(w, h, top.0, top.1)]
    requires Joins(s0, w, h, sc, tolerance, top)
    requires |d'| == |d| && PixelAt(d', Idx(w, h, top.0, top.1)) == fill
    requires forall k :: 0 <= k < w * h && k != Idx(w, h, top.0, top.1) ==> PixelAt(d', k) == PixelAt(d, k)
    requires |parents'| == |PushNeighbours(stack, w, h, top)| && |parents| == |stack|
    requires parents'[..|parents|] == parents && forall i :: |parents| <= i < |parents'| ==> parents'[i] == top
    ensures FillInvariant(s0, d', visited[Idx(w, h, top.0, top.1) := true], PushNeighbours(stack, w, h, top),
                          parents', w, h, seed, sc, fill, tolerance)
  {
    var k := Idx(w, h, top.0, top.1);
    var last := |stack|;
    assert (stack + [top])[last] == top && (parents + [parent])[last] == parent;
    PaintKeepsPixels(s0, d, d', visited, w, h, sc, fill, tolerance, k);
    PaintedInRegion(s0, visited, stack + [top], w, h, seed, sc, tolerance, top, parent);
    PaintKeepsClosed(s0, visited, stack, w, h, seed, sc, tolerance, top);
    PendingPop(s0, visited, stack, parents, w, h, seed, sc, tolerance, top, parent);
    PaintKeepsPending(s0, visited, stack, parents, parents', w, h, seed, sc, tolerance, top);
  }

  /**
   * When the stack is empty, the painted pixels are exactly those the
   * specification recolours, so the buffer is the flood-filled one.
   */
  lemma InvariantDone(s0: seq<Byte>, d: seq<Byte>, visited: seq<bool>, w: nat, h: nat, sx: int, sy: int,
                      sc: Color, fill: Color, tolerance: int)
    requires |s0| == w * h * 4
    requires FillInvariant(s0, d, visited, [], [], w, h, (sx, sy), sc, fill, tolerance)
    requires !Near(sc, fill, tolerance)
    requires InBounds(w, h, sx, sy) ==> sc == PixelAt(s0, Idx(w, h, sx, sy))
    ensures d == FloodFilled(s0, w, h, sx, sy, fill, tolerance)
  {
    forall k | 0 <= k < w * h
      ensures PixelAt(d, k) == PixelAt(FloodFilled(s0, w, h, sx, sy, fill, tolerance), k)
    {
      var p := Coord(w, h, k);
      FloodFilledPixel(s0, w, h, sx, sy, fill, tolerance, p.0, p.1);
      if Recolors(s0, w, h, sx, sy, fill, tolerance, p) {
        var path :| IsFillPath(s0, w, h, (sx, sy), sc, tolerance, path) && path[|path| - 1] == p;
        PathPainted(s0, visited, w, h, (sx, sy), sc, tolerance, path);
      }
      if Painted(s0, visited, w, h, sc, tolerance, p) {
        var path :| IsFillPath(s0, w, h, (sx, sy), sc, tolerance, path) && path[|path| - 1] == p;
        assert InBounds(w, h, sx, sy);
      }
    }
    SamePixels(d, FloodFilled(s0, w, h, sx, sy, fill, tolerance), w * h);
  }

  /**
   * One pass of the loop of `FloodFill` after the popped position `(x, y)` has
   * been found in bounds and unvisited: mark it visited and, if its R, G and B
   * are within `tolerance` of the seed colour, paint it and push its in-bounds
   * neighbours.
   */
  method Visit(data: array<Byte>, visited: array<bool>, w: nat, h: nat, x: int, y: int, startColor: Color,
               fill: Color, tolerance: int, stack: seq<Point>, ghost s0: seq<Byte>, ghost seed: Point,
               ghost parents: seq<Point>, ghost parent: Point)
    returns (stack': seq<Point>, ghost parents': seq<Point>)
    requires data.Length == |s0| == w * h * 4 && visited.Length == w * h
    requires InBounds(w, h, x, y) && !visited[Idx(w, h, x, y)]
    requires FillInvariant(s0, data[..], visited[..], stack + [(x, y)], parents + [parent],
                           w, h, seed, startColor, fill, tolerance)
    modifies data, visited
    ensures FillInvariant(s0, data[..], visited[..], stack', parents', w, h, seed, startColor, fill, tolerance)
    ensures CountUnvisited(visited[..]) < CountUnvisited(old(visited[..]))
    ensures visited[..] == old(visited[..])[Idx(w, h, x, y) := true]
    ensures var k := Idx(w, h, x, y);
      4 * k + 3 < data.Length &&
      if Near(PixelAt(old(data[..]), k), startColor, tolerance) then
        && stack' == PushNeighbours(stack, w, h, (x, y))
        && PixelAt(data[..], k) == fill
        && forall j :: 0 <= j < data.Length && (j < 4 * k || 4 * k + 3 < j) ==> data[j] == old(data[j])
      else
        stack' == stack && data[..] == old(data[..])
  {
    var k := Idx(w, h, x, y);
    var index := k * 4;
    ghost var before := visited[..];
    ghost var d := data[..];
    UnvisitedUnpainted(s0, d, before, w, h, startColor, fill, tolerance, k);
    visited[k] := true;
    VisitDecreases(before, k);

    var r, g, b := data[index], data[index + 1], data[index + 2];
    assert Color(r, g, b, data[index + 3]) == PixelAt(s0, k);
    stack', parents' := stack, parents;
    if Abs(r - startColor.r) <= tolerance && Abs(g - startColor.g) <= tolerance
       && Abs(b - startColor.b) <= tolerance
    {
      PaintPixel(data, k, fill);
      stack' := PushNeighbours(stack, w, h, (x, y));
      parents' := parents + seq(|stack'| - |stack|, _ => (x, y));
      InvariantPaint(s0, d, data[..], before, stack, parents, w, h, seed, startColor, fill, tolerance,
                     (x, y), parent, parents');
    } else {
      InvariantReject(s0, d, before, stack, parents, w, h, seed, startColor, fill, tolerance, (x, y), parent);
    }
  }

  /**
   * `floodFill(ctx, startX, startY, fillColor, tolerance)` on the buffer `data`
   * of a `w` by `h` image: exactly the pixels of the seed's 4-connected region
   * are painted with `fill` (alpha included); the rest of the buffer is unchanged.
   */
  method FloodFill(data: array<Byte>, w: nat, h: nat, startX: int, startY: int, fill: Color, tolerance: int)
    requires data.Length == w * h * 4
    modifies data
    ensures data[..] == FloodFilled(old(data[..]), w, h, startX, startY, fill, tolerance)
  {
    ghost var s0 := data[..];
    ghost var seed := (startX, startY);
    var stack: seq<Point> := [(startX, startY)];
    var startIndex := (startY * w + startX) * 4;
    if startIndex < 0 || startIndex >= data.Length {
      FloodFillNoOp(s0, w, h, startX, startY, fill, tolerance);
      return;
    }
    var startPixel := startY * w + startX;
    var startColor := Color(data[startIndex], data[startIndex + 1], data[startIndex + 2], data[startIndex + 3]);
    assert startColor == PixelAt(s0, startPixel);
    assert InBounds(w, h, startX, startY) ==> startColor == PixelAt(s0, Idx(w, h, startX, startY));
    if Abs(startColor.r - fill.r) <= tolerance && Abs(startColor.g - fill.g) <= tolerance
       && Abs(startColor.b - fill.b) <= tolerance
    {
      FloodFillNoOp(s0, w, h, startX, startY, fill, tolerance);
      return;
    }
    var visited := new bool[w * h](_ => false);
    ghost var parents: seq<Point> := [seed];
    InvariantStart(s0, w, h, seed, startColor, fill, tolerance);
    assert visited[..] == seq(w * h, _ => false);

    while 0 < |stack|
      invariant visited.Length == w * h
      invariant FillInvariant(s0, data[..], visited[..], stack, parents, w, h, seed, startColor, fill, tolerance)
      decreases CountUnvisited(visited[..]), |stack|
    {
      ghost var popped, poppedParents := stack, parents;
      var (x, y) := stack[|stack| - 1];
      ghost var parent := parents[|parents| - 1];
      stack := stack[..|stack| - 1];
      parents := parents[..|parents| - 1];
      assert stack + [(x, y)] == popped && parents + [parent] == poppedParents;
      if x < 0 || x >= w || y < 0 || y >= h {
        InvariantSkip(s0, data[..], visited[..], stack, parents, w, h, seed, startColor, fill, tolerance, (x, y), parent);
        continue;
      }
      if visited[Idx(w, h, x, y)] {
        InvariantSkip(s0, data[..], visited[..], stack, parents, w, h, seed, startColor, fill, tolerance, (x, y), parent);
        continue;
      }
      stack, parents := Visit(data, visited, w, h, x, y, startColor, fill, tolerance, stack, s0, seed, parents, parent);
    }

    InvariantDone(s0, data[..], visited[..], w, h, startX, startY, startColor, fill, tolerance);
  }

  // ---------------------------------------------------------------------------
  // expandFill
  // ---------------------------------------------------------------------------

  /** `c` with full alpha: the colour `expandFill` looks for and paints. */
  function Solid(c: Color): Color {
    Color(c.r, c.g, c.b, 255)
  }

  /** The mask of `expandFill`: the pixels whose four channels are exactly `Solid(c)`. */
  function Mask(s: seq<Byte>, n: nat, c: Color): seq<bool>
    requires |s| == n * 4
  {
    seq(n, k requires 0 <= k < n => PixelAt(s, k) == Solid(c))
  }

  /**
   * Whether position `p` is set after one step of dilation: it was set, or it is
   * off the image border and one of its 4-neighbours was set.
   */
  predicate DilatedAt(m: seq<bool>, w: nat, h: nat, p: Point)
    requires |m| == w * h && InBounds(w, h, p.0, p.1)
  {
    var (x, y) := p;
    || m[Idx(w, h, x, y)]
    || (&& 1 <= x < w - 1 && 1 <= y < h - 1
        && (m[Idx(w, h, x - 1, y)] || m[Idx(w, h, x + 1, y)] || m[Idx(w, h, x, y - 1)] || m[Idx(w, h, x, y + 1)]))
  }

  /** One step of 4-neighbour dilation of a mask, the border row and column excluded. */
  function Dilate(m: seq<bool>, w: nat, h: nat): (r: seq<bool>)
    requires |m| == w * h
    ensures |r| == w * h
  {
    seq(w * h, k requires 0 <= k < w * h => DilatedAt(m, w, h, Coord(w, h, k)))
  }

  /** The dilated mask at a position is `DilatedAt` there. */
  lemma DilateIdx(m: seq<bool>, w: nat, h: nat, x: int, y: int)
    requires |m| == w * h && InBounds(w, h, x, y)
    ensures Dilate(m, w, h)[Idx(w, h, x, y)] == DilatedAt(m, w, h, (x, y))
  {
    IdxInverse(w, h, x, y);
    assert Coord(w, h, Idx(w, h, x, y)) == (x, y);
  }

  /** The buffer after `expandFill(ctx, c)`: every pixel of the dilated mask is painted `Solid(c)`. */
  function Expanded(s: seq<Byte>, w: nat, h: nat, c: Color): (r: seq<Byte>)
    requires |s| == w * h * 4
    ensures |r| == |s|
  {
    var d := Dilate(Mask(s, w * h, c), w, h);
    seq(|s|, j requires 0 <= j < |s| => if d[j / 4] then Channel(Solid(c), j % 4) else s[j])
  }

  /** Pixel by pixel, `Expanded` paints the dilated mask and keeps the rest. */
  lemma ExpandedPixel(s: seq<Byte>, w: nat, h: nat, c: Color, k: int)
    requires |s| == w * h * 4 && 0 <= k < w * h
    ensures PixelAt(Expanded(s, w, h, c), k)
         == if Dilate(Mask(s, w * h, c), w, h)[k] then Solid(c) else PixelAt(s, k)
  {
    var d := Dilate(Mask(s, w * h, c), w, h);
    var r := Expanded(s, w, h, c);
    assert (4 * k) / 4 == k && (4 * k + 1) / 4 == k && (4 * k + 2) / 4 == k && (4 * k + 3) / 4 == k;
    assert r[4 * k] == if d[k] then c.r else s[4 * k];
    assert r[4 * k + 1] == if d[k] then c.g else s[4 * k + 1];
    assert r[4 * k + 2] == if d[k] then c.b else s[4 * k + 2];
    assert r[4 * k + 3] == if d[k] then 255 else s[4 * k + 3];
  }

  /** Dilation only adds: every set pixel stays set. */
  lemma DilateExtensive(m: seq<bool>, w: nat, h: nat, k: int)
    requires |m| == w * h && 0 <= k < w * h && m[k]
    ensures Dilate(m, w, h)[k]
  {
    var p := Coord(w, h, k);
    DilateIdx(m, w, h, p.0, p.1);
  }

  /** Dilation is monotone: a larger mask dilates to a larger mask. */
  lemma DilateMonotone(m1: seq<bool>, m2: seq<bool>, w: nat, h: nat, k: int)
    requires |m1| == |m2| == w * h && 0 <= k < w * h
    requires forall j :: 0 <= j < w * h && m1[j] ==> m2[j]
    requires Dilate(m1, w, h)[k]
    ensures Dilate(m2, w, h)[k]
  {
    var p := Coord(w, h, k);
    DilateIdx(m1, w, h, p.0, p.1);
    DilateIdx(m2, w, h, p.0, p.1);
  }

  /** A border pixel is set after dilation only if it was set before. */
  lemma DilateBorder(m: seq<bool>, w: nat, h: nat, x: int, y: int)
    requires |m| == w * h && InBounds(w, h, x, y)
    requires x == 0 || x == w - 1 || y == 0 || y == h - 1
    ensures Dilate(m, w, h)[Idx(w, h, x, y)] == m[Idx(w, h, x, y)]
  {
    DilateIdx(m, w, h, x, y);
  }

  /**
   * The result's mask is exactly the dilated mask of the input: the expand step
   * grows the region of `Solid(c)` pixels by one 4-neighbour step and by nothing else.
   */
  lemma MaskOfExpanded(s: seq<Byte>, w: nat, h: nat, c: Color)
    requires |s| == w * h * 4
    ensures Mask(Expanded(s, w, h, c), w * h, c) == Dilate(Mask(s, w * h, c), w, h)
  {
    var m := Mask(s, w * h, c);
    forall k | 0 <= k < w * h
      ensures Mask(Expanded(s, w, h, c), w * h, c)[k] == Dilate(m, w, h)[k]
    {
      ExpandedPixel(s, w, h, c, k);
      if m[k] {
        DilateExtensive(m, w, h, k);
      }
    }
  }

  /** The image border is never changed by the expand step. */
  lemma ExpandedBorderUnchanged(s: seq<Byte>, w: nat, h: nat, c: Color, x: int, y: int)
    requires |s| == w * h * 4 && InBounds(w, h, x, y)
    requires x == 0 || x == w - 1 || y == 0 || y == h - 1
    ensures PixelAt(Expanded(s, w, h, c), Idx(w, h, x, y)) == PixelAt(s, Idx(w, h, x, y))
  {
    ExpandedPixel(s, w, h, c, Idx(w, h, x, y));
    DilateBorder(Mask(s, w * h, c), w, h, x, y);
  }

  /**
   * After a flood fill with an opaque colour, every recoloured pixel is in the
   * expand step's mask, so the expand step keeps the whole fill and grows it.
   */
  lemma FilledRegionInMask(s: seq<Byte>, w: nat, h: nat, sx: int, sy: int, fill: Color, tolerance: int, x: int, y: int)
    requires |s| == w * h * 4 && InBounds(w, h, x, y) && fill.a == 255
    requires Recolors(s, w, h, sx, sy, fill, tolerance, (x, y))
    ensures Mask(FloodFilled(s, w, h, sx, sy, fill, tolerance), w * h, fill)[Idx(w, h, x, y)]
  {
    FloodFilledPixel(s, w, h, sx, sy, fill, tolerance, x, y);
  }

  /**
   * `expandFill(ctx, color, expand)` on the buffer `data` of a `w` by `h` image:
   * the pixels that are exactly `Solid(c)` form a mask, the mask grows by one
   * 4-neighbour step inside the border, and every pixel of the grown mask is
   * painted `Solid(c)`. `expand` is accepted and ignored, as in the source.
   */
  method ExpandFill(data: array<Byte>, w: nat, h: nat, c: Color, expand: int)
    requires data.Length == w * h * 4
    modifies data
    ensures data[..] == Expanded(old(data[..]), w, h, c)
  {
    ghost var s0 := data[..];
    var mask := BuildMask(data, w, h, c);
    DilateMask(mask, w, h);
    PaintMask(data, mask, w, h, c);
    forall k | 0 <= k < w * h
      ensures PixelAt(data[..], k) == PixelAt(Expanded(s0, w, h, c), k)
    {
      ExpandedPixel(s0, w, h, c, k);
    }
    SamePixels(data[..], Expanded(s0, w, h, c), w * h);
  }

  /** Step 1 of `expandFill`: a fresh mask of the pixels that are exactly `Solid(c)`. */
  method BuildMask(data: array<Byte>, w: nat, h: nat, c: Color) returns (mask: array<bool>)
    requires data.Length == w * h * 4
    ensures fresh(mask) && mask[..] == Mask(data[..], w * h, c)
  {
    mask := new bool[w * h](_ => false);
    var i := 0;
    ghost var n := 0;
    while i < data.Length
      invariant 0 <= n <= w * h && i == 4 * n
      invariant forall k :: 0 <= k < w * h ==> mask[k] == (k < n && PixelAt(data[..], k) == Solid(c))
    {
      var idx := i / 4;
      assert idx == n;
      assert PixelAt(data[..], n) == Color(data[i], data[i + 1], data[i + 2], data[i + 3]);
      if data[i] == c.r && data[i + 1] == c.g && data[i + 2] == c.b && data[i + 3] == 255 {
        mask[idx] := true;
      }
      i := i + 4;
      n := n + 1;
    }
  }

  /**
   * Step 2 of `expandFill`: against a snapshot `tmp` of the mask, every interior
   * pixel that is not set but has a set 4-neighbour becomes set.
   */
  method DilateMask(mask: array<bool>, w: nat, h: nat)
    requires mask.Length == w * h
    modifies mask
    ensures mask[..] == Dilate(old(mask[..]), w, h)
  {
    var tmp := mask[..];
    forall k | 0 <= k < w * h && k < w
      ensures Dilate(tmp, w, h)[k] == tmp[k]
    {
      DilateBorder(tmp, w, h, k, 0);
    }
    var y := 1;
    while y < h - 1
      invariant 1 <= y && (y <= h - 1 || h < 2)
      invariant forall k :: 0 <= k < w * h ==> mask[k] == if k < y * w then Dilate(tmp, w, h)[k] else tmp[k]
    {
      DilateRow(mask, tmp, w, h, y);
      assert (y + 1) * w == y * w + w;
      y := y + 1;
    }
    if 2 <= h {
      assert y == h - 1 && y * w + w == w * h;
      forall k | y * w <= k < w * h
        ensures Dilate(tmp, w, h)[k] == tmp[k]
      {
        DilateBorder(tmp, w, h, k - y * w, y);
      }
    } else {
      assert w * h <= y * w;
    }
  }

  /** Row `y` of step 2: the interior pixels of the row are dilated from `tmp`. */
  method DilateRow(mask: array<bool>, tmp: seq<bool>, w: nat, h: nat, y: int)
    requires mask.Length == |tmp| == w * h && 1 <= y < h - 1
    requires forall k :: 0 <= k < w * h ==> mask[k] == if k < y * w then Dilate(tmp, w, h)[k] else tmp[k]
    modifies mask
    ensures forall k :: 0 <= k < w * h ==> mask[k] == if k < y * w + w then Dilate(tmp, w, h)[k] else tmp[k]
  {
    MulBound(w, y, h);
    if w == 0 {
      return;
    }
    DilateBorder(tmp, w, h, 0, y);
    var x := 1;
    while x < w - 1
      invariant 1 <= x && (x <= w - 1 || w < 2)
      invariant forall k :: 0 <= k < w * h ==> mask[k] == if k < y * w + x then Dilate(tmp, w, h)[k] else tmp[k]
    {
      assert Idx(w, h, x, y) == y * w + x;
      DilatePixel(mask, tmp, w, h, x, y);
      x := x + 1;
    }
    forall k | y * w + x <= k < y * w + w
      ensures Dilate(tmp, w, h)[k] == tmp[k]
    {
      DilateBorder(tmp, w, h, k - y * w, y);
    }
  }

  /** One interior pixel `(x, y)` of step 2. */
  method DilatePixel(mask: array<bool>, tmp: seq<bool>, w: nat, h: nat, x: int, y: int)
    requires mask.Length == |tmp| == w * h && 1 <= y < h - 1 && 1 <= x < w - 1
    requires mask[Idx(w, h, x, y)] == tmp[Idx(w, h, x, y)]
    modifies mask
    ensures forall k :: 0 <= k < w * h && k != Idx(w, h, x, y) ==> mask[k] == old(mask[k])
    ensures mask[Idx(w, h, x, y)] == Dilate(tmp, w, h)[Idx(w, h, x, y)]
  {
    var i := Idx(w, h, x, y);
    DilateIdx(tmp, w, h, x, y);
    if tmp[i] {
      return;
    }
    assert i - 1 == Idx(w, h, x - 1, y) && i + 1 == Idx(w, h, x + 1, y);
    assert i - w == Idx(w, h, x, y - 1) && i + w == Idx(w, h, x, y + 1);
    if tmp[i - 1] || tmp[i + 1] || tmp[i - w] || tmp[i + w] {
      mask[i] := true;
    }
  }

  /** Step 3 of `expandFill`: every pixel set in the mask is painted `Solid(c)`. */
  method PaintMask(data: array<Byte>, mask: array<bool>, w: nat, h: nat, c: Color)
    requires data.Length == w * h * 4 && mask.Length == w * h
    modifies data
    ensures forall k :: 0 <= k < w * h ==>
      PixelAt(data[..], k) == if mask[k] then Solid(c) else PixelAt(old(data[..]), k)
  {
    ghost var s0 := data[..];
    var i := 0;
    while i < mask.Length
      invariant 0 <= i <= w * h
      invariant forall k :: 0 <= k < w * h ==>
        PixelAt(data[..], k) == if k < i && mask[k] then Solid(c) else PixelAt(s0, k)
    {
      if mask[i] {
        PaintPixel(data, i, Solid(c));
      }
      i := i + 1;
    }
  }
}
