/**
 Lines and circles on a clipped surface. Each is proved to colour exactly the pixels that a direct
 description names: for a line, the pixel nearest to the true line in every column (or row, for a
 steep one); for a circle, the points whose larger coordinate is the rounded root of what is left.
 Coordinates are mathematical integers.
 */
module Raster {

  function Abs(a: int): nat { if a < 0 then -a else a }

  // ---- The line, as a set of offsets from its first point ----

  /** How far offset (u, v) is off the line through (adx, ady), times the length of the longer side. */
  function Off(adx: nat, ady: nat, u: int, v: int): int { adx * v - ady * u }

  /**
   Offset (u, v), both counted towards the end point, is a pixel of the line: within half a pixel of
   it, and of two at exactly half a pixel the one farther along the shorter side for a flat line,
   farther along the longer for a steep one.
   */
  predicate OnLine(adx: nat, ady: nat, u: int, v: int) {
    && 0 <= u <= adx && 0 <= v <= ady
    && if adx >= ady then adx == 0 || 0 - adx < 2 * Off(adx, ady, u, v) <= adx
       else 0 - ady <= 2 * Off(adx, ady, u, v) < ady
  }

  function Longer(adx: nat, ady: nat): nat { if adx >= ady then adx else ady }

  function Along(adx: nat, ady: nat, u: int, v: int): int { if adx >= ady then u else v }

  /** The draw_line step: err stands for Off + adx - ady. */
  function StepU(adx: nat, ady: nat, off: int): nat { if 2 * (off + adx - ady) >= 0 - ady then 1 else 0 }

  function StepV(adx: nat, ady: nat, off: int): nat { if 2 * (off + adx - ady) <= adx then 1 else 0 }

  lemma OffStep(adx: nat, ady: nat, u: int, v: int, a: int, b: int)
    ensures Off(adx, ady, u + a, v + b) == Off(adx, ady, u, v) + adx * b - ady * a
  {
    assert adx * (v + b) == adx * v + adx * b;
    assert ady * (u + a) == ady * u + ady * a;
  }

  /** Multiplying a nonzero integer by n makes it at least n. */
  lemma AtLeast(n: nat, k: int)
    ensures k > 0 ==> n * k >= n
    ensures k < 0 ==> n * k <= 0 - n
  {
    if k > 0 {
      var m: nat := k - 1;
      assert n * (m + 1) == n * m + n;
    } else if k < 0 {
      var m: nat := -k - 1;
      assert n * (m + 1) == n * m + n;
      assert n * -(m + 1) == -(n * (m + 1));
    }
  }

  /** In each column of a flat line, and in each row of a steep one, there is one pixel. */
  lemma OnePixel(adx: nat, ady: nat, u: int, v: int, s: int, t: int)
    requires OnLine(adx, ady, u, v) && OnLine(adx, ady, s, t) && Along(adx, ady, u, v) == Along(adx, ady, s, t)
    ensures u == s && v == t
  {
    OffStep(adx, ady, u, v, s - u, t - v);
    if adx >= ady {
      AtLeast(adx, t - v);
    } else {
      AtLeast(ady, s - u);
    }
  }

  lemma AtTheEnd(adx: nat, ady: nat, u: int, v: int)
    requires OnLine(adx, ady, u, v) && Along(adx, ady, u, v) == Longer(adx, ady)
    ensures u == adx && v == ady
  {
    assert Off(adx, ady, adx, ady) == 0 by { assert adx * ady == ady * adx; }
    OnePixel(adx, ady, u, v, adx, ady);
  }

  /** A step leads from a pixel of the line to the next one. */
  lemma LineStep(adx: nat, ady: nat, u: int, v: int)
    requires OnLine(adx, ady, u, v) && !(u == adx && v == ady)
    ensures var off := Off(adx, ady, u, v);
      var s, t := u + StepU(adx, ady, off), v + StepV(adx, ady, off);
      && OnLine(adx, ady, s, t) && Along(adx, ady, s, t) == Along(adx, ady, u, v) + 1
      && Off(adx, ady, s, t)
           == off + (if StepV(adx, ady, off) == 1 then adx else 0) - (if StepU(adx, ady, off) == 1 then ady else 0)
  {
    hide Off;
    var off := Off(adx, ady, u, v);
    var a, b := StepU(adx, ady, off), StepV(adx, ady, off);
    OffStep(adx, ady, u, v, a, b);
    TimesBit(adx, b);
    TimesBit(ady, a);
    if Along(adx, ady, u, v) == Longer(adx, ady) { AtTheEnd(adx, ady, u, v); }
    assert Along(adx, ady, u, v) < Longer(adx, ady);
    StaysInside(adx, ady, u + a, v + b);
  }

  lemma TimesBit(n: nat, b: nat)
    requires b <= 1
    ensures n * b == if b == 1 then n else 0
  {
  }

  /** Half a pixel off the line is not past its end. */
  lemma StaysInside(adx: nat, ady: nat, u: int, v: int)
    requires if adx >= ady then 0 <= u <= adx && 2 * Off(adx, ady, u, v) <= adx && 0 < adx
             else 0 <= v <= ady && 0 - ady <= 2 * Off(adx, ady, u, v)
    ensures if adx >= ady then v <= ady else u <= adx
  {
    hide Off;
    OffEnd(adx, ady, u, v);
    var p, q := adx * (ady - v), ady * (adx - u);
    if adx >= ady {
      AtLeast(adx, ady - v);
      NotNegative(ady, adx - u);
      assert v > ady ==> p <= 0 - adx;
    } else {
      AtLeast(ady, adx - u);
      NotNegative(adx, ady - v);
      assert u > adx ==> q <= 0 - ady;
    }
  }

  /** The end point is on the line. */
  lemma OffEnd(adx: nat, ady: nat, u: int, v: int)
    ensures Off(adx, ady, u, v) + adx * (ady - v) - ady * (adx - u) == 0
  {
    assert Off(adx, ady, adx, ady) == 0 by { assert adx * ady == ady * adx; }
    hide Off;
    OffStep(adx, ady, u, v, adx - u, ady - v);
    assert u + (adx - u) == adx && v + (ady - v) == ady;
  }

  lemma NotNegative(n: nat, k: int)
    requires 0 <= k
    ensures 0 <= n * k
  {
  }

  // ---- The circle, one octant ----

  /** y is the root of r*r - x*x rounded to the nearest integer. */
  predicate Rounded(x: int, y: int, r: int) {
    y * (y - 1) < r * r - x * x <= y * (y + 1)
  }

  /** The decision value that draw_circle keeps. */
  function Decision(x: int, y: int, r: int): int { (x + 1) * (x + 1) + y * y - y - r * r }

  lemma SquareNext(a: int)
    ensures (a + 1) * (a + 1) == a * a + 2 * a + 1 && (a - 1) * (a - 1) == a * a - 2 * a + 1
    ensures a * (a + 1) == a * a + a && a * (a - 1) == a * a - a
  {
  }

  lemma DecisionStep(x: int, y: int, r: int)
    ensures Decision(x + 1, y, r) == Decision(x, y, r) + 2 * x + 3
    ensures Decision(x + 1, y - 1, r) == Decision(x, y, r) + 2 * (x - y) + 5
  {
    SquareNext(x + 1);
    SquareNext(y);
  }

  lemma ProductGrows(y: int, z: int)
    requires 0 <= y < z
    ensures y * (y + 1) <= z * (z - 1)
  {
    var m: nat := z - y - 1;
    assert (y + 1 + m) * (y + m) == (y + 1) * y + (y + 1) * m + m * y + m * m;
    assert z * (z - 1) == (y + 1 + m) * (y + m);
    assert (y + 1) * y == y * (y + 1);
  }

  /** There is only one rounded root. */
  lemma OneRoot(x: int, y: int, z: int, r: int)
    requires 0 <= y && 0 <= z && Rounded(x, y, r) && z * (z - 1) < r * r - x * x
    ensures z <= y
  {
    if z > y { ProductGrows(y, z); }
  }

  lemma SameRoot(x: int, y: int, z: int, r: int)
    requires 0 <= y && 0 <= z && Rounded(x, y, r) && Rounded(x, z, r)
    ensures y == z
  {
    OneRoot(x, y, z, r);
    OneRoot(x, z, y, r);
  }

  /** What the loop knows: the last plotted point was a rounded root, and y is never too small. */
  ghost predicate CircleAt(x: int, y: int, r: int) {
    && 0 <= x && 0 <= y && r * r - x * x <= y * (y + 1)
    && (x <= y ==> Rounded(x, y, r))
  }

  lemma SquareAtLeastOne(r: int)
    requires 1 <= r
    ensures r * r >= 1
  {
  }

  lemma CircleStep(x: int, y: int, r: int)
    requires CircleAt(x, y, r) && x <= y && 1 <= r
    ensures CircleAt(x + 1, if Decision(x, y, r) < 0 then y else y - 1, r)
  {
    SquareNext(x);
    SquareNext(y);
    SquareNext(y - 1);
    SquareAtLeastOne(r);
  }

  lemma CircleStart(r: int)
    requires 1 <= r
    ensures CircleAt(0, r, r) && Decision(0, r, r) == 1 - r
  {
    SquareNext(r);
  }

  /** Beyond the last plotted point there is none in this octant. */
  lemma CircleEnd(x: int, y: int, r: int, u: int, v: int)
    requires CircleAt(x, y, r) && y < x && x <= u && u <= v
    ensures !Rounded(u, v, r)
  {
    var m: nat, n: nat := u - x, v - u;
    assert u * u >= x * x by { assert (x + m) * (x + m) == x * x + 2 * (x * m) + m * m; }
    if x < v { ProductGrows(x, v); }
    assert x * (x - 1) <= x * (x + 1) && x * (x - 1) <= v * (v - 1);
    ProductGrows(y, x);
  }

  /** Offset (u, v) belongs to the circle of radius r: mirrored into the octant it is a rounded root. */
  predicate OnCircle(u: int, v: int, r: int) {
    if Abs(u) <= Abs(v) then Rounded(Abs(u), Abs(v), r) else Rounded(Abs(v), Abs(u), r)
  }

  function Nearer(u: int, v: int): nat { if Abs(u) <= Abs(v) then Abs(u) else Abs(v) }

  /** Offset (u, v) is one of the eight mirror images of (x, y). */
  predicate Mirror(u: int, v: int, x: int, y: int) {
    (Abs(u) == x && Abs(v) == y) || (Abs(u) == y && Abs(v) == x)
  }

  /** The points of the circle whose smaller coordinate is x are the mirror images of the plotted point. */
  lemma CircleColumn(x: int, y: int, r: int, u: int, v: int)
    requires 0 <= x <= y && Rounded(x, y, r)
    ensures OnCircle(u, v, r) && Nearer(u, v) == x <==> Mirror(u, v, x, y)
  {
    if OnCircle(u, v, r) && Nearer(u, v) == x {
      SameRoot(x, y, if Abs(u) <= Abs(v) then Abs(v) else Abs(u), r);
    }
  }

  // ---- The painter ----

  datatype Rect = Rect(x: int, y: int, w: int, h: int)

  predicate InRect(r: Rect, x: int, y: int) { r.x <= x < r.x + r.w && r.y <= y < r.y + r.h }

  class Painter {
    const width: nat
    const height: nat
    const pixels: array2<int>       // pixels[y, x]
    var clip: Rect
    var color: int

    ghost predicate Valid()
      reads this
    {
      && pixels.Length0 == height && pixels.Length1 == width
      && (clip.w > 0 && clip.h > 0 ==>
            0 <= clip.x && clip.x + clip.w <= width && 0 <= clip.y && clip.y + clip.h <= height)
    }

    /** begin, on a surface of its own */
    constructor (width: nat, height: nat, color: int)
      ensures Valid() && fresh(pixels) && clip == Rect(0, 0, width, height) && this.color == color
      ensures this.width == width && this.height == height
    {
      this.width, this.height, this.color := width, height, color;
      clip := Rect(0, 0, width, height);
      pixels := new int[height, width];
    }

    /** set_clip: the clip only shrinks */
    method SetClip(r: Rect)
      requires Valid()
      modifies this`clip
      ensures Valid()
      ensures forall x, y :: InRect(clip, x, y) <==> InRect(old(clip), x, y) && InRect(r, x, y)
    {
      var lx := if clip.x > r.x then clip.x else r.x;
      var ly := if clip.y > r.y then clip.y else r.y;
      var rx := if clip.x + clip.w < r.x + r.w then clip.x + clip.w else r.x + r.w;
      var ry := if clip.y + clip.h < r.y + r.h then clip.y + clip.h else r.y + r.h;
      clip := if rx <= lx || ry <= ly then Rect(0, 0, 0, 0) else Rect(lx, ly, rx - lx, ry - ly);
    }

    /** plot: colour a pixel if the clip has it */
    method Plot(x: int, y: int)
      requires Valid()
      modifies pixels
      ensures forall i, j :: 0 <= i < height && 0 <= j < width ==>
        pixels[i, j] == if i == y && j == x && InRect(clip, j, i) then color else old(pixels[i, j])
    {
      if x < clip.x || y < clip.y || x >= clip.x + clip.w || y >= clip.y + clip.h { return; }
      pixels[y, x] := color;
    }

    /** draw_line: n is the number of plots */
    method DrawLine(x0: int, y0: int, x1: int, y1: int) returns (n: nat)
      requires Valid()
      modifies pixels
      ensures n == Longer(Abs(x1 - x0), Abs(y1 - y0)) + 1
      ensures forall i, j :: 0 <= i < height && 0 <= j < width ==>
        pixels[i, j] == if InRect(clip, j, i) && LineHas(x0, y0, x1, y1, j, i) then color else old(pixels[i, j])
    {
      hide OnLine, Off, LineHas, DrawnBy, InRect;
      var dx := if x1 > x0 then x1 - x0 else x0 - x1;
      var dy := -(if y1 > y0 then y1 - y0 else y0 - y1);
      var sx := if x0 < x1 then 1 else -1;
      var sy := if y0 < y1 then 1 else -1;
      ghost var adx: nat, ady: nat := Abs(x1 - x0), Abs(y1 - y0);
      var err := dx + dy;
      var x, y := x0, y0;
      ghost var u: nat, v: nat := 0, 0;
      n := 0;
      LineStart(adx, ady);
      DrawnEnds(x0, y0, x1, y1);
      while true
        invariant OnLine(adx, ady, u, v) && Along(adx, ady, u, v) == n && u <= adx && v <= ady
        invariant x == x0 + Turn(x0 < x1, u) && y == y0 + Turn(y0 < y1, v) && err == Off(adx, ady, u, v) + adx - ady
        invariant forall i, j :: 0 <= i < height && 0 <= j < width ==>
          pixels[i, j] == if InRect(clip, j, i) && DrawnBy(x0, y0, x1, y1, n, j, i) then color else old(pixels[i, j])
        decreases Longer(adx, ady) - n
      {
        Plot(x, y);
        DrawnNext(x0, y0, x1, y1, n, u, v);
        n := n + 1;
        if x == x1 && y == y1 { return; }
        LineStep(adx, ady, u, v);
        ghost var off := Off(adx, ady, u, v);
        u, v := u + StepU(adx, ady, off), v + StepV(adx, ady, off);
        LineInside(adx, ady, u, v);
        var e2 := 2 * err;
        if e2 >= dy { err := err + dy; x := x + sx; }
        if e2 <= dx { err := err + dx; y := y + sy; }
      }
    }

    /** The eight put_pixel calls of draw_circle */
    method PlotEight(cx: int, cy: int, x: int, y: int)
      requires Valid() && 0 <= x && 0 <= y
      modifies pixels
      ensures forall i, j :: 0 <= i < height && 0 <= j < width ==>
        pixels[i, j] == if InRect(clip, j, i) && Mirror(j - cx, i - cy, x, y) then color else old(pixels[i, j])
    {
      Plot(cx + x, cy + y);
      Plot(cx - x, cy + y);
      Plot(cx + x, cy - y);
      Plot(cx - x, cy - y);
      Plot(cx + y, cy + x);
      Plot(cx - y, cy + x);
      Plot(cx + y, cy - x);
      Plot(cx - y, cy - x);
    }

    /** draw_circle */
    method DrawCircle(cx: int, cy: int, r: int)
      requires Valid()
      modifies pixels
      ensures forall i, j :: 0 <= i < height && 0 <= j < width ==>
        pixels[i, j] == if InRect(clip, j, i) && CircleHas(j - cx, i - cy, r) then color else old(pixels[i, j])
    {
      hide Rounded, CircleHas, Mirror, Nearer, Decision, CircleAt, InRect;
      var x, y, d := 0, r, 1 - r;
      if r >= 1 { CircleStart(r); }
      while x <= y
        invariant 0 <= x && (r >= 1 ==> CircleAt(x, y, r) && d == Decision(x, y, r))
        invariant r == 0 ==> if x == 0 then y == 0 && d == 1 else x == 1 && y == -1
        invariant r < 0 ==> x == 0 && y == r
        invariant forall i, j :: 0 <= i < height && 0 <= j < width ==>
          pixels[i, j] == if InRect(clip, j, i) && CircleHas(j - cx, i - cy, r) && Nearer(j - cx, i - cy) < x
                          then color else old(pixels[i, j])
        decreases y - x
      {
        if r >= 1 {
          PlottedIsRounded(x, y, r);
          CircleStep(x, y, r);
          DecisionStep(x, y, r);
        }
        CircleRound(x, y, r);
        PlotEight(cx, cy, x, y);
        if d < 0 {
          d := d + 2 * x + 3;
        } else {
          d := d + 2 * (x - y) + 5;
          y := y - 1;
        }
        x := x + 1;
      }
      CircleDone(x, y, r);
    }
  }

  lemma PlottedIsRounded(x: int, y: int, r: int)
    requires CircleAt(x, y, r) && x <= y
    ensures 0 <= y && Rounded(x, y, r)
  {
  }

  /** A pixel at this offset belongs to the circle that draw_circle draws: nothing for a negative radius. */
  predicate CircleHas(u: int, v: int, r: int) {
    if r <= 0 then r == 0 && u == 0 && v == 0 else OnCircle(u, v, r)
  }

  /** The points drawn in one round are exactly those of the circle with this smaller coordinate. */
  lemma CircleRound(x: int, y: int, r: int)
    requires 0 <= x <= y && (if r == 0 then y == 0 else 1 <= r && Rounded(x, y, r))
    ensures forall u, v :: CircleHas(u, v, r) && Nearer(u, v) == x <==> Mirror(u, v, x, y)
  {
    hide Rounded, OnCircle;
    forall u, v ensures CircleHas(u, v, r) && Nearer(u, v) == x <==> Mirror(u, v, x, y) {
      if r > 0 { CircleColumn(x, y, r, u, v); }
    }
  }

  /** Nothing of the circle is left when the loop ends. */
  lemma CircleDone(x: int, y: int, r: int)
    requires y < x && (r < 0 || (r == 0 && x == 1) || (1 <= r && CircleAt(x, y, r)))
    ensures forall u, v :: CircleHas(u, v, r) ==> Nearer(u, v) < x
  {
    forall u, v | CircleHas(u, v, r) ensures Nearer(u, v) < x {
      if r > 0 && Nearer(u, v) >= x {
        CircleEnd(x, y, r, Nearer(u, v), if Abs(u) <= Abs(v) then Abs(v) else Abs(u));
      }
    }
  }

  /** d or -d */
  function Turn(forward: bool, d: int): int { if forward then d else -d }

  /** Pixel (x, y) belongs to the line from (x0, y0) to (x1, y1). */
  predicate LineHas(x0: int, y0: int, x1: int, y1: int, x: int, y: int) {
    OnLine(Abs(x1 - x0), Abs(y1 - y0), Turn(x0 < x1, x - x0), Turn(y0 < y1, y - y0))
  }

  /** How far along the longer side pixel (x, y) is. */
  function Progress(x0: int, y0: int, x1: int, y1: int, x: int, y: int): int {
    Along(Abs(x1 - x0), Abs(y1 - y0), Turn(x0 < x1, x - x0), Turn(y0 < y1, y - y0))
  }

  lemma LineStart(adx: nat, ady: nat)
    ensures OnLine(adx, ady, 0, 0) && Off(adx, ady, 0, 0) == 0
  {
  }

  lemma LineInside(adx: nat, ady: nat, u: int, v: int)
    requires OnLine(adx, ady, u, v)
    ensures 0 <= u <= adx && 0 <= v <= ady
  {
  }

  lemma ProgressBounds(x0: int, y0: int, x1: int, y1: int)
    ensures forall x, y :: LineHas(x0, y0, x1, y1, x, y) ==>
      0 <= Progress(x0, y0, x1, y1, x, y) <= Longer(Abs(x1 - x0), Abs(y1 - y0))
  {
    hide Off;
  }

  /** The pixel drawn after n steps is the only one of the line that is n steps along. */
  lemma PixelOf(x0: int, y0: int, x1: int, y1: int, u: nat, v: nat, x: int, y: int)
    requires OnLine(Abs(x1 - x0), Abs(y1 - y0), u, v)
    ensures LineHas(x0, y0, x1, y1, x, y) && Progress(x0, y0, x1, y1, x, y) == Along(Abs(x1 - x0), Abs(y1 - y0), u, v)
      <==> x == x0 + Turn(x0 < x1, u) && y == y0 + Turn(y0 < y1, v)
  {
    hide OnLine, Off;
    var s, t := Turn(x0 < x1, x - x0), Turn(y0 < y1, y - y0);
    if LineHas(x0, y0, x1, y1, x, y) && Progress(x0, y0, x1, y1, x, y) == Along(Abs(x1 - x0), Abs(y1 - y0), u, v) {
      OnePixel(Abs(x1 - x0), Abs(y1 - y0), u, v, s, t);
    }
  }

  /** The pixel is one of the first n of the line. */
  predicate DrawnBy(x0: int, y0: int, x1: int, y1: int, n: nat, x: int, y: int) {
    LineHas(x0, y0, x1, y1, x, y) && Progress(x0, y0, x1, y1, x, y) < n
  }

  lemma DrawnEnds(x0: int, y0: int, x1: int, y1: int)
    ensures forall x, y :: !DrawnBy(x0, y0, x1, y1, 0, x, y)
    ensures var all := Longer(Abs(x1 - x0), Abs(y1 - y0)) + 1;
      forall x, y :: DrawnBy(x0, y0, x1, y1, all, x, y) <==> LineHas(x0, y0, x1, y1, x, y)
  {
    hide LineHas, Progress;
    ProgressBounds(x0, y0, x1, y1);
  }

  lemma DrawnNext(x0: int, y0: int, x1: int, y1: int, n: nat, u: nat, v: nat)
    requires OnLine(Abs(x1 - x0), Abs(y1 - y0), u, v) && Along(Abs(x1 - x0), Abs(y1 - y0), u, v) == n
    ensures forall x, y :: DrawnBy(x0, y0, x1, y1, n + 1, x, y) <==>
      DrawnBy(x0, y0, x1, y1, n, x, y) || (x == x0 + Turn(x0 < x1, u) && y == y0 + Turn(y0 < y1, v))
  {
    hide OnLine, LineHas, Progress, Along;
    forall x, y
      ensures DrawnBy(x0, y0, x1, y1, n + 1, x, y) <==>
        DrawnBy(x0, y0, x1, y1, n, x, y) || (x == x0 + Turn(x0 < x1, u) && y == y0 + Turn(y0 < y1, v))
    {
      PixelOf(x0, y0, x1, y1, u, v, x, y);
    }
  }

  // ---- The sets of pixels, in plain numbers ----

  /** Every pixel of a line is within half a pixel of the true line, counted along its shorter side. */
  lemma LineNear(x0: int, y0: int, x1: int, y1: int, x: int, y: int)
    requires LineHas(x0, y0, x1, y1, x, y)
    ensures 2 * Abs((x1 - x0) * (y - y0) - (y1 - y0) * (x - x0)) <= Longer(Abs(x1 - x0), Abs(y1 - y0))
    ensures Between(x0, x, x1) && Between(y0, y, y1)
  {
    CrossProduct(x1 - x0, y1 - y0, x - x0, y - y0);
    if x0 == x1 && y0 == y1 { assert x == x0 && y == y0; }
  }

  /** Whatever lies closer than half a pixel is a pixel of the line. */
  lemma LineComplete(x0: int, y0: int, x1: int, y1: int, x: int, y: int)
    requires Between(x0, x, x1) && Between(y0, y, y1)
    requires 2 * Abs((x1 - x0) * (y - y0) - (y1 - y0) * (x - x0)) < Longer(Abs(x1 - x0), Abs(y1 - y0))
    ensures LineHas(x0, y0, x1, y1, x, y)
  {
    hide Off;
    CrossProduct(x1 - x0, y1 - y0, x - x0, y - y0);
    Turned(x0, x, x1);
    Turned(y0, y, y1);
  }

  lemma Turned(a: int, b: int, c: int)
    requires Between(a, b, c)
    ensures 0 <= Turn(a < c, b - a) <= Abs(c - a)
  {
  }

  /** Both ends are pixels of the line. */
  lemma LineEnds(x0: int, y0: int, x1: int, y1: int)
    ensures LineHas(x0, y0, x1, y1, x0, y0) && LineHas(x0, y0, x1, y1, x1, y1)
  {
    hide Off;
    NoOff(x1 - x0, y1 - y0);
    OffEnd(Abs(x1 - x0), Abs(y1 - y0), Abs(x1 - x0), Abs(y1 - y0));
  }

  lemma NoOff(dx: int, dy: int)
    ensures Off(Abs(dx), Abs(dy), 0, 0) == 0
  {
  }

  predicate Between(a: int, b: int, c: int) { a <= b <= c || c <= b <= a }

  lemma CrossProduct(dx: int, dy: int, u: int, v: int)
    ensures Abs(dx * v - dy * u)
      == Abs(Off(Abs(dx), Abs(dy), Turn(0 < dx, u), Turn(0 < dy, v)))
  {
  }

  /** A circle has the points whose squares differ from the radius by less than their larger coordinate. */
  lemma CircleNear(u: int, v: int, r: nat)
    requires 0 < r
    ensures var m := if Abs(u) <= Abs(v) then Abs(v) else Abs(u);
      CircleHas(u, v, r) <==> 0 - m <= u * u + v * v - r * r < m
  {
  }

  /** A rectangle goes from its first corner to one short of its width and height. */
  lemma RectEdges(r: Rect, x: int, y: int)
    requires 0 < r.w && 0 < r.h
    ensures InRect(r, r.x, r.y) && InRect(r, r.x + r.w - 1, r.y + r.h - 1)
    ensures !InRect(r, r.x - 1, y) && !InRect(r, r.x + r.w, y) && !InRect(r, x, r.y - 1) && !InRect(r, x, r.y + r.h)
    ensures InRect(r, x, y) <==> InRect(r, x, r.y) && InRect(r, r.x, y)
  {
  }
}
