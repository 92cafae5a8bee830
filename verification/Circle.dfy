/**
 Circles and discs on a pixel display, by the midpoint algorithm: one octant is computed with additions only,
 in integers of the width the display library was built with, and mirrored.
 */
module CircleSpec {

  /** A point of the octant, relative to the centre. */
  type Point = (nat, nat)

  /** What a signed integer keeps, where `half` is 128 in the 8-bit and 32768 in the 16-bit build. */
  function Signed(v: int, half: nat): int
    requires half > 0
  {
    (v + half) % (2 * half) - half
  }

  lemma SignedFits(v: int, half: nat)
    requires 0 <= v + half < 2 * half
    ensures Signed(v, half) == v
  {
    SmallMod(v + half, 2 * half);
  }

  lemma SmallMod(v: nat, m: nat)
    requires v < m
    ensures v % m == v
  {
  }

  /** The variables of the loop. */
  datatype Pen = Pen(x: nat, y: nat, f: int, dx: int, dy: int)

  function Start(rad: nat, half: nat): Pen
    requires half > 0
  {
    Pen(0, rad, Signed(1 - rad, half), 1, Signed(-2 * rad, half))
  }

  function Step(p: Pen, half: nat): Pen
    requires half > 0 && p.x < p.y
  {
    var dx := Signed(p.dx + 2, half);
    if p.f >= 0 then
      var dy := Signed(p.dy + 2, half);
      Pen(p.x + 1, p.y - 1, Signed(Signed(p.f + dy, half) + dx, half), dx, dy)
    else
      Pen(p.x + 1, p.y, Signed(p.f + dx, half), dx, p.dy)
  }

  /** The points of the octant, from the top down to the diagonal. */
  function Arc(p: Pen, half: nat): seq<Point>
    requires half > 0
    decreases p.y - p.x
  {
    [(p.x, p.y)] + if p.x < p.y then Arc(Step(p, half), half) else []
  }

  function Octant(rad: nat, half: nat): seq<Point>
    requires half > 0
  {
    Arc(Start(rad, half), half)
  }

  lemma ArcEnds(p: Pen, half: nat)
    requires half > 0 && p.x >= p.y
    ensures Arc(p, half) == [(p.x, p.y)]
  {
  }

  lemma ArcStep(p: Pen, half: nat)
    requires half > 0 && p.x < p.y
    ensures Arc(p, half) == [(p.x, p.y)] + Arc(Step(p, half), half)
  {
  }

  // ----- How far off a point is -----

  /** How much further from the centre than the radius, in squares. */
  function Error(rad: nat, x: int, y: int): int {
    x * x + y * y - rad * rad
  }

  /** The pixel of column x that is nearest to the circle, or one of the two if there are two. */
  predicate OnCircle(rad: nat, x: int, y: int) {
    -y <= Error(rad, x, y) <= y
  }

  /** Two such pixels of one column touch, and if they differ the circle runs exactly half-way between. */
  lemma NearestInColumn(rad: nat, x: nat, y: nat, z: nat)
    requires OnCircle(rad, x, y) && OnCircle(rad, x, z) && y < z
    ensures z == y + 1 && Error(rad, x, z) == z && Error(rad, x, y) == -(y as int)
  {
    ErrorDifference(rad, x, y, z - y - 1);
    hide Error;
    var d := z - y - 1;
    assert d * (2 * y + 1 + d) >= d;
  }

  lemma ErrorDifference(rad: nat, x: nat, y: nat, d: nat)
    ensures Error(rad, x, y + 1 + d) - (y + 1 + d) == Error(rad, x, y) + y + d * (2 * y + 1 + d)
  {
    var z := y + 1 + d;
    assert z * z == y * y + 2 * y * (1 + d) + (1 + d) * (1 + d);
  }

  lemma ErrorRight(rad: nat, x: int, y: int)
    ensures Error(rad, x + 1, y) == Error(rad, x, y) + 2 * x + 1
  {
  }

  lemma ErrorUnder(rad: nat, x: int, y: int)
    ensures Error(rad, x, y - 1) == Error(rad, x, y) - 2 * y + 1
  {
  }

  /** The loop invariant: the deltas are the slopes of the error, f is the error of the next midpoint, and the
      error stays within the half-pixel bounds. */
  predicate Tracks(rad: nat, p: Pen) {
    && p.dx == 2 * p.x + 1 && p.dy == -2 * p.y
    && p.f == Error(rad, p.x + 1, p.y) - p.y
    && p.y <= rad && p.x <= p.y + 1 && p.x <= rad
    && 2 * p.x + 1 - 2 * p.y <= p.f <= 2 * p.x + 1
    && (p.x < p.y ==> p.f <= 2 * p.x)
  }

  /** f and both deltas stay within twice the radius plus one. */
  lemma TracksIsBounded(rad: nat, p: Pen)
    requires Tracks(rad, p)
    ensures -(2 * rad + 1) <= p.f <= 2 * rad + 1
    ensures 0 < p.dx <= 2 * rad + 1 && -2 * rad <= p.dy <= 0
    ensures OnCircle(rad, p.x, p.y)
  {
    ErrorRight(rad, p.x, p.y);
    hide Error;
  }

  // ----- The loop on numbers that do not wrap, and the loop as it is -----

  function First(rad: nat): Pen {
    Pen(0, rad, 1 - rad, 1, -2 * rad)
  }

  function Exact(p: Pen): Pen
    requires p.x < p.y
  {
    if p.f >= 0 then Pen(p.x + 1, p.y - 1, p.f + (p.dy + 2) + (p.dx + 2), p.dx + 2, p.dy + 2)
    else Pen(p.x + 1, p.y, p.f + (p.dx + 2), p.dx + 2, p.dy)
  }

  lemma FirstTracks(rad: nat)
    ensures Tracks(rad, First(rad))
  {
  }

  lemma ExactTracks(rad: nat, p: Pen)
    requires Tracks(rad, p) && p.x < p.y
    ensures Tracks(rad, Exact(p))
  {
    ErrorRight(rad, p.x + 1, p.y);
    ErrorUnder(rad, p.x + 2, p.y);
    hide Error;
  }

  /** f fits the signed integers wherever its sign is read. */
  predicate InRange(p: Pen, half: nat)
    decreases p.y - p.x
  {
    p.x < p.y ==> -(half as int) <= p.f < half && InRange(Exact(p), half)
  }

  /** The variables as the integers keep them. */
  function Wrapped(p: Pen, half: nat): Pen
    requires half > 0
  {
    Pen(p.x, p.y, Signed(p.f, half), Signed(p.dx, half), Signed(p.dy, half))
  }

  lemma StartIsWrapped(rad: nat, half: nat)
    requires half > 1
    ensures Start(rad, half) == Wrapped(First(rad), half)
  {
    SignedFits(1, half);
  }

  lemma SignedAdd(v: int, w: int, half: nat)
    requires half > 0
    ensures Signed(Signed(v, half) + w, half) == Signed(v + w, half)
  {
    var m := 2 * half;
    var q := (v + half) / m;
    assert Signed(v, half) + half == v + half - q * m;
    ModShift(v + w + half, q, m);
  }

  lemma ModShift(v: int, q: int, m: nat)
    requires m > 0
    ensures (v - q * m) % m == v % m
  {
    var a, r := v / m, v % m;
    assert v - q * m == (a - q) * m + r;
    RemainderIs(v - q * m, a - q, r, m);
  }

  lemma RemainderIs(v: int, q: int, r: nat, m: nat)
    requires v == q * m + r && r < m
    ensures v % m == r
  {
    var b, t := v / m, v % m;
    assert (b - q) * m == r - t;
    assert b - q >= 1 ==> (b - q) * m >= m;
    assert b - q <= -1 ==> (b - q) * m + m <= 0;
  }

  /** As long as the sign of f is right, the wrapped loop takes the steps of the exact one. */
  lemma StepFollows(p: Pen, half: nat)
    requires half > 0 && p.x < p.y && (p.f >= 0 <==> Signed(p.f, half) >= 0)
    ensures Step(Wrapped(p, half), half) == Wrapped(Exact(p), half)
  {
    hide Signed;
    SignedAdd(p.dx, 2, half);
    SignedAdd(p.dy, 2, half);
    var dx, dy := p.dx + 2, p.dy + 2;
    SignedSum(p.f, dx, half);
    SignedSum(p.f, dy, half);
    SignedSum(p.f + dy, dx, half);
  }

  lemma SignedSum(v: int, w: int, half: nat)
    requires half > 0
    ensures Signed(Signed(v, half) + Signed(w, half), half) == Signed(v + w, half)
  {
    hide Signed;
    SignedAdd(v, Signed(w, half), half);
    SignedAdd(w, v, half);
  }

  // ----- The octant -----

  /** One point in every column from the first to the one that crosses the diagonal, each the nearest of its
      column; the height drops by at most one, and only once the next column lies outside at the old height. */
  predicate IsArc(rad: nat, arc: seq<Point>, first: nat) {
    var last := |arc| - 1;
    && |arc| > 0
    && (forall k :: 0 <= k < |arc| ==> arc[k].0 == first + k && arc[k].1 <= rad && OnCircle(rad, arc[k].0, arc[k].1))
    && (forall k :: 0 <= k < last ==> arc[k].0 < arc[k].1)
    && (forall k :: 0 <= k < last ==> Descends(rad, arc[k], arc[k + 1]))
    && arc[last].0 >= arc[last].1 && Error(rad, arc[last].0 + 1, arc[last].1) > arc[last].1
  }

  predicate Descends(rad: nat, a: Point, b: Point) {
    || b.1 == a.1
    || (b.1 == a.1 - 1 && Error(rad, a.0 + 1, a.1) >= a.1)
  }

  lemma ArcGrows(rad: nat, p: Point, rest: seq<Point>)
    requires IsArc(rad, rest, p.0 + 1) && p.0 < p.1 <= rad && OnCircle(rad, p.0, p.1) && Descends(rad, p, rest[0])
    ensures IsArc(rad, [p] + rest, p.0)
  {
    hide Error, OnCircle, Descends;
    var arc := [p] + rest;
    assert forall k :: 0 < k < |arc| ==> arc[k] == rest[k - 1];
    forall k | 0 <= k < |arc| - 1
      ensures Descends(rad, arc[k], arc[k + 1])
    {
      if k > 0 { assert Descends(rad, rest[k - 1], rest[k - 1 + 1]); }
    }
  }

  lemma ArcTail(rad: nat, p: Point, rest: seq<Point>)
    requires rest != [] && IsArc(rad, [p] + rest, p.0)
    ensures IsArc(rad, rest, p.0 + 1)
  {
    hide Error, OnCircle, Descends;
    var arc := [p] + rest;
    forall k | 0 <= k < |rest|
      ensures rest[k] == arc[k + 1] && rest[k].0 == p.0 + 1 + k
      ensures rest[k].1 <= rad && OnCircle(rad, rest[k].0, rest[k].1)
    {
    }
    forall k | 0 <= k < |rest| - 1
      ensures Descends(rad, rest[k], rest[k + 1])
    {
      assert Descends(rad, arc[k + 1], arc[k + 1 + 1]);
    }
  }

  lemma ExactDescends(rad: nat, p: Pen)
    requires Tracks(rad, p) && p.x < p.y
    ensures Descends(rad, (p.x, p.y), (Exact(p).x, Exact(p).y))
    ensures OnCircle(rad, p.x, p.y) && p.y <= rad
  {
    TracksIsBounded(rad, p);
  }

  lemma LastPoint(rad: nat, p: Pen)
    requires Tracks(rad, p) && p.x >= p.y
    ensures IsArc(rad, [(p.x, p.y)], p.x)
  {
    TracksIsBounded(rad, p);
  }

  /** In range, the octant is right. */
  lemma {:induction false} ArcIsArc(rad: nat, p: Pen, half: nat)
    requires half > 0 && Tracks(rad, p) && InRange(p, half)
    ensures IsArc(rad, Arc(Wrapped(p, half), half), p.x) && Arc(Wrapped(p, half), half)[0] == (p.x, p.y)
    decreases p.y - p.x
  {
    hide Signed, Error, OnCircle, Step, Arc, IsArc, Descends, Tracks;
    if p.x < p.y {
      SignedFits(p.f, half);
      StepFollows(p, half);
      ExactTracks(rad, p);
      ExactDescends(rad, p);
      ArcIsArc(rad, Exact(p), half);
      ArcStep(Wrapped(p, half), half);
      ArcGrows(rad, (p.x, p.y), Arc(Wrapped(Exact(p), half), half));
    } else {
      ArcEnds(Wrapped(p, half), half);
      LastPoint(rad, p);
    }
  }

  /** Where f is out of range, its sign is wrong, and the next point is off the circle. */
  lemma OutOfRangeIsOff(rad: nat, p: Pen, half: nat)
    requires half >= 8 && rad < 2 * half && Tracks(rad, p) && p.x < p.y && (p == First(rad) || rad <= half + 1)
    requires p.x > 0 || p == First(rad)
    requires !(-(half as int) <= p.f < half)
    ensures var q := Step(Wrapped(p, half), half); q.x == p.x + 1 && !OnCircle(rad, q.x, q.y)
  {
    ErrorRight(rad, p.x, p.y);
    ErrorUnder(rad, p.x + 1, p.y);
    if p.f < 0 {
      WrapsUp(p.f, half);
      hide Error, Signed;
    } else {
      NotTwiceTooHigh(rad, p, half);
      WrapsDown(p.f, half);
      hide Error, Signed;
    }
  }

  lemma NotTwiceTooHigh(rad: nat, p: Pen, half: nat)
    requires half >= 8 && rad <= half + 1 && Tracks(rad, p) && p.x < p.y
    ensures p.f < 2 * half
  {
    ErrorOnDiagonal(half + 1);
    hide Error;
  }

  lemma ErrorOnDiagonal(n: nat)
    requires n >= 9
    ensures Error(n, n, n) - n >= 8 * n
  {
    assert n * n >= 9 * n;
  }

  lemma WrapsUp(v: int, half: nat)
    requires half > 0 && -2 * half <= v < -(half as int)
    ensures Signed(v, half) == v + 2 * half
  {
    RemainderIs(v + half, -1, v + 3 * half, 2 * half);
  }

  lemma WrapsDown(v: int, half: nat)
    requires half > 0 && half <= v < 2 * half
    ensures Signed(v, half) == v - 2 * half
  {
    RemainderIs(v + half, 1, v - half, 2 * half);
  }

  /** Out of range, the octant is wrong. */
  lemma {:induction false} ArcIsOff(rad: nat, p: Pen, half: nat)
    requires half >= 8 && rad < 2 * half && Tracks(rad, p) && (p == First(rad) || (rad <= half + 1 && p.x > 0))
    requires !InRange(p, half)
    ensures !IsArc(rad, Arc(Wrapped(p, half), half), p.x)
    decreases p.y - p.x
  {
    var m := Wrapped(p, half);
    var rest := Arc(Step(m, half), half);
    ArcStep(m, half);
    if -(half as int) <= p.f < half {
      SignedFits(p.f, half);
      StepFollows(p, half);
      ExactTracks(rad, p);
      hide Arc, Step, Signed, Tracks;
      ArcIsOff(rad, Exact(p), half);
      if IsArc(rad, [(p.x, p.y)] + rest, p.x) { ArcTail(rad, (p.x, p.y), rest); }
    } else {
      OutOfRangeIsOff(rad, p, half);
      ArcStarts(Step(m, half), half);
      hide Arc, Step, Signed, Tracks, OnCircle;
      assert ([(p.x, p.y)] + rest)[1] == rest[0];
    }
  }

  lemma ArcStarts(p: Pen, half: nat)
    requires half > 0
    ensures |Arc(p, half)| > 0 && Arc(p, half)[0] == (p.x, p.y)
  {
  }

  /** For every radius: the octant is the one of the circle exactly if f, computed without limits, fits the
      signed integers wherever its sign is read. */
  lemma OctantIsArcIff(rad: nat, half: nat)
    requires half >= 8 && rad < 2 * half
    ensures IsArc(rad, Octant(rad, half), 0) <==> InRange(First(rad), half)
    ensures Octant(rad, half)[0] == (0, rad)
  {
    FirstTracks(rad);
    StartIsWrapped(rad, half);
    hide IsArc;
    if InRange(First(rad), half) { ArcIsArc(rad, First(rad), half); } else { ArcIsOff(rad, First(rad), half); }
  }

  /** Radii up to half the range of the signed integers are in range. */
  lemma {:induction false} SmallIsInRange(rad: nat, p: Pen, half: nat)
    requires 2 * rad <= half && Tracks(rad, p)
    ensures InRange(p, half)
    decreases p.y - p.x
  {
    if p.x < p.y {
      ExactTracks(rad, p);
      SmallIsInRange(rad, Exact(p), half);
    }
  }

  lemma OctantIsArc(rad: nat, half: nat)
    requires half >= 8 && 2 * rad <= half
    ensures IsArc(rad, Octant(rad, half), 0) && Octant(rad, half)[0] == (0, rad)
  {
    FirstTracks(rad);
    SmallIsInRange(rad, First(rad), half);
    OctantIsArcIff(rad, half);
  }

  lemma SecondPoint(p: Pen, half: nat)
    requires half > 0 && p.x < p.y
    ensures |Arc(p, half)| >= 2 && Arc(p, half)[1] == (Step(p, half).x, Step(p, half).y)
  {
    hide Step;
    var rest := Arc(Step(p, half), half);
    assert Arc(p, half) == [(p.x, p.y)] + rest;
  }

  /** Radii above the range are not: f wraps at once, and the second point is too low. With 8-bit coordinates
      that is any radius from 130 up. */
  lemma WideCircleIsWrong(rad: nat, half: nat)
    requires half >= 8 && half + 1 < rad < 2 * half
    ensures !IsArc(rad, Octant(rad, half), 0)
    ensures |Octant(rad, half)| >= 2 && Octant(rad, half)[1] == (1, rad - 1) && !OnCircle(rad, 1, rad - 1)
  {
    FirstTracks(rad);
    OctantIsArcIff(rad, half);
    StartIsWrapped(rad, half);
    OutOfRangeIsOff(rad, First(rad), half);
    WrapsUp(1 - rad, half);
    SecondPoint(Start(rad, half), half);
    hide Signed, Arc, IsArc, OnCircle;
  }

  // ----- The disc -----

  /** Offset (a, b) from the centre lies in one of the columns drawn for the arc. */
  ghost predicate Covers(arc: seq<Point>, a: nat, b: nat) {
    exists k :: 0 <= k < |arc| && PointCovers(arc[k], a, b)
  }

  predicate PointCovers(p: Point, a: nat, b: nat) {
    (a == p.0 && b <= p.1) || (a == p.1 && b <= p.0)
  }

  lemma SquaresGrow(x: nat, y: nat)
    requires x <= y
    ensures x * x <= y * y
  {
  }

  lemma ErrorGrows(rad: nat, a: nat, b: nat, c: nat, d: nat)
    requires a <= c && b <= d
    ensures Error(rad, a, b) <= Error(rad, c, d)
  {
    SquaresGrow(a, c);
    SquaresGrow(b, d);
  }

  /** Above the point of a column, everything is outside the circle. */
  lemma AboveIsOutside(rad: nat, x: nat, y: nat, b: nat)
    requires OnCircle(rad, x, y) && b > y
    ensures Error(rad, x, b) > 0
  {
    ErrorUnder(rad, x, y + 1);
    ErrorGrows(rad, x, y + 1, x, b);
  }

  /** Every height between the first and the last is the height of some point. */
  lemma {:induction false} HeightIsTaken(rad: nat, arc: seq<Point>, k: nat, a: nat) returns (i: nat)
    requires IsArc(rad, arc, 0) && k < |arc| && arc[|arc| - 1].1 <= a <= arc[k].1
    ensures k <= i < |arc| && arc[i].1 == a
    decreases |arc| - k
  {
    if arc[k].1 == a {
      i := k;
    } else {
      assert Descends(rad, arc[k], arc[k + 1]);
      i := HeightIsTaken(rad, arc, k + 1, a);
    }
  }

  /** The disc is filled: every point of the quadrant inside the circle is covered. */
  lemma InsideIsCovered(rad: nat, arc: seq<Point>, a: nat, b: nat)
    requires IsArc(rad, arc, 0) && Error(rad, a, b) <= 0
    ensures Covers(arc, a, b)
  {
    hide Error;
    var last := |arc| - 1;
    if a <= last {
      if b > arc[a].1 { AboveIsOutside(rad, a, arc[a].1, b); }
      assert PointCovers(arc[a], a, b);
    } else {
      if b > last { ErrorGrows(rad, last + 1, arc[last].1, a, b); }
      ErrorSwaps(rad, a, b);
      if a > arc[b].1 { AboveIsOutside(rad, b, arc[b].1, a); }
      var i := HeightIsTaken(rad, arc, b, a);
      assert PointCovers(arc[i], a, b);
    }
  }

  lemma ErrorSwaps(rad: nat, a: nat, b: nat)
    ensures Error(rad, a, b) == Error(rad, b, a)
  {
  }

  /** And it does not run over: what is covered is at most a pixel's rounding outside. */
  lemma CoveredIsInside(rad: nat, arc: seq<Point>, a: nat, b: nat)
    requires IsArc(rad, arc, 0) && Covers(arc, a, b)
    ensures Error(rad, a, b) <= rad
  {
    var k :| 0 <= k < |arc| && PointCovers(arc[k], a, b);
    ErrorGrows(rad, a, b, if a == arc[k].0 && b <= arc[k].1 then arc[k].0 else arc[k].1,
               if a == arc[k].0 && b <= arc[k].1 then arc[k].1 else arc[k].0);
    ErrorSwaps(rad, arc[k].0, arc[k].1);
    hide Error;
  }

  // ----- The eight octants on the display -----

  datatype Corners = Corners(upperRight: bool, upperLeft: bool, lowerRight: bool, lowerLeft: bool)

  /** A coordinate as the display keeps it. */
  function Coordinate(v: int, half: nat): nat
    requires half > 0
  {
    v % (2 * half)
  }

  type Pixel = (nat, nat)

  function At(x: int, y: int, half: nat): Pixel
    requires half > 0
  {
    (Coordinate(x, half), Coordinate(y, half))
  }

  function Section(p: Point, x0: nat, y0: nat, c: Corners, half: nat): seq<Pixel>
    requires half > 0
  {
    var (x, y) := p;
    (if c.upperRight then [At(x0 + x, y0 - y, half), At(x0 + y, y0 - x, half)] else []) +
    (if c.upperLeft then [At(x0 - x, y0 - y, half), At(x0 - y, y0 - x, half)] else []) +
    (if c.lowerRight then [At(x0 + x, y0 + y, half), At(x0 + y, y0 + x, half)] else []) +
    (if c.lowerLeft then [At(x0 - x, y0 + y, half), At(x0 - y, y0 + x, half)] else [])
  }

  function Mirrored(points: seq<Point>, x0: nat, y0: nat, c: Corners, half: nat): seq<Pixel>
    requires half > 0
  {
    if points == [] then []
    else Mirrored(points[..|points| - 1], x0, y0, c, half) + Section(points[|points| - 1], x0, y0, c, half)
  }

  /** A vertical line: where it starts, and how long it is. */
  datatype Column = Column(top: Pixel, length: nat)

  function DiscSection(p: Point, x0: nat, y0: nat, c: Corners, half: nat): seq<Column>
    requires half > 0
  {
    var (x, y) := p;
    var tall := Coordinate(y + 1, half);
    var wide := Coordinate(x + 1, half);
    (if c.upperRight then [Column(At(x0 + x, y0 - y, half), tall), Column(At(x0 + y, y0 - x, half), wide)] else []) +
    (if c.upperLeft then [Column(At(x0 - x, y0 - y, half), tall), Column(At(x0 - y, y0 - x, half), wide)] else []) +
    (if c.lowerRight then [Column(At(x0 + x, y0, half), tall), Column(At(x0 + y, y0, half), wide)] else []) +
    (if c.lowerLeft then [Column(At(x0 - x, y0, half), tall), Column(At(x0 - y, y0, half), wide)] else [])
  }

  function Filled(points: seq<Point>, x0: nat, y0: nat, c: Corners, half: nat): seq<Column>
    requires half > 0
  {
    if points == [] then []
    else Filled(points[..|points| - 1], x0, y0, c, half) + DiscSection(points[|points| - 1], x0, y0, c, half)
  }

  lemma OneMorePoint(points: seq<Point>, p: Point, x0: nat, y0: nat, c: Corners, half: nat)
    requires half > 0
    ensures Mirrored(points + [p], x0, y0, c, half) == Mirrored(points, x0, y0, c, half) + Section(p, x0, y0, c, half)
    ensures Filled(points + [p], x0, y0, c, half) == Filled(points, x0, y0, c, half) + DiscSection(p, x0, y0, c, half)
  {
    hide Section, DiscSection;
    assert (points + [p])[..|points|] == points;
  }

  lemma NothingDrawn(x0: nat, y0: nat, c: Corners, half: nat)
    requires half > 0
    ensures Mirrored([], x0, y0, c, half) == [] && Filled([], x0, y0, c, half) == []
  {
  }

  function Abs(v: int): nat {
    if v < 0 then -v else v
  }

  predicate NearCircle(rad: nat, dx: int, dy: int) {
    OnCircle(rad, Abs(dx), Abs(dy)) || OnCircle(rad, Abs(dy), Abs(dx))
  }

  /** The circle fits the range of the coordinates. */
  predicate Fits(rad: nat, x0: nat, y0: nat, half: nat) {
    rad <= x0 && rad <= y0 && x0 + rad < 2 * half && y0 + rad < 2 * half
  }

  lemma CoordinateFits(v: int, half: nat)
    requires 0 <= v < 2 * half
    ensures Coordinate(v, half) == v
  {
    SmallMod(v, 2 * half);
  }

  lemma CoordinatesFit(rad: nat, p: Point, x0: nat, y0: nat, half: nat)
    requires half > 0 && Fits(rad, x0, y0, half) && p.0 <= rad && p.1 <= rad
    ensures Coordinate(x0 + p.0, half) == x0 + p.0 && Coordinate(x0 - p.0, half) == x0 - p.0
    ensures Coordinate(y0 + p.0, half) == y0 + p.0 && Coordinate(y0 - p.0, half) == y0 - p.0
    ensures Coordinate(x0 + p.1, half) == x0 + p.1 && Coordinate(x0 - p.1, half) == x0 - p.1
    ensures Coordinate(y0 + p.1, half) == y0 + p.1 && Coordinate(y0 - p.1, half) == y0 - p.1
    ensures Coordinate(x0, half) == x0 && Coordinate(y0, half) == y0
    ensures Coordinate(p.0 + 1, half) == p.0 + 1 && Coordinate(p.1 + 1, half) == p.1 + 1
  {
    hide Coordinate;
    CoordinateFits(x0 + p.0, half);
    CoordinateFits(x0 - p.0, half);
    CoordinateFits(y0 + p.0, half);
    CoordinateFits(y0 - p.0, half);
    CoordinateFits(x0 + p.1, half);
    CoordinateFits(x0 - p.1, half);
    CoordinateFits(y0 + p.1, half);
    CoordinateFits(y0 - p.1, half);
    CoordinateFits(x0, half);
    CoordinateFits(y0, half);
    CoordinateFits(p.0 + 1, half);
    CoordinateFits(p.1 + 1, half);
  }

  lemma SectionIsNear(rad: nat, p: Point, x0: nat, y0: nat, c: Corners, half: nat)
    requires half > 0 && Fits(rad, x0, y0, half) && OnCircle(rad, p.0, p.1) && p.0 <= rad && p.1 <= rad
    ensures forall q :: q in Section(p, x0, y0, c, half) ==> NearCircle(rad, q.0 - x0, q.1 - y0)
  {
    hide Coordinate, OnCircle, Section;
    CoordinatesFit(rad, p, x0, y0, half);
    forall q | q in Section(p, x0, y0, c, half)
      ensures NearCircle(rad, q.0 - x0, q.1 - y0)
    {
      PixelOfSection(p, x0, y0, c, half, q);
    }
  }

  /** A pixel of a section is one of eight. */
  lemma PixelOfSection(p: Point, x0: nat, y0: nat, c: Corners, half: nat, q: Pixel)
    requires half > 0 && q in Section(p, x0, y0, c, half)
    ensures || ((q.0 == Coordinate(x0 + p.0, half) || q.0 == Coordinate(x0 - p.0, half)) &&
                (q.1 == Coordinate(y0 + p.1, half) || q.1 == Coordinate(y0 - p.1, half)))
            || ((q.0 == Coordinate(x0 + p.1, half) || q.0 == Coordinate(x0 - p.1, half)) &&
                (q.1 == Coordinate(y0 + p.0, half) || q.1 == Coordinate(y0 - p.0, half)))
  {
    hide Coordinate;
  }

  /** Every pixel that is drawn for a circle on the display lies within half a pixel of it. */
  lemma {:induction false} MirroredIsNear(rad: nat, points: seq<Point>, x0: nat, y0: nat, c: Corners, half: nat)
    requires half > 0 && Fits(rad, x0, y0, half)
    requires forall k :: 0 <= k < |points| ==>
               points[k].0 <= rad && points[k].1 <= rad && OnCircle(rad, points[k].0, points[k].1)
    ensures forall q :: q in Mirrored(points, x0, y0, c, half) ==> NearCircle(rad, q.0 - x0, q.1 - y0)
  {
    if points != [] {
      hide NearCircle, Section, OnCircle;
      var k := |points| - 1;
      MirroredIsNear(rad, points[..k], x0, y0, c, half);
      SectionIsNear(rad, points[k], x0, y0, c, half);
    }
  }

  /** With all corners, every point of the octant shows in each of the eight. */
  lemma {:induction false} MirroredIsWhole(points: seq<Point>, x0: nat, y0: nat, c: Corners, half: nat, k: nat)
    requires half > 0 && k < |points|
    ensures forall q :: q in Section(points[k], x0, y0, c, half) ==> q in Mirrored(points, x0, y0, c, half)
  {
    var n := |points| - 1;
    hide Section;
    if k < n { MirroredIsWhole(points[..n], x0, y0, c, half, k); }
  }

  /** Every pixel drawn is on the circle to the nearest pixel. */
  lemma CircleIsRound(rad: nat, x0: nat, y0: nat, c: Corners, half: nat)
    requires half >= 8 && InRange(First(rad), half) && Fits(rad, x0, y0, half)
    ensures forall q :: q in Mirrored(Octant(rad, half), x0, y0, c, half) ==> NearCircle(rad, q.0 - x0, q.1 - y0)
  {
    OctantIsArcIff(rad, half);
    var arc := Octant(rad, half);
    forall k | 0 <= k < |arc|
      ensures arc[k].0 <= rad
    {
      ColumnsStayIn(rad, arc, k);
    }
    MirroredIsNear(rad, arc, x0, y0, c, half);
  }

  lemma ColumnsStayIn(rad: nat, arc: seq<Point>, k: nat)
    requires IsArc(rad, arc, 0) && arc[0] == (0, rad) && k < |arc|
    ensures arc[k].0 <= rad
  {
    var last := |arc| - 1;
    if last > 0 { assert arc[last - 1].0 < arc[last - 1].1; }
  }

  // ----- The disc on the display -----

  /** The pixel belongs to the vertical line. */
  predicate InColumn(col: Column, px: int, py: int) {
    px == col.top.0 && col.top.1 <= py < col.top.1 + col.length
  }

  ghost predicate Drawn(columns: seq<Column>, px: int, py: int) {
    exists col :: col in columns && InColumn(col, px, py)
  }

  /** The offset lies in one of the chosen quadrants, borders included; y grows downwards. */
  predicate InCorners(c: Corners, dx: int, dy: int) {
    || (c.upperRight && dx >= 0 && dy <= 0)
    || (c.upperLeft && dx <= 0 && dy <= 0)
    || (c.lowerRight && dx >= 0 && dy >= 0)
    || (c.lowerLeft && dx <= 0 && dy >= 0)
  }

  /** The two lines of a point in the quadrant with the given signs. */
  function QuadrantLines(p: Point, x0: int, y0: int, right: bool, upper: bool, half: nat): seq<Column>
    requires half > 0
  {
    var (x, y) := p;
    var sx := if right then 1 else -1;
    var tall, wide := Coordinate(y + 1, half), Coordinate(x + 1, half);
    [Column(At(x0 + sx * x, if upper then y0 - y else y0, half), tall),
     Column(At(x0 + sx * y, if upper then y0 - x else y0, half), wide)]
  }

  lemma SectionHasQuadrants(p: Point, x0: nat, y0: nat, c: Corners, half: nat)
    requires half > 0
    ensures forall col :: col in DiscSection(p, x0, y0, c, half) <==>
              || (c.upperRight && col in QuadrantLines(p, x0, y0, true, true, half))
              || (c.upperLeft && col in QuadrantLines(p, x0, y0, false, true, half))
              || (c.lowerRight && col in QuadrantLines(p, x0, y0, true, false, half))
              || (c.lowerLeft && col in QuadrantLines(p, x0, y0, false, false, half))
  {
    hide At, Coordinate;
  }

  /** They cover exactly the offsets of the two columns. */
  lemma QuadrantCovers(rad: nat, p: Point, x0: nat, y0: nat, right: bool, upper: bool, half: nat, dx: int, dy: int)
    requires half > 0 && Fits(rad, x0, y0, half) && p.0 <= rad && p.1 <= rad
    ensures Drawn(QuadrantLines(p, x0, y0, right, upper, half), x0 + dx, y0 + dy)
       <==> (if right then dx >= 0 else dx <= 0) && (if upper then dy <= 0 else dy >= 0) &&
            ((Abs(dx) == p.0 && Abs(dy) <= p.1) || (Abs(dx) == p.1 && Abs(dy) <= p.0))
  {
    CoordinatesFit(rad, p, x0, y0, half);
    hide Coordinate;
    var lines := QuadrantLines(p, x0, y0, right, upper, half);
    var px, py := x0 + dx, y0 + dy;
    assert Drawn(lines, px, py) <==> InColumn(lines[0], px, py) || InColumn(lines[1], px, py) by {
      assert lines[0] in lines && lines[1] in lines;
    }
  }

  lemma {:induction false} FilledHas(points: seq<Point>, x0: nat, y0: nat, c: Corners, half: nat)
    requires half > 0
    ensures forall col :: col in Filled(points, x0, y0, c, half) <==>
              exists k :: 0 <= k < |points| && col in DiscSection(points[k], x0, y0, c, half)
  {
    hide DiscSection;
    if points != [] {
      var n := |points| - 1;
      FilledHas(points[..n], x0, y0, c, half);
      var filled := Filled(points, x0, y0, c, half);
      var front, back := Filled(points[..n], x0, y0, c, half), DiscSection(points[n], x0, y0, c, half);
      assert filled == front + back;
      hide Filled;
      forall col | col in filled
        ensures exists k :: 0 <= k < |points| && col in DiscSection(points[k], x0, y0, c, half)
      {
        if col in front {
          var k :| 0 <= k < n && col in DiscSection(points[..n][k], x0, y0, c, half);
          assert col in DiscSection(points[k], x0, y0, c, half);
        } else {
          assert col in DiscSection(points[n], x0, y0, c, half);
        }
      }
      forall k, col | 0 <= k < |points| && col in DiscSection(points[k], x0, y0, c, half)
        ensures col in filled
      {
        if k < n {
          assert col in DiscSection(points[..n][k], x0, y0, c, half);
          assert col in front;
        } else {
          assert col in back;
        }
      }
    }
  }

  /** What is drawn of an arc are exactly the covered offsets of the chosen quadrants. */
  lemma FilledIsCovered(rad: nat, arc: seq<Point>, x0: nat, y0: nat, c: Corners, half: nat, dx: int, dy: int)
    requires half > 0 && Fits(rad, x0, y0, half)
    requires forall k :: 0 <= k < |arc| ==> arc[k].0 <= rad && arc[k].1 <= rad
    ensures Drawn(Filled(arc, x0, y0, c, half), x0 + dx, y0 + dy)
       <==> InCorners(c, dx, dy) && Covers(arc, Abs(dx), Abs(dy))
  {
    hide DiscSection, QuadrantLines, InColumn, Filled;
    var px, py := x0 + dx, y0 + dy;
    var filled := Filled(arc, x0, y0, c, half);
    FilledHas(arc, x0, y0, c, half);
    if Drawn(filled, px, py) {
      var col :| col in filled && InColumn(col, px, py);
      var k :| 0 <= k < |arc| && col in DiscSection(arc[k], x0, y0, c, half);
      OnePointCovers(rad, arc[k], x0, y0, c, half, dx, dy);
      assert Drawn(DiscSection(arc[k], x0, y0, c, half), px, py);
    }
    if InCorners(c, dx, dy) && Covers(arc, Abs(dx), Abs(dy)) {
      var k :| 0 <= k < |arc| && PointCovers(arc[k], Abs(dx), Abs(dy));
      OnePointCovers(rad, arc[k], x0, y0, c, half, dx, dy);
      var col :| col in DiscSection(arc[k], x0, y0, c, half) && InColumn(col, px, py);
      assert col in filled;
    }
  }

  lemma OnePointCovers(rad: nat, p: Point, x0: nat, y0: nat, c: Corners, half: nat, dx: int, dy: int)
    requires half > 0 && Fits(rad, x0, y0, half) && p.0 <= rad && p.1 <= rad
    ensures Drawn(DiscSection(p, x0, y0, c, half), x0 + dx, y0 + dy) <==>
              InCorners(c, dx, dy) && PointCovers(p, Abs(dx), Abs(dy))
  {
    hide DiscSection, QuadrantLines, InColumn;
    SectionHasQuadrants(p, x0, y0, c, half);
    QuadrantCovers(rad, p, x0, y0, true, true, half, dx, dy);
    QuadrantCovers(rad, p, x0, y0, false, true, half, dx, dy);
    QuadrantCovers(rad, p, x0, y0, true, false, half, dx, dy);
    QuadrantCovers(rad, p, x0, y0, false, false, half, dx, dy);
  }

  lemma PointsStayIn(rad: nat, arc: seq<Point>)
    requires IsArc(rad, arc, 0) && arc[0] == (0, rad)
    ensures forall k :: 0 <= k < |arc| ==> arc[k].0 <= rad && arc[k].1 <= rad
  {
    forall k | 0 <= k < |arc|
      ensures arc[k].0 <= rad && arc[k].1 <= rad
    {
      ColumnsStayIn(rad, arc, k);
    }
  }

  lemma ErrorOfAbs(rad: nat, dx: int, dy: int)
    ensures Error(rad, dx, dy) == Error(rad, Abs(dx), Abs(dy))
  {
    SquareOfAbs(dx);
    SquareOfAbs(dy);
    hide Abs;
  }

  lemma SquareOfAbs(v: int)
    ensures Abs(v) * Abs(v) == v * v
  {
  }

  /** The disc that is drawn is the filled circle: in the chosen quadrants it has every pixel inside the
      circle, and it has none outside them or more than a pixel's rounding outside the circle. */
  lemma DiscIsFilled(rad: nat, x0: nat, y0: nat, c: Corners, half: nat, dx: int, dy: int)
    requires half >= 8 && InRange(First(rad), half) && Fits(rad, x0, y0, half)
    ensures var drawn := Drawn(Filled(Octant(rad, half), x0, y0, c, half), x0 + dx, y0 + dy);
            && (InCorners(c, dx, dy) && Error(rad, dx, dy) <= 0 ==> drawn)
            && (drawn ==> InCorners(c, dx, dy) && Error(rad, dx, dy) <= rad)
  {
    hide Error, Octant, Drawn, Abs, InRange, Covers, First;
    OctantIsArcIff(rad, half);
    var arc := Octant(rad, half);
    PointsStayIn(rad, arc);
    hide IsArc;
    FilledIsCovered(rad, arc, x0, y0, c, half, dx, dy);
    ErrorOfAbs(rad, dx, dy);
    if Error(rad, Abs(dx), Abs(dy)) <= 0 { InsideIsCovered(rad, arc, Abs(dx), Abs(dy)); }
    if Covers(arc, Abs(dx), Abs(dy)) { CoveredIsInside(rad, arc, Abs(dx), Abs(dy)); }
  }

  // ----- The circle on the display -----

  /** The offset is that of the point, or of its mirror image in the diagonal. */
  predicate IsPoint(p: Point, a: nat, b: nat) {
    (a == p.0 && b == p.1) || (a == p.1 && b == p.0)
  }

  ghost predicate OnArc(arc: seq<Point>, a: nat, b: nat) {
    exists k :: 0 <= k < |arc| && IsPoint(arc[k], a, b)
  }

  function CornerPixels(p: Point, x0: int, y0: int, right: bool, upper: bool, half: nat): seq<Pixel>
    requires half > 0
  {
    var (x, y) := p;
    var sx, sy := if right then 1 else -1, if upper then -1 else 1;
    [At(x0 + sx * x, y0 + sy * y, half), At(x0 + sx * y, y0 + sy * x, half)]
  }

  lemma SectionHasCorners(p: Point, x0: nat, y0: nat, c: Corners, half: nat)
    requires half > 0
    ensures forall q :: q in Section(p, x0, y0, c, half) <==>
              || (c.upperRight && q in CornerPixels(p, x0, y0, true, true, half))
              || (c.upperLeft && q in CornerPixels(p, x0, y0, false, true, half))
              || (c.lowerRight && q in CornerPixels(p, x0, y0, true, false, half))
              || (c.lowerLeft && q in CornerPixels(p, x0, y0, false, false, half))
  {
    hide At;
  }

  lemma CornerShows(rad: nat, p: Point, x0: nat, y0: nat, right: bool, upper: bool, half: nat, dx: int, dy: int)
    requires half > 0 && Fits(rad, x0, y0, half) && p.0 <= rad && p.1 <= rad && x0 + dx >= 0 && y0 + dy >= 0
    ensures (x0 + dx, y0 + dy) in CornerPixels(p, x0, y0, right, upper, half) <==>
              (if right then dx >= 0 else dx <= 0) && (if upper then dy <= 0 else dy >= 0)
              && IsPoint(p, Abs(dx), Abs(dy))
  {
    hide Coordinate;
    CoordinatesFit(rad, p, x0, y0, half);
  }

  lemma OnePointShows(rad: nat, p: Point, x0: nat, y0: nat, c: Corners, half: nat, dx: int, dy: int)
    requires half > 0 && Fits(rad, x0, y0, half) && p.0 <= rad && p.1 <= rad && x0 + dx >= 0 && y0 + dy >= 0
    ensures (x0 + dx, y0 + dy) in Section(p, x0, y0, c, half) <==> InCorners(c, dx, dy) && IsPoint(p, Abs(dx), Abs(dy))
  {
    hide Section, CornerPixels, IsPoint, Abs;
    SectionHasCorners(p, x0, y0, c, half);
    CornerShows(rad, p, x0, y0, true, true, half, dx, dy);
    CornerShows(rad, p, x0, y0, false, true, half, dx, dy);
    CornerShows(rad, p, x0, y0, true, false, half, dx, dy);
    CornerShows(rad, p, x0, y0, false, false, half, dx, dy);
  }

  lemma {:induction false} MirroredShows(rad: nat, arc: seq<Point>, x0: nat, y0: nat, c: Corners, half: nat,
                                         dx: int, dy: int)
    requires half > 0 && Fits(rad, x0, y0, half) && x0 + dx >= 0 && y0 + dy >= 0
    requires forall k :: 0 <= k < |arc| ==> arc[k].0 <= rad && arc[k].1 <= rad
    ensures (x0 + dx, y0 + dy) in Mirrored(arc, x0, y0, c, half) <==>
              InCorners(c, dx, dy) && OnArc(arc, Abs(dx), Abs(dy))
    decreases |arc|
  {
    if arc != [] {
      hide Section, InCorners, IsPoint, Abs, OnArc;
      var n := |arc| - 1;
      MirroredShows(rad, arc[..n], x0, y0, c, half, dx, dy);
      OnePointShows(rad, arc[n], x0, y0, c, half, dx, dy);
      OneMoreOnArc(arc, Abs(dx), Abs(dy));
    }
  }

  lemma OneMoreOnArc(arc: seq<Point>, a: nat, b: nat)
    requires arc != []
    ensures OnArc(arc, a, b) <==> OnArc(arc[..|arc| - 1], a, b) || IsPoint(arc[|arc| - 1], a, b)
  {
    hide IsPoint;
    var front := arc[..|arc| - 1];
    if k :| 0 <= k < |front| && IsPoint(front[k], a, b) { assert IsPoint(arc[k], a, b); }
    if k :| 0 <= k < |arc| && IsPoint(arc[k], a, b) {
      if k < |front| { assert IsPoint(front[k], a, b); }
    }
  }

  /** A pixel is drawn exactly if it lies in a chosen corner, and the point of the octant that it mirrors is on the
      arc. */
  lemma CircleIsWhole(rad: nat, x0: nat, y0: nat, c: Corners, half: nat, dx: int, dy: int)
    requires half >= 8 && InRange(First(rad), half) && Fits(rad, x0, y0, half) && x0 + dx >= 0 && y0 + dy >= 0
    ensures var arc := Octant(rad, half);
            && IsArc(rad, arc, 0) && arc[0] == (0, rad)
            && ((x0 + dx, y0 + dy) in Mirrored(arc, x0, y0, c, half) <==>
                  InCorners(c, dx, dy) && OnArc(arc, Abs(dx), Abs(dy)))
  {
    hide Octant, OnArc, Abs, InRange, First, Mirrored, InCorners;
    OctantIsArcIff(rad, half);
    PointsStayIn(rad, Octant(rad, half));
    hide IsArc;
    MirroredShows(rad, Octant(rad, half), x0, y0, c, half, dx, dy);
  }
}

/** Drawing: the pixels and vertical lines given to the display. */
module CircleDrawing {
  import opened CircleSpec

  class Display {
    const half: nat
    var pixels: seq<Pixel>
    var columns: seq<Column>

    constructor (wide: bool)
      ensures half == (if wide then 32768 else 128) && pixels == [] && columns == []
    {
      half := if wide then 32768 else 128;
      pixels := [];
      columns := [];
    }

    method DrawPixel(x: int, y: int)
      requires half > 0
      modifies this`pixels
      ensures pixels == old(pixels) + [At(x, y, half)]
    {
      pixels := pixels + [At(x, y, half)];
    }

    method DrawVLine(x: int, y: int, length: nat)
      requires half > 0
      modifies this`columns
      ensures columns == old(columns) + [Column(At(x, y, half), Coordinate(length, half))]
    {
      columns := columns + [Column(At(x, y, half), Coordinate(length, half))];
    }

    method DrawCircleSection(x: nat, y: nat, x0: nat, y0: nat, option: Corners)
      requires half > 0
      modifies this`pixels
      ensures pixels == old(pixels) + Section((x, y), x0, y0, option, half)
    {
      hide At;
      if option.upperRight {
        DrawPixel(x0 + x, y0 - y);
        DrawPixel(x0 + y, y0 - x);
      }
      if option.upperLeft {
        DrawPixel(x0 - x, y0 - y);
        DrawPixel(x0 - y, y0 - x);
      }
      if option.lowerRight {
        DrawPixel(x0 + x, y0 + y);
        DrawPixel(x0 + y, y0 + x);
      }
      if option.lowerLeft {
        DrawPixel(x0 - x, y0 + y);
        DrawPixel(x0 - y, y0 + x);
      }
    }

    method DrawDiscSection(x: nat, y: nat, x0: nat, y0: nat, option: Corners)
      requires half > 0
      modifies this`columns
      ensures columns == old(columns) + DiscSection((x, y), x0, y0, option, half)
    {
      hide At, Coordinate;
      if option.upperRight {
        DrawVLine(x0 + x, y0 - y, y + 1);
        DrawVLine(x0 + y, y0 - x, x + 1);
      }
      if option.upperLeft {
        DrawVLine(x0 - x, y0 - y, y + 1);
        DrawVLine(x0 - y, y0 - x, x + 1);
      }
      if option.lowerRight {
        DrawVLine(x0 + x, y0, y + 1);
        DrawVLine(x0 + y, y0, x + 1);
      }
      if option.lowerLeft {
        DrawVLine(x0 - x, y0, y + 1);
        DrawVLine(x0 - y, y0, x + 1);
      }
    }

    method DrawCircle(x0: nat, y0: nat, rad: nat, option: Corners)
      requires half > 0
      modifies this`pixels
      ensures pixels == old(pixels) + Mirrored(Octant(rad, half), x0, y0, option, half)
    {
      hide Signed, Section, Mirrored, Arc;
      OneMorePoint([], (0, rad), x0, y0, option, half);
      NothingDrawn(x0, y0, option, half);
      var f := Signed(1 - rad, half);
      var ddFx := 1;
      var ddFy := Signed(-2 * rad, half);
      var x, y := 0, rad;
      DrawCircleSection(x, y, x0, y0, option);
      ghost var done: seq<Point> := [];
      while x < y
        invariant 0 <= x && 0 <= y
        invariant Octant(rad, half) == done + Arc(Pen(x, y, f, ddFx, ddFy), half)
        invariant pixels == old(pixels) + Mirrored(done + [(x, y)], x0, y0, option, half)
        decreases (y as int) - x
      {
        ArcStep(Pen(x, y, f, ddFx, ddFy), half);
        done := done + [(x, y)];
        if f >= 0 {
          y := y - 1;
          ddFy := Signed(ddFy + 2, half);
          f := Signed(f + ddFy, half);
        }
        x := x + 1;
        ddFx := Signed(ddFx + 2, half);
        f := Signed(f + ddFx, half);
        DrawCircleSection(x, y, x0, y0, option);
        OneMorePoint(done, (x, y), x0, y0, option, half);
      }
      ArcEnds(Pen(x, y, f, ddFx, ddFy), half);
    }

    method DrawDisc(x0: nat, y0: nat, rad: nat, option: Corners)
      requires half > 0
      modifies this`columns
      ensures columns == old(columns) + Filled(Octant(rad, half), x0, y0, option, half)
    {
      hide Signed, DiscSection, Filled, Arc;
      OneMorePoint([], (0, rad), x0, y0, option, half);
      NothingDrawn(x0, y0, option, half);
      var f := Signed(1 - rad, half);
      var ddFx := 1;
      var ddFy := Signed(-2 * rad, half);
      var x, y := 0, rad;
      DrawDiscSection(x, y, x0, y0, option);
      ghost var done: seq<Point> := [];
      while x < y
        invariant 0 <= x && 0 <= y
        invariant Octant(rad, half) == done + Arc(Pen(x, y, f, ddFx, ddFy), half)
        invariant columns == old(columns) + Filled(done + [(x, y)], x0, y0, option, half)
        decreases (y as int) - x
      {
        ArcStep(Pen(x, y, f, ddFx, ddFy), half);
        done := done + [(x, y)];
        if f >= 0 {
          y := y - 1;
          ddFy := Signed(ddFy + 2, half);
          f := Signed(f + ddFy, half);
        }
        x := x + 1;
        ddFx := Signed(ddFx + 2, half);
        f := Signed(f + ddFx, half);
        DrawDiscSection(x, y, x0, y0, option);
        OneMorePoint(done, (x, y), x0, y0, option, half);
      }
      ArcEnds(Pen(x, y, f, ddFx, ddFy), half);
    }
  }
}
