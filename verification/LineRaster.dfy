/**
  The all-integer line walk and the triangle loop around it, against a closed description of which
  points belong to a line.
 */
module LineRaster {
  import opened Arithmetic

  type Int16 = x: int | -0x8000 <= x < 0x8000
  type Color = x: int | 0 <= x < 0x1_0000

  const WHITE: Color := 0xffff

  function ToInt16(v: int): Int16 {
    (v + 0x8000) % 0x1_0000 - 0x8000
  }

  function Abs(v: int): nat {
    if v < 0 then -v else v
  }

  function Max(a: nat, b: nat): nat {
    if a >= b then a else b
  }

  // ---- the walk as the program makes it ----

  datatype Line = Line(x0: Int16, y0: Int16, x1: Int16, y1: Int16) {
    function Width(): nat {
      Abs(x1 - x0)
    }

    function Height(): nat {
      Abs(y1 - y0)
    }

    function Dx(): Int16 {
      ToInt16(Width())
    }

    function Dy(): Int16 {
      ToInt16(0 - Height())
    }

    function Sx(): int {
      if x1 > x0 then 1 else -1
    }

    function Sy(): int {
      if y1 > y0 then 1 else -1
    }

    /** How many columns, towards the end point, `x` lies from the start. */
    function Columns(x: int): int {
      if x1 > x0 then x - x0 else x0 - x
    }

    function Rows(y: int): int {
      if y1 > y0 then y - y0 else y0 - y
    }

    function Length(): nat {
      Max(Width(), Height())
    }

    /** The differences survive their conversion to 16 bits. */
    predicate Fits() {
      Width() < 0x8000 && Height() <= 0x8000
    }
  }

  datatype Pen = Pen(x: Int16, y: Int16, err: int)

  function Move(l: Line, p: Pen): Pen {
    var e2 := p.err * 2;
    Pen(if e2 >= l.Dy() then ToInt16(p.x + l.Sx()) else p.x,
        if e2 <= l.Dx() then ToInt16(p.y + l.Sy()) else p.y,
        p.err + (if e2 >= l.Dy() then l.Dy() else 0) + (if e2 <= l.Dx() then l.Dx() else 0))
  }

  /** The pen after `n` rounds of the loop, had it not been left. */
  function After(l: Line, n: nat): Pen {
    if n == 0 then Pen(l.x0, l.y0, l.Dx() + l.Dy()) else Move(l, After(l, n - 1))
  }

  predicate Arrived(l: Line, p: Pen) {
    p.x == l.x1 && p.y == l.y1
  }

  // ---- the line as a set of points ----

  /** Twice the signed distance, scaled: zero on the ideal line after `a` columns and `b` rows. */
  function Deviation(d: nat, h: nat, a: nat, b: nat): int {
    2 * (Times(b, d) - Times(a, h))
  }

  /** The point nearest to the ideal line on its step of the longer side; half a step counts as up. */
  predicate Nearest(d: nat, h: nat, a: nat, b: nat) {
    if d == 0 && h == 0 then a == 0 && b == 0
    else if d >= h then 0 - d < Deviation(d, h, a, b) <= d
    else 0 - h <= Deviation(d, h, a, b) < h
  }

  predicate OnLine(l: Line, x: int, y: int) {
    var a, b := l.Columns(x), l.Rows(y);
    0 <= a <= l.Width() && 0 <= b <= l.Height() && Nearest(l.Width(), l.Height(), a, b)
  }

  // ---- the walk in counts of steps ----

  datatype Walk = Walk(a: nat, b: nat, err: int)

  function Walked(d: nat, h: nat, n: nat): Walk {
    if n == 0 then Walk(0, 0, d - h) else Step(d, h, Walked(d, h, n - 1))
  }

  ghost predicate Tracks(d: nat, h: nat, w: Walk) {
    Nearest(d, h, w.a, w.b) && 2 * w.err == Deviation(d, h, w.a, w.b) + 2 * d - 2 * h
  }

  lemma DeviationSteps(d: nat, h: nat, a: nat, b: nat)
    ensures Deviation(d, h, a + 1, b) == Deviation(d, h, a, b) - 2 * h
    ensures Deviation(d, h, a, b + 1) == Deviation(d, h, a, b) + 2 * d
    ensures Deviation(d, h, a + 1, b + 1) == Deviation(d, h, a, b) + 2 * d - 2 * h
  {
    assert Times(b + 1, d) == Times(b, d) + d;
    assert Times(a + 1, h) == Times(a, h) + h;
  }

  function Step(d: nat, h: nat, w: Walk): Walk {
    var right, up := 2 * w.err >= 0 - h, 2 * w.err <= d;
    Walk(if right then w.a + 1 else w.a, if up then w.b + 1 else w.b,
         w.err - (if right then h else 0) + (if up then d else 0))
  }

  /** The longer side moves in every step, and the point stays the nearest one. */
  lemma StepTracks(d: nat, h: nat, w: Walk)
    requires Tracks(d, h, w) && d + h > 0
    ensures Tracks(d, h, Step(d, h, w))
    ensures if d >= h then Step(d, h, w).a == w.a + 1 else Step(d, h, w).b == w.b + 1
  {
    DeviationSteps(d, h, w.a, w.b);
  }

  lemma {:induction false} WalkTracks(d: nat, h: nat, n: nat)
    requires n == 0 || d + h > 0
    ensures Tracks(d, h, Walked(d, h, n))
    ensures if d >= h then Walked(d, h, n).a == n else Walked(d, h, n).b == n
  {
    if n > 0 {
      WalkTracks(d, h, n - 1);
      StepTracks(d, h, Walked(d, h, n - 1));
    }
  }

  /** On each step of the longer side there is one nearest point. */
  lemma NearestIsUnique(d: nat, h: nat, a: nat, b: nat, a': nat, b': nat)
    requires Nearest(d, h, a, b) && Nearest(d, h, a', b')
    requires if d >= h then a == a' else b == b'
    ensures a == a' && b == b'
  {
    if d >= h {
      SameMultiple(b, b', d);
    } else {
      SameMultiple(a, a', h);
    }
  }

  lemma SameMultiple(b: nat, b': nat, d: nat)
    ensures 0 - d < Times(b, d) - Times(b', d) < d ==> b == b'
  {
    if b < b' {
      Inside(b, b', d);
    } else if b' < b {
      Inside(b', b, d);
    }
  }

  lemma TimesCommutes(a: nat, b: nat)
    ensures Times(a, b) == Times(b, a)
  {
    TimesIsProduct(a, b);
    TimesIsProduct(b, a);
  }

  lemma {:induction false} TimesMonotone(a: nat, b: nat, m: nat)
    requires a <= b
    ensures Times(a, m) <= Times(b, m)
  {
    if a < b {
      Inside(a, b, m);
    }
  }

  /** The end point is the nearest one on its step. */
  lemma EndIsNearest(d: nat, h: nat)
    ensures Nearest(d, h, d, h)
  {
    TimesCommutes(d, h);
  }

  /** A nearest point within the longer side is within the shorter one. */
  lemma NearestInside(d: nat, h: nat, a: nat, b: nat)
    requires Nearest(d, h, a, b) && (if d >= h then a <= d else b <= h)
    ensures a <= d && b <= h
  {
    TimesCommutes(d, h);
    if d >= h {
      TimesMonotone(a, d, h);
      if b > h {
        Inside(h, b, d);
      }
    } else {
      TimesMonotone(b, h, d);
      if a > d {
        Inside(d, a, h);
      }
    }
  }

  predicate InBox(d: nat, h: nat, w: Walk) {
    w.a <= d && w.b <= h
  }

  /** The first steps stay in the box, and only the last of them ends in its far corner. */
  lemma WalkInBox(d: nat, h: nat, n: nat)
    requires n <= Max(d, h)
    ensures InBox(d, h, Walked(d, h, n))
    ensures Walked(d, h, n).a == d && Walked(d, h, n).b == h <==> n == Max(d, h)
  {
    WalkTracks(d, h, n);
    var w := Walked(d, h, n);
    NearestInside(d, h, w.a, w.b);
    if n == Max(d, h) {
      EndIsNearest(d, h);
      NearestIsUnique(d, h, w.a, w.b, d, h);
    }
  }

  // ---- the program's walk is that walk ----

  /** The pen position that `w` stands for. */
  ghost predicate Stands(l: Line, p: Pen, w: Walk) {
    l.Columns(p.x) == w.a && l.Rows(p.y) == w.b && p.err == w.err
  }

  lemma MoveIsStep(l: Line, p: Pen, w: Walk)
    requires l.Fits() && Stands(l, p, w)
    requires InBox(l.Width(), l.Height(), Step(l.Width(), l.Height(), w))
    ensures Stands(l, Move(l, p), Step(l.Width(), l.Height(), w))
  {
    assert l.Dx() == l.Width() && l.Dy() == 0 - l.Height();
  }

  lemma {:induction false} AfterIsWalked(l: Line, n: nat)
    requires l.Fits() && n <= l.Length()
    ensures Stands(l, After(l, n), Walked(l.Width(), l.Height(), n))
  {
    if n > 0 {
      AfterIsWalked(l, n - 1);
      WalkInBox(l.Width(), l.Height(), n);
      MoveIsStep(l, After(l, n - 1), Walked(l.Width(), l.Height(), n - 1));
    }
  }

  /** The step on which a point of the line is visited: its distance along the longer side. */
  function StepOf(l: Line, x: int, y: int): nat {
    if l.Width() >= l.Height() then Abs(x - l.x0) else Abs(y - l.y0)
  }

  lemma NearestIsOnLine(l: Line, p: Pen, w: Walk)
    requires Stands(l, p, w) && Nearest(l.Width(), l.Height(), w.a, w.b) && InBox(l.Width(), l.Height(), w)
    ensures OnLine(l, p.x, p.y)
    ensures Arrived(l, p) <==> w.a == l.Width() && w.b == l.Height()
    ensures StepOf(l, p.x, p.y) == if l.Width() >= l.Height() then w.a else w.b
  {
  }

  /** Every visited point is on the line, and the walk arrives exactly after `Length` steps. */
  lemma VisitedIsOnLine(l: Line, n: nat)
    requires l.Fits() && n <= l.Length()
    ensures OnLine(l, After(l, n).x, After(l, n).y) && StepOf(l, After(l, n).x, After(l, n).y) == n
    ensures Arrived(l, After(l, n)) <==> n == l.Length()
  {
    var w := Walked(l.Width(), l.Height(), n);
    AfterIsWalked(l, n);
    WalkInBox(l.Width(), l.Height(), n);
    WalkTracks(l.Width(), l.Height(), n);
    NearestIsOnLine(l, After(l, n), w);
  }

  /** Every point of the line is visited. */
  lemma OnLineIsVisited(l: Line, x: int, y: int)
    requires l.Fits() && OnLine(l, x, y)
    ensures var n := StepOf(l, x, y); n <= l.Length() && After(l, n).x == x && After(l, n).y == y
  {
    var n, d, h := StepOf(l, x, y), l.Width(), l.Height();
    AfterIsWalked(l, n);
    WalkTracks(d, h, n);
    var w := Walked(d, h, n);
    NearestIsUnique(d, h, w.a, w.b, l.Columns(x), l.Rows(y));
  }

  /** The doubled error stays far inside 32 bits. */
  lemma ErrorFits(l: Line, n: nat)
    requires l.Fits() && n <= l.Length()
    ensures Abs(2 * After(l, n).err) <= 3 * l.Length() < 0x2_0000
  {
    AfterIsWalked(l, n);
    WalkTracks(l.Width(), l.Height(), n);
  }

  // ---- when the differences do not fit ----

  predicate InInt32(v: int) {
    -0x8000_0000 <= v < 0x8000_0000
  }

  /** Round `k`, counted without bound, doubles an error that a 32-bit variable holds. */
  predicate DoubledFits(l: Line, k: nat) {
    InInt32(2 * After(l, k).err)
  }

  /** The loop ends after `n` rounds, and no error variable has overflowed before that. */
  ghost predicate EndsAfter(l: Line, n: nat) {
    Arrived(l, After(l, n)) && forall k: nat :: k < n ==> !Arrived(l, After(l, k)) && DoubledFits(l, k)
  }

  /** A pen whose error keeps it from moving in x, with a negative truncated width, never moves in x. */
  lemma {:induction false} StuckInX(l: Line, n: nat)
    requires l.Dx() < 0 && 2 * (l.Dx() + l.Dy()) < l.Dy()
    ensures After(l, n).x == l.x0 && 2 * After(l, n).err < l.Dy()
  {
    if n > 0 {
      StuckInX(l, n - 1);
    }
  }

  lemma {:induction false} StuckInY(l: Line, n: nat)
    requires l.Dy() > 0 && 2 * (l.Dx() + l.Dy()) > l.Dx()
    ensures After(l, n).y == l.y0 && 2 * After(l, n).err > l.Dx()
  {
    if n > 0 {
      StuckInY(l, n - 1);
    }
  }

  /** The walk with an unbounded error misses the end; the real one does so as long as its error has not overflowed. */
  lemma NeverArrives(l: Line, n: nat)
    requires !l.Fits()
    ensures !Arrived(l, After(l, n))
  {
    if l.Dx() < 0 && 2 * l.Dx() + l.Dy() < 0 {
      StuckInX(l, n);
    } else {
      StuckInY(l, n);
    }
  }

  /** Both differences change sign in the conversion, and the first error moves neither coordinate. */
  predicate Frozen(l: Line) {
    l.Dx() < 0 < l.Dy() && l.Dx() < 2 * (l.Dx() + l.Dy()) < l.Dy()
  }

  /** Then every round is the same: the loop runs for ever without an overflow. */
  lemma {:induction false} FrozenStays(l: Line, n: nat)
    requires Frozen(l)
    ensures !l.Fits() && After(l, n) == After(l, 0) && DoubledFits(l, n)
  {
    if n > 0 {
      FrozenStays(l, n - 1);
    }
  }

  lemma {:induction false} ErrorSinks(l: Line, n: nat)
    requires l.Dx() < 0 && 2 * (l.Dx() + l.Dy()) <= l.Dx() && 2 * (l.Dx() + l.Dy()) < l.Dy()
    ensures 2 * After(l, n).err <= l.Dx() && 2 * After(l, n).err < l.Dy()
    ensures After(l, n).err <= l.Dx() + l.Dy() - n
  {
    if n > 0 {
      ErrorSinks(l, n - 1);
    }
  }

  lemma {:induction false} ErrorClimbs(l: Line, n: nat)
    requires l.Dy() > 0 && 2 * (l.Dx() + l.Dy()) > l.Dx() && 2 * (l.Dx() + l.Dy()) >= l.Dy()
    ensures 2 * After(l, n).err > l.Dx() && 2 * After(l, n).err >= l.Dy()
    ensures After(l, n).err >= l.Dx() + l.Dy() + n
  {
    if n > 0 {
      ErrorClimbs(l, n - 1);
    }
  }

  /** Round `k` is the loop's, and it overflows the error variable. */
  ghost predicate OverflowsAt(l: Line, k: nat) {
    !DoubledFits(l, k) && forall n: nat :: n <= k ==> !Arrived(l, After(l, n))
  }

  /** Every other line that does not fit drives the doubled error out of 32 bits. */
  lemma Overflows(l: Line, k: nat)
    requires !l.Fits() && !Frozen(l) && k == 0x8000_0000
    ensures OverflowsAt(l, k)
  {
    if l.Dx() < 0 && 2 * l.Dx() + l.Dy() < 0 {
      ErrorSinks(l, k);
    } else {
      ErrorClimbs(l, k);
    }
    forall n: nat | n <= k
      ensures !Arrived(l, After(l, n))
    {
      NeverArrives(l, n);
    }
  }

  lemma EndsAfterLength(l: Line)
    requires l.Fits()
    ensures EndsAfter(l, l.Length())
  {
    VisitedIsOnLine(l, l.Length());
    forall k: nat | k < l.Length()
      ensures !Arrived(l, After(l, k)) && DoubledFits(l, k)
    {
      VisitedIsOnLine(l, k);
      ErrorFits(l, k);
    }
  }

  /** The loop ends with its error variable intact exactly if the differences survive their conversion to 16 bits. */
  lemma EndsExactlyIfFits(l: Line)
    ensures (exists n: nat :: EndsAfter(l, n)) <==> l.Fits()
  {
    if l.Fits() {
      EndsAfterLength(l);
    } else {
      forall n: nat
        ensures !EndsAfter(l, n)
      {
        NeverArrives(l, n);
      }
    }
  }

  /** Of the lines that do not fit, the loop runs for ever in place on the frozen ones and overflows on the rest. */
  lemma OverflowsExactly(l: Line)
    ensures (exists k: nat :: OverflowsAt(l, k)) <==> !l.Fits() && !Frozen(l)
  {
    if !l.Fits() && !Frozen(l) {
      Overflows(l, 0x8000_0000);
    } else {
      forall k: nat
        ensures !OverflowsAt(l, k)
      {
        if Frozen(l) {
          FrozenStays(l, k);
        } else if k <= l.Length() {
          ErrorFits(l, k);
        } else {
          VisitedIsOnLine(l, l.Length());
        }
      }
    }
  }

  /** 40000 columns are too many for 16 bits: the walk leaves the row and overflows. */
  lemma WideLineOverflows(l: Line)
    requires l.Width() == 40000 && l.Height() == 0
    ensures exists k: nat :: OverflowsAt(l, k)
  {
    assert l.Dx() == -25536 && l.Dy() == 0;
    OverflowsExactly(l);
  }

  /** With 50000 rows besides, the loop stays at its first point for ever. */
  lemma LargeLineStays(l: Line, n: nat)
    requires l.Width() == 40000 && l.Height() == 50000
    ensures After(l, n) == After(l, 0) && DoubledFits(l, n)
  {
    assert l.Dx() == -25536 && l.Dy() == 15536;
    FrozenStays(l, n);
  }

  // ---- drawing one line ----

  function Index(width: nat, height: nat, x: nat, y: nat): (i: nat)
    requires x < width && y < height
    ensures i < Times(height, width)
  {
    Inside(y, height, width);
    Times(y, width) + x
  }

  /** Row after row. */
  lemma IndexIsRowMajor(width: nat, height: nat, x: nat, y: nat)
    requires x < width && y < height
    ensures Index(width, height, x, y) == y * width + x < Times(height, width)
  {
    TimesIsProduct(y, width);
  }

  lemma IndexInjective(width: nat, height: nat, x: nat, y: nat, x': nat, y': nat)
    requires x < width && y < height && x' < width && y' < height
    ensures Index(width, height, x, y) == Index(width, height, x', y') ==> x == x' && y == y'
  {
    if y < y' {
      Inside(y, y', width);
    } else if y' < y {
      Inside(y', y, width);
    }
  }

  function WithDot(buffer: seq<Color>, width: nat, height: nat, x: Int16, y: Int16): (r: seq<Color>)
    requires Times(height, width) <= |buffer|
    ensures |r| == |buffer|
  {
    if 0 <= x < width && 0 <= y < height then buffer[Index(width, height, x, y) := 0xffff] else buffer
  }

  /** The point is on the line and is visited before step `n`. */
  predicate Drawn(l: Line, n: nat, x: int, y: int) {
    OnLine(l, x, y) && StepOf(l, x, y) < n
  }

  /** `after` is `before` with the points before step `n` in white. */
  ghost predicate Plotted(before: seq<Color>, after: seq<Color>, width: nat, height: nat, l: Line, n: nat) {
    && |before| == |after| >= Times(height, width)
    && (forall x: nat, y: nat :: x < width && y < height ==>
          after[Index(width, height, x, y)] == if Drawn(l, n, x, y) then 0xffff else before[Index(width, height, x, y)])
    && forall i :: Times(height, width) <= i < |after| ==> after[i] == before[i]
  }

  lemma OnePixel(l: Line, n: nat, x: int, y: int)
    requires l.Fits() && n <= l.Length()
    ensures Drawn(l, n + 1, x, y) <==> Drawn(l, n, x, y) || (x == After(l, n).x && y == After(l, n).y)
  {
    VisitedIsOnLine(l, n);
    if OnLine(l, x, y) {
      OnLineIsVisited(l, x, y);
    }
  }

  lemma PlotPoint(before: seq<Color>, after: seq<Color>, width: nat, height: nat, l: Line, n: nat)
    requires l.Fits() && n <= l.Length() && Plotted(before, after, width, height, l, n)
    ensures Plotted(before, WithDot(after, width, height, After(l, n).x, After(l, n).y), width, height, l, n + 1)
  {
    var p := After(l, n);
    forall x: nat, y: nat | x < width && y < height
      ensures Drawn(l, n + 1, x, y) <==> Drawn(l, n, x, y) || (x == p.x && y == p.y)
      ensures 0 <= p.x < width && 0 <= p.y < height && Index(width, height, x, y) == Index(width, height, p.x, p.y) ==>
                x == p.x && y == p.y
    {
      OnePixel(l, n, x, y);
      if 0 <= p.x < width && 0 <= p.y < height {
        IndexInjective(width, height, x, y, p.x, p.y);
      }
    }
  }

  /** The buffer after the dots of the first `n` points of the walk. */
  function Path(before: seq<Color>, width: nat, height: nat, l: Line, n: nat): (r: seq<Color>)
    requires Times(height, width) <= |before|
    ensures |r| == |before|
  {
    if n == 0 then before
    else WithDot(Path(before, width, height, l, n - 1), width, height, After(l, n - 1).x, After(l, n - 1).y)
  }

  lemma {:induction false} PathIsPlotted(before: seq<Color>, width: nat, height: nat, l: Line, n: nat)
    requires l.Fits() && n <= l.Length() + 1 && Times(height, width) <= |before|
    ensures Plotted(before, Path(before, width, height, l, n), width, height, l, n)
  {
    if n > 0 {
      PathIsPlotted(before, width, height, l, n - 1);
      PlotPoint(before, Path(before, width, height, l, n - 1), width, height, l, n - 1);
    }
  }

  /** Exactly the points of the line turn white, as far as they lie on the screen. */
  ghost predicate LineDrawn(before: seq<Color>, after: seq<Color>, width: nat, height: nat, l: Line) {
    && |before| == |after| >= Times(height, width)
    && (forall x: nat, y: nat :: x < width && y < height ==>
          after[Index(width, height, x, y)] == if OnLine(l, x, y) then 0xffff else before[Index(width, height, x, y)])
    && forall i :: Times(height, width) <= i < |after| ==> after[i] == before[i]
  }

  lemma DrawnIsOnLine(l: Line, x: int, y: int)
    requires l.Fits()
    ensures Drawn(l, l.Length() + 1, x, y) <==> OnLine(l, x, y)
  {
    if OnLine(l, x, y) {
      OnLineIsVisited(l, x, y);
    }
  }

  /** The dots of the whole walk are the line. */
  lemma PathIsLine(before: seq<Color>, width: nat, height: nat, l: Line)
    requires l.Fits() && Times(height, width) <= |before|
    ensures LineDrawn(before, Path(before, width, height, l, l.Length() + 1), width, height, l)
  {
    PathIsPlotted(before, width, height, l, l.Length() + 1);
    forall x: nat, y: nat | x < width && y < height
      ensures Drawn(l, l.Length() + 1, x, y) <==> OnLine(l, x, y)
    {
      DrawnIsOnLine(l, x, y);
    }
  }

  /** One dot, if it is on the screen. */
  method Plot(buffer: array<Color>, width: nat, height: nat, x: Int16, y: Int16)
    requires Times(height, width) <= buffer.Length
    modifies buffer
    ensures buffer[..] == WithDot(old(buffer[..]), width, height, x, y)
  {
    if 0 <= x < width && 0 <= y < height {
      IndexIsRowMajor(width, height, x, y);
      buffer[y * width + x] := WHITE;
    }
  }

  lemma NextDot(before: seq<Color>, width: nat, height: nat, l: Line, n: nat)
    requires Times(height, width) <= |before|
    ensures Path(before, width, height, l, n + 1)
         == WithDot(Path(before, width, height, l, n), width, height, After(l, n).x, After(l, n).y)
    ensures After(l, n + 1) == Move(l, After(l, n))
  {
  }

  /** In the words of the buffer: word y * width + x is white exactly if the line passes through (x, y). */
  ghost predicate WhiteOnLine(before: seq<Color>, after: seq<Color>, width: nat, height: nat, l: Line) {
    |before| == |after| && forall x: nat, y: nat {:trigger OnLine(l, x, y)} :: x < width && y < height ==>
      var i := y * width + x;
      i < |after| && after[i] == if OnLine(l, x, y) then 0xffff else before[i]
  }

  lemma LineByRows(before: seq<Color>, after: seq<Color>, width: nat, height: nat, l: Line)
    requires LineDrawn(before, after, width, height, l)
    ensures WhiteOnLine(before, after, width, height, l)
  {
    forall x: nat, y: nat | x < width && y < height
      ensures var i := y * width + x; i < |after| && after[i] == if OnLine(l, x, y) then 0xffff else before[i]
    {
      IndexIsRowMajor(width, height, x, y);
    }
  }

  /** The loop. */
  method WalkLine(buffer: array<Color>, width: nat, height: nat, l: Line)
    requires l.Fits() && Times(height, width) <= buffer.Length
    modifies buffer
    ensures buffer[..] == Path(old(buffer[..]), width, height, l, l.Length() + 1)
  {
    ghost var before, n := buffer[..], 0;
    var x: Int16, y: Int16 := l.x0, l.y0;
    var dx, dy, sx, sy := l.Dx(), l.Dy(), l.Sx(), l.Sy();
    var err: int := dx + dy;
    while true
      invariant n <= l.Length() && Pen(x, y, err) == After(l, n)
      invariant buffer[..] == Path(before, width, height, l, n)
      decreases l.Length() - n
    {
      VisitedIsOnLine(l, n);
      NextDot(before, width, height, l, n);
      Plot(buffer, width, height, x, y);
      if x == l.x1 && y == l.y1 {
        break;
      }
      var e2 := err * 2;
      if e2 >= dy {
        err := err + dy;
        x := ToInt16(x + sx);
      }
      if e2 <= dx {
        err := err + dx;
        y := ToInt16(y + sy);
      }
      n := n + 1;
    }
  }

  /** Draws a line that fits. */
  method DrawLine(buffer: array<Color>, width: nat, height: nat, l: Line)
    requires l.Fits() && Times(height, width) <= buffer.Length
    modifies buffer
    ensures LineDrawn(old(buffer[..]), buffer[..], width, height, l)
    ensures WhiteOnLine(old(buffer[..]), buffer[..], width, height, l)
  {
    ghost var before := buffer[..];
    WalkLine(buffer, width, height, l);
    PathIsLine(before, width, height, l);
    LineByRows(before, buffer[..], width, height, l);
  }

  // ---- drawing the triangles ----

  const LCD_WIDTH: nat := 400
  const LCD_HEIGHT: nat := 240

  datatype Point = Point(x: int, y: int, z: int)

  /** Line number `e` of the picture: edge e % 3 of triangle e / 3, its coordinates cut to 16 bits. */
  function EdgeLine(points: seq<Point>, indices: seq<nat>, e: nat): Line
    requires Indexed(points, indices) && e / 3 * 3 + 2 < |indices|
  {
    var base := e / 3 * 3;
    var p, q := points[indices[e]], points[indices[if e % 3 == 2 then base else e + 1]];
    Line(ToInt16(p.x), ToInt16(p.y), ToInt16(q.x), ToInt16(q.y))
  }

  predicate Indexed(points: seq<Point>, indices: seq<nat>) {
    forall i :: 0 <= i < |indices| ==> indices[i] < |points|
  }

  function EdgeCount(indices: seq<nat>): (n: nat)
    ensures n <= |indices|
  {
    |indices| / 3 * 3
  }

  ghost predicate EdgesFit(points: seq<Point>, indices: seq<nat>) {
    Indexed(points, indices) && forall e: nat :: e < EdgeCount(indices) ==> EdgeLine(points, indices, e).Fits()
  }

  /** Some edge before number `m` of a complete index triple passes through the point. */
  ghost predicate Shown(points: seq<Point>, indices: seq<nat>, m: nat, x: int, y: int)
    requires Indexed(points, indices) && m <= EdgeCount(indices)
  {
    exists e: nat :: e < m && OnLine(EdgeLine(points, indices, e), x, y)
  }

  /** The buffer shows the first `m` edges in white on black. */
  ghost predicate Picture(buffer: seq<Color>, points: seq<Point>, indices: seq<nat>, m: nat)
    requires Indexed(points, indices) && m <= EdgeCount(indices)
  {
    && |buffer| == Times(LCD_HEIGHT, LCD_WIDTH)
    && forall x: nat, y: nat :: x < LCD_WIDTH && y < LCD_HEIGHT ==>
         buffer[Index(LCD_WIDTH, LCD_HEIGHT, x, y)] == if Shown(points, indices, m, x, y) then 0xffff else 0
  }

  lemma NextEdge(before: seq<Color>, after: seq<Color>, points: seq<Point>, indices: seq<nat>, m: nat)
    requires Indexed(points, indices) && m < EdgeCount(indices) && Picture(before, points, indices, m)
    requires LineDrawn(before, after, LCD_WIDTH, LCD_HEIGHT, EdgeLine(points, indices, m))
    ensures Picture(after, points, indices, m + 1)
  {
    forall x: nat, y: nat | x < LCD_WIDTH && y < LCD_HEIGHT
      ensures Shown(points, indices, m + 1, x, y)
         <==> Shown(points, indices, m, x, y) || OnLine(EdgeLine(points, indices, m), x, y)
    {
    }
  }

  method DrawEdge(buffer: array<Color>, points: seq<Point>, indices: seq<nat>, from: nat, to: nat, ghost m: nat)
    requires EdgesFit(points, indices) && m < EdgeCount(indices) && Picture(buffer[..], points, indices, m)
    requires from < |indices| && to < |indices|
    requires EdgeLine(points, indices, m) == Line(ToInt16(points[indices[from]].x), ToInt16(points[indices[from]].y),
                                                  ToInt16(points[indices[to]].x), ToInt16(points[indices[to]].y))
    modifies buffer
    ensures Picture(buffer[..], points, indices, m + 1)
  {
    ghost var before := buffer[..];
    var p, q := points[indices[from]], points[indices[to]];
    DrawLine(buffer, LCD_WIDTH, LCD_HEIGHT, Line(ToInt16(p.x), ToInt16(p.y), ToInt16(q.x), ToInt16(q.y)));
    NextEdge(before, buffer[..], points, indices, m);
  }

  method DrawTriangle(buffer: array<Color>, points: seq<Point>, indices: seq<nat>, head: nat)
    requires EdgesFit(points, indices) && head % 3 == 0 && head + 2 < |indices|
    requires Picture(buffer[..], points, indices, head)
    modifies buffer
    ensures Picture(buffer[..], points, indices, head + 3)
  {
    DrawEdge(buffer, points, indices, head, head + 1, head);
    DrawEdge(buffer, points, indices, head + 1, head + 2, head + 1);
    DrawEdge(buffer, points, indices, head + 2, head, head + 2);
  }

  method CopyFrame(buffer: array<Color>, frame: array<Color>)
    requires frame.Length == buffer.Length && frame != buffer
    modifies frame
    ensures frame[..] == buffer[..]
  {
    for i := 0 to frame.Length
      invariant frame[..i] == buffer[..i]
    {
      frame[i] := buffer[i];
    }
  }

  /** The line between two points, as their coordinates are handed over. */
  function Joining(p: Point, q: Point): Line {
    Line(ToInt16(p.x), ToInt16(p.y), ToInt16(q.x), ToInt16(q.y))
  }

  /** One of the three edges of the index triple that begins at `head` passes through the point. */
  predicate TripleThrough(points: seq<Point>, indices: seq<nat>, head: nat, x: int, y: int)
    requires Indexed(points, indices) && head + 2 < |indices|
  {
    var p, q, r := points[indices[head]], points[indices[head + 1]], points[indices[head + 2]];
    OnLine(Joining(p, q), x, y) || OnLine(Joining(q, r), x, y) || OnLine(Joining(r, p), x, y)
  }

  ghost predicate SomeTripleThrough(points: seq<Point>, indices: seq<nat>, x: int, y: int)
    requires Indexed(points, indices)
  {
    exists head: nat :: head % 3 == 0 && head + 2 < |indices| && TripleThrough(points, indices, head, x, y)
  }

  lemma EdgesOfTriple(points: seq<Point>, indices: seq<nat>, head: nat)
    requires Indexed(points, indices) && head % 3 == 0 && head + 2 < |indices|
    ensures EdgeLine(points, indices, head) == Joining(points[indices[head]], points[indices[head + 1]])
    ensures EdgeLine(points, indices, head + 1) == Joining(points[indices[head + 1]], points[indices[head + 2]])
    ensures EdgeLine(points, indices, head + 2) == Joining(points[indices[head + 2]], points[indices[head]])
  {
  }

  lemma TripleOfEdge(points: seq<Point>, indices: seq<nat>, head: nat, e: nat, x: int, y: int)
    requires Indexed(points, indices) && head % 3 == 0 && head <= e < head + 3 && head + 2 < |indices|
    requires OnLine(EdgeLine(points, indices, e), x, y)
    ensures TripleThrough(points, indices, head, x, y)
  {
    EdgesOfTriple(points, indices, head);
    assert e == head || e == head + 1 || e == head + 2;
  }

  lemma EdgeOfTriple(points: seq<Point>, indices: seq<nat>, head: nat, x: int, y: int) returns (e: nat)
    requires Indexed(points, indices) && head % 3 == 0 && head + 2 < |indices|
    requires TripleThrough(points, indices, head, x, y)
    ensures head <= e < head + 3 && OnLine(EdgeLine(points, indices, e), x, y)
  {
    EdgesOfTriple(points, indices, head);
    e := if OnLine(EdgeLine(points, indices, head), x, y) then head
         else if OnLine(EdgeLine(points, indices, head + 1), x, y) then head + 1 else head + 2;
  }

  lemma CompleteTriples(indices: seq<nat>, e: nat)
    ensures e / 3 * 3 % 3 == 0 && e / 3 * 3 <= e < e / 3 * 3 + 3
    ensures e < EdgeCount(indices) <==> e / 3 * 3 + 2 < |indices|
    ensures e % 3 == 0 ==> e / 3 * 3 == e
  {
  }

  lemma ShownIsThrough(points: seq<Point>, indices: seq<nat>, e: nat, x: int, y: int)
    requires Indexed(points, indices) && e < EdgeCount(indices) && OnLine(EdgeLine(points, indices, e), x, y)
    ensures SomeTripleThrough(points, indices, x, y)
  {
    CompleteTriples(indices, e);
    TripleOfEdge(points, indices, e / 3 * 3, e, x, y);
  }

  lemma ThroughIsShown(points: seq<Point>, indices: seq<nat>, head: nat, x: int, y: int)
    requires Indexed(points, indices) && head % 3 == 0 && head + 2 < |indices|
    requires TripleThrough(points, indices, head, x, y)
    ensures Shown(points, indices, EdgeCount(indices), x, y)
  {
    var e := EdgeOfTriple(points, indices, head, x, y);
    CompleteTriples(indices, head);
  }

  lemma ShownByTriples(points: seq<Point>, indices: seq<nat>, x: int, y: int)
    requires Indexed(points, indices)
    ensures Shown(points, indices, EdgeCount(indices), x, y) <==> SomeTripleThrough(points, indices, x, y)
  {
    if Shown(points, indices, EdgeCount(indices), x, y) {
      var e: nat :| e < EdgeCount(indices) && OnLine(EdgeLine(points, indices, e), x, y);
      ShownIsThrough(points, indices, e, x, y);
    } else if SomeTripleThrough(points, indices, x, y) {
      var head: nat :| head % 3 == 0 && head + 2 < |indices| && TripleThrough(points, indices, head, x, y);
      ThroughIsShown(points, indices, head, x, y);
    }
  }

  lemma PictureByRows(frame: seq<Color>, points: seq<Point>, indices: seq<nat>, x: nat, y: nat)
    requires Indexed(points, indices) && Picture(frame, points, indices, EdgeCount(indices)) && x < 400 && y < 240
    ensures y * 400 + x < |frame|
    ensures frame[y * 400 + x] == if SomeTripleThrough(points, indices, x, y) then 0xffff else 0
  {
    IndexIsRowMajor(400, 240, x, y);
    ShownByTriples(points, indices, x, y);
  }

  /** A pixel of the frame is lit exactly if an edge of a complete index triple passes through it. */
  method RenderOnScreen(points: seq<Point>, indices: seq<nat>, frame: array<Color>)
    requires EdgesFit(points, indices) && frame.Length == 400 * 240
    modifies frame
    ensures forall x: nat, y: nat {:trigger SomeTripleThrough(points, indices, x, y)} :: x < 400 && y < 240 ==>
              frame[y * 400 + x] == if SomeTripleThrough(points, indices, x, y) then 0xffff else 0
  {
    TimesIsProduct(LCD_HEIGHT, LCD_WIDTH);
    var buffer := new Color[frame.Length](_ => 0);
    var head := 0;
    while head + 2 < |indices|
      invariant head % 3 == 0 && head <= EdgeCount(indices)
      invariant Picture(buffer[..], points, indices, head)
    {
      DrawTriangle(buffer, points, indices, head);
      head := head + 3;
    }
    assert head == EdgeCount(indices);
    CopyFrame(buffer, frame);
    forall x: nat, y: nat | x < 400 && y < 240
      ensures frame[y * 400 + x] == if SomeTripleThrough(points, indices, x, y) then 0xffff else 0
    {
      PictureByRows(frame[..], points, indices, x, y);
    }
  }
}
