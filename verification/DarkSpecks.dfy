/** `dark_specks`: small blobs much darker than their local background. A box mean from a
    summed-area table decides which pixels are dark, and a flood fill sizes the blobs. The
    arithmetic is over `real`. */
module DarkSpecks {

  /** A decoded frame: `h` rows of `w` pixels of three bytes. */
  datatype Frame = Frame(w: nat, h: nat, rows: seq<seq<nat>>)

  /** A pixel as (row, column). */
  type Pixel = (int, int)

  predicate Shaped(f: Frame) {
    |f.rows| == f.h && forall y :: 0 <= y < f.h ==> |f.rows[y]| == 3 * f.w
  }

  function Gray(f: Frame, y: nat, x: nat): real
    requires Shaped(f) && y < f.h && x < f.w
  {
    (f.rows[y][3 * x] + f.rows[y][3 * x + 1] + f.rows[y][3 * x + 2]) as real / 3.0
  }

  // ------------------------------------------------------------ the summed-area table

  /** The sum of row `y` over columns `x0` to `x1`. */
  function RowSum(f: Frame, y: nat, x0: nat, x1: nat): real
    requires Shaped(f) && y < f.h && x0 <= x1 <= f.w
  {
    if x0 == x1 then 0.0 else RowSum(f, y, x0, x1 - 1) + Gray(f, y, x1 - 1)
  }

  /** The sum of a box, row by row. */
  function BoxSum(f: Frame, y0: nat, y1: nat, x0: nat, x1: nat): real
    requires Shaped(f) && y0 <= y1 <= f.h && x0 <= x1 <= f.w
    decreases y1
  {
    if y0 == y1 then 0.0 else BoxSum(f, y0, y1 - 1, x0, x1) + RowSum(f, y1 - 1, x0, x1)
  }

  lemma {:induction false} RowSplits(f: Frame, y: nat, x0: nat, x1: nat)
    requires Shaped(f) && y < f.h && x0 <= x1 <= f.w
    ensures RowSum(f, y, 0, x1) - RowSum(f, y, 0, x0) == RowSum(f, y, x0, x1)
  {
    if x0 < x1 {
      RowSplits(f, y, x0, x1 - 1);
    }
  }

  lemma {:induction false} ColumnsSplit(f: Frame, y1: nat, x0: nat, x1: nat)
    requires Shaped(f) && y1 <= f.h && x0 <= x1 <= f.w
    ensures BoxSum(f, 0, y1, 0, x1) - BoxSum(f, 0, y1, 0, x0) == BoxSum(f, 0, y1, x0, x1)
  {
    if y1 > 0 {
      ColumnsSplit(f, y1 - 1, x0, x1);
      RowSplits(f, y1 - 1, x0, x1);
    }
  }

  lemma {:induction false} RowsSplit(f: Frame, y0: nat, y1: nat, x0: nat, x1: nat)
    requires Shaped(f) && y0 <= y1 <= f.h && x0 <= x1 <= f.w
    ensures BoxSum(f, 0, y1, x0, x1) - BoxSum(f, 0, y0, x0, x1) == BoxSum(f, y0, y1, x0, x1)
    decreases y1
  {
    if y0 < y1 {
      RowsSplit(f, y0, y1 - 1, x0, x1);
    }
  }

  /** The four-corner formula gives the sum of any box, from sums that start at the corner. */
  lemma FourCorners(f: Frame, y0: nat, y1: nat, x0: nat, x1: nat)
    requires Shaped(f) && y0 <= y1 <= f.h && x0 <= x1 <= f.w
    ensures BoxSum(f, y0, y1, x0, x1) ==
            BoxSum(f, 0, y1, 0, x1) - BoxSum(f, 0, y0, 0, x1) - BoxSum(f, 0, y1, 0, x0) + BoxSum(f, 0, y0, 0, x0)
  {
    RowsSplit(f, y0, y1, x0, x1);
    ColumnsSplit(f, y0, x0, x1);
    ColumnsSplit(f, y1, x0, x1);
  }

  /** Row `i` of the table, up to column `n`, holds the sums that start at the corner. */
  ghost predicate Filled(f: Frame, acc: array2<real>, i: nat, n: nat)
    requires Shaped(f) && acc.Length0 == f.h + 1 && acc.Length1 == f.w + 1 && i <= f.h && n <= f.w
    reads acc
  {
    forall j :: 0 <= j <= n ==> acc[i, j] == BoxSum(f, 0, i, 0, j)
  }

  lemma {:induction false} EmptyColumns(f: Frame, i: nat)
    requires Shaped(f) && i <= f.h
    ensures BoxSum(f, 0, i, 0, 0) == 0.0
  {
    if i > 0 {
      EmptyColumns(f, i - 1);
    }
  }

  /** One more row of the table: a running sum along the row, added to the row above. */
  method FillRow(f: Frame, acc: array2<real>, y: nat)
    requires Shaped(f) && acc.Length0 == f.h + 1 && acc.Length1 == f.w + 1 && y < f.h
    requires Filled(f, acc, y, f.w) && acc[y + 1, 0] == 0.0
    modifies acc
    ensures Filled(f, acc, y + 1, f.w)
    ensures forall i, j :: 0 <= i <= f.h && 0 <= j <= f.w && i != y + 1 ==> acc[i, j] == old(acc[i, j])
  {
    var run := 0.0;
    EmptyColumns(f, y + 1);
    for x := 0 to f.w
      invariant run == RowSum(f, y, 0, x)
      invariant Filled(f, acc, y + 1, x)
      invariant forall i, j :: 0 <= i <= f.h && 0 <= j <= f.w && i != y + 1 ==> acc[i, j] == old(acc[i, j])
    {
      run := run + Gray(f, y, x);
      assert acc[y, x + 1] == BoxSum(f, 0, y, 0, x + 1);
      acc[y + 1, x + 1] := acc[y, x + 1] + run;
      assert acc[y + 1, x + 1] == BoxSum(f, 0, y + 1, 0, x + 1);
    }
  }

  /** `acc`. */
  method SummedArea(f: Frame) returns (acc: array2<real>)
    requires Shaped(f)
    ensures fresh(acc) && acc.Length0 == f.h + 1 && acc.Length1 == f.w + 1
    ensures forall i :: 0 <= i <= f.h ==> Filled(f, acc, i, f.w)
  {
    acc := new real[f.h + 1, f.w + 1]((y, x) => 0.0);
    for y := 0 to f.h
      invariant forall i :: 0 <= i <= y ==> Filled(f, acc, i, f.w)
      invariant forall i :: y < i <= f.h ==> acc[i, 0] == 0.0
    {
      label before:
      FillRow(f, acc, y);
      forall i | 0 <= i <= y
        ensures Filled(f, acc, i, f.w)
      {
        assert old@before(Filled(f, acc, i, f.w));
      }
    }
  }

  /** The clipped window around a coordinate. */
  function Low(c: nat, radius: nat): nat { if c >= radius then c - radius else 0 }

  function High(c: nat, radius: nat, size: nat): (high: nat)
    requires c < size
    ensures Low(c, radius) < high <= size
  {
    if c + radius + 1 <= size then c + radius + 1 else size
  }

  function Area(a: nat, b: nat): (n: nat)
    requires a > 0 && b > 0
    ensures n > 0
  {
    a * b
  }

  /** `mean`: of the clipped box around the pixel. */
  function Mean(f: Frame, radius: nat, y: nat, x: nat): real
    requires Shaped(f) && y < f.h && x < f.w
  {
    var y0, y1, x0, x1 := Low(y, radius), High(y, radius, f.h), Low(x, radius), High(x, radius, f.w);
    BoxSum(f, y0, y1, x0, x1) / Area(y1 - y0, x1 - x0) as real
  }

  /** `mean` as it is computed, from the four corners. */
  method MeanOf(f: Frame, acc: array2<real>, radius: nat, y: nat, x: nat) returns (m: real)
    requires Shaped(f) && y < f.h && x < f.w && acc.Length0 == f.h + 1 && acc.Length1 == f.w + 1
    requires forall i :: 0 <= i <= f.h ==> Filled(f, acc, i, f.w)
    ensures m == Mean(f, radius, y, x)
  {
    var y0, y1, x0, x1 := Low(y, radius), High(y, radius, f.h), Low(x, radius), High(x, radius, f.w);
    var tot := acc[y1, x1] - acc[y0, x1] - acc[y1, x0] + acc[y0, x0];
    assert Filled(f, acc, y0, f.w) && Filled(f, acc, y1, f.w);
    assert tot == BoxSum(f, y0, y1, x0, x1) by {
      FourCorners(f, y0, y1, x0, x1);
    }
    m := tot / Area(y1 - y0, x1 - x0) as real;
  }

  /** Does the local background exceed the pixel by more than `drop`? */
  predicate IsDark(f: Frame, drop: real, radius: nat, y: nat, x: nat)
    requires Shaped(f) && y < f.h && x < f.w
  {
    Mean(f, radius, y, x) - Gray(f, y, x) > drop
  }

  method DarkPixels(f: Frame, drop: real, radius: nat) returns (dark: array2<bool>)
    requires Shaped(f)
    ensures fresh(dark) && dark.Length0 == f.h && dark.Length1 == f.w
    ensures forall y, x :: 0 <= y < f.h && 0 <= x < f.w ==> dark[y, x] == IsDark(f, drop, radius, y, x)
  {
    var acc := SummedArea(f);
    dark := new bool[f.h, f.w]((y, x) => false);
    for y := 0 to f.h
      invariant forall i, j :: 0 <= i < y && 0 <= j < f.w ==> dark[i, j] == IsDark(f, drop, radius, i, j)
      invariant forall i :: 0 <= i <= f.h ==> Filled(f, acc, i, f.w)
    {
      for x := 0 to f.w
        invariant forall i, j :: 0 <= i < y && 0 <= j < f.w ==> dark[i, j] == IsDark(f, drop, radius, i, j)
        invariant forall j :: 0 <= j < x ==> dark[y, j] == IsDark(f, drop, radius, y, j)
        invariant forall i :: 0 <= i <= f.h ==> Filled(f, acc, i, f.w)
      {
        var m := MeanOf(f, acc, radius, y, x);
        dark[y, x] := m - Gray(f, y, x) > drop;
      }
    }
  }

  // ------------------------------------------------------------ what the window holds

  predicate InFrame(f: Frame, p: Pixel) {
    0 <= p.0 < f.h && 0 <= p.1 < f.w
  }

  predicate Near(a: int, b: int, radius: nat) {
    a - radius <= b <= a + radius
  }

  /** The pixels of the frame no more than `radius` rows and columns from (y, x). */
  ghost function Window(f: Frame, radius: nat, y: nat, x: nat): set<Pixel> {
    set i, j | 0 <= i < f.h && 0 <= j < f.w && Near(y, i, radius) && Near(x, j, radius) :: (i, j)
  }

  /** The pixel's three bytes, added up. */
  function BytesOf(f: Frame, p: Pixel): nat
    requires Shaped(f) && InFrame(f, p)
  {
    var row := f.rows[p.0];
    row[3 * p.1] + row[3 * p.1 + 1] + row[3 * p.1 + 2]
  }

  /** ... over a set of pixels, in any order. */
  ghost function SumOf(f: Frame, s: set<Pixel>): nat
    requires Shaped(f) && forall p :: p in s ==> InFrame(f, p)
  {
    if s == {} then 0
    else
      var p :| p in s;
      BytesOf(f, p) + SumOf(f, s - {p})
  }

  lemma {:induction false} SumWithout(f: Frame, s: set<Pixel>, p: Pixel)
    requires Shaped(f) && (forall q :: q in s ==> InFrame(f, q)) && p in s
    ensures SumOf(f, s) == BytesOf(f, p) + SumOf(f, s - {p})
  {
    var q :| q in s && SumOf(f, s) == BytesOf(f, q) + SumOf(f, s - {q});
    if q != p {
      SumWithout(f, s - {q}, p);
      SumWithout(f, s - {p}, q);
      assert s - {q} - {p} == s - {p} - {q};
    }
  }

  /** The pixels of a box, and of part of a row. */
  ghost function Box(y0: nat, y1: nat, x0: nat, x1: nat): set<Pixel> {
    set y, x | y0 <= y < y1 && x0 <= x < x1 :: (y, x)
  }

  ghost function TotalOf(f: Frame, s: set<Pixel>): real
    requires Shaped(f) && forall p :: p in s ==> InFrame(f, p)
  {
    SumOf(f, s) as real
  }

  lemma OneMorePixel(f: Frame, s: set<Pixel>, y: nat, x: nat, longer: set<Pixel>)
    requires Shaped(f) && (forall q :: q in longer ==> InFrame(f, q)) && longer == s + {(y, x)} && (y, x) !in s
    ensures |longer| == |s| + 1
    ensures y < f.h && x < f.w && TotalOf(f, longer) == TotalOf(f, s) + 3.0 * Gray(f, y, x)
  {
    SumWithout(f, longer, (y, x));
    assert longer - {(y, x)} == s;
    assert InFrame(f, (y, x));
    GrayIsThird(f, y, x);
  }

  /** Brightness is the mean of the three bytes. */
  lemma GrayIsThird(f: Frame, y: nat, x: nat)
    requires Shaped(f) && y < f.h && x < f.w
    ensures 3.0 * Gray(f, y, x) == BytesOf(f, (y, x)) as real
  {}

  /** The rows of a box above row `y`, and of that row the part before column `x`. */
  ghost function Upto(y0: nat, y: nat, x0: nat, x1: nat, x: nat): set<Pixel> {
    set i, j | y0 <= i <= y && x0 <= j < x1 && (i < y || j < x) :: (i, j)
  }

  lemma NextInRow(y0: nat, y: nat, x0: nat, x1: nat, x: nat)
    requires y0 <= y && x0 < x <= x1
    ensures Upto(y0, y, x0, x1, x) == Upto(y0, y, x0, x1, x - 1) + {(y, x - 1)}
    ensures (y, x - 1) !in Upto(y0, y, x0, x1, x - 1)
  {}

  lemma {:induction false} RowIsSum(f: Frame, y0: nat, y: nat, x0: nat, x1: nat, x: nat)
    requires Shaped(f) && y0 <= y < f.h && x0 <= x <= x1 <= f.w
    ensures |Upto(y0, y, x0, x1, x)| == |Upto(y0, y, x0, x1, x0)| + (x - x0)
    ensures TotalOf(f, Upto(y0, y, x0, x1, x)) == TotalOf(f, Upto(y0, y, x0, x1, x0)) + 3.0 * RowSum(f, y, x0, x)
    decreases x
  {
    if x0 < x {
      RowIsSum(f, y0, y, x0, x1, x - 1);
      NextInRow(y0, y, x0, x1, x);
      OneMorePixel(f, Upto(y0, y, x0, x1, x - 1), y, x - 1, Upto(y0, y, x0, x1, x));
    }
  }

  lemma BoxByRows(y0: nat, y1: nat, x0: nat, x1: nat)
    requires y0 < y1
    ensures Upto(y0, y1 - 1, x0, x1, x0) == Box(y0, y1 - 1, x0, x1)
    ensures Upto(y0, y1 - 1, x0, x1, x1) == Box(y0, y1, x0, x1)
  {}

  lemma BoxNextRow(f: Frame, y0: nat, y1: nat, x0: nat, x1: nat)
    requires Shaped(f) && y0 < y1 <= f.h && x0 <= x1 <= f.w
    ensures var above, box := Box(y0, y1 - 1, x0, x1), Box(y0, y1, x0, x1);
            && |box| == |above| + (x1 - x0)
            && TotalOf(f, box) == TotalOf(f, above) + 3.0 * RowSum(f, y1 - 1, x0, x1)
  {
    RowIsSum(f, y0, y1 - 1, x0, x1, x1);
    BoxByRows(y0, y1, x0, x1);
  }

  lemma {:induction false} BoxIsSum(f: Frame, y0: nat, y1: nat, x0: nat, x1: nat)
    requires Shaped(f) && y0 <= y1 <= f.h && x0 <= x1 <= f.w
    ensures TotalOf(f, Box(y0, y1, x0, x1)) == 3.0 * BoxSum(f, y0, y1, x0, x1)
    decreases y1
  {
    if y0 == y1 {
      assert Box(y0, y1, x0, x1) == {};
    } else {
      BoxIsSum(f, y0, y1 - 1, x0, x1);
      BoxNextRow(f, y0, y1, x0, x1);
    }
  }

  lemma {:induction false} BoxSize(f: Frame, y0: nat, y1: nat, x0: nat, x1: nat)
    requires Shaped(f) && y0 <= y1 <= f.h && x0 <= x1 <= f.w
    ensures |Box(y0, y1, x0, x1)| == (y1 - y0) * (x1 - x0)
    decreases y1
  {
    if y0 == y1 {
      assert Box(y0, y1, x0, x1) == {};
    } else {
      BoxSize(f, y0, y1 - 1, x0, x1);
      BoxNextRow(f, y0, y1, x0, x1);
      OneMoreRow(y1 - 1 - y0, x1 - x0);
    }
  }

  lemma OneMoreRow(rows: nat, width: nat)
    ensures (rows + 1) * width == rows * width + width
  {}

  lemma WindowIsBox(f: Frame, radius: nat, y: nat, x: nat)
    requires y < f.h && x < f.w
    ensures Window(f, radius, y, x) == Box(Low(y, radius), High(y, radius, f.h), Low(x, radius), High(x, radius, f.w))
  {}

  /** What the mean divides, and by what. */
  lemma WindowSums(f: Frame, radius: nat, y: nat, x: nat) returns (sum: real, n: nat)
    requires Shaped(f) && y < f.h && x < f.w
    ensures var win := Window(f, radius, y, x);
            && n == |win| > 0 && SumOf(f, win) as real == 3.0 * sum && Mean(f, radius, y, x) == sum / n as real
  {
    var y0, y1, x0, x1 := Low(y, radius), High(y, radius, f.h), Low(x, radius), High(x, radius, f.w);
    sum, n := BoxSum(f, y0, y1, x0, x1), Area(y1 - y0, x1 - x0);
    WindowIsBox(f, radius, y, x);
    BoxIsSum(f, y0, y1, x0, x1);
    BoxSize(f, y0, y1, x0, x1);
  }

  /** A mean of third parts: three times it, for each of `n`, is the total. */
  predicate IsMean(mean: real, n: nat, total: nat) {
    n > 0 && 3.0 * mean * n as real == total as real
  }

  lemma Undivided(sum: real, n: nat, mean: real, total: nat)
    requires n > 0 && total as real == 3.0 * sum && mean == sum / n as real
    ensures IsMean(mean, n, total)
  {
    assert mean * n as real == sum;
  }

  /** The mean is that of the bytes of exactly the window's pixels. */
  lemma MeanOfWindow(f: Frame, radius: nat, y: nat, x: nat)
    requires Shaped(f) && y < f.h && x < f.w
    ensures var win := Window(f, radius, y, x); IsMean(Mean(f, radius, y, x), |win|, SumOf(f, win))
  {
    var sum, n := WindowSums(f, radius, y, x);
    Undivided(sum, n, Mean(f, radius, y, x), SumOf(f, Window(f, radius, y, x)));
  }

  /** Does a total of bytes exceed that of `n` pixels like this one by more than three times
      `drop` for each? */
  predicate Exceeds(total: nat, n: nat, own: nat, drop: real) {
    total as real - n as real * own as real > 3.0 * drop * n as real
  }

  /** What dark means, in the frame's bytes: the total of the window exceeds that of as many
      pixels like this one, by more than three times `drop` for each. */
  lemma DarkMeans(f: Frame, drop: real, radius: nat, y: nat, x: nat)
    requires Shaped(f) && y < f.h && x < f.w
    ensures var win := Window(f, radius, y, x);
            IsDark(f, drop, radius, y, x) <==> Exceeds(SumOf(f, win), |win|, BytesOf(f, (y, x)), drop)
  {
    var win := Window(f, radius, y, x);
    MeanOfWindow(f, radius, y, x);
    GrayIsThird(f, y, x);
    Scaled(Mean(f, radius, y, x), Gray(f, y, x), drop, |win|, SumOf(f, win), BytesOf(f, (y, x)));
  }

  lemma Scaled(mean: real, gray: real, drop: real, n: nat, total: nat, own: nat)
    requires IsMean(mean, n, total) && 3.0 * gray == own as real
    ensures mean - gray > drop <==> Exceeds(total, n, own, drop)
  {
    var d, k := mean - gray - drop, n as real;
    assert total as real - k * own as real - 3.0 * drop * k == 3.0 * k * d;
    assert d > 0.0 <==> 3.0 * k * d > 0.0;
  }

  // ------------------------------------------------------------ components

  predicate Adjacent(p: Pixel, q: Pixel) {
    || (p.0 == q.0 && (p.1 == q.1 + 1 || q.1 == p.1 + 1))
    || (p.1 == q.1 && (p.0 == q.0 + 1 || q.0 == p.0 + 1))
  }

  /** A walk inside `d`, each step to one of the four neighbours. */
  predicate Walk(d: set<Pixel>, path: seq<Pixel>) {
    && path != []
    && (forall i :: 0 <= i < |path| ==> path[i] in d)
    && (forall i :: 0 <= i < |path| - 1 ==> Adjacent(path[i], path[i + 1]))
  }

  ghost predicate Connected(d: set<Pixel>, p: Pixel, q: Pixel) {
    exists path :: Walk(d, path) && path[0] == p && path[|path| - 1] == q
  }

  /** The maximal 4-connected part of `d` around `p`. */
  ghost function Component(d: set<Pixel>, p: Pixel): set<Pixel> {
    set q | q in d && Connected(d, p, q)
  }

  /** No step inside `d` leads out of `c`. */
  predicate ClosedIn(d: set<Pixel>, c: set<Pixel>) {
    forall p, q :: p in c && q in d && Adjacent(p, q) ==> q in c
  }

  lemma {:induction false} WalkStays(d: set<Pixel>, c: set<Pixel>, path: seq<Pixel>)
    requires Walk(d, path) && ClosedIn(d, c) && path[0] in c
    ensures path[|path| - 1] in c
  {
    if |path| > 1 {
      assert Adjacent(path[0], path[1]);
      WalkStays(d, c, path[1..]);
    }
  }

  lemma ConnectedToItself(d: set<Pixel>, p: Pixel)
    requires p in d
    ensures Connected(d, p, p)
  {
    assert Walk(d, [p]);
  }

  lemma ConnectedOn(d: set<Pixel>, p: Pixel, q: Pixel, r: Pixel)
    requires Connected(d, p, q) && r in d && Adjacent(q, r)
    ensures Connected(d, p, r)
  {
    var path :| Walk(d, path) && path[0] == p && path[|path| - 1] == q;
    assert Walk(d, path + [r]);
  }

  lemma ComponentCloses(d: set<Pixel>, p: Pixel)
    ensures ClosedIn(d, Component(d, p))
  {
    forall q, r | q in Component(d, p) && r in d && Adjacent(q, r)
      ensures r in Component(d, p)
    {
      ConnectedOn(d, p, q, r);
    }
  }

  /** A closed set that contains a pixel contains its component. */
  lemma ComponentWithin(d: set<Pixel>, c: set<Pixel>, p: Pixel)
    requires ClosedIn(d, c) && p in c
    ensures Component(d, p) <= c
  {
    forall q | q in Component(d, p)
      ensures q in c
    {
      var path :| Walk(d, path) && path[0] == p && path[|path| - 1] == q;
      WalkStays(d, c, path);
    }
  }

  /** Every pixel of a component has that component. */
  lemma ComponentShared(d: set<Pixel>, p: Pixel, q: Pixel)
    requires p in d && q in Component(d, p)
    ensures Component(d, q) == Component(d, p)
  {
    ComponentCloses(d, p);
    ComponentCloses(d, q);
    ComponentWithin(d, Component(d, p), q);
    ConnectedToItself(d, q);
    if p !in Component(d, q) {
      ComponentWithin(d, d - Component(d, q), p);
    } else {
      ComponentWithin(d, Component(d, q), p);
    }
  }

  // ------------------------------------------------------------ the flood fill

  ghost function TrueAt(a: array2<bool>): set<Pixel>
    reads a
  {
    set y, x | 0 <= y < a.Length0 && 0 <= x < a.Length1 && a[y, x] :: (y, x)
  }

  lemma TrueAtMeans(a: array2<bool>, p: Pixel)
    ensures p in TrueAt(a) <==> 0 <= p.0 < a.Length0 && 0 <= p.1 < a.Length1 && a[p.0, p.1]
  {}

  predicate NoRepeats(s: seq<Pixel>) {
    forall i, j :: 0 <= i < j < |s| ==> s[i] != s[j]
  }

  function SetOf(s: seq<Pixel>): set<Pixel> {
    set p | p in s
  }

  /** The four neighbours in the order they are tried. */
  function Neighbour(p: Pixel, k: nat): Pixel
    requires k < 4
  {
    if k == 0 then (p.0 + 1, p.1)
    else if k == 1 then (p.0 - 1, p.1)
    else if k == 2 then (p.0, p.1 + 1)
    else (p.0, p.1 - 1)
  }

  function Direction(p: Pixel, q: Pixel): (k: nat)
    requires Adjacent(p, q)
    ensures k < 4 && q == Neighbour(p, k)
  {
    if q.0 == p.0 + 1 then 0 else if q.0 == p.0 - 1 then 1 else if q.1 == p.1 + 1 then 2 else 3
  }

  /** In the middle of a fill from `start`: what has been seen is what earlier fills saw and
      the pixels popped and pushed, each once; all of those are connected to the start; and
      a popped pixel has no unseen dark neighbour, except that only the first `k` of the
      last one have been tried. */
  ghost predicate Filling(d: set<Pixel>, before: set<Pixel>, now: set<Pixel>, start: Pixel,
                          pix: seq<Pixel>, stack: seq<Pixel>, k: nat)
  {
    && NoRepeats(pix) && NoRepeats(stack) && SetOf(pix) !! SetOf(stack)
    && now == before + SetOf(pix) + SetOf(stack)
    && (start in pix || start in stack)
    && (forall p :: p in pix || p in stack ==> p in d && p !in before && Connected(d, start, p))
    && (forall p, q :: p in pix && q in d && Adjacent(p, q) ==>
          q in now || (p == pix[|pix| - 1] && Direction(p, q) >= k))
  }

  lemma FillStarts(d: set<Pixel>, before: set<Pixel>, start: Pixel)
    requires start in d && start !in before
    ensures Filling(d, before, before + {start}, start, [], [start], 4)
  {
    ConnectedToItself(d, start);
    assert SetOf([start]) == {start};
  }

  /** Pop. */
  lemma FillPops(d: set<Pixel>, before: set<Pixel>, now: set<Pixel>, start: Pixel,
                 pix: seq<Pixel>, stack: seq<Pixel>)
    requires Filling(d, before, now, start, pix, stack, 4) && stack != []
    ensures var n := |stack| - 1;
            Filling(d, before, now, start, pix + [stack[n]], stack[..n], 0) && stack[n] !in pix
  {
    var n := |stack| - 1;
    PopMoves(pix, stack);
    assert stack[n] in stack && stack[n] !in SetOf(pix);
  }

  lemma PopMoves(pix: seq<Pixel>, stack: seq<Pixel>)
    requires stack != [] && NoRepeats(stack)
    ensures var n := |stack| - 1;
            && stack == stack[..n] + [stack[n]] && stack[n] !in stack[..n]
            && SetOf(pix + [stack[n]]) == SetOf(pix) + {stack[n]}
            && SetOf(stack) == SetOf(stack[..n]) + {stack[n]}
  {
    var n := |stack| - 1;
    assert stack == stack[..n] + [stack[n]];
  }

  /** Try one neighbour, and push it if it is dark and unseen. */
  lemma FillTries(d: set<Pixel>, before: set<Pixel>, now: set<Pixel>, start: Pixel,
                  pix: seq<Pixel>, stack: seq<Pixel>, k: nat)
    requires Filling(d, before, now, start, pix, stack, k) && pix != [] && k < 4
    ensures var q := Neighbour(pix[|pix| - 1], k);
            if q in d && q !in now
            then Filling(d, before, now + {q}, start, pix, stack + [q], k + 1)
            else Filling(d, before, now, start, pix, stack, k + 1)
  {
    var p := pix[|pix| - 1];
    var q := Neighbour(p, k);
    if q in d && q !in now {
      assert p in pix && Connected(d, start, p) && Adjacent(p, q);
      ConnectedOn(d, start, p, q);
      assert SetOf(stack + [q]) == SetOf(stack) + {q};
      assert q !in SetOf(pix) && q !in SetOf(stack);
    }
  }

  /** When the stack is empty the popped pixels are the whole component of the start. */
  lemma FillComplete(d: set<Pixel>, before: set<Pixel>, now: set<Pixel>, start: Pixel, pix: seq<Pixel>)
    requires ClosedIn(d, before) && Filling(d, before, now, start, pix, [], 4)
    ensures SetOf(pix) == Component(d, start) && |pix| == |Component(d, start)|
    ensures now == before + Component(d, start) && ClosedIn(d, now)
  {
    var c := SetOf(pix);
    forall p, q | p in c && q in d && Adjacent(p, q)
      ensures q in c
    {
      assert q in now;
      assert Adjacent(q, p);
    }
    ComponentWithin(d, c, start);
    CountOnce(pix);
  }

  /** One fill. Everything an earlier fill has seen is left alone. */
  method FloodFill(dark: array2<bool>, seen: array2<bool>, y: nat, x: nat) returns (pix: seq<Pixel>)
    requires dark != seen && dark.Length0 == seen.Length0 && dark.Length1 == seen.Length1
    requires y < dark.Length0 && x < dark.Length1 && dark[y, x] && !seen[y, x]
    requires ClosedIn(TrueAt(dark), TrueAt(seen))
    modifies seen
    ensures SetOf(pix) == Component(TrueAt(dark), (y, x)) && |pix| == |Component(TrueAt(dark), (y, x))|
    ensures TrueAt(seen) == old(TrueAt(seen)) + Component(TrueAt(dark), (y, x))
    ensures ClosedIn(TrueAt(dark), TrueAt(seen))
  {
    ghost var d, before := TrueAt(dark), TrueAt(seen);
    pix := [];
    var stack := [(y, x)];
    seen[y, x] := true;
    assert TrueAt(seen) == before + {(y, x)};
    FillStarts(d, before, (y, x));
    while stack != []
      invariant d == TrueAt(dark)
      invariant Filling(d, before, TrueAt(seen), (y, x), pix, stack, 4)
      decreases d - SetOf(pix)
    {
      FillPops(d, before, TrueAt(seen), (y, x), pix, stack);
      var p := stack[|stack| - 1];
      stack := stack[..|stack| - 1];
      ghost var popped := pix;
      pix := pix + [p];
      assert SetOf(pix) == SetOf(popped) + {p};
      for k := 0 to 4
        invariant d == TrueAt(dark)
        invariant Filling(d, before, TrueAt(seen), (y, x), pix, stack, k)
      {
        var q := Neighbour(p, k);
        FillTries(d, before, TrueAt(seen), (y, x), pix, stack, k);
        if 0 <= q.0 < dark.Length0 && 0 <= q.1 < dark.Length1 && dark[q.0, q.1] && !seen[q.0, q.1] {
          ghost var now := TrueAt(seen);
          seen[q.0, q.1] := true;
          assert TrueAt(seen) == now + {q};
          stack := stack + [q];
        }
      }
    }
    FillComplete(d, before, TrueAt(seen), (y, x), pix);
  }

  lemma {:induction false} CountOnce(s: seq<Pixel>)
    requires NoRepeats(s)
    ensures |SetOf(s)| == |s|
  {
    if s != [] {
      var k := |s| - 1;
      CountOnce(s[..k]);
      assert s == s[..k] + [s[k]];
      assert SetOf(s) == SetOf(s[..k]) + {s[k]};
      assert s[k] !in s[..k];
    }
  }

  // ------------------------------------------------------------ all of it

  /** One pixel of each component found so far: the components are disjoint, and together
      they are exactly what has been seen. */
  ghost predicate Tiled(d: set<Pixel>, now: set<Pixel>, starts: seq<Pixel>) {
    && (forall i :: 0 <= i < |starts| ==> starts[i] in d && ComponentInside(d, starts[i], now))
    && (forall i, j :: 0 <= i < j < |starts| ==> ComponentsApart(d, starts[i], starts[j]))
    && (forall p :: p in now ==> Owned(d, starts, p))
  }

  ghost predicate ComponentInside(d: set<Pixel>, p: Pixel, c: set<Pixel>) {
    Component(d, p) <= c
  }

  ghost predicate ComponentsApart(d: set<Pixel>, p: Pixel, q: Pixel) {
    Component(d, p) !! Component(d, q)
  }

  ghost predicate Owned(d: set<Pixel>, starts: seq<Pixel>, p: Pixel) {
    exists i :: 0 <= i < |starts| && p in Component(d, starts[i])
  }

  lemma OwnedLater(d: set<Pixel>, starts: seq<Pixel>, p: Pixel, start: Pixel)
    requires Owned(d, starts, p) || p in Component(d, start)
    ensures Owned(d, starts + [start], p)
  {
    var longer := starts + [start];
    if Owned(d, starts, p) {
      var i :| 0 <= i < |starts| && p in Component(d, starts[i]);
      assert longer[i] == starts[i];
    } else {
      assert longer[|starts|] == start;
    }
  }

  lemma NewComponent(d: set<Pixel>, now: set<Pixel>, p: Pixel, start: Pixel)
    requires ComponentInside(d, p, now) && ClosedIn(d, now) && start in d && start !in now
    ensures ComponentsApart(d, p, start) && ComponentInside(d, p, now + Component(d, start))
  {
    ComponentWithin(d, d - now, start);
  }

  lemma TiledNext(d: set<Pixel>, now: set<Pixel>, starts: seq<Pixel>, start: Pixel)
    requires Tiled(d, now, starts) && ClosedIn(d, now) && start in d && start !in now
    ensures Tiled(d, now + Component(d, start), starts + [start])
  {
    var longer, after := starts + [start], now + Component(d, start);
    forall p | p in after
      ensures Owned(d, longer, p)
    {
      OwnedLater(d, starts, p, start);
    }
    forall i | 0 <= i < |longer|
      ensures ComponentInside(d, longer[i], after)
      ensures i < |starts| ==> ComponentsApart(d, longer[i], start)
    {
      if i < |starts| {
        NewComponent(d, now, starts[i], start);
      }
    }
  }

  ghost predicate SameComponent(d: set<Pixel>, p: Pixel, q: Pixel) {
    Component(d, p) == Component(d, q)
  }

  /** `starts` has exactly one pixel of each component of `d`. */
  ghost predicate OnePerComponent(d: set<Pixel>, starts: seq<Pixel>) {
    && (forall i :: 0 <= i < |starts| ==> starts[i] in d)
    && (forall i, j :: 0 <= i < j < |starts| ==> !SameComponent(d, starts[i], starts[j]))
    && (forall p :: p in d ==> exists i :: 0 <= i < |starts| && SameComponent(d, starts[i], p))
  }

  lemma DisjointDiffer(d: set<Pixel>, p: Pixel, q: Pixel)
    requires p in d && ComponentsApart(d, p, q)
    ensures !SameComponent(d, p, q)
  {
    ConnectedToItself(d, p);
    assert p in Component(d, p);
  }

  lemma OwnerShares(d: set<Pixel>, starts: seq<Pixel>, p: Pixel) returns (i: nat)
    requires Owned(d, starts, p) && forall k :: 0 <= k < |starts| ==> starts[k] in d
    ensures i < |starts| && SameComponent(d, starts[i], p)
  {
    i :| 0 <= i < |starts| && p in Component(d, starts[i]);
    ComponentShared(d, starts[i], p);
  }

  /** When everything dark has been seen, the components found are all there are. */
  lemma TiledAll(d: set<Pixel>, starts: seq<Pixel>)
    requires Tiled(d, d, starts)
    ensures OnePerComponent(d, starts)
  {
    forall p | p in d
      ensures exists i :: 0 <= i < |starts| && SameComponent(d, starts[i], p)
    {
      var i := OwnerShares(d, starts, p);
    }
    forall i, j | 0 <= i < j < |starts|
      ensures !SameComponent(d, starts[i], starts[j])
    {
      DisjointDiffer(d, starts[i], starts[j]);
    }
  }

  /** The sizes of the components that are small enough, in order. */
  ghost function SmallSizes(d: set<Pixel>, starts: seq<Pixel>, maxpix: nat): seq<nat> {
    if starts == [] then []
    else
      var k := |starts| - 1;
      var size := |Component(d, starts[k])|;
      SmallSizes(d, starts[..k], maxpix) + if size <= maxpix then [size] else []
  }

  /** The pixels that are dark against their background. */
  ghost function DarkSet(f: Frame, drop: real, radius: nat): set<Pixel>
    requires Shaped(f)
  {
    set y, x | 0 <= y < f.h && 0 <= x < f.w && IsDark(f, drop, radius, y, x) :: (y, x)
  }

  /** Has everything dark before row `y`, column `x` been seen? */
  ghost predicate SeenUpTo(d: set<Pixel>, now: set<Pixel>, y: nat, x: nat) {
    forall p: Pixel :: p in d && (p.0 < y || (p.0 == y && p.1 < x)) ==> p in now
  }

  /** Between two fills. */
  ghost predicate Scanned(d: set<Pixel>, now: set<Pixel>, starts: seq<Pixel>,
                          blobs: seq<nat>, maxpix: nat, y: nat, x: nat)
  {
    && ClosedIn(d, now) && now <= d && Tiled(d, now, starts) && SeenUpTo(d, now, y, x)
    && blobs == SmallSizes(d, starts, maxpix)
  }

  lemma ScannedSkip(d: set<Pixel>, now: set<Pixel>, starts: seq<Pixel>, blobs: seq<nat>, maxpix: nat, y: nat, x: nat)
    requires Scanned(d, now, starts, blobs, maxpix, y, x) && ((y, x) !in d || (y, x) in now)
    ensures Scanned(d, now, starts, blobs, maxpix, y, x + 1)
  {}

  lemma ScannedFill(d: set<Pixel>, now: set<Pixel>, starts: seq<Pixel>, blobs: seq<nat>, maxpix: nat, y: nat, x: nat)
    requires Scanned(d, now, starts, blobs, maxpix, y, x) && (y, x) in d && (y, x) !in now
    requires ClosedIn(d, now + Component(d, (y, x)))
    ensures var size := |Component(d, (y, x))|;
            Scanned(d, now + Component(d, (y, x)), starts + [(y, x)],
                    if size <= maxpix then blobs + [size] else blobs, maxpix, y, x + 1)
  {
    TiledNext(d, now, starts, (y, x));
    ConnectedToItself(d, (y, x));
    assert (starts + [(y, x)])[..|starts|] == starts;
    assert Component(d, (y, x)) <= d;
  }

  /** One pixel of the scan: filled from if it is dark and unseen. */
  method ScanPixel(dark: array2<bool>, seen: array2<bool>, y: nat, x: nat, maxpix: nat,
                   blobs: seq<nat>, ghost starts: seq<Pixel>)
    returns (blobs': seq<nat>, ghost starts': seq<Pixel>)
    requires dark != seen && dark.Length0 == seen.Length0 && dark.Length1 == seen.Length1
    requires y < dark.Length0 && x < dark.Length1
    requires Scanned(TrueAt(dark), TrueAt(seen), starts, blobs, maxpix, y, x)
    modifies seen
    ensures Scanned(TrueAt(dark), TrueAt(seen), starts', blobs', maxpix, y, x + 1)
  {
    ghost var d, now, p := TrueAt(dark), TrueAt(seen), (y, x);
    TrueAtMeans(dark, p);
    TrueAtMeans(seen, p);
    blobs', starts' := blobs, starts;
    if dark[y, x] && !seen[y, x] {
      var pix := FloodFill(dark, seen, y, x);
      ScannedFill(d, now, starts, blobs, maxpix, y, x);
      starts' := starts + [p];
      if |pix| <= maxpix {
        blobs' := blobs + [|pix|];
      }
    } else {
      ScannedSkip(d, now, starts, blobs, maxpix, y, x);
    }
  }

  /** The sizes, at most `maxpix`, of the maximal 4-connected components of `d`, each
      component once. */
  ghost predicate SizesOfComponents(d: set<Pixel>, maxpix: nat, blobs: seq<nat>) {
    exists starts :: OnePerComponent(d, starts) && blobs == SmallSizes(d, starts, maxpix)
  }

  /** The raster scan. */
  method ScanAll(dark: array2<bool>, maxpix: nat) returns (blobs: seq<nat>)
    ensures SizesOfComponents(TrueAt(dark), maxpix, blobs)
  {
    ghost var d := TrueAt(dark);
    ghost var starts: seq<Pixel> := [];
    var seen := new bool[dark.Length0, dark.Length1]((y, x) => false);
    blobs := [];
    assert TrueAt(seen) == {};
    for y := 0 to dark.Length0
      invariant d == TrueAt(dark) && Scanned(d, TrueAt(seen), starts, blobs, maxpix, y, 0)
    {
      for x := 0 to dark.Length1
        invariant d == TrueAt(dark) && Scanned(d, TrueAt(seen), starts, blobs, maxpix, y, x)
      {
        blobs, starts := ScanPixel(dark, seen, y, x, maxpix, blobs, starts);
      }
      NextRow(dark, TrueAt(seen), starts, blobs, maxpix, y);
    }
    assert TrueAt(seen) == d;
    TiledAll(d, starts);
  }

  lemma NextRow(dark: array2<bool>, now: set<Pixel>, starts: seq<Pixel>, blobs: seq<nat>, maxpix: nat, y: nat)
    requires Scanned(TrueAt(dark), now, starts, blobs, maxpix, y, dark.Length1)
    ensures Scanned(TrueAt(dark), now, starts, blobs, maxpix, y + 1, 0)
  {}

  /** `dark_specks`. */
  method FindSpecks(f: Frame, drop: real, radius: nat, maxpix: nat) returns (blobs: seq<nat>)
    requires Shaped(f)
    ensures SizesOfComponents(DarkSet(f, drop, radius), maxpix, blobs)
  {
    var dark := DarkPixels(f, drop, radius);
    DarkSetIs(f, drop, radius, dark);
    blobs := ScanAll(dark, maxpix);
  }

  lemma DarkSetIs(f: Frame, drop: real, radius: nat, dark: array2<bool>)
    requires Shaped(f) && dark.Length0 == f.h && dark.Length1 == f.w
    requires forall y, x :: 0 <= y < f.h && 0 <= x < f.w ==> dark[y, x] == IsDark(f, drop, radius, y, x)
    ensures TrueAt(dark) == DarkSet(f, drop, radius)
  {}
}
