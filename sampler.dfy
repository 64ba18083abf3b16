/**
 * The text-to-points sampler of the hero animation.
 *
 * The browser draws the text onto an offscreen canvas and hands back its
 * RGBA pixels; this module starts from those pixels. It scans the alpha
 * channel on a square grid of stride `gap`, row by row and left to right,
 * keeps every grid pixel whose alpha is above 128, and converts each kept
 * pixel to a world point centred on the origin with y pointing up. An image
 * with no kept pixel yields the single point at the origin.
 *
 * The font-size fit that precedes the drawing is modelled here too.
 */
module TextSampler {

  /** One channel value of the canvas's pixel data. */
  newtype byte = x: int | 0 <= x < 256

  /** A sample point in world units. */
  datatype Point = Point(x: real, y: real)

  /** A pixel position on the offscreen canvas. */
  datatype Pixel = Pixel(x: nat, y: nat)

  /** The alpha above which a pixel counts as part of the drawn text. */
  const AlphaThreshold: byte := 128

  /** World units per canvas pixel. */
  const WorldScale: real := 0.5

  /** The point returned when nothing was drawn. */
  const Origin: Point := Point(0.0, 0.0)

  /** The size, in px, written in the source's font string ("900 180px Roboto"). */
  const BaseFontSize: nat := 180

  /** The smallest font size the fit will choose. */
  const MinFontSize: nat := 90

  // ---------------------------------------------------------------------
  // Pixel access
  // ---------------------------------------------------------------------

  /** The canvas hands back exactly four bytes (RGBA) per pixel. */
  predicate IsImage(data: seq<byte>, width: nat, height: nat)
  {
    |data| == width * height * 4
  }

  /** The alpha byte of pixel (x, y) lies inside the image buffer. */
  lemma AlphaIndexInBounds(width: nat, height: nat, x: nat, y: nat)
    requires x < width && y < height
    ensures (y * width + x) * 4 + 3 < width * height * 4
  {
    assert y * width + x < (y + 1) * width;
    assert (y + 1) * width <= height * width by {
      assert y + 1 <= height;
    }
    assert (y * width + x) * 4 + 3 < (y * width + x + 1) * 4;
    assert y * width + x + 1 <= width * height;
  }

  /** The alpha channel of pixel (x, y). */
  function Alpha(data: seq<byte>, width: nat, height: nat, x: nat, y: nat): byte
    requires IsImage(data, width, height) && x < width && y < height
  {
    AlphaIndexInBounds(width, height, x, y);
    data[(y * width + x) * 4 + 3]
  }

  /** A pixel the scan visits: inside the canvas, both coordinates multiples of the stride. */
  predicate OnGrid(p: Pixel, width: nat, height: nat, gap: nat)
    requires gap > 0
  {
    p.x < width && p.y < height && p.x % gap == 0 && p.y % gap == 0
  }

  /** A pixel covered by the drawn text. */
  predicate Lit(data: seq<byte>, width: nat, height: nat, p: Pixel)
    requires IsImage(data, width, height) && p.x < width && p.y < height
  {
    Alpha(data, width, height, p.x, p.y) > AlphaThreshold
  }

  /** The order in which the scan visits pixels: row by row, left to right within a row. */
  predicate ScannedBefore(p: Pixel, q: Pixel)
  {
    p.y < q.y || (p.y == q.y && p.x < q.x)
  }

  predicate RowMajor(s: seq<Pixel>)
  {
    forall i, j :: 0 <= i < j < |s| ==> ScannedBefore(s[i], s[j])
  }

  // ---------------------------------------------------------------------
  // The scan, as functions
  // ---------------------------------------------------------------------

  /** The lit grid pixels of row y, from column x to the right edge. */
  function KeptInRow(data: seq<byte>, width: nat, height: nat, gap: nat, y: nat, x: nat): seq<Pixel>
    requires IsImage(data, width, height) && gap > 0 && y < height
    decreases width - x
  {
    if x >= width then []
    else
      (if Lit(data, width, height, Pixel(x, y)) then [Pixel(x, y)] else [])
      + KeptInRow(data, width, height, gap, y, x + gap)
  }

  /** The lit grid pixels of the rows from y to the bottom edge. */
  function KeptFrom(data: seq<byte>, width: nat, height: nat, gap: nat, y: nat): seq<Pixel>
    requires IsImage(data, width, height) && gap > 0
    decreases height - y
  {
    if y >= height then []
    else KeptInRow(data, width, height, gap, y, 0) + KeptFrom(data, width, height, gap, y + gap)
  }

  /** Every lit grid pixel of the image, in scan order. */
  function Kept(data: seq<byte>, width: nat, height: nat, gap: nat): seq<Pixel>
    requires IsImage(data, width, height) && gap > 0
  {
    KeptFrom(data, width, height, gap, 0)
  }

  /**
   * Canvas pixel to world point: x is centred on the canvas's middle column,
   * y is flipped so that it grows upwards, and both are scaled by WorldScale.
   * The canvas's middle is width/2, a half pixel when width is odd.
   */
  function ToWorld(p: Pixel, width: nat, height: nat): (w: Point)
    ensures (p.x as real) == w.x / WorldScale + width as real / 2.0
    ensures (p.y as real) == height as real / 2.0 - w.y / WorldScale
  {
    Point((p.x as real - width as real / 2.0) * WorldScale,
          (height as real / 2.0 - p.y as real) * WorldScale)
  }

  /** Different pixels of one canvas give different world points. */
  lemma ToWorldInjective(p: Pixel, q: Pixel, width: nat, height: nat)
    requires ToWorld(p, width, height) == ToWorld(q, width, height)
    ensures p == q
  {
    assert p.x as real == q.x as real;
    assert p.y as real == q.y as real;
  }

  function ToWorldAll(ps: seq<Pixel>, width: nat, height: nat): (r: seq<Point>)
    ensures |r| == |ps|
  {
    seq(|ps|, i requires 0 <= i < |ps| => ToWorld(ps[i], width, height))
  }

  /**
   * What the sampler returns: the world points of the lit grid pixels in scan
   * order, or the origin alone when there is none.
   */
  function Sampled(data: seq<byte>, width: nat, height: nat, gap: nat): (r: seq<Point>)
    requires IsImage(data, width, height) && gap > 0
    ensures |r| >= 1
  {
    var kept := Kept(data, width, height, gap);
    if kept == [] then [Origin] else ToWorldAll(kept, width, height)
  }

  // ---------------------------------------------------------------------
  // The scan, as the source runs it
  // ---------------------------------------------------------------------

  /** The outcome of an operation that can fail. */
  datatype Option<T> = None | Some(value: T)

  /**
   * The drawing and read-back of the offscreen canvas, followed by the scan.
   * Reading the pixels back from a canvas with a zero side throws (an
   * IndexSizeError in the browser); that outcome is None.
   */
  method SampleTextToPoints(data: seq<byte>, width: nat, height: nat, gap: nat)
    returns (result: Option<seq<Point>>)
    requires IsImage(data, width, height) && gap > 0
    ensures result.None? <==> width == 0 || height == 0
    ensures result.Some? ==> result.value == Sampled(data, width, height, gap)
  {
    if width == 0 || height == 0 {
      return None;
    }
    var points := ScanAlpha(data, width, height, gap);
    result := Some(points);
  }

  /**
   * The nested grid loops: y steps down by gap, x steps right by gap, and each
   * grid pixel with alpha above the threshold is appended as a world point.
   * Both loops terminate because gap is positive.
   */
  method ScanAlpha(data: seq<byte>, width: nat, height: nat, gap: nat) returns (points: seq<Point>)
    requires IsImage(data, width, height) && gap > 0
    ensures points == Sampled(data, width, height, gap)
  {
    points := [];
    ghost var kept: seq<Pixel> := [];
    ghost var all := Kept(data, width, height, gap);
    var y := 0;
    while y < height
      invariant kept + KeptFrom(data, width, height, gap, y) == all
      invariant points == ToWorldAll(kept, width, height)
      decreases height - y
    {
      ghost var row := KeptInRow(data, width, height, gap, y, 0);
      ghost var rows := KeptFrom(data, width, height, gap, y + gap);
      points := ScanRow(data, width, height, gap, y, points);
      ToWorldAllConcat(kept, row, width, height);
      Assoc(kept, row, rows);
      kept := kept + row;
      y := y + gap;
    }
    if |points| == 0 {
      points := [Origin];
    }
  }

  /** The inner loop over row y: each lit grid pixel of the row is appended as a world point. */
  method ScanRow(data: seq<byte>, width: nat, height: nat, gap: nat, y: nat, points: seq<Point>)
    returns (out: seq<Point>)
    requires IsImage(data, width, height) && gap > 0 && y < height
    ensures out == points + ToWorldAll(KeptInRow(data, width, height, gap, y, 0), width, height)
  {
    out := points;
    ghost var done: seq<Pixel> := [];
    ghost var row := KeptInRow(data, width, height, gap, y, 0);
    ghost var rest := row;
    var x := 0;
    while x < width
      invariant rest == KeptInRow(data, width, height, gap, y, x)
      invariant done + rest == row
      invariant out == points + ToWorldAll(done, width, height)
      decreases width - x
    {
      ScanStep(data, width, height, gap, x, y);
      var idx := (y * width + x) * 4 + 3;
      ghost var next := KeptInRow(data, width, height, gap, y, x + gap);
      if data[idx] > AlphaThreshold {
        var w := ToWorld(Pixel(x, y), width, height);
        ToWorldAllSnoc(done, Pixel(x, y), width, height);
        Assoc(points, ToWorldAll(done, width, height), [w]);
        out := out + [w];
        Assoc(done, [Pixel(x, y)], next);
        done := done + [Pixel(x, y)];
      }
      rest := next;
      x := x + gap;
    }
    assert done == row;
  }

  /** One visit of the scan: the alpha index is in range and decides whether (x, y) is kept. */
  lemma ScanStep(data: seq<byte>, width: nat, height: nat, gap: nat, x: nat, y: nat)
    requires IsImage(data, width, height) && gap > 0 && x < width && y < height
    ensures (y * width + x) * 4 + 3 < |data|
    ensures data[(y * width + x) * 4 + 3] > AlphaThreshold ==>
      KeptInRow(data, width, height, gap, y, x) == [Pixel(x, y)] + KeptInRow(data, width, height, gap, y, x + gap)
    ensures data[(y * width + x) * 4 + 3] <= AlphaThreshold ==>
      KeptInRow(data, width, height, gap, y, x) == KeptInRow(data, width, height, gap, y, x + gap)
  {
    AlphaIndexInBounds(width, height, x, y);
    var rest := KeptInRow(data, width, height, gap, y, x + gap);
    assert [] + rest == rest;
  }

  /** Regrouping the pieces of the scan; stated apart so the loops' proofs do not redo it. */
  lemma Assoc<T>(a: seq<T>, b: seq<T>, c: seq<T>)
    ensures a + (b + c) == (a + b) + c
  {
  }

  lemma ToWorldAllConcat(ps: seq<Pixel>, qs: seq<Pixel>, width: nat, height: nat)
    ensures ToWorldAll(ps + qs, width, height) == ToWorldAll(ps, width, height) + ToWorldAll(qs, width, height)
  {
    var l, r := ToWorldAll(ps + qs, width, height), ToWorldAll(ps, width, height) + ToWorldAll(qs, width, height);
    assert |l| == |r|;
    forall i | 0 <= i < |l| ensures l[i] == r[i] {
      if i < |ps| {
        assert (ps + qs)[i] == ps[i];
      } else {
        assert (ps + qs)[i] == qs[i - |ps|];
      }
    }
  }

  lemma ToWorldAllSnoc(ps: seq<Pixel>, p: Pixel, width: nat, height: nat)
    ensures ToWorldAll(ps + [p], width, height) == ToWorldAll(ps, width, height) + [ToWorld(p, width, height)]
  {
    var l, r := ToWorldAll(ps + [p], width, height), ToWorldAll(ps, width, height) + [ToWorld(p, width, height)];
    assert |l| == |r|;
    forall i | 0 <= i < |l| ensures l[i] == r[i] {
      if i < |ps| {
        assert (ps + [p])[i] == ps[i];
      }
    }
  }

  // ---------------------------------------------------------------------
  // What the scan finds
  // ---------------------------------------------------------------------

  /** Two multiples of gap, the first below the second, are at least gap apart. */
  lemma NextMultiple(a: nat, b: nat, gap: nat)
    requires gap > 0 && a % gap == 0 && b % gap == 0 && a < b
    ensures a + gap <= b
  {
    var qa, qb := a / gap, b / gap;
    assert a == gap * qa;
    assert b == gap * qb;
    if qb <= qa {
      MulMono(gap, qb, qa);
    }
    MulMono(gap, qa + 1, qb);
  }

  /** Stepping a multiple of gap by gap gives a multiple of gap. */
  lemma ModStep(x: nat, gap: nat)
    requires gap > 0 && x % gap == 0
    ensures (x + gap) % gap == 0
  {
    var q := x / gap;
    assert x == gap * q;
    assert x + gap == gap * (q + 1) + 0;
    DivUnique(x + gap, gap, q + 1, 0);
  }

  lemma DivUnique(x: int, g: int, q: int, r: int)
    requires g > 0 && 0 <= r < g && x == g * q + r
    ensures x / g == q && x % g == r
  {
    var d := q - x / g;
    assert g * d == x % g - r;
    if d >= 1 {
      MulMono(g, 1, d);
    } else if d <= -1 {
      MulMono(g, d, -1);
    }
  }

  lemma MulMono(g: nat, m: int, n: int)
    requires m <= n
    ensures g * m <= g * n
  {
    assert g * n - g * m == g * (n - m);
  }

  lemma {:induction false} InRowIff(data: seq<byte>, width: nat, height: nat, gap: nat, y: nat, x: nat, p: Pixel)
    requires IsImage(data, width, height) && gap > 0 && y < height && x % gap == 0
    ensures p in KeptInRow(data, width, height, gap, y, x) <==>
      p.y == y && x <= p.x < width && p.x % gap == 0 && Lit(data, width, height, p)
    decreases width - x
  {
    if x < width {
      ModStep(x, gap);
      InRowIff(data, width, height, gap, y, x + gap, p);
      if x < p.x && p.x % gap == 0 {
        NextMultiple(x, p.x, gap);
      }
    }
  }

  lemma {:induction false} RowSorted(data: seq<byte>, width: nat, height: nat, gap: nat, y: nat, x: nat)
    requires IsImage(data, width, height) && gap > 0 && y < height && x % gap == 0
    ensures RowMajor(KeptInRow(data, width, height, gap, y, x))
    decreases width - x
  {
    if x < width {
      var here := if Lit(data, width, height, Pixel(x, y)) then [Pixel(x, y)] else [];
      var rest := KeptInRow(data, width, height, gap, y, x + gap);
      ModStep(x, gap);
      RowSorted(data, width, height, gap, y, x + gap);
      forall p, q | p in here && q in rest ensures ScannedBefore(p, q) {
        InRowIff(data, width, height, gap, y, x + gap, q);
      }
      RowMajorConcat(here, rest);
    }
  }

  lemma {:induction false} FromIff(data: seq<byte>, width: nat, height: nat, gap: nat, y: nat, p: Pixel)
    requires IsImage(data, width, height) && gap > 0 && y % gap == 0
    ensures p in KeptFrom(data, width, height, gap, y) <==>
      y <= p.y && OnGrid(p, width, height, gap) && Lit(data, width, height, p)
    decreases height - y
  {
    if y < height {
      ModStep(y, gap);
      InRowIff(data, width, height, gap, y, 0, p);
      FromIff(data, width, height, gap, y + gap, p);
      if y < p.y && p.y % gap == 0 {
        NextMultiple(y, p.y, gap);
      }
    }
  }

  lemma {:induction false} FromSorted(data: seq<byte>, width: nat, height: nat, gap: nat, y: nat)
    requires IsImage(data, width, height) && gap > 0 && y % gap == 0
    ensures RowMajor(KeptFrom(data, width, height, gap, y))
    decreases height - y
  {
    if y < height {
      var row := KeptInRow(data, width, height, gap, y, 0);
      var rest := KeptFrom(data, width, height, gap, y + gap);
      ModStep(y, gap);
      RowSorted(data, width, height, gap, y, 0);
      FromSorted(data, width, height, gap, y + gap);
      forall p, q | p in row && q in rest ensures ScannedBefore(p, q) {
        InRowIff(data, width, height, gap, y, 0, p);
        FromIff(data, width, height, gap, y + gap, q);
      }
      RowMajorConcat(row, rest);
    }
  }

  lemma RowMajorConcat(a: seq<Pixel>, b: seq<Pixel>)
    requires RowMajor(a) && RowMajor(b)
    requires forall p, q :: p in a && q in b ==> ScannedBefore(p, q)
    ensures RowMajor(a + b)
  {
    var s := a + b;
    forall i, j | 0 <= i < j < |s|
      ensures ScannedBefore(s[i], s[j])
    {
      if j < |a| {
        assert s[i] == a[i] && s[j] == a[j];
      } else if i < |a| {
        assert s[i] in a && s[j] in b;
      } else {
        assert s[i] == b[i - |a|] && s[j] == b[j - |a|];
      }
    }
  }

  /**
   * The scan keeps a pixel exactly when it is a grid pixel of the canvas
   * whose alpha exceeds the threshold: none is skipped, none is invented.
   */
  lemma KeptExactly(data: seq<byte>, width: nat, height: nat, gap: nat, p: Pixel)
    requires IsImage(data, width, height) && gap > 0
    ensures p in Kept(data, width, height, gap) <==> OnGrid(p, width, height, gap) && Lit(data, width, height, p)
  {
    FromIff(data, width, height, gap, 0, p);
  }

  /** The kept pixels come in scan order, each once. */
  lemma KeptInScanOrder(data: seq<byte>, width: nat, height: nat, gap: nat)
    requires IsImage(data, width, height) && gap > 0
    ensures RowMajor(Kept(data, width, height, gap))
  {
    FromSorted(data, width, height, gap, 0);
  }

  /**
   * When some grid pixel is lit, the i-th sample is the world point of the
   * i-th lit grid pixel in scan order.
   */
  lemma SampledFromKept(data: seq<byte>, width: nat, height: nat, gap: nat, p: Pixel)
    requires IsImage(data, width, height) && gap > 0
    requires OnGrid(p, width, height, gap) && Lit(data, width, height, p)
    ensures var kept, r := Kept(data, width, height, gap), Sampled(data, width, height, gap);
      |r| == |kept| && forall i :: 0 <= i < |r| ==> r[i] == ToWorld(kept[i], width, height)
    ensures ToWorld(p, width, height) in Sampled(data, width, height, gap)
  {
    KeptExactly(data, width, height, gap, p);
    var kept := Kept(data, width, height, gap);
    var i :| 0 <= i < |kept| && kept[i] == p;
    assert Sampled(data, width, height, gap)[i] == ToWorld(p, width, height);
  }

  /** With no lit grid pixel, the sampler falls back to the origin alone. */
  lemma SampledFallback(data: seq<byte>, width: nat, height: nat, gap: nat)
    requires IsImage(data, width, height) && gap > 0
    requires forall p :: OnGrid(p, width, height, gap) ==> !Lit(data, width, height, p)
    ensures Sampled(data, width, height, gap) == [Origin]
  {
    var kept := Kept(data, width, height, gap);
    if kept != [] {
      KeptExactly(data, width, height, gap, kept[0]);
    }
  }

  // ---------------------------------------------------------------------
  // Font-size fit
  // ---------------------------------------------------------------------

  function Min(a: real, b: real): real { if a <= b then a else b }

  /**
   * The font size the sampler draws with: the base size shrunk by the factor
   * that makes the measured text width fit 90% of the canvas (never grown),
   * rounded down, and never below MinFontSize. `measured` is the width the
   * browser reports for the text at the base size.
   */
  function FitFontSize(baseSize: nat, width: nat, measured: real): (r: nat)
    requires measured > 0.0
    ensures r >= MinFontSize
    ensures baseSize >= MinFontSize ==> r <= baseSize
    ensures baseSize as real * Min(1.0, width as real * 0.9 / measured) < r as real + 1.0
    ensures r > MinFontSize ==> r as real <= baseSize as real * Min(1.0, width as real * 0.9 / measured)
  {
    var scale := Min(1.0, width as real * 0.9 / measured);
    var x := baseSize as real * scale;
    var scaled := x.Floor;
    assert scaled as real <= x < scaled as real + 1.0;
    assert x <= baseSize as real by {
      assert scale <= 1.0;
      RealMulNonNeg(baseSize as real, 1.0 - scale);
    }
    if scaled < MinFontSize then MinFontSize else scaled
  }

  /** A product of non-negative reals is non-negative (a hint the solver needs for nonlinear terms). */
  lemma RealMulNonNeg(a: real, b: real)
    requires a >= 0.0 && b >= 0.0
    ensures a * b >= 0.0
  {
  }

  /**
   * Above the minimum, the chosen size fits: text that measured `measured` px
   * at baseSize, drawn at the chosen size (text width scaling with the font
   * size), is at most 90% of the canvas width.
   */
  lemma FitFontSizeFits(baseSize: nat, width: nat, measured: real)
    requires measured > 0.0 && baseSize > 0
    requires FitFontSize(baseSize, width, measured) > MinFontSize
    ensures FitFontSize(baseSize, width, measured) as real * measured <= width as real * 0.9 * baseSize as real
  {
    var r := FitFontSize(baseSize, width, measured) as real;
    var b := baseSize as real;
    var q := width as real * 0.9 / measured;
    assert r <= b * Min(1.0, q);
    assert r <= b * q by {
      assert Min(1.0, q) <= q;
      assert b * Min(1.0, q) <= b * q;
    }
    assert q * measured == width as real * 0.9;
    calc {
      r * measured;
    <= { assert measured > 0.0; }
      (b * q) * measured;
    ==
      b * (q * measured);
    ==
      width as real * 0.9 * b;
    }
  }

  /** Text that already fits 90% of the canvas keeps its base size (or the minimum). */
  lemma FitFontSizeNoShrink(baseSize: nat, width: nat, measured: real)
    requires measured > 0.0 && measured <= width as real * 0.9
    ensures FitFontSize(baseSize, width, measured) == if baseSize < MinFontSize then MinFontSize else baseSize
  {
    assert width as real * 0.9 / measured >= 1.0;
  }
}
