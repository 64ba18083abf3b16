/**
 * The layout parameters the text targets are computed from, derived from the
 * hero element's size each time it is laid out: the offscreen canvas is 90%
 * of the element's width and at least 260 px tall, and the sampling stride
 * grows by one pixel per 260 px of canvas width, never below 3.
 */
module Layout {

  /** The canvas height never goes below this, in px. */
  const MinCanvasHeight: nat := 260

  /** Canvas pixels of width per unit of sampling stride. */
  const WidthPerGap: nat := 260

  /** The sampling stride never goes below this, in px. */
  const MinGap: nat := 3

  /** The offscreen canvas size and the sampling stride. */
  datatype Params = Params(width: nat, height: nat, gap: nat)

  function Max(a: real, b: real): real { if a >= b then a else b }

  /**
   * The canvas size and sampling stride for a hero element of
   * clientWidth x clientHeight px: width is 90% of the element's width
   * rounded down, height is 45% of its height rounded down but at least
   * MinCanvasHeight, and the stride is width / WidthPerGap rounded down but
   * at least MinGap. A stride of at least MinGap keeps the scan's loops
   * finite and bounds the number of columns it visits per row.
   */
  function Layout(clientWidth: nat, clientHeight: nat): (p: Params)
    ensures p.gap >= MinGap && p.height >= MinCanvasHeight
    ensures p.width as real <= clientWidth as real * 0.9 < p.width as real + 1.0
    ensures p.height as real <= Max(MinCanvasHeight as real, clientHeight as real * 0.45) < p.height as real + 1.0
    ensures p.gap > MinGap ==> p.gap * WidthPerGap <= p.width < (p.gap + 1) * WidthPerGap
    ensures p.gap == MinGap ==> p.width < (MinGap + 1) * WidthPerGap
  {
    var w := (clientWidth as real * 0.9).Floor;
    var h := Max(MinCanvasHeight as real, clientHeight as real * 0.45).Floor;
    var g := w / WidthPerGap;
    Params(w, h, if g < MinGap then MinGap else g)
  }

  /**
   * However wide the element, a row of the scan visits at most
   * 2 * WidthPerGap columns: the stride grows with the canvas width.
   */
  lemma ColumnsPerRowBounded(clientWidth: nat, clientHeight: nat)
    ensures var p := Layout(clientWidth, clientHeight);
      (p.width + p.gap - 1) / p.gap <= 2 * WidthPerGap
  {
    var p := Layout(clientWidth, clientHeight);
    var cols := (p.width + p.gap - 1) / p.gap;
    assert cols * p.gap <= p.width + p.gap - 1;
  }
}
