/** `renderLabels`: the file-name and resolution labels float above the
    window, horizontally centred on it, 40 and 70 pixels below its top-left
    corner. */
module Labels {
  import opened Geometry

  const FileNameLabelTop: int := 40
  const ResolutionLabelTop: int := 70

  /** C++ integer division by two, which truncates toward zero (Dafny's `/`
      rounds toward negative infinity for negative operands). */
  function HalfTowardZero(n: int): (q: int)
    ensures n >= 0 ==> 0 <= n - 2 * q <= 1
    ensures n < 0 ==> -1 <= n - 2 * q <= 0
  {
    if n >= 0 then n / 2 else -((-n) / 2)
  }

  /** Where `QWidget::move` puts a label `labelWidth` wide, given the
      window's position and width and the label's vertical offset. */
  function LabelPosition(window: Point, windowWidth: int, labelWidth: int, top: int): (p: Point)
    ensures p.y == window.y + top
    ensures var left := p.x - window.x;
      var right := (window.x + windowWidth) - (p.x + labelWidth);
      (labelWidth <= windowWidth ==> 0 <= right - left <= 1) &&
      (labelWidth > windowWidth ==> -1 <= right - left <= 0)
  {
    Point(window.x + HalfTowardZero(windowWidth - labelWidth), window.y + top)
  }

  datatype Layout = Layout(fileName: Point, resolution: Point)

  /** Both labels placed for one frame. */
  function LayoutLabels(window: Point, windowWidth: int, fileNameWidth: int, resolutionWidth: int): (l: Layout)
    ensures l.fileName.y == window.y + FileNameLabelTop
    ensures l.resolution.y == l.fileName.y + 30
    ensures l.fileName == LabelPosition(window, windowWidth, fileNameWidth, FileNameLabelTop)
    ensures l.resolution == LabelPosition(window, windowWidth, resolutionWidth, ResolutionLabelTop)
  {
    Layout(LabelPosition(window, windowWidth, fileNameWidth, FileNameLabelTop),
           LabelPosition(window, windowWidth, resolutionWidth, ResolutionLabelTop))
  }

  /** Labels of equal width share their horizontal position, and a wider
      label never starts to the right of a narrower one. */
  lemma WiderLabelStartsNoLater(window: Point, windowWidth: int, narrow: int, wide: int)
    requires narrow <= wide
    ensures LabelPosition(window, windowWidth, wide, 0).x <= LabelPosition(window, windowWidth, narrow, 0).x
  {
  }
}
