/** Slide geometry of fill_slide (main.py:209-290), in inches. Lengths are
    exact reals: the conversion to integer EMU done by the presentation
    library is not modelled. */
module Geometry {
  import opened Atoms

  const SlideWidthInches: real := 10.0
  const SlideHeightInches: real := 7.5
  const SlideSmallMarginInches: real := 0.25
  const ColumnMarginInches: real := 0.1
  const HeightMarginInches: real := 0.1

  /** The widest and the tallest a picture may be: the slide less a small
      margin on each side. */
  const UsableWidth: real := SlideWidthInches - 2.0 * SlideSmallMarginInches
  const UsableHeight: real := SlideHeightInches - 2.0 * SlideSmallMarginInches

  datatype Size = Size(width: real, height: real)

  /** The size at which a downloaded picture is first inserted. */
  type NativeSize = s: Size | s.width > 0.0 && s.height > 0.0 witness Size(1.0, 1.0)

  datatype Rect = Rect(left: real, top: real, width: real, height: real)

  /** The width of one column when the slide holds n pictures side by side
      (the placeholder counts as one). With no picture at all the formula
      of the source yields the usable width plus one margin. */
  function ColumnWidth(n: nat): real
  {
    var available := UsableWidth - (n as real - 1.0) * ColumnMarginInches;
    if n > 0 then available / n as real else available
  }

  /** The left edge of column i. */
  function ColumnLeft(i: nat, n: nat): real
  {
    SlideSmallMarginInches + i as real * ColumnWidth(n) + i as real * ColumnMarginInches
  }

  /** The columns tile the usable width: each is ColumnMarginInches away
      from the next, and the last ends at the right margin. */
  lemma ColumnsTile(n: nat)
    requires n > 0
    ensures ColumnLeft(0, n) == SlideSmallMarginInches
    ensures ColumnLeft(n - 1, n) + ColumnWidth(n) == SlideWidthInches - SlideSmallMarginInches
    ensures forall i: nat :: i + 1 < n ==>
      ColumnLeft(i + 1, n) == ColumnLeft(i, n) + ColumnWidth(n) + ColumnMarginInches
  {
    var w := ColumnWidth(n);
    assert w * n as real == UsableWidth - (n as real - 1.0) * ColumnMarginInches;
    calc {
      ColumnLeft(n - 1, n) + w;
      SlideSmallMarginInches + (n - 1) as real * w + (n - 1) as real * ColumnMarginInches + w;
      SlideSmallMarginInches + n as real * w + (n as real - 1.0) * ColumnMarginInches;
      SlideSmallMarginInches + UsableWidth;
    }
  }

  /** Columns have a positive width only up to 95 pictures. */
  lemma ColumnWidthPositive(n: nat)
    requires n > 0
    ensures ColumnWidth(n) > 0.0 <==> n < 96
  {
    var available := UsableWidth - (n as real - 1.0) * ColumnMarginInches;
    assert available > 0.0 <==> n < 96;
    assert ColumnWidth(n) * n as real == available;
  }

  /** The two clamping passes of main.py:239-246: a picture wider than the
      usable width is narrowed to it, then one taller than the usable height
      is shortened to it, each time keeping the aspect ratio. */
  function Fitted(s: NativeSize): (r: Size)
    ensures 0.0 < r.width <= UsableWidth && 0.0 < r.height <= UsableHeight
    ensures r.width * s.height == r.height * s.width
    ensures r.width <= s.width && r.height <= s.height
    ensures s.width <= UsableWidth && s.height <= UsableHeight ==> r == s
    ensures r != s ==> r.width == UsableWidth || r.height == UsableHeight
  {
    FittedFacts(s);
    var ratio := s.width / s.height;
    var w1 := if s.width > UsableWidth then UsableWidth else s.width;
    var h1 := if s.width > UsableWidth then UsableWidth / ratio else s.height;
    if h1 > UsableHeight then Size(UsableHeight * ratio, UsableHeight) else Size(w1, h1)
  }

  lemma FittedFacts(s: NativeSize)
    ensures var ratio := s.width / s.height;
      && ratio > 0.0
      && ratio * s.height == s.width
      && (UsableWidth / ratio) * s.width == UsableWidth * s.height
      && 0.0 < UsableWidth / ratio
      && (s.width > UsableWidth ==> UsableWidth / ratio < s.height)
      && (UsableHeight * ratio) * s.height == UsableHeight * s.width
      && (UsableWidth / ratio > UsableHeight ==> UsableHeight * ratio < UsableWidth)
      && (s.height > UsableHeight ==> UsableHeight * ratio < s.width)
  {
    var ratio := s.width / s.height;
    var h1 := UsableWidth / ratio;
    assert ratio * s.height == s.width;
    assert h1 * ratio == UsableWidth;
    assert h1 * s.width == h1 * ratio * s.height;
    if s.width > UsableWidth {
      assert h1 * ratio < s.height * ratio;
    }
    if h1 > UsableHeight {
      assert UsableHeight * ratio < h1 * ratio;
    }
    if s.height > UsableHeight {
      assert UsableHeight * ratio < s.height * ratio;
    }
  }

  /** The horizontal position of a picture alone on its slide: centred,
      but never left of the small margin. */
  function CenteredLeft(width: real): real
  {
    var left := SlideWidthInches / 2.0 - width / 2.0;
    if left < SlideSmallMarginInches then SlideSmallMarginInches else left
  }

  /** The vertical position of a picture alone on a slide without text. */
  function CenteredTop(height: real): real
  {
    var top := SlideHeightInches / 2.0 - height / 2.0;
    if top < SlideSmallMarginInches then SlideSmallMarginInches else top
  }

  /** The rectangle of picture i out of n, at native size s; noText says
      that the slide has no text column. */
  function ImageRect(i: nat, n: nat, noText: bool, s: NativeSize): Rect
    requires i < n
  {
    var f := Fitted(s);
    var left := if n == 1 then CenteredLeft(f.width) else ColumnLeft(i, n);
    var top := if n == 1 && noText then CenteredTop(f.height) else SlideSmallMarginInches;
    Rect(left, top, f.width, f.height)
  }

  /** A fitted picture never needs the margin guard: alone on its slide it
      is centred exactly, and it stays inside the margins. */
  lemma SingleImageCentered(noText: bool, s: NativeSize)
    ensures var r := ImageRect(0, 1, noText, s);
      && r.left + r.width / 2.0 == SlideWidthInches / 2.0
      && SlideSmallMarginInches <= r.left
      && r.left + r.width <= SlideWidthInches - SlideSmallMarginInches
      && (noText ==> r.top + r.height / 2.0 == SlideHeightInches / 2.0)
      && SlideSmallMarginInches <= r.top
      && r.top + r.height <= SlideHeightInches - SlideSmallMarginInches
  {
  }

  /** Pictures of a multi-picture slide sit at the top of their column. */
  lemma ImageInColumn(i: nat, n: nat, noText: bool, s: NativeSize)
    requires 1 < n && i < n
    ensures var r := ImageRect(i, n, noText, s);
      r.left == ColumnLeft(i, n) && r.top == SlideSmallMarginInches && r.height <= UsableHeight
  {
  }

  /** A picture shape on a slide, whose size and position are updated in
      place as the source does with the shape returned by add_picture. */
  class PictureShape {
    var left: real
    var top: real
    var width: real
    var height: real

    /** The picture inserted at (left, top) at its native size. */
    constructor (left: real, top: real, native: NativeSize)
      ensures this.left == left && this.top == top
      ensures width == native.width && height == native.height
    {
      this.left := left;
      this.top := top;
      width := native.width;
      height := native.height;
    }

    /** The two clamping passes, on the shape itself (main.py:239-246). */
    method FitToSlide()
      requires width > 0.0 && height > 0.0
      modifies this
      ensures Size(width, height) == Fitted(old(Size(width, height)))
      ensures left == old(left) && top == old(top)
    {
      var ratio := width / height;
      if width > UsableWidth {
        width := UsableWidth;
        height := width / ratio;
      }
      if height > UsableHeight {
        height := UsableHeight;
        width := height * ratio;
      }
    }

    /** Centring of a picture alone on its slide (main.py:248-264). */
    method Center(noText: bool)
      modifies this
      ensures left == CenteredLeft(width)
      ensures top == if noText then CenteredTop(height) else old(top)
      ensures width == old(width) && height == old(height)
    {
      var leftCentered := SlideWidthInches / 2.0 - width / 2.0;
      if leftCentered < SlideSmallMarginInches {
        leftCentered := SlideSmallMarginInches;
      }
      left := leftCentered;
      if noText {
        var topCentered := SlideHeightInches / 2.0 - height / 2.0;
        if topCentered < SlideSmallMarginInches {
          topCentered := SlideSmallMarginInches;
        }
        top := topCentered;
      }
    }
  }
}
