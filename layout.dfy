/** The layout of one slide and of the whole deck (fill_slide and
    slides_to_pptx, main.py:120-333): the atoms of a slide and the native
    sizes of its images determine its pictures and its text boxes. */
module Layout {
  import opened Atoms
  import opened Classifier
  import opened Partitioner
  import opened Geometry
  import opened Pictures
  import opened TextFrame

  datatype Anchor = Top | Middle

  /** A text box: where it is, how its text is anchored vertically, and its paragraphs. */
  datatype TextBox = TextBox(rect: Rect, anchor: Anchor, paragraphs: seq<Paragraph>)

  /** What fill_slide adds to the presentation for one non-empty slide. */
  datatype SlideLayout = SlideLayout(pictures: seq<ImagePlacement>, textBoxes: seq<TextBox>)

  /** Whether a slide gets the column layout. */
  predicate ColumnLayoutOf(slide: Slide)
  {
    IsColumnLayout(|ImageUrls(slide)|, MaxTextLen(slide))
  }

  /** The rectangle of text column `index` (main.py:270-290): the whole
      usable area by default, below the tallest picture when there are
      pictures, and under its own picture in column layout. */
  function TextRect(index: nat, imageCount: nat, column: bool, heights: seq<real>, maxHeight: real): Rect
    requires column ==> index < |heights|
  {
    if column then
      var h := heights[index];
      Rect(ColumnLeft(index, imageCount), SlideSmallMarginInches + h + HeightMarginInches,
           ColumnWidth(imageCount), UsableHeight - h - HeightMarginInches)
    else if imageCount > 0 then
      Rect(SlideSmallMarginInches, SlideSmallMarginInches + maxHeight + HeightMarginInches,
           UsableWidth, UsableHeight - maxHeight - HeightMarginInches)
    else
      Rect(SlideSmallMarginInches, SlideSmallMarginInches, UsableWidth, UsableHeight)
  }

  /** Every text box ends at the bottom margin of the slide. */
  lemma TextRectBottom(index: nat, imageCount: nat, column: bool, heights: seq<real>, maxHeight: real)
    requires column ==> index < |heights|
    ensures var r := TextRect(index, imageCount, column, heights, maxHeight);
      r.top + r.height == SlideHeightInches - SlideSmallMarginInches
  {
  }

  /** A text box has a negative height exactly when the picture height it
      is placed under exceeds the usable height less the gap. */
  lemma TextRectHeight(index: nat, imageCount: nat, column: bool, heights: seq<real>, maxHeight: real)
    requires column ==> index < |heights|
    requires imageCount > 0
    ensures var r := TextRect(index, imageCount, column, heights, maxHeight);
      var above := if column then heights[index] else maxHeight;
      r.height >= 0.0 <==> above <= UsableHeight - HeightMarginInches
  {
  }

  /** Text box i of a slide. */
  function TextBoxAt(i: nat, imageCount: nat, textArray: seq<seq<string>>, column: bool, il: ImageLayout): TextBox
    requires i < |textArray| && (column ==> |textArray| <= |il.heights|)
  {
    TextBox(TextRect(i, imageCount, column, il.heights, il.maxHeight),
            if column then Top else Middle,
            Frame(textArray[i], IsTitle(imageCount, |textArray|, |textArray[i]|)))
  }

  /** The text boxes of a slide, one per text column. */
  function TextBoxes(imageCount: nat, textArray: seq<seq<string>>, column: bool, il: ImageLayout): seq<TextBox>
    requires column ==> |textArray| <= |il.heights|
  {
    seq(|textArray|, i requires 0 <= i < |textArray| => TextBoxAt(i, imageCount, textArray, column, il))
  }

  /** In column layout there are at least two images array entries, and
      as many text columns. */
  lemma ColumnsAligned(slide: Slide)
    requires ColumnLayoutOf(slide)
    ensures var (images, textArray) := Partitioned(slide, true);
      |images| == |textArray| && |images| > 1
  {
    Aligned(slide);
    assert |Slots(slide)| >= |ImageUrls(slide)|;
  }

  /** The slide layout as a function of the atoms and the image sizes:
      None for a slide that adds nothing to the presentation. */
  function LayoutSlide(slide: Slide, sizes: map<string, NativeSize>): Result<Option<SlideLayout>>
  {
    if IsDegenerate(slide) then Ok(None)
    else
      var column := ColumnLayoutOf(slide);
      var (images, textArray) := Partitioned(slide, column);
      match ImagesLayout(images, |textArray| == 0, sizes)
      case Err(e) => Err(e)
      case Ok(il) =>
        if column then
          ColumnsAligned(slide);
          Ok(Some(SlideLayout(il.placements, TextBoxes(|images|, textArray, column, il))))
        else
          Ok(Some(SlideLayout(il.placements, TextBoxes(|images|, textArray, column, il))))
  }

  /** The position and size of text box `index` (main.py:272-290). */
  method PlaceTextBox(index: nat, imageCount: nat, column: bool, columnWidth: real, il: ImageLayout)
    returns (rect: Rect)
    requires column ==> index < |il.heights|
    requires columnWidth == ColumnWidth(imageCount)
    ensures rect == TextRect(index, imageCount, column, il.heights, il.maxHeight)
  {
    var left := SlideSmallMarginInches;
    var width := SlideWidthInches - 2.0 * SlideSmallMarginInches;
    var top := SlideSmallMarginInches;
    var height := SlideHeightInches - 2.0 * SlideSmallMarginInches;
    if imageCount > 0 {
      top := SlideSmallMarginInches + il.maxHeight + HeightMarginInches;
      height := SlideHeightInches - 2.0 * SlideSmallMarginInches - il.maxHeight - HeightMarginInches;
    }
    if column {
      left := SlideSmallMarginInches + index as real * columnWidth + index as real * ColumnMarginInches;
      width := columnWidth;
      top := SlideSmallMarginInches + il.heights[index] + HeightMarginInches;
      height := SlideHeightInches - 2.0 * SlideSmallMarginInches - il.heights[index] - HeightMarginInches;
    }
    rect := Rect(left, top, width, height);
  }

  /** The text box loop of main.py:270-333. */
  method AddTextBoxes(images: seq<string>, textArray: seq<seq<string>>, column: bool, il: ImageLayout)
    returns (boxes: seq<TextBox>)
    requires column ==> |textArray| <= |il.heights|
    ensures boxes == TextBoxes(|images|, textArray, column, il)
  {
    var available := SlideWidthInches - 2.0 * SlideSmallMarginInches - (|images| as real - 1.0) * ColumnMarginInches;
    var columnWidth := available;
    if |images| > 0 {
      columnWidth := available / |images| as real;
    }
    boxes := [];
    for i := 0 to |textArray|
      invariant |boxes| == i
      invariant forall j :: 0 <= j < i ==> boxes[j] == TextBoxAt(j, |images|, textArray, column, il)
    {
      var rect := PlaceTextBox(i, |images|, column, columnWidth, il);
      var anchor := Middle;
      if column {
        anchor := Top;
      }
      var isTitle := |images| == 0 && |textArray| == 1 && |textArray[i]| == 1;
      var paragraphs := FillTextFrame(textArray[i], isTitle);
      boxes := boxes + [TextBox(rect, anchor, paragraphs)];
    }
  }

  /** fill_slide (main.py:138-333), without the shape creation itself. */
  method FillSlide(slide: Slide, sizes: map<string, NativeSize>) returns (r: Result<Option<SlideLayout>>)
    ensures r == LayoutSlide(slide, sizes)
  {
    var imageCount, maxChars := CountContent(slide);
    if imageCount == 0 && maxChars == 0 {
      return Ok(None);
    }
    var column := imageCount > 1 && maxChars != 0 && maxChars <= ShortTextLimitChars;
    assert column == ColumnLayoutOf(slide);
    var images, textArray := Partition(slide, column);
    var placed := PlaceImages(images, |textArray| == 0, sizes);
    if placed.Err? {
      return Err(placed.error);
    }
    if column {
      ColumnsAligned(slide);
    }
    var boxes := AddTextBoxes(images, textArray, column, placed.value);
    r := Ok(Some(SlideLayout(placed.value.placements, boxes)));
  }

  /** A slide adds nothing exactly when it has no image and no non-empty
      text, and then it fails on nothing either. */
  lemma DroppedIff(slide: Slide, sizes: map<string, NativeSize>)
    ensures LayoutSlide(slide, sizes) == Ok(None) <==> IsDegenerate(slide)
  {
  }

  /** Text is anchored at the top exactly in column layout. */
  lemma AnchorIff(slide: Slide, sizes: map<string, NativeSize>)
    requires LayoutSlide(slide, sizes).Ok? && LayoutSlide(slide, sizes).value.Some?
    ensures var boxes := LayoutSlide(slide, sizes).value.value.textBoxes;
      forall i :: 0 <= i < |boxes| ==> (boxes[i].anchor == Top <==> ColumnLayoutOf(slide))
  {
  }

  /** Every paragraph of a frame carries the title flag, unless the frame has no text. */
  lemma {:induction false} FrameTitles(texts: seq<string>, isTitle: bool)
    ensures var ps := Frame(texts, isTitle);
      forall k :: 0 <= k < |ps| ==> ps[k].title == (isTitle && texts != [])
  {
    if texts != [] {
      var init := texts[..|texts| - 1];
      FrameTitles(init, isTitle);
      assert forall k :: 0 <= k < |Frame(init, isTitle)| ==> Frame(init, isTitle)[k].title == (isTitle && init != []);
      var ps := Frame(init, isTitle);
      assert Frame(texts, isTitle) == AddText(ps, texts[|texts| - 1], isTitle);
      if init == [] {
        assert ps == Cleared;
      }
    }
  }

  /** The slide's images array is empty exactly when it has no image atom. */
  lemma NoImagesArray(slide: Slide)
    ensures Partitioned(slide, ColumnLayoutOf(slide)).0 == [] <==> ImageUrls(slide) == []
  {
  }

  /** A slide shows a title exactly when it has no image and a single
      text: then that text, and only it, is centred in title size. */
  lemma TitleIff(slide: Slide, sizes: map<string, NativeSize>)
    requires LayoutSlide(slide, sizes).Ok? && LayoutSlide(slide, sizes).value.Some?
    ensures var boxes := LayoutSlide(slide, sizes).value.value.textBoxes;
      forall i, k :: 0 <= i < |boxes| && 0 <= k < |boxes[i].paragraphs| ==>
        (boxes[i].paragraphs[k].title <==> ImageUrls(slide) == [] && |Texts(slide)| == 1)
  {
    var column := ColumnLayoutOf(slide);
    var (images, textArray) := Partitioned(slide, column);
    LayoutParts(slide, sizes);
    var boxes := LayoutSlide(slide, sizes).value.value.textBoxes;
    NoImagesArray(slide);
    forall i, k | 0 <= i < |boxes| && 0 <= k < |boxes[i].paragraphs|
      ensures boxes[i].paragraphs[k].title <==> ImageUrls(slide) == [] && |Texts(slide)| == 1
    {
      var isTitle := IsTitle(|images|, |textArray|, |textArray[i]|);
      FrameTitles(textArray[i], isTitle);
      assert boxes[i].paragraphs == Frame(textArray[i], isTitle);
      assert boxes[i].paragraphs[k].title == (isTitle && textArray[i] != []);
      if images == [] {
        assert !column;
        assert textArray == [Texts(slide)];
        assert isTitle == (|Texts(slide)| == 1);
      } else {
        assert !isTitle && ImageUrls(slide) != [];
      }
    }
  }

  /** In column layout, text column i lies under entry i of the images
      array: the box starts at the left edge of the picture, a margin below
      it, and has the column width; under the placeholder it starts a
      margin below the top margin. */
  lemma ColumnBoxesUnderPictures(slide: Slide, sizes: map<string, NativeSize>)
    requires ColumnLayoutOf(slide)
    requires LayoutSlide(slide, sizes).Ok? && LayoutSlide(slide, sizes).value.Some?
    ensures var l := LayoutSlide(slide, sizes).value.value;
      var n := |l.pictures|;
      && |l.textBoxes| == n && n > 1
      && forall i :: 0 <= i < n ==>
        var b := l.textBoxes[i].rect;
        && b.left == ColumnLeft(i, n) && b.width == ColumnWidth(n)
        && b.top + b.height == SlideHeightInches - SlideSmallMarginInches
        && (l.pictures[i].Blank? ==> b.top == SlideSmallMarginInches + HeightMarginInches)
        && (l.pictures[i].Placed? ==>
              var p := l.pictures[i].rect;
              p.left == b.left && p.top + p.height + HeightMarginInches == b.top)
  {
    ColumnsAligned(slide);
  }

  /** In the other layout there is at most one text column, present exactly
      when the slide has text; it spans the usable width, ends at the bottom
      margin, and starts a margin below the tallest picture (at the top
      margin when there is no picture). */
  lemma GenericBoxBelowPictures(slide: Slide, sizes: map<string, NativeSize>)
    requires !ColumnLayoutOf(slide)
    requires LayoutSlide(slide, sizes).Ok? && LayoutSlide(slide, sizes).value.Some?
    ensures var l := LayoutSlide(slide, sizes).value.value;
      && |l.textBoxes| <= 1
      && (|l.textBoxes| == 1 <==> Texts(slide) != [])
      && forall k :: 0 <= k < |l.textBoxes| ==>
        var b := l.textBoxes[k].rect;
        && b.left == SlideSmallMarginInches && b.width == UsableWidth
        && b.top + b.height == SlideHeightInches - SlideSmallMarginInches
        && (forall i :: 0 <= i < |l.pictures| && l.pictures[i].Placed? ==>
             l.pictures[i].rect.top + l.pictures[i].rect.height + HeightMarginInches <= b.top)
        && (l.pictures == [] ==> b.top == SlideSmallMarginInches)
        && (l.pictures != [] ==>
             || b.top == SlideSmallMarginInches + HeightMarginInches
             || exists i :: 0 <= i < |l.pictures| && l.pictures[i].Placed? &&
                  b.top == l.pictures[i].rect.top + l.pictures[i].rect.height + HeightMarginInches)
  {
    var (images, textArray) := Partitioned(slide, false);
    var noText := |textArray| == 0;
    LayoutParts(slide, sizes);
    ImagesLayoutShape(images, noText, sizes);
    var il := ImagesLayout(images, noText, sizes).value;
    var l := LayoutSlide(slide, sizes).value.value;
    assert l.pictures == il.placements && l.textBoxes == TextBoxes(|images|, textArray, false, il);
    if textArray != [] {
      forall i | 0 <= i < |l.pictures| && l.pictures[i].Placed?
        ensures l.pictures[i].rect.top == SlideSmallMarginInches
        ensures l.pictures[i].rect.height <= il.maxHeight
      {
        assert l.pictures[i] == PlacementAt(images, i, noText, sizes);
      }
      if images != [] && il.maxHeight != 0.0 {
        var i :| 0 <= i < |images| && il.heights[i] == il.maxHeight;
        assert l.pictures[i] == PlacementAt(images, i, noText, sizes);
      }
    }
  }

  lemma {:induction false} NoEmptyText(slide: Slide)
    requires forall i :: 0 <= i < |slide| && slide[i].Text? ==> slide[i].s != ""
    ensures "" !in Texts(slide)
  {
    if slide != [] {
      assert forall i :: 1 <= i < |slide| ==> slide[1..][i - 1] == slide[i];
      NoEmptyText(slide[1..]);
    }
  }

  lemma {:induction false} InFlatten(cs: seq<seq<string>>, i: nat, x: string)
    requires i < |cs| && x in cs[i]
    ensures x in Flatten(cs)
  {
    if i > 0 {
      InFlatten(cs[1..], i - 1, x);
    }
  }

  /** The parts of a slide layout. */
  lemma LayoutParts(slide: Slide, sizes: map<string, NativeSize>)
    requires LayoutSlide(slide, sizes).Ok? && LayoutSlide(slide, sizes).value.Some?
    ensures var column := ColumnLayoutOf(slide);
      var (images, textArray) := Partitioned(slide, column);
      var r := ImagesLayout(images, |textArray| == 0, sizes);
      && r.Ok?
      && (column ==> |textArray| <= |r.value.heights|)
      && LayoutSlide(slide, sizes).value.value == SlideLayout(r.value.placements, TextBoxes(|images|, textArray, column, r.value))
  {
    if ColumnLayoutOf(slide) {
      ColumnsAligned(slide);
    }
  }

  /** The paragraphs of one column without empty texts. */
  lemma FrameOfColumn(texts: seq<string>, isTitle: bool)
    requires "" !in texts
    ensures var ps := Frame(texts, isTitle);
      if texts == [] then ps == [Paragraph("", false)]
      else |ps| == |texts| && forall k :: 0 <= k < |ps| ==> ps[k].text == texts[k]
  {
    if texts != [] {
      FrameOfTexts(texts, isTitle);
    }
  }

  /** When no text atom is empty, as the extractor guarantees, the
      paragraphs of each text box are exactly the texts of its column, in
      order, and the columns together hold every text atom of the slide,
      in order. A column without text keeps its single empty paragraph. */
  lemma ParagraphsAreTexts(slide: Slide, sizes: map<string, NativeSize>)
    requires forall i :: 0 <= i < |slide| && slide[i].Text? ==> slide[i].s != ""
    requires LayoutSlide(slide, sizes).Ok? && LayoutSlide(slide, sizes).value.Some?
    ensures var boxes := LayoutSlide(slide, sizes).value.value.textBoxes;
      var textArray := Partitioned(slide, ColumnLayoutOf(slide)).1;
      && |boxes| == |textArray|
      && Flatten(textArray) == Texts(slide)
      && forall i :: 0 <= i < |boxes| ==>
        var ps := boxes[i].paragraphs;
        if textArray[i] == [] then ps == [Paragraph("", false)]
        else |ps| == |textArray[i]| && forall k :: 0 <= k < |ps| ==> ps[k].text == textArray[i][k]
  {
    var column := ColumnLayoutOf(slide);
    var (images, textArray) := Partitioned(slide, column);
    LayoutParts(slide, sizes);
    var boxes := LayoutSlide(slide, sizes).value.value.textBoxes;
    PartitionKeepsContent(slide, column);
    NoEmptyText(slide);
    forall i | 0 <= i < |boxes|
      ensures boxes[i].paragraphs == Frame(textArray[i], IsTitle(|images|, |textArray|, |textArray[i]|))
      ensures "" !in textArray[i]
    {
      if "" in textArray[i] {
        InFlatten(textArray, i, "");
      }
    }
    forall i | 0 <= i < |boxes|
      ensures var ps := boxes[i].paragraphs;
        if textArray[i] == [] then ps == [Paragraph("", false)]
        else |ps| == |textArray[i]| && forall k :: 0 <= k < |ps| ==> ps[k].text == textArray[i][k]
    {
      FrameOfColumn(textArray[i], IsTitle(|images|, |textArray|, |textArray[i]|));
    }
  }

  /** Text before the first of two images gets a placeholder, which takes
      a column of its own: three columns of 3.1 inches. */
  lemma PlaceholderTakesAColumn(t: string, a: string, b: string)
    requires 0 < |t| <= ShortTextLimitChars
    ensures var slide := [Text(t), Image(a), Image(b)];
      && ColumnLayoutOf(slide)
      && Partitioned(slide, true) == ([Placeholder, a, b], [[t], [], []])
      && ColumnWidth(3) == 3.1
  {
    var slide := [Text(t), Image(a), Image(b)];
    assert slide[1..] == [Image(a), Image(b)];
    assert slide[1..][1..] == [Image(b)];
    assert slide[1..][1..][1..] == [];
    var s1, s2 := slide[1..], slide[1..][1..];
    assert ImageUrls(s2) == [b] + ImageUrls([]);
    assert ImageUrls(s1) == [a] + ImageUrls(s2);
    assert ImageUrls(slide) == [] + ImageUrls(s1);
    assert MaxTextLen(slide) == |t|;
    assert Lead(slide) == [t];
    assert Captions(s2) == [Lead([])] + Captions([]);
    assert Captions(s1) == [Lead(s2)] + Captions(s2);
    assert Captions(slide) == [[], []];
    assert ColumnLayoutOf(slide);
    assert Slots(slide) == [Placeholder, a, b];
    assert Columns(slide) == [[t], [], []];
    assert ColumnWidth(3) == 9.3 / 3.0;
  }
}
