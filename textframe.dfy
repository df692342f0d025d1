/** The filling of one text frame (main.py:301-333). A cleared frame holds
    one empty paragraph; each text either goes into that first paragraph,
    while its text is still empty, or into a paragraph added at the end. */
module TextFrame {

  /** The font size of a title, in points. */
  const TitleFontPt: nat := 75

  /** A paragraph of a text frame; title says it is centred and set in
      TitleFontPt points. */
  datatype Paragraph = Paragraph(text: string, title: bool)

  /** The frame right after clear(). */
  const Cleared: seq<Paragraph> := [Paragraph("", false)]

  /** A text is a title when the slide has no images array entry, a single
      text column, and a single text in it. */
  predicate IsTitle(imageCount: nat, columnCount: nat, textCount: nat)
  {
    imageCount == 0 && columnCount == 1 && textCount == 1
  }

  /** One text added to a frame. The title formatting is applied on top of
      whatever the first paragraph already has. */
  function AddText(ps: seq<Paragraph>, text: string, isTitle: bool): seq<Paragraph>
    requires ps != []
  {
    if ps[0].text == "" then [Paragraph(text, ps[0].title || isTitle)] + ps[1..]
    else ps + [Paragraph(text, isTitle)]
  }

  /** The paragraphs of a frame after adding the texts in order. */
  function Frame(texts: seq<string>, isTitle: bool): (ps: seq<Paragraph>)
    ensures ps != []
  {
    if texts == [] then Cleared
    else AddText(Frame(texts[..|texts| - 1], isTitle), texts[|texts| - 1], isTitle)
  }

  /** When no text is empty, the paragraphs are exactly the texts, in
      order, each with the title flag. */
  lemma {:induction false} FrameOfTexts(texts: seq<string>, isTitle: bool)
    requires texts != []
    requires forall i :: 0 <= i < |texts| ==> texts[i] != ""
    ensures var ps := Frame(texts, isTitle);
      |ps| == |texts| && forall i :: 0 <= i < |texts| ==> ps[i] == Paragraph(texts[i], isTitle)
  {
    var init := texts[..|texts| - 1];
    if init == [] {
      assert Frame(init, isTitle) == Cleared;
    } else {
      FrameOfTexts(init, isTitle);
      var ps := Frame(init, isTitle);
      assert ps[0].text == texts[0];
      assert Frame(texts, isTitle) == ps + [Paragraph(texts[|texts| - 1], isTitle)];
      assert forall i :: 0 <= i < |init| ==> init[i] == texts[i];
    }
  }

  /** An empty text leaves the first paragraph empty, so the next text
      takes its place. */
  lemma EmptyTextOvertaken(t: string, isTitle: bool)
    requires t != ""
    ensures Frame(["", t], isTitle) == [Paragraph(t, isTitle)]
  {
    assert ["", t][..1] == [""];
    assert [""][..0] == [];
    assert Frame([""], isTitle) == [Paragraph("", isTitle)];
  }

  /** The loop over the texts of one column (main.py:312-333). */
  method FillTextFrame(texts: seq<string>, isTitle: bool) returns (ps: seq<Paragraph>)
    ensures ps == Frame(texts, isTitle)
  {
    ps := Cleared;
    for i := 0 to |texts|
      invariant ps == Frame(texts[..i], isTitle)
    {
      assert texts[..i + 1][..i] == texts[..i];
      var text := texts[i];
      if ps[0].text == "" {
        ps := [Paragraph(text, ps[0].title || isTitle)] + ps[1..];
      } else {
        ps := ps + [Paragraph(text, isTitle)];
      }
    }
    assert texts[..|texts|] == texts;
  }
}
