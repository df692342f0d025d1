/** The slide classifier (main.py:139-166): how many images a slide has,
    how long its longest single text atom is, whether it is dropped, and
    which layout it gets. */
module Classifier {
  import opened Atoms

  /** Texts up to this many characters, inclusive, count as short. */
  const ShortTextLimitChars: nat := 75

  /** The urls of the image atoms, in order. */
  function ImageUrls(slide: Slide): seq<string>
  {
    if slide == [] then []
    else (if slide[0].Image? then [slide[0].url] else []) + ImageUrls(slide[1..])
  }

  /** The strings of the text atoms, in order. */
  function Texts(slide: Slide): seq<string>
  {
    if slide == [] then []
    else (if slide[0].Text? then [slide[0].s] else []) + Texts(slide[1..])
  }

  /** The length of the longest single text atom, 0 when there is none. */
  function MaxTextLen(slide: Slide): (m: nat)
    ensures forall i :: 0 <= i < |slide| && slide[i].Text? ==> |slide[i].s| <= m
    ensures m == 0 || exists i :: 0 <= i < |slide| && slide[i].Text? && |slide[i].s| == m
  {
    if slide == [] then 0
    else
      var rest := MaxTextLen(slide[1..]);
      assert forall i :: 1 <= i < |slide| ==> slide[i] == slide[1..][i - 1];
      if slide[0].Text? && |slide[0].s| > rest then |slide[0].s| else rest
  }

  /** A slide with no image and no non-empty text produces no output slide. */
  predicate IsDegenerate(slide: Slide)
  {
    |ImageUrls(slide)| == 0 && MaxTextLen(slide) == 0
  }

  /** Column layout: more than one image, and a longest text that is
      non-empty and at most ShortTextLimitChars long. */
  predicate IsColumnLayout(imageCount: nat, maxChars: nat)
  {
    imageCount > 1 && maxChars != 0 && maxChars <= ShortTextLimitChars
  }

  lemma {:induction false} ImageUrlsConcat(a: Slide, b: Slide)
    ensures ImageUrls(a + b) == ImageUrls(a) + ImageUrls(b)
  {
    if a == [] {
      assert a + b == b;
    } else {
      assert (a + b)[1..] == a[1..] + b;
      ImageUrlsConcat(a[1..], b);
    }
  }

  lemma {:induction false} TextsConcat(a: Slide, b: Slide)
    ensures Texts(a + b) == Texts(a) + Texts(b)
  {
    if a == [] {
      assert a + b == b;
    } else {
      assert (a + b)[1..] == a[1..] + b;
      TextsConcat(a[1..], b);
    }
  }

  /** There are no image urls exactly when no atom is an image. */
  lemma {:induction false} NoImageUrls(slide: Slide)
    ensures ImageUrls(slide) == [] <==> forall i :: 0 <= i < |slide| ==> slide[i].Text?
  {
    if slide != [] {
      NoImageUrls(slide[1..]);
      assert forall i :: 1 <= i < |slide| ==> slide[i] == slide[1..][i - 1];
    }
  }

  /** A slide is degenerate exactly when every atom is the empty text. */
  lemma DegenerateIff(slide: Slide)
    ensures IsDegenerate(slide) <==> forall i :: 0 <= i < |slide| ==> slide[i] == Text("")
  {
    NoImageUrls(slide);
  }

  /** A number that bounds every text atom and is attained (or is 0) is
      the longest text length. */
  lemma MaxTextLenUnique(slide: Slide, m: nat)
    requires forall i :: 0 <= i < |slide| && slide[i].Text? ==> |slide[i].s| <= m
    requires m == 0 || exists i :: 0 <= i < |slide| && slide[i].Text? && |slide[i].s| == m
    ensures m == MaxTextLen(slide)
  {
  }

  /** The counting loop of main.py:140-150. */
  method CountContent(slide: Slide) returns (imageCount: nat, maxChars: nat)
    ensures imageCount == |ImageUrls(slide)|
    ensures maxChars == MaxTextLen(slide)
  {
    imageCount, maxChars := 0, 0;
    for i := 0 to |slide|
      invariant imageCount == |ImageUrls(slide[..i])|
      invariant forall k :: 0 <= k < i && slide[k].Text? ==> |slide[k].s| <= maxChars
      invariant maxChars == 0 || exists k :: 0 <= k < i && slide[k].Text? && |slide[k].s| == maxChars
    {
      assert slide[..i + 1] == slide[..i] + [slide[i]];
      ImageUrlsConcat(slide[..i], [slide[i]]);
      if slide[i].Image? {
        imageCount := imageCount + 1;
      } else if |slide[i].s| > maxChars {
        maxChars := |slide[i].s|;
      }
    }
    assert slide[..|slide|] == slide;
    MaxTextLenUnique(slide, maxChars);
  }

  /** The threshold is inclusive: two images with a 75-character caption
      give a column layout, with a 76-character one a generic layout. */
  lemma ShortTextBoundary(a: string, b: string, t: string)
    requires |t| == 75 || |t| == 76
    ensures var slide := [Image(a), Text(t), Image(b)];
      IsColumnLayout(|ImageUrls(slide)|, MaxTextLen(slide)) <==> |t| == 75
  {
    var slide := [Image(a), Text(t), Image(b)];
    assert ImageUrls(slide) == [a] + ImageUrls(slide[1..]);
    assert ImageUrls(slide[1..]) == [] + ImageUrls(slide[2..]);
    assert ImageUrls(slide[2..]) == [b] + ImageUrls(slide[3..]);
    assert slide[3..] == [];
    assert MaxTextLen(slide) == |t|;
  }
}
