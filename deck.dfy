/** The whole conversion (html_to_pptx and slides_to_pptx, main.py:48-53
    and 120-128): the slides of the extractor, laid out one after the
    other into a deck. Fetching the page and parsing it are not modelled:
    the conversion starts from the nodes the selector matched. */
module Deck {
  import opened Atoms
  import opened Classifier
  import opened Markup
  import opened Extractor
  import opened Geometry
  import opened Layout

  /** A deck followed by the outcome of laying out one more slide. */
  function Append(deck: Result<seq<SlideLayout>>, one: Result<Option<SlideLayout>>): (r: Result<seq<SlideLayout>>)
    ensures r.Ok? <==> deck.Ok? && one.Ok?
    ensures r.Ok? ==> r.value == deck.value + (if one.value.Some? then [one.value.value] else [])
    ensures deck.Err? ==> r == deck
    ensures deck.Ok? && one.Err? ==> r == Err(one.error)
  {
    match deck
    case Err(e) => Err(e)
    case Ok(d) =>
      match one
      case Err(e) => Err(e)
      case Ok(None) => Ok(d)
      case Ok(Some(l)) => Ok(d + [l])
  }

  /** The deck after laying out the slides in order; the first failure aborts it. */
  function DeckOf(slides: seq<Slide>, sizes: map<string, NativeSize>): Result<seq<SlideLayout>>
  {
    if slides == [] then Ok([])
    else Append(DeckOf(slides[..|slides| - 1], sizes), LayoutSlide(slides[|slides| - 1], sizes))
  }

  /** The number of slides that add a slide to the deck. */
  function NonEmptyCount(slides: seq<Slide>): nat
  {
    if slides == [] then 0
    else NonEmptyCount(slides[..|slides| - 1]) + (if IsDegenerate(slides[|slides| - 1]) then 0 else 1)
  }

  /** The deck is built exactly when every slide can be laid out. */
  lemma {:induction false} DeckOk(slides: seq<Slide>, sizes: map<string, NativeSize>)
    ensures DeckOf(slides, sizes).Ok? <==> forall i :: 0 <= i < |slides| ==> LayoutSlide(slides[i], sizes).Ok?
  {
    if slides != [] {
      var init, last := slides[..|slides| - 1], slides[|slides| - 1];
      DeckOk(init, sizes);
      if DeckOf(slides, sizes).Ok? {
        forall i | 0 <= i < |slides|
          ensures LayoutSlide(slides[i], sizes).Ok?
        {
          if i < |init| {
            assert slides[i] == init[i];
          }
        }
      } else if DeckOf(init, sizes).Err? {
        var k :| 0 <= k < |init| && LayoutSlide(init[k], sizes).Err?;
        assert slides[k] == init[k];
      }
    }
  }

  /** A deck has one slide per slide that is not empty. */
  lemma {:induction false} DeckSize(slides: seq<Slide>, sizes: map<string, NativeSize>)
    requires DeckOf(slides, sizes).Ok?
    ensures |DeckOf(slides, sizes).value| == NonEmptyCount(slides)
  {
    if slides != [] {
      var init, last := slides[..|slides| - 1], slides[|slides| - 1];
      DeckSize(init, sizes);
      DroppedIff(last, sizes);
    }
  }

  /** The slides that add a slide to the deck, in their order. */
  function NonDegenerate(slides: seq<Slide>): seq<Slide>
  {
    if slides == [] then []
    else (if IsDegenerate(slides[0]) then [] else [slides[0]]) + NonDegenerate(slides[1..])
  }

  lemma {:induction false} NonDegenerateSnoc(slides: seq<Slide>, x: Slide)
    ensures NonDegenerate(slides + [x]) == NonDegenerate(slides) + (if IsDegenerate(x) then [] else [x])
  {
    if slides == [] {
      assert [] + [x] == [x];
      assert [x][1..] == [];
    } else {
      assert (slides + [x])[0] == slides[0];
      assert (slides + [x])[1..] == slides[1..] + [x];
      NonDegenerateSnoc(slides[1..], x);
    }
  }

  /** The deck is the layouts of the slides that are not dropped, one each,
      in their original order. */
  lemma {:induction false} DeckContents(slides: seq<Slide>, sizes: map<string, NativeSize>)
    requires DeckOf(slides, sizes).Ok?
    ensures var deck, kept := DeckOf(slides, sizes).value, NonDegenerate(slides);
      |deck| == |kept| && forall i :: 0 <= i < |kept| ==> LayoutSlide(kept[i], sizes) == Ok(Some(deck[i]))
  {
    if slides != [] {
      var init, last := slides[..|slides| - 1], slides[|slides| - 1];
      assert slides == init + [last];
      DeckContents(init, sizes);
      NonDegenerateSnoc(init, last);
      DroppedIff(last, sizes);
    }
  }

  /** A failing deck reports the error of the first slide that fails. */
  lemma {:induction false} DeckError(slides: seq<Slide>, sizes: map<string, NativeSize>, k: nat)
    requires k < |slides| && LayoutSlide(slides[k], sizes).Err?
    requires forall i :: 0 <= i < k ==> LayoutSlide(slides[i], sizes).Ok?
    ensures DeckOf(slides, sizes) == Err(LayoutSlide(slides[k], sizes).error)
  {
    var init := slides[..|slides| - 1];
    assert forall i :: 0 <= i < |init| ==> init[i] == slides[i];
    if k < |slides| - 1 {
      DeckError(init, sizes, k);
    } else {
      DeckOk(init, sizes);
    }
  }

  /** The slide loop of slides_to_pptx (main.py:120-128). */
  method SlidesToPptx(slides: seq<Slide>, sizes: map<string, NativeSize>) returns (r: Result<seq<SlideLayout>>)
    ensures r == DeckOf(slides, sizes)
  {
    var deck: seq<SlideLayout> := [];
    for i := 0 to |slides|
      invariant DeckOf(slides[..i], sizes) == Ok(deck)
    {
      assert slides[..i + 1][..i] == slides[..i];
      var filled := FillSlide(slides[i], sizes);
      if filled.Err? {
        FailureAborts(slides, sizes, i + 1);
        return Err(filled.error);
      }
      if filled.value.Some? {
        deck := deck + [filled.value.value];
      }
    }
    assert slides[..|slides|] == slides;
    r := Ok(deck);
  }

  /** Once a prefix of the slides fails, the deck fails the same way. */
  lemma {:induction false} FailureAborts(slides: seq<Slide>, sizes: map<string, NativeSize>, i: nat)
    requires i <= |slides| && DeckOf(slides[..i], sizes).Err?
    ensures DeckOf(slides, sizes) == DeckOf(slides[..i], sizes)
    decreases |slides| - i
  {
    if i < |slides| {
      assert slides[..i + 1][..i] == slides[..i];
      FailureAborts(slides, sizes, i + 1);
    } else {
      assert slides[..i] == slides;
    }
  }

  /** The conversion of the nodes matched by the selector. */
  function Convert(matches: seq<Node>, sizes: map<string, NativeSize>): Result<seq<SlideLayout>>
    requires forall i :: 0 <= i < |matches| ==> matches[i].Element?
  {
    match Slides(matches)
    case Err(e) => Err(e)
    case Ok(slides) => DeckOf(slides, sizes)
  }

  /** html_to_pptx (main.py:48-53), from the matched nodes on. */
  method HtmlToPptx(matches: seq<Node>, sizes: map<string, NativeSize>) returns (r: Result<seq<SlideLayout>>)
    requires forall i :: 0 <= i < |matches| ==> matches[i].Element?
    ensures r == Convert(matches, sizes)
  {
    var slides := HtmlToSlides(matches);
    if slides.Err? {
      return Err(slides.error);
    }
    r := SlidesToPptx(slides.value, sizes);
  }

  /** A converted deck has one slide per element child of the first match
      whose atoms are not all empty texts; a selector that matches nothing
      fails with ContentNotFound. */
  lemma ConvertedSlides(matches: seq<Node>, sizes: map<string, NativeSize>)
    requires forall i :: 0 <= i < |matches| ==> matches[i].Element?
    ensures matches == [] ==> Convert(matches, sizes) == Err(ContentNotFound)
    ensures Convert(matches, sizes).Ok? ==>
      && Slides(matches).Ok?
      && |Slides(matches).value| == |Elements(matches[0].children)|
      && |Convert(matches, sizes).value| == NonEmptyCount(Slides(matches).value)
  {
    if matches != [] && Convert(matches, sizes).Ok? {
      SlidesOfOk(matches[0].children);
      SlidesOfElements(matches[0].children);
      DeckSize(Slides(matches).value, sizes);
    }
  }
}
