/** The content partitioner (main.py:168-207): the slide's images and its
    text columns. In column layout each image has the column below it, and
    text that comes before the first image gets a placeholder image. */
module Partitioner {
  import opened Atoms
  import opened Classifier

  /** The entry of the images array that stands for "no image here". An
      image whose url is this very string is treated the same way. */
  const Placeholder: string := "empty"

  /** The texts before the first image. */
  function Lead(slide: Slide): seq<string>
  {
    if slide == [] || slide[0].Image? then [] else [slide[0].s] + Lead(slide[1..])
  }

  /** One entry per image atom: the texts after it, up to the next image. */
  function Captions(slide: Slide): seq<seq<string>>
  {
    if slide == [] then []
    else if slide[0].Image? then [Lead(slide[1..])] + Captions(slide[1..])
    else Captions(slide[1..])
  }

  function Flatten(columns: seq<seq<string>>): seq<string>
  {
    if columns == [] then [] else columns[0] + Flatten(columns[1..])
  }

  /** The images array and the text columns, as a function of the atoms. */
  function Partitioned(slide: Slide, column: bool): (seq<string>, seq<seq<string>>)
  {
    if !column then
      (ImageUrls(slide), if Texts(slide) == [] then [] else [Texts(slide)])
    else if ImageUrls(slide) == [] then
      ([], [Texts(slide)])
    else
      (Slots(slide), Columns(slide))
  }

  /** In column layout: the placeholder when text precedes the first image, then the images. */
  function Slots(slide: Slide): seq<string>
  {
    (if Lead(slide) != [] then [Placeholder] else []) + ImageUrls(slide)
  }

  /** In column layout: the leading texts when there are any, then one caption per image. */
  function Columns(slide: Slide): seq<seq<string>>
  {
    (if Lead(slide) != [] then [Lead(slide)] else []) + Captions(slide)
  }

  /** There is one caption per image. */
  lemma {:induction false} CaptionsPerImage(slide: Slide)
    ensures |Captions(slide)| == |ImageUrls(slide)|
  {
    if slide != [] {
      CaptionsPerImage(slide[1..]);
    }
  }

  lemma {:induction false} FlattenConcat(a: seq<seq<string>>, b: seq<seq<string>>)
    ensures Flatten(a + b) == Flatten(a) + Flatten(b)
  {
    if a == [] {
      assert a + b == b;
    } else {
      assert (a + b)[1..] == a[1..] + b;
      FlattenConcat(a[1..], b);
    }
  }

  /** The leading texts and the captions, in order, are all the texts. */
  lemma {:induction false} LeadAndCaptions(slide: Slide)
    ensures Lead(slide) + Flatten(Captions(slide)) == Texts(slide)
  {
    if slide != [] {
      LeadAndCaptions(slide[1..]);
      var rest := slide[1..];
      if slide[0].Image? {
        FlattenConcat([Lead(rest)], Captions(rest));
        assert Flatten([Lead(rest)]) == Lead(rest) + Flatten([]);
      } else {
        assert Captions(slide) == Captions(rest);
      }
    }
  }

  /** Before the first image, the leading texts are all the texts. */
  lemma {:induction false} LeadWithoutImages(slide: Slide)
    requires ImageUrls(slide) == []
    ensures Lead(slide) == Texts(slide) && Captions(slide) == []
  {
    if slide != [] {
      LeadWithoutImages(slide[1..]);
    }
  }

  lemma {:induction false} LeadSnoc(slide: Slide, a: Atom)
    ensures Lead(slide + [a]) == if ImageUrls(slide) == [] && a.Text? then Lead(slide) + [a.s] else Lead(slide)
  {
    if slide == [] {
      assert [] + [a] == [a];
    } else {
      assert (slide + [a])[1..] == slide[1..] + [a];
      LeadSnoc(slide[1..], a);
    }
  }

  /** Appending an atom: an image opens a new, empty caption; a text joins
      the last caption, if there is one. */
  lemma {:induction false} CaptionsSnoc(slide: Slide, a: Atom)
    ensures var c := Captions(slide);
      Captions(slide + [a]) ==
        if a.Image? then c + [[]]
        else if c == [] then []
        else c[..|c| - 1] + [c[|c| - 1] + [a.s]]
  {
    if slide == [] {
      assert [] + [a] == [a];
      assert [a][1..] == [];
    } else {
      var rest := slide[1..];
      assert (slide + [a])[1..] == rest + [a];
      assert (slide + [a])[0] == slide[0];
      CaptionsSnoc(rest, a);
      LeadSnoc(rest, a);
      if slide[0].Image? {
        var c := Captions(rest);
        var C := Captions(slide);
        assert C == [Lead(rest)] + c;
        if a.Image? {
          assert Captions(slide + [a]) == [Lead(rest)] + (c + [[]]);
        } else if ImageUrls(rest) == [] {
          LeadWithoutImages(rest);
          assert Captions(slide + [a]) == [Lead(rest) + [a.s]];
        } else {
          CaptionsPerImage(rest);
          var n := |c|;
          assert Captions(slide + [a]) == [Lead(rest)] + (c[..n - 1] + [c[n - 1] + [a.s]]);
          assert C[..|C| - 1] == [Lead(rest)] + c[..n - 1];
        }
      }
    }
  }

  /** In column layout there are as many images (placeholder included) as
      text columns, and text column i belongs to image i. */
  lemma Aligned(slide: Slide)
    requires ImageUrls(slide) != []
    ensures |Slots(slide)| == |Columns(slide)|
  {
    CaptionsPerImage(slide);
  }

  /** The placeholder is inserted exactly when the slide starts with text. */
  lemma PlaceholderIff(slide: Slide)
    requires ImageUrls(slide) != []
    ensures Lead(slide) != [] <==> slide[0].Text?
    ensures Slots(slide) == (if slide[0].Text? then [Placeholder] else []) + ImageUrls(slide)
  {
  }

  /** Both layouts keep every text, in order, and every image, in order. */
  lemma PartitionKeepsContent(slide: Slide, column: bool)
    ensures Flatten(Partitioned(slide, column).1) == Texts(slide)
    ensures var images := Partitioned(slide, column).0;
      images == ImageUrls(slide) || (column && images == [Placeholder] + ImageUrls(slide))
  {
    if !column || ImageUrls(slide) == [] {
      assert Flatten([Texts(slide)]) == Texts(slide) + Flatten([]);
    } else {
      LeadAndCaptions(slide);
      if Lead(slide) != [] {
        FlattenConcat([Lead(slide)], Captions(slide));
        assert Flatten([Lead(slide)]) == Lead(slide) + Flatten([]);
      } else {
        assert Columns(slide) == Captions(slide);
        assert Slots(slide) == ImageUrls(slide);
      }
    }
  }

  /** The column-layout state after one more image. */
  lemma ColumnImageStep(p: Slide, u: string)
    ensures ImageUrls(p + [Image(u)]) == ImageUrls(p) + [u]
    ensures Slots(p + [Image(u)]) == Slots(p) + [u]
    ensures Columns(p + [Image(u)]) == Columns(p) + [[]]
  {
    var a := Image(u);
    ImageSnoc(p, u);
    var pre := if Lead(p) != [] then [Lead(p)] else [];
    var slot := if Lead(p) != [] then [Placeholder] else [];
    assert Columns(p + [a]) == pre + Captions(p + [a]);
    assert Slots(p + [a]) == slot + ImageUrls(p + [a]);
    assert pre + (Captions(p) + [[]]) == (pre + Captions(p)) + [[]];
    assert slot + (ImageUrls(p) + [u]) == (slot + ImageUrls(p)) + [u];
  }

  /** What one more image changes in the images, the leading texts and the captions. */
  lemma ImageSnoc(p: Slide, u: string)
    ensures ImageUrls(p + [Image(u)]) == ImageUrls(p) + [u]
    ensures Lead(p + [Image(u)]) == Lead(p)
    ensures Captions(p + [Image(u)]) == Captions(p) + [[]]
  {
    var a := Image(u);
    ImageUrlsConcat(p, [a]);
    assert ImageUrls([a]) == [u] + ImageUrls([]);
    LeadSnoc(p, a);
    CaptionsSnoc(p, a);
  }

  /** The column-layout state after one more text: before the first image
      it joins the leading texts, after it the current column. */
  lemma ColumnTextStep(p: Slide, t: string, done: seq<seq<string>>, current: seq<string>)
    ensures ImageUrls(p + [Text(t)]) == ImageUrls(p)
    ensures ImageUrls(p) == [] ==> Lead(p + [Text(t)]) == Lead(p) + [t]
    ensures ImageUrls(p) != [] && done + [current] == Columns(p) ==>
      Slots(p + [Text(t)]) == Slots(p) && done + [current + [t]] == Columns(p + [Text(t)])
  {
    var a := Text(t);
    TextSnoc(p, t);
    if ImageUrls(p) != [] && done + [current] == Columns(p) {
      CaptionsPerImage(p);
      var pre := if Lead(p) != [] then [Lead(p)] else [];
      var c := Captions(p);
      var n := |c|;
      var C := pre + c;
      assert Columns(p + [a]) == pre + (c[..n - 1] + [c[n - 1] + [t]]);
      SplitLast(done, current, C);
      assert C[..|C| - 1] == pre + c[..n - 1];
      assert C[|C| - 1] == c[n - 1];
      assert pre + (c[..n - 1] + [c[n - 1] + [t]]) == (pre + c[..n - 1]) + [c[n - 1] + [t]];
    }
  }

  /** What one more text changes in the images, the leading texts and the captions. */
  lemma TextSnoc(p: Slide, t: string)
    ensures ImageUrls(p + [Text(t)]) == ImageUrls(p)
    ensures Lead(p + [Text(t)]) == if ImageUrls(p) == [] then Lead(p) + [t] else Lead(p)
    ensures var c := Captions(p);
      Captions(p + [Text(t)]) == if c == [] then [] else c[..|c| - 1] + [c[|c| - 1] + [t]]
  {
    var a := Text(t);
    ImageUrlsConcat(p, [a]);
    assert ImageUrls([a]) == [] + ImageUrls([]);
    LeadSnoc(p, a);
    CaptionsSnoc(p, a);
  }

  lemma SplitLast<T>(xs: seq<T>, x: T, c: seq<T>)
    requires xs + [x] == c
    ensures c != [] && xs == c[..|c| - 1] && x == c[|c| - 1]
  {
    assert (xs + [x])[..|xs|] == xs;
  }

  /** The partition loop of main.py:174-207. */
  method Partition(slide: Slide, column: bool) returns (images: seq<string>, textArray: seq<seq<string>>)
    ensures (images, textArray) == Partitioned(slide, column)
  {
    images, textArray := [], [];
    var columnText: seq<string> := [];
    for i := 0 to |slide|
      invariant !column ==> images == ImageUrls(slide[..i]) && textArray == [] && columnText == Texts(slide[..i])
      invariant column && ImageUrls(slide[..i]) == [] ==> images == [] && textArray == [] && columnText == Lead(slide[..i])
      invariant column && ImageUrls(slide[..i]) != [] ==>
        images == Slots(slide[..i]) && textArray + [columnText] == Columns(slide[..i])
    {
      ghost var p := slide[..i];
      var a := slide[i];
      assert slide[..i + 1] == p + [a];
      if column {
        if a.Image? {
          ColumnImageStep(p, a.url);
          CaptionsPerImage(p);
          if |images| == 0 && |columnText| > 0 {
            images := images + [Placeholder];
            textArray := textArray + [columnText];
            columnText := [];
          } else if |images| > 0 {
            textArray := textArray + [columnText];
            columnText := [];
          }
          images := images + [a.url];
        } else {
          ColumnTextStep(p, a.s, textArray, columnText);
          columnText := columnText + [a.s];
        }
      } else {
        ImageUrlsConcat(p, [a]);
        TextsConcat(p, [a]);
        if a.Image? {
          images := images + [a.url];
        } else {
          columnText := columnText + [a.s];
        }
      }
    }
    assert slide[..|slide|] == slide;
    if column {
      textArray := textArray + [columnText];
      if ImageUrls(slide) == [] {
        LeadWithoutImages(slide);
        assert textArray == [Texts(slide)];
      }
    } else if |columnText| > 0 {
      textArray := textArray + [columnText];
      assert textArray == [Texts(slide)];
    }
  }
}
