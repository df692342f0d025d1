/** Placement of the pictures of one slide (main.py:216-268): one entry of
    the images array after the other, a picture shape for each real image,
    a height for every entry (0 for the placeholder) and the tallest
    height. The native size of each image, which the source learns by
    downloading it, is an input: a map from url to size, where a missing
    url stands for a download or decoding failure. */
module Pictures {
  import opened Atoms
  import opened Geometry
  import opened Partitioner

  /** What became of one entry of the images array. */
  datatype ImagePlacement = Blank | Placed(url: string, rect: Rect)

  datatype ImageLayout = ImageLayout(placements: seq<ImagePlacement>, heights: seq<real>, maxHeight: real)

  /** An entry the loop gets past: the placeholder, or an image whose size is known. */
  predicate Fetchable(url: string, sizes: map<string, NativeSize>)
  {
    url == Placeholder || url in sizes
  }

  predicate AllFetchable(images: seq<string>, sizes: map<string, NativeSize>)
  {
    forall i :: 0 <= i < |images| ==> Fetchable(images[i], sizes)
  }

  /** The index of the first image that cannot be fetched. */
  function FirstUnfetchable(images: seq<string>, sizes: map<string, NativeSize>): (k: nat)
    requires !AllFetchable(images, sizes)
    ensures k < |images| && !Fetchable(images[k], sizes)
    ensures forall j :: 0 <= j < k ==> Fetchable(images[j], sizes)
  {
    if !Fetchable(images[0], sizes) then 0
    else
      assert forall j :: 1 <= j < |images| ==> images[j] == images[1..][j - 1];
      1 + FirstUnfetchable(images[1..], sizes)
  }

  /** Entry i of the images array, laid out. */
  function PlacementAt(images: seq<string>, i: nat, noText: bool, sizes: map<string, NativeSize>): ImagePlacement
    requires i < |images| && Fetchable(images[i], sizes)
  {
    if images[i] == Placeholder then Blank
    else Placed(images[i], ImageRect(i, |images|, noText, sizes[images[i]]))
  }

  function HeightOf(p: ImagePlacement): real
  {
    if p.Blank? then 0.0 else p.rect.height
  }

  /** The running maximum of the heights, starting from 0. */
  function MaxOf(xs: seq<real>): real
  {
    if xs == [] then 0.0
    else
      var m := MaxOf(xs[..|xs| - 1]);
      if xs[|xs| - 1] > m then xs[|xs| - 1] else m
  }

  /** MaxOf is the largest of the heights, or 0 when there is none larger. */
  lemma {:induction false} MaxOfIsMax(xs: seq<real>)
    ensures 0.0 <= MaxOf(xs)
    ensures forall i :: 0 <= i < |xs| ==> xs[i] <= MaxOf(xs)
    ensures MaxOf(xs) == 0.0 || exists i :: 0 <= i < |xs| && xs[i] == MaxOf(xs)
  {
    if xs != [] {
      var init := xs[..|xs| - 1];
      MaxOfIsMax(init);
      assert forall i :: 0 <= i < |init| ==> init[i] == xs[i];
    }
  }

  lemma MaxOfSnoc(xs: seq<real>, x: real)
    ensures MaxOf(xs + [x]) == if x > MaxOf(xs) then x else MaxOf(xs)
  {
    assert (xs + [x])[..|xs|] == xs;
  }

  /** The first image that cannot be fetched decides the failure. */
  lemma FailsAt(images: seq<string>, noText: bool, sizes: map<string, NativeSize>, i: nat)
    requires i < |images| && !Fetchable(images[i], sizes)
    requires forall j :: 0 <= j < i ==> Fetchable(images[j], sizes)
    ensures ImagesLayout(images, noText, sizes) == Err(ImageFetchError(images[i]))
  {
    assert !AllFetchable(images, sizes);
    assert FirstUnfetchable(images, sizes) == i;
  }

  /** The pictures of a slide with the given images array. The first image
      that cannot be fetched aborts the conversion. */
  function ImagesLayout(images: seq<string>, noText: bool, sizes: map<string, NativeSize>): Result<ImageLayout>
  {
    if !AllFetchable(images, sizes) then Err(ImageFetchError(images[FirstUnfetchable(images, sizes)]))
    else
      var ps := seq(|images|, i requires 0 <= i < |images| => PlacementAt(images, i, noText, sizes));
      var hs := seq(|ps|, i requires 0 <= i < |ps| => HeightOf(ps[i]));
      Ok(ImageLayout(ps, hs, MaxOf(hs)))
  }

  /** The layout fails exactly when an image cannot be fetched, naming the
      first one. Otherwise there is one placement and one height per entry:
      nothing and 0 for the placeholder, the picture and its height for a
      real image; no height exceeds the usable height, and the maximum
      height is the largest of them, or 0. */
  lemma ImagesLayoutShape(images: seq<string>, noText: bool, sizes: map<string, NativeSize>)
    ensures var r := ImagesLayout(images, noText, sizes);
      && (r.Ok? <==> AllFetchable(images, sizes))
      && (r.Err? ==> r.error == ImageFetchError(images[FirstUnfetchable(images, sizes)]))
      && (r.Ok? ==>
        && |r.value.placements| == |images| && |r.value.heights| == |images|
        && (forall i :: 0 <= i < |images| ==>
              && (r.value.placements[i].Blank? <==> images[i] == Placeholder)
              && (r.value.heights[i] == 0.0 <==> images[i] == Placeholder)
              && 0.0 <= r.value.heights[i] <= UsableHeight
              && (r.value.placements[i].Placed? ==>
                  r.value.placements[i].url == images[i] && r.value.placements[i].rect.height == r.value.heights[i]))
        && (forall i :: 0 <= i < |images| ==> r.value.heights[i] <= r.value.maxHeight)
        && (r.value.maxHeight == 0.0 || exists i :: 0 <= i < |images| && r.value.heights[i] == r.value.maxHeight))
  {
    var r := ImagesLayout(images, noText, sizes);
    if r.Ok? {
      MaxOfIsMax(r.value.heights);
    }
  }

  /** One picture shape: inserted at the top of column i at its native
      size, clamped, and centred when it is the only entry (main.py:229-264). */
  method InsertPicture(i: nat, n: nat, noText: bool, native: NativeSize) returns (rect: Rect)
    requires i < n
    ensures rect == ImageRect(i, n, noText, native)
  {
    var shape := new PictureShape(ColumnLeft(i, n), SlideSmallMarginInches, native);
    shape.FitToSlide();
    if n == 1 {
      shape.Center(noText);
    }
    rect := Rect(shape.left, shape.top, shape.width, shape.height);
  }

  /** The arrays built entry by entry are those of ImagesLayout. */
  lemma LayoutOfLoop(images: seq<string>, noText: bool, sizes: map<string, NativeSize>,
                     placements: seq<ImagePlacement>, heights: seq<real>)
    requires AllFetchable(images, sizes)
    requires |placements| == |images| && |heights| == |images|
    requires forall j :: 0 <= j < |images| ==> placements[j] == PlacementAt(images, j, noText, sizes)
    requires forall j :: 0 <= j < |images| ==> heights[j] == HeightOf(placements[j])
    ensures ImagesLayout(images, noText, sizes) == Ok(ImageLayout(placements, heights, MaxOf(heights)))
  {
    var ps := seq(|images|, i requires 0 <= i < |images| => PlacementAt(images, i, noText, sizes));
    assert ps == placements;
    var hs := seq(|ps|, i requires 0 <= i < |ps| => HeightOf(ps[i]));
    assert hs == heights;
  }

  /** The picture loop of main.py:220-268: each real image is inserted in
      its column, clamped, and centred when it is the only entry. */
  method PlaceImages(images: seq<string>, noText: bool, sizes: map<string, NativeSize>) returns (r: Result<ImageLayout>)
    ensures r == ImagesLayout(images, noText, sizes)
  {
    var placements: seq<ImagePlacement> := [];
    var heights: seq<real> := [];
    var maxHeight := 0.0;
    for i := 0 to |images|
      invariant forall j :: 0 <= j < i ==> Fetchable(images[j], sizes)
      invariant |placements| == i && |heights| == i
      invariant forall j :: 0 <= j < i ==> placements[j] == PlacementAt(images, j, noText, sizes)
      invariant forall j :: 0 <= j < i ==> heights[j] == HeightOf(placements[j])
      invariant maxHeight == MaxOf(heights)
    {
      var url := images[i];
      if url == Placeholder {
        placements := placements + [Blank];
        MaxOfSnoc(heights, 0.0);
        MaxOfIsMax(heights);
        heights := heights + [0.0];
        continue;
      }
      if url !in sizes {
        FailsAt(images, noText, sizes, i);
        return Err(ImageFetchError(url));
      }
      var rect := InsertPicture(i, |images|, noText, sizes[url]);
      placements := placements + [Placed(url, rect)];
      MaxOfSnoc(heights, rect.height);
      heights := heights + [rect.height];
      if rect.height > maxHeight {
        maxHeight := rect.height;
      }
    }
    LayoutOfLoop(images, noText, sizes, placements, heights);
    r := Ok(ImageLayout(placements, heights, maxHeight));
  }
}
