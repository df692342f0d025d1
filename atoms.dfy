/** The content atom model shared by the extractor and the layout engine.

    html2pptx encodes an atom as a plain string: an image is the
    string "img_src:" followed by its url, anything else is text. Here the two
    kinds are the constructors of `Atom`, so no prefix matching is needed. */
module Atoms {

  datatype Option<+T> = None | Some(value: T)

  /** The conditions that abort a conversion. */
  datatype Error =
    | ContentNotFound              // the selector matched nothing
    | MissingImageSource           // an <img> element without a src attribute
    | ImageFetchError(url: string) // no native size could be obtained for this image

  datatype Result<+T> = Ok(value: T) | Err(error: Error)

  /** Two partial results one after the other: the first failure is kept,
      otherwise the values are concatenated. */
  function Then<T>(a: Result<seq<T>>, b: Result<seq<T>>): (r: Result<seq<T>>)
    ensures r.Ok? <==> a.Ok? && b.Ok?
    ensures r.Ok? ==> r.value == a.value + b.value
    ensures a.Err? ==> r == a
    ensures a.Ok? && b.Err? ==> r == b
  {
    if a.Err? then a else if b.Err? then b else Ok(a.value + b.value)
  }

  lemma ThenAssociative<T>(a: Result<seq<T>>, b: Result<seq<T>>, c: Result<seq<T>>)
    ensures Then(Then(a, b), c) == Then(a, Then(b, c))
  {
    if a.Ok? && b.Ok? && c.Ok? {
      assert (a.value + b.value) + c.value == a.value + (b.value + c.value);
    }
  }

  lemma ThenUnit<T>(a: Result<seq<T>>)
    ensures Then(a, Ok([])) == a && Then(Ok([]), a) == a
  {
    if a.Ok? {
      assert a.value + [] == a.value;
      assert [] + a.value == a.value;
    }
  }

  /** One unit of slide content: `Text(s)` stands for the string s,
      `Image(url)` for the string "img_src:" + url. */
  datatype Atom = Text(s: string) | Image(url: string)

  /** An ordered sequence of atoms, one per direct element child of the selected node. */
  type Slide = seq<Atom>
}
