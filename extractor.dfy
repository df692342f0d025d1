/** The content extractor (main.py:56-117): for the first node the selector
    matched, one slide per direct element child, each slide the ordered atoms
    of that child's subtree. */
module Extractor {
  import opened Atoms
  import opened Strings
  import opened Markup

  /** An element whose whole text becomes one merged atom: it is not an
      image, has no `.string`, and some direct string survives cleaning. */
  predicate Merges(c: Node)
  {
    c.Element? && c.name != "img" && StringOf(c).None? && Sanitized(DirectStrings(c.children)) != []
  }

  /** An element the extractor descends into: not an image, no `.string`,
      and no direct string that survives cleaning. */
  predicate Descends(c: Node)
  {
    c.Element? && c.name != "img" && StringOf(c).None? && Sanitized(DirectStrings(c.children)) == []
  }

  /** The atoms one child contributes (the body of the loop at main.py:73-116). */
  function ExtractChild(c: Node): Result<seq<Atom>>
    decreases c
  {
    match c
    case TextNode(_) => Ok([])
    case Element(name, src, kids) =>
      if name == "img" then
        (if src.Some? then Ok([Image(src.value)]) else Err(MissingImageSource))
      else if StringOf(c).Some? then
        var t := Strip(StringOf(c).value);
        Ok(if t != "" then [Text(t)] else [])
      else if Sanitized(DirectStrings(kids)) != [] then
        Ok([Text(Join(Sanitized(AllStrings(kids))))])
      else
        Extract(kids)
  }

  /** The atoms of a sequence of children, in order (parse_tag_contents). */
  function Extract(cs: seq<Node>): Result<seq<Atom>>
    decreases cs
  {
    if cs == [] then Ok([]) else Then(ExtractChild(cs[0]), Extract(cs[1..]))
  }

  /** Every text atom is non-empty and trimmed. */
  predicate CleanAtoms(atoms: seq<Atom>)
  {
    forall i :: 0 <= i < |atoms| && atoms[i].Text? ==> atoms[i].s != "" && IsTrimmed(atoms[i].s)
  }

  /** Extraction of a concatenation is the concatenation of the extractions. */
  lemma {:induction false} ExtractConcat(a: seq<Node>, b: seq<Node>)
    ensures Extract(a + b) == Then(Extract(a), Extract(b))
  {
    if a == [] {
      assert a + b == b;
      ThenUnit(Extract(b));
    } else {
      assert (a + b)[0] == a[0];
      assert (a + b)[1..] == a[1..] + b;
      ExtractConcat(a[1..], b);
      ThenAssociative(ExtractChild(a[0]), Extract(a[1..]), Extract(b));
    }
  }

  /** The loop step: the first i + 1 children are the first i and then child i. */
  lemma ExtractPrefix(cs: seq<Node>, i: nat)
    requires i < |cs|
    ensures Extract(cs[..i + 1]) == Then(Extract(cs[..i]), ExtractChild(cs[i]))
  {
    assert cs[..i + 1] == cs[..i] + [cs[i]];
    ExtractConcat(cs[..i], [cs[i]]);
    ExtractSingle(cs[i]);
  }

  lemma ExtractSingle(c: Node)
    ensures Extract([c]) == ExtractChild(c)
  {
    assert [c][1..] == [];
    ThenUnit(ExtractChild(c));
  }

  /** Text nodes directly among the children contribute nothing. */
  lemma TextNodeIgnored(before: seq<Node>, s: string, after: seq<Node>)
    ensures Extract(before + [TextNode(s)] + after) == Extract(before + after)
  {
    ExtractConcat(before + [TextNode(s)], after);
    ExtractConcat(before, [TextNode(s)]);
    ExtractConcat(before, after);
    ExtractSingle(TextNode(s));
    ThenUnit(Extract(before));
  }

  /** An image is terminal: it yields one atom carrying its src, whatever its subtree. */
  lemma ImageIsTerminal(before: seq<Node>, url: string, kids: seq<Node>, after: seq<Node>)
    ensures Extract(before + [Element("img", Some(url), kids)] + after)
         == Then(Then(Extract(before), Ok([Image(url)])), Extract(after))
  {
    var c := Element("img", Some(url), kids);
    ExtractConcat(before + [c], after);
    ExtractConcat(before, [c]);
    ExtractSingle(c);
  }

  /** Descending splices the child's atoms in at its position: the element
      could be replaced by its children without changing the result. */
  lemma Splice(before: seq<Node>, c: Node, after: seq<Node>)
    requires Descends(c)
    ensures Extract(before + [c] + after) == Extract(before + c.children + after)
  {
    ExtractConcat(before + [c], after);
    ExtractConcat(before, [c]);
    ExtractConcat(before + c.children, after);
    ExtractConcat(before, c.children);
    ExtractSingle(c);
  }

  /** A merging element yields exactly one atom: the space-join of all its
      cleaned descendant strings, a non-empty trimmed string. */
  lemma MergedText(c: Node)
    requires Merges(c)
    ensures ExtractChild(c) == Ok([Text(Join(Sanitized(AllStrings(c.children))))])
    ensures Join(Sanitized(AllStrings(c.children))) != ""
    ensures IsTrimmed(Join(Sanitized(AllStrings(c.children))))
  {
    DirectStringsSurvive(c.children);
    JoinTrimmed(Sanitized(AllStrings(c.children)));
  }

  lemma {:induction false} DirectStringsConcat(a: seq<Node>, b: seq<Node>)
    ensures DirectStrings(a + b) == DirectStrings(a) + DirectStrings(b)
  {
    if a == [] {
      assert a + b == b;
    } else {
      assert (a + b)[1..] == a[1..] + b;
      DirectStringsConcat(a[1..], b);
    }
  }

  /** A conditional comment contributes nothing to a merged atom: inserting
      one among a merging element's children changes nothing. */
  lemma ConditionalCommentNotMerged(name: string, src: Option<string>, a: seq<Node>, x: string, b: seq<Node>)
    requires Merges(Element(name, src, a + b))
    requires IsConditionalComment(Strip(x))
    ensures Merges(Element(name, src, a + [TextNode(x)] + b))
    ensures ExtractChild(Element(name, src, a + [TextNode(x)] + b)) == ExtractChild(Element(name, src, a + b))
  {
    var c, c' := Element(name, src, a + b), Element(name, src, a + [TextNode(x)] + b);
    assert |c'.children| == |a + b| + 1 >= 2;
    InsertDirect(a, x, b);
    ConditionalCommentDropped(DirectStrings(a), x, DirectStrings(b));
    assert Merges(c');
    MergedText(c);
    MergedText(c');
    InsertAll(a, x, b);
    ConditionalCommentDropped(AllStrings(a), x, AllStrings(b));
  }

  lemma InsertDirect(a: seq<Node>, x: string, b: seq<Node>)
    ensures DirectStrings(a + [TextNode(x)] + b) == DirectStrings(a) + [x] + DirectStrings(b)
    ensures DirectStrings(a + b) == DirectStrings(a) + DirectStrings(b)
  {
    DirectStringsConcat(a + [TextNode(x)], b);
    DirectStringsConcat(a, [TextNode(x)]);
    DirectStringsConcat(a, b);
    assert [TextNode(x)][1..] == [];
    assert DirectStrings([TextNode(x)]) == [x];
  }

  lemma InsertAll(a: seq<Node>, x: string, b: seq<Node>)
    ensures AllStrings(a + [TextNode(x)] + b) == AllStrings(a) + [x] + AllStrings(b)
    ensures AllStrings(a + b) == AllStrings(a) + AllStrings(b)
  {
    AllStringsConcat(a + [TextNode(x)], b);
    AllStringsConcat(a, [TextNode(x)]);
    AllStringsConcat(a, b);
    assert AllStrings([TextNode(x)]) == [x] + AllStrings([]);
  }

  /** The single-string branch applies no conditional-comment filter: an
      element whose only child is a conditional comment yields that comment
      as a text atom. */
  lemma SoleConditionalCommentKept(name: string, src: Option<string>, x: string)
    requires name != "img" && IsConditionalComment(Strip(x))
    ensures ExtractChild(Element(name, src, [TextNode(x)])) == Ok([Text(Strip(x))])
    ensures IsConditionalComment(Strip(x)) && Strip(x) != ""
  {
    var c := Element(name, src, [TextNode(x)]);
    assert StringOf(c) == Some(x);
    assert |Strip(x)| >= |ConditionalCommentPrefix|;
  }

  /** Every text atom the extractor emits is non-empty and trimmed. */
  lemma {:induction false} ExtractClean(cs: seq<Node>)
    requires Extract(cs).Ok?
    ensures CleanAtoms(Extract(cs).value)
    decreases cs, 1
  {
    if cs != [] {
      ExtractChildClean(cs[0]);
      ExtractClean(cs[1..]);
    }
  }

  lemma {:induction false} ExtractChildClean(c: Node)
    requires ExtractChild(c).Ok?
    ensures CleanAtoms(ExtractChild(c).value)
    decreases c, 0
  {
    if c.Element? && c.name != "img" {
      if StringOf(c).None? {
        if Sanitized(DirectStrings(c.children)) != [] {
          MergedText(c);
        } else {
          ExtractClean(c.children);
        }
      }
    }
  }

  /** One slide per element child of the selected node (main.py:60-63). */
  function SlideOf(c: Node): Result<seq<Slide>>
  {
    if c.TextNode? then Ok([])
    else match Extract(c.children)
      case Ok(atoms) => Ok([atoms])
      case Err(e) => Err(e)
  }

  function SlidesOf(cs: seq<Node>): Result<seq<Slide>>
  {
    if cs == [] then Ok([]) else Then(SlideOf(cs[0]), SlidesOf(cs[1..]))
  }

  /** The element children among `cs`, in order. */
  function Elements(cs: seq<Node>): (r: seq<Node>)
    ensures forall i :: 0 <= i < |r| ==> r[i].Element?
  {
    if cs == [] then []
    else (if cs[0].Element? then [cs[0]] else []) + Elements(cs[1..])
  }

  /** The extractor's answer for the nodes matched by the selector. */
  function Slides(matches: seq<Node>): Result<seq<Slide>>
    requires forall i :: 0 <= i < |matches| ==> matches[i].Element?
  {
    if matches == [] then Err(ContentNotFound) else SlidesOf(matches[0].children)
  }

  /** The extraction fails iff the extraction of one element child fails. */
  lemma {:induction false} SlidesOfOk(cs: seq<Node>)
    ensures SlidesOf(cs).Ok? <==> forall k :: 0 <= k < |Elements(cs)| ==> Extract(Elements(cs)[k].children).Ok?
  {
    if cs != [] {
      SlidesOfOk(cs[1..]);
      var es := Elements(cs);
      var rest := Elements(cs[1..]);
      assert SlidesOf(cs[1..]).Ok? ==> forall k :: 0 <= k < |Elements(cs[1..])| ==> Extract(Elements(cs[1..])[k].children).Ok?;
      assert SlidesOf(cs[1..]).Ok? <== forall k :: 0 <= k < |Elements(cs[1..])| ==> Extract(Elements(cs[1..])[k].children).Ok?;
      assert SlidesOf(cs) == Then(SlideOf(cs[0]), SlidesOf(cs[1..]));
      if cs[0].Element? {
        assert es == [cs[0]] + rest;
        assert es[0] == cs[0];
        assert SlideOf(cs[0]).Ok? <==> Extract(cs[0].children).Ok?;
        if SlidesOf(cs).Ok? {
          assert SlideOf(cs[0]).Ok? && SlidesOf(cs[1..]).Ok?;
          assert forall k :: 0 <= k < |rest| ==> Extract(rest[k].children).Ok?;
          forall k | 0 <= k < |es|
            ensures Extract(es[k].children).Ok?
          {
            if k > 0 {
              assert es[k] == rest[k - 1];
            }
          }
        } else if SlidesOf(cs[1..]).Ok? {
          assert !Extract(es[0].children).Ok?;
        } else {
          var k :| 0 <= k < |rest| && !Extract(rest[k].children).Ok?;
          assert es[k + 1] == rest[k];
        }
      } else {
        assert es == rest;
        assert SlideOf(cs[0]) == Ok([]);
        ThenUnit(SlidesOf(cs[1..]));
      }
    }
  }

  /** The slides are exactly the extractions of the element children, one
      each, in order. */
  lemma {:induction false} SlidesOfElements(cs: seq<Node>)
    requires SlidesOf(cs).Ok?
    ensures |SlidesOf(cs).value| == |Elements(cs)|
    ensures forall k :: 0 <= k < |Elements(cs)| ==> Extract(Elements(cs)[k].children) == Ok(SlidesOf(cs).value[k])
  {
    if cs != [] {
      var es := Elements(cs);
      var rest := Elements(cs[1..]);
      assert SlidesOf(cs) == Then(SlideOf(cs[0]), SlidesOf(cs[1..]));
      SlidesOfElements(cs[1..]);
      if cs[0].Element? {
        assert es == [cs[0]] + rest;
        var v, vr := SlidesOf(cs).value, SlidesOf(cs[1..]).value;
        assert v == [Extract(cs[0].children).value] + vr;
        forall k | 0 <= k < |es|
          ensures Extract(es[k].children) == Ok(v[k])
        {
          if k > 0 {
            assert es[k] == rest[k - 1] && v[k] == vr[k - 1];
          }
        }
      } else {
        assert es == rest;
        assert SlideOf(cs[0]) == Ok([]);
        ThenUnit(SlidesOf(cs[1..]));
      }
    }
  }

  lemma SlidesOfPrefix(cs: seq<Node>, i: nat)
    requires i < |cs|
    ensures SlidesOf(cs[..i + 1]) == Then(SlidesOf(cs[..i]), SlideOf(cs[i]))
  {
    assert cs[..i + 1] == cs[..i] + [cs[i]];
    SlidesOfConcat(cs[..i], [cs[i]]);
    assert [cs[i]][1..] == [];
    ThenUnit(SlideOf(cs[i]));
  }

  lemma {:induction false} SlidesOfConcat(a: seq<Node>, b: seq<Node>)
    ensures SlidesOf(a + b) == Then(SlidesOf(a), SlidesOf(b))
  {
    if a == [] {
      assert a + b == b;
      ThenUnit(SlidesOf(b));
    } else {
      assert (a + b)[0] == a[0];
      assert (a + b)[1..] == a[1..] + b;
      SlidesOfConcat(a[1..], b);
      ThenAssociative(SlideOf(a[0]), SlidesOf(a[1..]), SlidesOf(b));
    }
  }

  /** The cleaning loops of main.py:89-94 and 100-105. */
  method SanitizeStrings(strings: seq<string>) returns (sanitized: seq<string>)
    ensures sanitized == Sanitized(strings)
  {
    sanitized := [];
    for i := 0 to |strings|
      invariant sanitized == Sanitized(strings[..i])
    {
      SanitizedSnoc(strings, i);
      var s := Strip(strings[i]);
      if IsConditionalComment(s) {
        s := "";
      }
      if s != "" {
        sanitized := sanitized + [s];
      }
    }
    assert strings[..|strings|] == strings;
  }

  lemma SanitizedSnoc(ss: seq<string>, i: nat)
    requires i < |ss|
    ensures Sanitized(ss[..i + 1]) == Sanitized(ss[..i]) + Kept(ss[i])
  {
    assert ss[..i + 1] == ss[..i] + [ss[i]];
    SanitizedConcat(ss[..i], [ss[i]]);
    assert [ss[i]][1..] == [];
    assert Sanitized([ss[i]]) == Kept(ss[i]) + Sanitized([]);
  }

  /** parse_tag_contents (main.py:71-117) over the children of `tag`. */
  method ParseTagContents(tag: Node) returns (r: Result<seq<Atom>>)
    requires tag.Element?
    ensures r == Extract(tag.children)
    ensures r.Ok? ==> CleanAtoms(r.value)
    decreases tag
  {
    var children := tag.children;
    var tagData: seq<Atom> := [];
    for i := 0 to |children|
      invariant Extract(children[..i]) == Ok(tagData)
    {
      var child := children[i];
      ExtractPrefix(children, i);
      if child.Element? {
        if child.name == "img" {
          if child.src.None? {
            FailureStays(children, i + 1);
            return Err(MissingImageSource);
          }
          assert ExtractChild(child) == Ok([Image(child.src.value)]);
          tagData := tagData + [Image(child.src.value)];
        } else if StringOf(child).Some? {
          var s := Strip(StringOf(child).value);
          assert ExtractChild(child) == Ok(if s != "" then [Text(s)] else []);
          if s != "" {
            tagData := tagData + [Text(s)];
          }
        } else {
          var direct := SanitizeStrings(DirectStrings(child.children));
          var recursive := SanitizeStrings(AllStrings(child.children));
          if |direct| > 0 {
            assert ExtractChild(child) == Ok([Text(Join(recursive))]);
            tagData := tagData + [Text(Join(recursive))];
            continue;
          }
          var sub := ParseTagContents(child);
          if sub.Err? {
            FailureStays(children, i + 1);
            return sub;
          }
          assert ExtractChild(child) == sub;
          tagData := tagData + sub.value;
        }
      }
      assert Extract(children[..i + 1]) == Ok(tagData) by { ThenUnit(Ok(tagData)); }
    }
    assert children[..|children|] == children;
    r := Ok(tagData);
    ExtractClean(children);
  }

  /** Once a prefix of the children fails, the whole fails the same way. */
  lemma FailureStays(cs: seq<Node>, i: nat)
    requires i <= |cs| && Extract(cs[..i]).Err?
    ensures Extract(cs) == Extract(cs[..i])
  {
    assert cs == cs[..i] + cs[i..];
    ExtractConcat(cs[..i], cs[i..]);
  }

  /** html_to_slides (main.py:56-64) on the nodes the selector matched. The
      program indexes the first match unconditionally and faults when there
      is none; here an empty match is the error ContentNotFound. */
  method HtmlToSlides(matches: seq<Node>) returns (r: Result<seq<Slide>>)
    requires forall i :: 0 <= i < |matches| ==> matches[i].Element?
    ensures r == Slides(matches)
    ensures matches == [] ==> r == Err(ContentNotFound)
    ensures r.Ok? ==> forall k :: 0 <= k < |r.value| ==> CleanAtoms(r.value[k])
  {
    if |matches| == 0 {
      return Err(ContentNotFound);
    }
    var children := matches[0].children;
    var slides: seq<Slide> := [];
    for i := 0 to |children|
      invariant SlidesOf(children[..i]) == Ok(slides)
      invariant forall k :: 0 <= k < |slides| ==> CleanAtoms(slides[k])
    {
      SlidesOfPrefix(children, i);
      var child := children[i];
      if child.Element? {
        var slide := ParseTagContents(child);
        if slide.Err? {
          assert children == children[..i + 1] + children[i + 1..];
          SlidesOfConcat(children[..i + 1], children[i + 1..]);
          return Err(slide.error);
        }
        slides := slides + [slide.value];
      }
      assert SlidesOf(children[..i + 1]) == Ok(slides) by { ThenUnit(Ok(slides)); }
    }
    assert children[..|children|] == children;
    r := Ok(slides);
  }
}
