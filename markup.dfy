/** The markup tree the extractor walks, and the three queries it makes of
    the parser library: a tag's `.string`, its direct strings
    (`find_all(string=True, recursive=False)`) and all its descendant strings
    (`find_all(string=True, recursive=True)`). */
module Markup {
  import opened Atoms
  import Strings

  /** `TextNode` stands for every string node of the parser, comments
      included: both `.string` and `find_all(string=True)` return comment
      nodes like any other string. `src` is the element's src attribute. */
  datatype Node =
    | Element(name: string, src: Option<string>, children: seq<Node>)
    | TextNode(text: string)

  /** The parser's `.string`: a text node is its own string; an element has
      one exactly when it has a single child and that child has one. */
  function StringOf(n: Node): Option<string>
  {
    match n
    case TextNode(s) => Some(s)
    case Element(_, _, kids) => if |kids| == 1 then StringOf(kids[0]) else None
  }

  /** The text nodes among `cs`, in order (no descent into elements). */
  function DirectStrings(cs: seq<Node>): seq<string>
  {
    if cs == [] then []
    else (if cs[0].TextNode? then [cs[0].text] else []) + DirectStrings(cs[1..])
  }

  /** All text nodes of the forest `cs`, at any depth, in document order. */
  function AllStrings(cs: seq<Node>): seq<string>
  {
    if cs == [] then []
    else NodeStrings(cs[0]) + AllStrings(cs[1..])
  }

  /** The text nodes of one node's subtree, the node itself included. */
  function NodeStrings(n: Node): seq<string>
  {
    match n
    case TextNode(s) => [s]
    case Element(_, _, kids) => AllStrings(kids)
  }

  lemma {:induction false} AllStringsConcat(a: seq<Node>, b: seq<Node>)
    ensures AllStrings(a + b) == AllStrings(a) + AllStrings(b)
  {
    if a == [] {
      assert a + b == b;
    } else {
      assert (a + b)[1..] == a[1..] + b;
      AllStringsConcat(a[1..], b);
    }
  }

  /** An element's `.string`, when it has one, is the whole of its text:
      its subtree holds that one text node and no other. */
  lemma {:induction false} StringIsWholeText(n: Node)
    requires StringOf(n).Some?
    ensures NodeStrings(n) == [StringOf(n).value]
  {
    match n
    case TextNode(_) =>
    case Element(_, _, kids) =>
      StringIsWholeText(kids[0]);
      assert kids == [kids[0]] + kids[1..];
      assert AllStrings(kids[1..]) == [];
  }

  /** Direct strings are among the descendant strings: when some direct
      string survives cleaning, so does some descendant string. */
  lemma {:induction false} DirectStringsSurvive(cs: seq<Node>)
    requires Strings.Sanitized(DirectStrings(cs)) != []
    ensures Strings.Sanitized(AllStrings(cs)) != []
  {
    var d := if cs[0].TextNode? then [cs[0].text] else [];
    assert DirectStrings(cs) == d + DirectStrings(cs[1..]);
    Strings.SanitizedConcat(d, DirectStrings(cs[1..]));
    Strings.SanitizedConcat(NodeStrings(cs[0]), AllStrings(cs[1..]));
    if Strings.Sanitized(d) == [] {
      DirectStringsSurvive(cs[1..]);
    } else {
      assert NodeStrings(cs[0]) == d;
    }
  }
}
