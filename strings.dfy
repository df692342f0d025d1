/** The string operations the extractor relies on: Python's str.strip(),
    " ".join(...) and the conditional-comment test of the extractor. */
module Strings {

  /** Python's str.isspace() for one character. */
  predicate IsSpace(c: char)
  {
    || ('\t' <= c <= '\r')
    || ('\U{1C}' <= c <= ' ')
    || c == '\U{85}' || c == '\U{A0}' || c == '\U{1680}'
    || ('\U{2000}' <= c <= '\U{200A}')
    || c == '\U{2028}' || c == '\U{2029}' || c == '\U{202F}' || c == '\U{205F}' || c == '\U{3000}'
  }

  predicate AllSpace(s: string)
  {
    forall i :: 0 <= i < |s| ==> IsSpace(s[i])
  }

  /** Neither the first nor the last character is white space. */
  predicate IsTrimmed(s: string)
  {
    s == [] || (!IsSpace(s[0]) && !IsSpace(s[|s| - 1]))
  }

  function TrimStart(s: string): (r: string)
    ensures |r| <= |s| && r == s[|s| - |r|..]
    ensures forall i :: 0 <= i < |s| - |r| ==> IsSpace(s[i])
    ensures r == [] || !IsSpace(r[0])
  {
    if s != [] && IsSpace(s[0]) then
      assert forall i :: 1 <= i < |s| ==> s[1..][i - 1] == s[i];
      TrimStart(s[1..])
    else s
  }

  function TrimEnd(s: string): (r: string)
    ensures |r| <= |s| && r == s[..|r|]
    ensures forall i :: |r| <= i < |s| ==> IsSpace(s[i])
    ensures r == [] || !IsSpace(r[|r| - 1])
  {
    if s != [] && IsSpace(s[|s| - 1]) then
      assert forall i :: 0 <= i < |s| - 1 ==> s[..|s| - 1][i] == s[i];
      TrimEnd(s[..|s| - 1])
    else s
  }

  /** Python's s.strip(): TrimEnd after TrimStart, so only white space at
      the two ends is removed (see their contracts). */
  function Strip(s: string): (r: string)
    ensures IsTrimmed(r)
    ensures r == [] <==> AllSpace(s)
  {
    StripParts(s);
    TrimEnd(TrimStart(s))
  }

  lemma StripParts(s: string)
    ensures IsTrimmed(TrimEnd(TrimStart(s)))
    ensures TrimEnd(TrimStart(s)) == [] <==> AllSpace(s)
  {
    var t := TrimStart(s);
    var r := TrimEnd(t);
    var k := |s| - |t|;
    if r != [] {
      assert r[0] == t[0] == s[k];
    } else {
      assert t == [];
    }
  }

  /** A string that is already trimmed is left as it is. */
  lemma StripTrimmed(s: string)
    requires IsTrimmed(s)
    ensures Strip(s) == s
  {
    if s != [] {
      assert TrimStart(s) == s;
    }
  }

  /** Python's " ".join(ss). */
  function Join(ss: seq<string>): string
  {
    if ss == [] then ""
    else if |ss| == 1 then ss[0]
    else ss[0] + " " + Join(ss[1..])
  }

  /** Joining non-empty trimmed strings, at least one, gives a non-empty trimmed string. */
  lemma {:induction false} JoinTrimmed(ss: seq<string>)
    requires ss != []
    requires forall i :: 0 <= i < |ss| ==> ss[i] != "" && IsTrimmed(ss[i])
    ensures Join(ss) != "" && IsTrimmed(Join(ss))
    ensures Join(ss)[0] == ss[0][0]
    ensures Join(ss)[|Join(ss)| - 1] == ss[|ss| - 1][|ss[|ss| - 1]| - 1]
  {
    if |ss| > 1 {
      JoinTrimmed(ss[1..]);
      var tail := Join(ss[1..]);
      assert Join(ss) == ss[0] + " " + tail;
    }
  }

  /** The prefix the regular expression "^\[if mso \| IE\].*" recognises
      (the ".*" part matches any remainder, the empty one included). */
  const ConditionalCommentPrefix: string := "[if mso | IE]"

  predicate IsConditionalComment(s: string)
  {
    ConditionalCommentPrefix <= s
  }

  /** One string as the extractor cleans it: stripped, and replaced by ""
      when it is a conditional comment. */
  function Sanitize(s: string): (r: string)
    ensures r == "" || (r == Strip(s) && !IsConditionalComment(r))
    ensures r != "" <==> (Strip(s) != "" && !IsConditionalComment(Strip(s)))
  {
    var t := Strip(s);
    if IsConditionalComment(t) then "" else t
  }

  /** The cleaned strings that survive, in order (the loops at main.py:89-94 and 100-105). */
  function Sanitized(ss: seq<string>): (r: seq<string>)
    ensures |r| <= |ss|
    ensures forall i :: 0 <= i < |r| ==> r[i] != "" && IsTrimmed(r[i]) && !IsConditionalComment(r[i])
  {
    if ss == [] then []
    else Kept(ss[0]) + Sanitized(ss[1..])
  }

  /** What one string contributes to Sanitized. */
  function Kept(s: string): (r: seq<string>)
    ensures |r| <= 1
    ensures r == [] <==> Sanitize(s) == ""
    ensures forall i :: 0 <= i < |r| ==> r[i] == Sanitize(s)
  {
    if Sanitize(s) != "" then [Sanitize(s)] else []
  }

  /** Cleaning distributes over concatenation. */
  lemma {:induction false} SanitizedConcat(a: seq<string>, b: seq<string>)
    ensures Sanitized(a + b) == Sanitized(a) + Sanitized(b)
  {
    if a == [] {
      assert a + b == b;
    } else {
      assert (a + b)[1..] == a[1..] + b;
      SanitizedConcat(a[1..], b);
    }
  }

  lemma SanitizedSingle(x: string)
    ensures Sanitized([x]) == Kept(x)
  {
    assert [x][1..] == [];
  }

  /** A string that is a conditional comment once stripped is dropped,
      wherever it stands. */
  lemma ConditionalCommentDropped(a: seq<string>, x: string, b: seq<string>)
    requires IsConditionalComment(Strip(x))
    ensures Sanitized(a + [x] + b) == Sanitized(a + b)
  {
    SanitizedConcat(a + [x], b);
    SanitizedConcat(a, [x]);
    SanitizedConcat(a, b);
    SanitizedSingle(x);
  }
}
