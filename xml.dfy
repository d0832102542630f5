/** The optional value that stands for Python's `None`. */
module Optional {
  datatype Option<+T> = None | Some(value: T)
}

/**
 * The parsed protocol as an ElementTree element tree, the ElementTree path
 * steps the extractors use, and the string helpers `str.strip`,
 * `str.startswith` and `"\n".join`.
 */
module Xml {
  import opened Optional

  /** One element: its tag, its attributes, its text (`None` when the parser
      gave none) and its child elements in document order. */
  datatype Element = Element(tag: string, attrib: map<string, string>, text: Option<string>, children: seq<Element>)

  /** `e.get(name)`: the attribute's value, or `None` when it is absent. */
  function Attr(e: Element, name: string): (r: Option<string>)
    ensures r.Some? <==> name in e.attrib
    ensures r.Some? ==> r.value == e.attrib[name]
  {
    if name in e.attrib then Some(e.attrib[name]) else None
  }

  /** Python's truth value of `e.text`: present and not empty. */
  predicate HasText(e: Element) {
    e.text.Some? && e.text.value != ""
  }

  // ---------------------------------------------------------------------------
  // Tree traversal

  /** `e.iter()`: the element itself followed by its descendants, pre-order. */
  function Subtree(e: Element): (r: seq<Element>)
    decreases e, 1
    ensures |r| >= 1 && r[0] == e
  {
    [e] + Forest(e.children)
  }

  /** The subtrees of a sequence of siblings, one after the other. */
  function Forest(es: seq<Element>): (r: seq<Element>)
    decreases es, 0
    ensures |r| >= |es|
  {
    if es == [] then [] else Subtree(es[0]) + Forest(es[1..])
  }

  /** Every element strictly below `e`, in document order (the `.//` step). */
  function Descendants(e: Element): seq<Element> {
    Forest(e.children)
  }

  /** The elements of `es` with tag `tag`, in order. */
  function Tagged(es: seq<Element>, tag: string): (r: seq<Element>)
    ensures |r| <= |es|
    ensures forall x :: x in r <==> x in es && x.tag == tag
  {
    if es == [] then []
    else (if es[0].tag == tag then [es[0]] else []) + Tagged(es[1..], tag)
  }

  /** The `[@name='value']` predicate applied to a step's result. */
  function WithAttr(es: seq<Element>, name: string, value: string): (r: seq<Element>)
    ensures |r| <= |es|
    ensures forall x :: x in r <==> x in es && Attr(x, name) == Some(value)
  {
    if es == [] then []
    else (if Attr(es[0], name) == Some(value) then [es[0]] else []) + WithAttr(es[1..], name, value)
  }

  /** `e.findall("./tag")`: the children of `e` with that tag. */
  function Children(e: Element, tag: string): seq<Element> {
    Tagged(e.children, tag)
  }

  /** `e.findall(".//tag")`: the descendants of `e` with that tag, in document order. */
  function DescendantsTagged(e: Element, tag: string): seq<Element> {
    Tagged(Descendants(e), tag)
  }

  /** A further `/tag` step applied to every element of a previous step, in order. */
  function Select(es: seq<Element>, tag: string): seq<Element> {
    if es == [] then [] else Children(es[0], tag) + Select(es[1..], tag)
  }

  /** `find`: the first element a path selects, or `None`. */
  function First(es: seq<Element>): (r: Option<Element>)
    ensures r.None? <==> es == []
    ensures r.Some? ==> r.value == es[0]
  {
    if es == [] then None else Some(es[0])
  }

  /** `e.find("./t1/t2/...")`: a chain of child steps from `e`. */
  function FindPath(e: Element, path: seq<string>): Option<Element> {
    First(SelectPath([e], path))
  }

  function SelectPath(es: seq<Element>, path: seq<string>): seq<Element>
    decreases |path|
  {
    if path == [] then es else SelectPath(Select(es, path[0]), path[1..])
  }

  /** Moving the cursor `n` of a loop over `s` one element on. */
  lemma SplitAt<T>(s: seq<T>, n: nat)
    requires n < |s|
    ensures s[n..] == [s[n]] + s[n + 1..]
    ensures s[..n + 1] == s[..n] + [s[n]]
  {
  }

  // ---------------------------------------------------------------------------
  // Strings

  /** Python's `str.isspace` for one character: the characters `str.strip()`
      removes when called without arguments. */
  predicate IsSpace(c: char) {
    var n := c as int;
    (0x09 <= n <= 0x0D) || (0x1C <= n <= 0x20) || n == 0x85 || n == 0xA0 || n == 0x1680
    || (0x2000 <= n <= 0x200A) || n == 0x2028 || n == 0x2029 || n == 0x202F || n == 0x205F
    || n == 0x3000
  }

  /** Neither the first nor the last character is whitespace. */
  predicate IsTrimmed(s: string) {
    s == "" || (!IsSpace(s[0]) && !IsSpace(s[|s| - 1]))
  }

  /** `s.lstrip()`: a suffix of `s`; what it drops is whitespace. */
  function TrimStart(s: string): (r: string)
    ensures |r| <= |s| && r == s[|s| - |r|..]
    ensures forall i :: 0 <= i < |s| - |r| ==> IsSpace(s[i])
    ensures r == "" || !IsSpace(r[0])
  {
    if s != "" && IsSpace(s[0]) then TrimStart(s[1..]) else s
  }

  /** `s.rstrip()`: a prefix of `s`; what it drops is whitespace. */
  function TrimEnd(s: string): (r: string)
    ensures |r| <= |s| && r == s[..|r|]
    ensures forall i :: |r| <= i < |s| ==> IsSpace(s[i])
    ensures r == "" || !IsSpace(r[|r| - 1])
  {
    if s != "" && IsSpace(s[|s| - 1]) then TrimEnd(s[..|s| - 1]) else s
  }

  /** `s.strip()`: the part of `s` between its leading and its trailing
      whitespace. */
  function Trim(s: string): (r: string)
    ensures IsTrimmed(r)
    ensures var a := |s| - |TrimStart(s)|;
            a + |r| <= |s| && r == s[a..a + |r|]
            && (forall i :: 0 <= i < a ==> IsSpace(s[i]))
            && (forall i :: a + |r| <= i < |s| ==> IsSpace(s[i]))
  {
    var t := TrimStart(s);
    var r := TrimEnd(t);
    PrefixOfSuffix(s, t, r);
    r
  }

  /** A prefix `r` of a suffix `t` of `s` is the slice of `s` where `t` starts. */
  lemma PrefixOfSuffix<T>(s: seq<T>, t: seq<T>, r: seq<T>)
    requires |t| <= |s| && t == s[|s| - |t|..]
    requires |r| <= |t| && r == t[..|r|]
    ensures var a := |s| - |t|;
            r == s[a..a + |r|] && forall i :: a <= i < |s| ==> s[i] == t[i - a]
  {
  }

  /** `x.text.strip() if x is not None and x.text else ""`. */
  function StrippedText(x: Option<Element>): (r: string)
    ensures IsTrimmed(r)
    ensures x.None? || !HasText(x.value) ==> r == ""
    ensures x.Some? && HasText(x.value) ==> r == Trim(x.value.text.value)
  {
    if x.Some? && HasText(x.value) then Trim(x.value.text.value) else ""
  }

  /** Two strings without outer whitespace joined give one without it. */
  lemma ConcatTrimmed(a: string, b: string)
    requires IsTrimmed(a) && IsTrimmed(b)
    ensures IsTrimmed(a + b)
  {
    if a != "" && b != "" {
      assert (a + b)[0] == a[0] && (a + b)[|a + b| - 1] == b[|b| - 1];
    } else if a == "" {
      assert a + b == b;
    } else {
      assert a + b == a;
    }
  }

  /** `s.startswith(prefix)`. */
  predicate StartsWith(s: string, prefix: string) {
    |prefix| <= |s| && s[..|prefix|] == prefix
  }

  /** A prefix that begins and ends with a non-space character survives
      stripping when the string does not start with whitespace. */
  lemma StartsWithAfterTrim(s: string, prefix: string)
    requires StartsWith(s, prefix) && prefix != ""
    requires !IsSpace(prefix[0]) && !IsSpace(prefix[|prefix| - 1])
    ensures StartsWith(Trim(s), prefix)
  {
    var t := TrimStart(s);
    assert t == s;
    var r := TrimEnd(t);
    assert s[|prefix| - 1] == prefix[|prefix| - 1];
    assert |r| >= |prefix|;
    assert r[..|prefix|] == s[..|prefix|];
  }

  /** `sep.join(xs)`. */
  function Join(sep: string, xs: seq<string>): (r: string)
    ensures xs == [] ==> r == ""
    ensures |xs| == 1 ==> r == xs[0]
  {
    if xs == [] then ""
    else if |xs| == 1 then xs[0]
    else Join(sep, xs[..|xs| - 1]) + sep + xs[|xs| - 1]
  }

  /** The loop `for e in es: if e.text: out.append(e.text.strip())`: the
      stripped texts of the elements that carry text, in order. */
  function TrimmedTexts(es: seq<Element>): (r: seq<string>)
    ensures |r| <= |es|
    ensures forall i :: 0 <= i < |r| ==> IsTrimmed(r[i])
  {
    if es == [] then []
    else
      var last := es[|es| - 1];
      TrimmedTexts(es[..|es| - 1]) + (if HasText(last) then [Trim(last.text.value)] else [])
  }

  /** One more element adds its stripped text when it has text. */
  lemma TrimmedTextsSnoc(es: seq<Element>, e: Element)
    ensures TrimmedTexts(es + [e]) == TrimmedTexts(es) + if HasText(e) then [Trim(e.text.value)] else []
  {
    assert (es + [e])[..|es|] == es;
  }

  /** The method form of `TrimmedTexts`, as the extractors' loops run it. */
  method CollectTrimmedTexts(es: seq<Element>) returns (texts: seq<string>)
    ensures texts == TrimmedTexts(es)
  {
    texts := [];
    for i := 0 to |es|
      invariant texts == TrimmedTexts(es[..i])
    {
      assert es[..i + 1][..i] == es[..i];
      if es[i].text.Some? && es[i].text.value != "" {
        texts := texts + [Trim(es[i].text.value)];
      }
    }
    assert es[..|es|] == es;
  }
}
