/** The element tree the registry answers with, the relative XPath queries
    the mapper uses (`./A/B`, `./A/B/text()`), and the two helpers every
    extractor goes through: `extract_first` and `get_inner_html`. */
module Xml {
  import opened Wrappers
  import opened PyBuiltins

  /** An element as lxml presents it: `text` is the character data before
      the first child, `tail` the character data after the closing tag. */
  datatype Element = Element(
    tag: string,
    attrs: map<string, string>,
    text: Option<string>,
    tail: Option<string>,
    children: seq<Element>)

  /** `element.get(name)` */
  function Attr(e: Element, name: string): Option<string> {
    if name in e.attrs then Some(e.attrs[name]) else None
  }

  /** A text node exists only for non-empty character data, and `if s:`
      accepts exactly the same strings. */
  function Pieces(o: Option<string>): seq<string> {
    if o.Some? && o.value != "" then [o.value] else []
  }

  function TailPieces(cs: seq<Element>): seq<string>
    decreases |cs|
  {
    if cs == [] then [] else TailPieces(cs[..|cs| - 1]) + Pieces(cs[|cs| - 1].tail)
  }

  /** `e.xpath('text()')`: the element's own text, then each child's tail. */
  function TextNodes(e: Element): seq<string> {
    Pieces(e.text) + TailPieces(e.children)
  }

  /** The children with a given tag, in document order. */
  function Tagged(cs: seq<Element>, tag: string): (r: seq<Element>)
    ensures |r| <= |cs|
    decreases |cs|
  {
    if cs == [] then []
    else Tagged(cs[..|cs| - 1], tag) + (if cs[|cs| - 1].tag == tag then [cs[|cs| - 1]] else [])
  }

  /** `Tagged` keeps exactly the children with that tag. */
  lemma {:induction false} TaggedMembers(cs: seq<Element>, tag: string)
    ensures forall x :: x in Tagged(cs, tag) <==> x in cs && x.tag == tag
    decreases |cs|
  {
    if cs != [] {
      var n := |cs| - 1;
      TaggedMembers(cs[..n], tag);
      assert cs == cs[..n] + [cs[n]];
      forall x | x in cs
        ensures x in cs[..n] || x == cs[n]
      {
      }
    }
  }

  /** The child step keeps document order: it is empty exactly when no
      child has the tag, and otherwise starts with the first child that
      has it, which is what `extract_first` and `[0]` take. */
  lemma {:induction false} TaggedFirst(cs: seq<Element>, tag: string)
    ensures Tagged(cs, tag) == [] <==> forall j :: 0 <= j < |cs| ==> cs[j].tag != tag
    ensures Tagged(cs, tag) != [] ==>
      exists k :: (0 <= k < |cs| && cs[k].tag == tag && Tagged(cs, tag)[0] == cs[k] &&
                   forall j :: 0 <= j < k ==> cs[j].tag != tag)
    decreases |cs|
  {
    if cs != [] {
      var n := |cs| - 1;
      var init := cs[..n];
      TaggedFirst(init, tag);
      assert forall j :: 0 <= j < n ==> cs[j] == init[j];
      if Tagged(init, tag) != [] {
        var k :| (0 <= k < n && init[k].tag == tag && Tagged(init, tag)[0] == init[k] &&
                  forall j :: 0 <= j < k ==> init[j].tag != tag);
        assert Tagged(cs, tag)[0] == cs[k];
      } else if cs[n].tag == tag {
        assert Tagged(cs, tag) == [cs[n]];
      }
    }
  }

  /** `e.xpath('./A/B/...')` with `path == ["A", "B", ...]`, in document
      order. */
  function Select(e: Element, path: seq<string>): seq<Element>
    decreases |path|, 0
  {
    if path == [] then [e] else SelectAll(Tagged(e.children, path[0]), path[1..])
  }

  function SelectAll(es: seq<Element>, path: seq<string>): seq<Element>
    decreases |path|, |es|
  {
    if es == [] then [] else SelectAll(es[..|es| - 1], path) + Select(es[|es| - 1], path)
  }

  function AllTextNodes(es: seq<Element>): seq<string>
    decreases |es|
  {
    if es == [] then [] else AllTextNodes(es[..|es| - 1]) + TextNodes(es[|es| - 1])
  }

  /** `e.xpath('./A/B/text()')` */
  function TextAt(e: Element, path: seq<string>): seq<string> {
    AllTextNodes(Select(e, path))
  }

  /** `extract_first(xs)`: the first item of a non-empty list, else None. */
  function ExtractFirst<T>(xs: seq<T>): (r: Option<T>)
    ensures r.None? <==> xs == []
    ensures r.Some? ==> r.value == xs[0]
  {
    if |xs| >= 1 then Some(xs[0]) else None
  }

  /** `extract_first(e.xpath('./A/B/text()'))` */
  function FirstTextAt(e: Element, path: seq<string>): Option<string> {
    ExtractFirst(TextAt(e, path))
  }

  /** `extract_first(e.xpath('./A/B'))` */
  function FirstAt(e: Element, path: seq<string>): Option<Element> {
    ExtractFirst(Select(e, path))
  }

  /** `xs[0]` on an XPath result: `IndexError` when it is empty. */
  function Index0<T>(xs: seq<T>): (r: Result<T, PyError>)
    ensures r.Err? <==> xs == []
    ensures r.Err? ==> r.error == IndexError
    ensures r.Ok? ==> r.value == xs[0]
  {
    if |xs| == 0 then Err(IndexError) else Ok(xs[0])
  }

  /** A text node is never empty, so every string `text()` yields is truthy. */
  lemma {:induction false} TextNodesNonEmpty(es: seq<Element>)
    ensures forall t :: t in AllTextNodes(es) ==> t != ""
    decreases |es|
  {
    if es != [] {
      TextNodesNonEmpty(es[..|es| - 1]);
      TailPiecesNonEmpty(es[|es| - 1].children);
    }
  }

  lemma {:induction false} TailPiecesNonEmpty(cs: seq<Element>)
    ensures forall t :: t in TailPieces(cs) ==> t != ""
    decreases |cs|
  {
    if cs != [] {
      TailPiecesNonEmpty(cs[..|cs| - 1]);
    }
  }

  /** Concatenation of a list of strings: `''.join(xs)`. */
  function Join(xs: seq<string>): string
    decreases |xs|
  {
    if xs == [] then "" else Join(xs[..|xs| - 1]) + xs[|xs| - 1]
  }

  lemma {:induction false} JoinAppend(xs: seq<string>, ys: seq<string>)
    ensures Join(xs + ys) == Join(xs) + Join(ys)
    decreases |ys|
  {
    if ys == [] {
      assert xs + ys == xs;
    } else {
      var n := |ys| - 1;
      assert (xs + ys)[..|xs + ys| - 1] == xs + ys[..n];
      JoinAppend(xs, ys[..n]);
    }
  }

  /** The text and tail of each child in turn; grandchildren are not looked at. */
  function ChildPieces(cs: seq<Element>): seq<string>
    decreases |cs|
  {
    if cs == [] then []
    else ChildPieces(cs[..|cs| - 1]) + Pieces(cs[|cs| - 1].text) + Pieces(cs[|cs| - 1].tail)
  }

  lemma ChildPiecesStep(cs: seq<Element>, i: nat)
    requires i < |cs|
    ensures ChildPieces(cs[..i + 1]) == ChildPieces(cs[..i]) + Pieces(cs[i].text) + Pieces(cs[i].tail)
  {
    assert cs[..i + 1][..i] == cs[..i];
  }

  /** The pieces `get_inner_html` concatenates, in order. */
  function InnerPieces(e: Element): seq<string> {
    Pieces(e.text) + ChildPieces(e.children) + Pieces(e.tail)
  }

  /** `get_inner_html(e, strip)`: "" for a missing element, otherwise the
      joined pieces, stripped when asked. */
  function InnerHtml(e: Option<Element>, strip: bool): (r: string)
    ensures e.None? ==> r == ""
    ensures strip ==> r == [] || (!IsSpace(r[0]) && !IsSpace(r[|r| - 1]))
  {
    if e.None? then ""
    else
      var text := Join(InnerPieces(e.value));
      if strip then Strip(text) else text
  }

  /** `if s: texts.append(s)` */
  method AppendIfTruthy(texts: seq<string>, s: Option<string>) returns (r: seq<string>)
    ensures r == texts + Pieces(s)
  {
    r := texts;
    if s.Some? && s.value != "" {
      r := r + [s.value];
    }
  }

  /** The loop of `get_inner_html`, appending to a list of texts. */
  method GetInnerHtml(e: Option<Element>, strip: bool) returns (r: string)
    ensures r == InnerHtml(e, strip)
  {
    var texts: seq<string> := [];
    if e.None? {
      return "";
    }
    var element := e.value;
    texts := AppendIfTruthy(texts, element.text);
    for i := 0 to |element.children|
      invariant texts == Pieces(element.text) + ChildPieces(element.children[..i])
    {
      var child := element.children[i];
      texts := AppendIfTruthy(texts, child.text);
      texts := AppendIfTruthy(texts, child.tail);
      ChildPiecesStep(element.children, i);
      assert texts == Pieces(element.text) + (ChildPieces(element.children[..i]) + Pieces(child.text) + Pieces(child.tail));
    }
    assert element.children[..|element.children|] == element.children;
    texts := AppendIfTruthy(texts, element.tail);
    r := Join(texts);
    if strip {
      r := Strip(r);
    }
  }

  /** Only the element's own text and tail and its children's text and
      tail matter: two elements that agree on those flatten alike, whatever
      their grandchildren are. */
  lemma {:induction false} InnerHtmlIgnoresGrandchildren(e: Element, f: Element, strip: bool)
    requires e.text == f.text && e.tail == f.tail && |e.children| == |f.children|
    requires forall i :: 0 <= i < |e.children| ==>
      e.children[i].text == f.children[i].text && e.children[i].tail == f.children[i].tail
    ensures InnerHtml(Some(e), strip) == InnerHtml(Some(f), strip)
  {
    ChildPiecesAgree(e.children, f.children);
  }

  lemma {:induction false} ChildPiecesAgree(cs: seq<Element>, ds: seq<Element>)
    requires |cs| == |ds|
    requires forall i :: 0 <= i < |cs| ==> cs[i].text == ds[i].text && cs[i].tail == ds[i].tail
    ensures ChildPieces(cs) == ChildPieces(ds)
    decreases |cs|
  {
    if cs != [] {
      ChildPiecesAgree(cs[..|cs| - 1], ds[..|ds| - 1]);
    }
  }

  /** A leaf whose text carries no surrounding whitespace flattens to that
      text. */
  lemma InnerHtmlOfLeaf(tag: string, attrs: map<string, string>, t: string)
    requires t == [] || (!IsSpace(t[0]) && !IsSpace(t[|t| - 1]))
    ensures InnerHtml(Some(Element(tag, attrs, Some(t), None, [])), true) == t
  {
    var e := Element(tag, attrs, Some(t), None, []);
    assert ChildPieces([]) == [];
    assert InnerPieces(e) == Pieces(Some(t));
    if t != "" {
      assert Join([t]) == Join([]) + t;
    }
    StripUnchanged(t);
  }
}
