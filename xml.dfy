/** An already parsed XML element tree, as `xml.etree.ElementTree` exposes
    it: a tag, the text before the first child (absent for an element with
    no text), the attributes and the child elements in document order. */
module Xml {
  import opened Wrappers

  datatype Element = Element(tag: string, text: Option<string>, attrs: map<string, string>, children: seq<Element>)

  /** What opening and parsing the file yielded: no file at the path, a file
      the parser rejected with a diagnostic, a path that exists but could
      not be read (a directory, a file without read permission) with the
      error's text, or the root element. */
  datatype XmlFile = Missing | Malformed(diagnostic: string) | Unreadable(message: string) | Parsed(root: Element)

  /** `child.text if child.text is not None else ""`. */
  function TextOf(e: Element): string
  {
    if e.text.Some? then e.text.value else ""
  }

  /** `e.get(name, default)`. */
  function Attr(e: Element, name: string, default: string): (r: string)
    ensures name in e.attrs ==> r == e.attrs[name]
    ensures name !in e.attrs ==> r == default
  {
    if name in e.attrs then e.attrs[name] else default
  }

  /** `e.findall(tag)` for a plain tag: the direct children with that tag,
      in document order. */
  function FindAll(es: seq<Element>, tag: string): (r: seq<Element>)
    ensures |r| <= |es|
    ensures forall i :: 0 <= i < |r| ==> r[i].tag == tag && r[i] in es
    ensures (forall i :: 0 <= i < |es| ==> es[i].tag == tag) ==> r == es
    ensures (forall i :: 0 <= i < |es| ==> es[i].tag != tag) ==> r == []
    ensures forall e :: e in r <==> e in es && e.tag == tag
  {
    if es == [] then []
    else
      var r := FindAll(es[..|es| - 1], tag);
      if es[|es| - 1].tag == tag then r + [es[|es| - 1]] else r
  }

  /** Filtering keeps document order: the children after `es` are filtered
      on their own and come after the children `es` keeps. */
  lemma {:induction false} FindAllAppend(es: seq<Element>, more: seq<Element>, tag: string)
    ensures FindAll(es + more, tag) == FindAll(es, tag) + FindAll(more, tag)
    decreases |more|
  {
    if more == [] {
      assert es + more == es;
    } else {
      var n := |more| - 1;
      assert (es + more)[..|es + more| - 1] == es + more[..n];
      assert (es + more)[|es + more| - 1] == more[n];
      FindAllAppend(es, more[..n], tag);
    }
  }
}
