/** The two trees the pipeline works with: a read-only summary of each element of a fetched
    chapter page, holding only what the extractor reads, and the output tree it builds. */
module Markup {
  import opened Base

  /** The first `<figure>` inside an element: the text of its first `<figcaption>`, if it has one. */
  datatype Figure = Figure(caption: Option<string>)

  /** One direct child of a page's content region.
      `name` is the tag name (None for a text node), `str` is bs4's `.string` (None unless the
      element holds a single string), `text` is `.text`, `imgSrcs` the `src` of every `<img>`
      inside it in document order, and `figure` its first `<figure>`. */
  datatype PageNode = PageNode(
    name: Option<string>,
    str: Option<string>,
    text: string,
    imgSrcs: seq<string>,
    figure: Option<Figure>)

  /** What the extractor reads from a chapter page. `title` is `<title>`'s single string,
      `byline` the `.string` of the `<p>` in the first `div.author` (outer None: no such element),
      `content` the children of the content region. */
  datatype Page = Page(title: Option<string>, byline: Option<Option<string>>, content: Option<seq<PageNode>>)

  /** Output markup: a string, an element built by the assembler, or an element of a chapter page
      moved into the book as it is. */
  datatype Node =
    | Text(value: string)
    | Elem(name: string, attrs: map<string, string>, kids: seq<Node>)
    | Moved(page: PageNode)

  /** `tag(soup, name, contents, attrs, **kwargs)`: a new element whose attributes are `attrs`
      overridden by the keyword arguments, holding `contents` as its one string. */
  function Tag(name: string, contents: string, attrs: map<string, string>, kwargs: map<string, string>): (t: Node)
    ensures t.Elem? && t.name == name && t.kids == [Text(contents)]
    ensures t.attrs.Keys == attrs.Keys + kwargs.Keys
    ensures forall k :: k in kwargs ==> t.attrs[k] == kwargs[k]
    ensures forall k :: k in attrs && k !in kwargs ==> t.attrs[k] == attrs[k]
  {
    Elem(name, attrs + kwargs, [Text(contents)])
  }

  /** `parent.append(kid)`. */
  function AppendKid(parent: Node, kid: Node): (r: Node)
    requires parent.Elem?
  {
    parent.(kids := parent.kids + [kid])
  }

  /** `.name`: None for a string. */
  function NameOf(n: Node): Option<string>
  {
    match n
    case Text(_) => None
    case Elem(name, _, _) => Some(name)
    case Moved(p) => p.name
  }

  /** `find(name)` over a list of siblings: the first element of that name in document order,
      searching each element's descendants before its later siblings. Moved page elements are
      not searched (they only ever appear in chapter bodies, never where this is used). */
  function FindTag(nodes: seq<Node>, name: string): (r: Option<Node>)
    ensures r.Some? ==> r.value.Elem? && r.value.name == name
    decreases nodes
  {
    if nodes == [] then None
    else
      var first := nodes[0];
      assert first in nodes;
      match first
      case Elem(n, _, kids) =>
        if n == name then Some(first)
        else
          var inner := FindTag(kids, name);
          if inner.Some? then inner else FindTag(nodes[1..], name)
      case _ => FindTag(nodes[1..], name)
  }

  /** Some element of the given name sits among `nodes` or below one of them (moved page
      elements aside). */
  ghost predicate HasElem(nodes: seq<Node>, name: string)
    decreases nodes
  {
    exists i :: 0 <= i < |nodes| && nodes[i].Elem? && (nodes[i].name == name || HasElem(nodes[i].kids, name))
  }

  /** `find` comes back empty exactly when there is no element of that name to find. */
  lemma {:induction false} FindTagFinds(nodes: seq<Node>, name: string)
    ensures FindTag(nodes, name).Some? <==> HasElem(nodes, name)
    decreases nodes
  {
    if nodes != [] {
      var first, rest := nodes[0], nodes[1..];
      assert first in nodes;
      FindTagFinds(rest, name);
      assert forall i :: 0 < i < |nodes| ==> nodes[i] == rest[i - 1];
      if HasElem(rest, name) {
        var j :| 0 <= j < |rest| && rest[j].Elem? && (rest[j].name == name || HasElem(rest[j].kids, name));
        assert nodes[j + 1] == rest[j];
      }
      if first.Elem? {
        FindTagFinds(first.kids, name);
      }
    }
  }

  /** `.text`: all the strings below a node, concatenated in document order. */
  function TextOf(n: Node): string
    decreases n, 1
  {
    match n
    case Text(s) => s
    case Elem(_, _, kids) => TextOfAll(kids)
    case Moved(p) => p.text
  }

  function TextOfAll(nodes: seq<Node>): string
    decreases nodes, 0
  {
    if nodes == [] then ""
    else
      assert nodes[0] in nodes;
      TextOf(nodes[0]) + TextOfAll(nodes[1..])
  }

  lemma TextOfSingle(a: Node)
    ensures TextOfAll([a]) == TextOf(a)
  {
    assert [a][1..] == [];
  }

  lemma TextOfPair(a: Node, b: Node)
    ensures TextOfAll([a, b]) == TextOf(a) + TextOf(b)
  {
    assert [a, b][1..] == [b];
    TextOfSingle(b);
  }
}
