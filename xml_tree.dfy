/**
 * A parsed XML document as BeautifulSoup presents it: text nodes and
 * elements with a name, an attribute map and children. `find_all(name)`
 * lists the matching descendant elements in document (pre-)order, `find`
 * is the first of them, `get` reads an attribute with a default and `.text`
 * concatenates every descendant text node.
 */
module XmlTree {
  import opened Wrappers

  datatype Node =
    | Text(content: string)
    | Elem(name: string, attrs: map<string, string>, children: seq<Node>)

  /** Every descendant element of `n`, in document order, `n` itself excluded. */
  function Descendants(n: Node): (r: seq<Node>)
    ensures forall d :: d in r ==> d.Elem?
    decreases n, 1
  {
    match n
    case Text(_) => []
    case Elem(_, _, children) => DescendantsOf(children)
  }

  /** The elements among `nodes` and below them, in document order. */
  function DescendantsOf(nodes: seq<Node>): (r: seq<Node>)
    ensures forall d :: d in r ==> d.Elem?
    decreases nodes, 0
  {
    if nodes == [] then []
    else
      var first := nodes[0];
      (if first.Elem? then [first] else []) + Descendants(first) + DescendantsOf(nodes[1..])
  }

  /** The descendants of a list of siblings: the first one and those below it, then the rest. */
  lemma DescendantsOfCons(first: Node, rest: seq<Node>)
    ensures DescendantsOf([first] + rest) == (if first.Elem? then [first] else []) + Descendants(first) + DescendantsOf(rest)
  {
    assert ([first] + rest)[1..] == rest;
  }

  /** A child element is a descendant, and so is everything below it. */
  lemma {:induction false} ChildDescendants(nodes: seq<Node>, i: nat)
    requires i < |nodes|
    ensures nodes[i].Elem? ==> nodes[i] in DescendantsOf(nodes)
    ensures forall d :: d in Descendants(nodes[i]) ==> d in DescendantsOf(nodes)
    decreases nodes
  {
    if i > 0 {
      ChildDescendants(nodes[1..], i - 1);
    }
  }

  /** The elements of `nodes` named `name`, in order. */
  function Named(nodes: seq<Node>, name: string): (r: seq<Node>)
    ensures |r| <= |nodes|
    ensures forall d :: d in r <==> d in nodes && d.Elem? && d.name == name
  {
    if nodes == [] then []
    else
      var rest := Named(nodes[1..], name);
      assert nodes == [nodes[0]] + nodes[1..];
      if nodes[0].Elem? && nodes[0].name == name then [nodes[0]] + rest else rest
  }

  /** Filtering two runs of nodes is filtering each. */
  lemma {:induction false} NamedConcat(a: seq<Node>, b: seq<Node>, name: string)
    ensures Named(a + b, name) == Named(a, name) + Named(b, name)
  {
    if a != [] {
      assert (a + b)[0] == a[0];
      assert (a + b)[1..] == a[1..] + b;
      NamedConcat(a[1..], b, name);
    } else {
      assert a + b == b;
    }
  }

  /** Without an element named `name` there is nothing to find. */
  lemma {:induction false} NamedNone(nodes: seq<Node>, name: string)
    requires forall n :: n in nodes ==> !(n.Elem? && n.name == name)
    ensures Named(nodes, name) == []
  {
    if nodes != [] {
      assert forall n :: n in nodes[1..] ==> n in nodes;
      NamedNone(nodes[1..], name);
    }
  }

  /** The first element named `name` after a run with no such element is the one found. */
  lemma NamedFirst(before: seq<Node>, found: Node, after: seq<Node>, name: string)
    requires found.Elem? && found.name == name
    requires forall n :: n in before ==> !(n.Elem? && n.name == name)
    ensures Named(before + [found] + after, name) != []
    ensures Named(before + [found] + after, name)[0] == found
  {
    NamedConcat(before, [found] + after, name);
    assert before + [found] + after == before + ([found] + after);
    NamedNone(before, name);
    assert ([found] + after)[1..] == after;
  }

  /** `n.find_all(name)`. */
  function FindAll(n: Node, name: string): (r: seq<Node>)
    ensures forall d :: d in r <==> d in Descendants(n) && d.name == name
  {
    Named(Descendants(n), name)
  }

  /** `n.find(name)`: the first descendant element named `name`, if any. */
  function Find(n: Node, name: string): (r: Option<Node>)
    ensures r.None? <==> FindAll(n, name) == []
    ensures r.Some? ==> r.value.Elem? && r.value.name == name && r.value in Descendants(n)
  {
    var all := FindAll(n, name);
    if all == [] then None else Some(all[0])
  }

  /** `n.get(key, default)`: an attribute value, or `default` when it is absent. */
  function GetAttr(n: Node, key: string, default: string): (r: string)
    ensures n.Elem? && key in n.attrs ==> r == n.attrs[key]
    ensures !(n.Elem? && key in n.attrs) ==> r == default
  {
    if n.Elem? && key in n.attrs then n.attrs[key] else default
  }

  /** `n.text`: all text below `n`, concatenated in document order. */
  function TextOf(n: Node): string
    decreases n, 1
  {
    match n
    case Text(content) => content
    case Elem(_, _, children) => TextOfAll(children)
  }

  function TextOfAll(nodes: seq<Node>): string
    decreases nodes, 0
  {
    if nodes == [] then "" else TextOf(nodes[0]) + TextOfAll(nodes[1..])
  }

  /** An element whose only child is a text node has exactly that text. */
  lemma TextOfSingleText(name: string, attrs: map<string, string>, t: string)
    ensures TextOf(Elem(name, attrs, [Text(t)])) == t
  {
    assert TextOfAll([Text(t)]) == t + TextOfAll([]);
  }
}
