/**
  An already-parsed XML document, reduced to what the configuration reader
  looks at: elements (tag, attributes, ordered children) and character data.
  The queries are the two kinds the reader issues: a fixed path of child tags
  starting at the document element, and a search for every descendant with a
  given tag, in document order.
 */
module Xml {

  datatype Node =
    | Elem(tag: string, attrs: map<string, string>, children: seq<Node>)
    | Text(text: string)

  predicate IsElement(n: Node, tag: string) {
    n.Elem? && n.tag == tag
  }

  predicate HasAttribute(n: Node, name: string) {
    n.Elem? && name in n.attrs
  }

  /** The attribute's text, or the empty string when it is absent. */
  function GetAttribute(n: Node, name: string): string {
    if HasAttribute(n, name) then n.attrs[name] else ""
  }

  /** The attribute's text, or `default` when it is absent. */
  function AttributeOr(n: Node, name: string, default: string): string {
    if HasAttribute(n, name) then n.attrs[name] else default
  }

  function ChildNodes(n: Node): seq<Node> {
    if n.Elem? then n.children else []
  }

  function Flatten<T>(parts: seq<seq<T>>): seq<T> {
    if parts == [] then [] else parts[0] + Flatten(parts[1..])
  }

  lemma {:induction false} FlattenAppend<T>(a: seq<seq<T>>, b: seq<seq<T>>)
    ensures Flatten(a + b) == Flatten(a) + Flatten(b)
  {
    if a == [] {
      assert a + b == b;
    } else {
      assert (a + b)[1..] == a[1..] + b;
      FlattenAppend(a[1..], b);
    }
  }

  lemma {:induction false} FlattenMember<T>(parts: seq<seq<T>>, x: T)
    ensures x in Flatten(parts) <==> exists i :: 0 <= i < |parts| && x in parts[i]
  {
    if parts != [] {
      FlattenMember(parts[1..], x);
      assert x in Flatten(parts) <==> x in parts[0] || x in Flatten(parts[1..]);
      if x in Flatten(parts[1..]) {
        var i :| 0 <= i < |parts[1..]| && x in parts[1..][i];
        assert x in parts[i + 1];
      }
      if exists i :: 0 <= i < |parts| && x in parts[i] {
        var i :| 0 <= i < |parts| && x in parts[i];
        if i > 0 {
          assert x in parts[1..][i - 1];
        }
      }
    }
  }

  lemma FlattenMembers<T>(parts: seq<seq<T>>)
    ensures forall x :: x in Flatten(parts) <==> exists i :: 0 <= i < |parts| && x in parts[i]
  {
    forall x ensures x in Flatten(parts) <==> exists i :: 0 <= i < |parts| && x in parts[i] {
      FlattenMember(parts, x);
    }
  }

  /** The node's value: the concatenated character data of all its descendants. */
  function TextContent(n: Node): (r: string)
    ensures n.Text? ==> r == n.text
    ensures n.Elem? && n.children == [] ==> r == ""
  {
    match n
    case Text(s) => s
    case Elem(_, _, cs) =>
      Flatten(seq(|cs|, i requires 0 <= i < |cs| => TextContent(cs[i])))
  }

  /** The text of an element is the text of its first children followed by the text of the rest;
      an element with a single child has that child's text. */
  lemma TextContentAppend(tag: string, attrs: map<string, string>, a: seq<Node>, b: seq<Node>)
    ensures TextContent(Elem(tag, attrs, a + b)) == TextContent(Elem(tag, attrs, a)) + TextContent(Elem(tag, attrs, b))
    ensures forall c :: TextContent(Elem(tag, attrs, [c])) == TextContent(c)
  {
    forall c ensures TextContent(Elem(tag, attrs, [c])) == TextContent(c) {
      var p := seq(1, i requires 0 <= i < 1 => TextContent([c][i]));
      assert p == [TextContent(c)];
      assert Flatten(p) == p[0] + Flatten(p[1..]);
      assert p[1..] == [];
    }
    var ab := a + b;
    var pa := seq(|a|, i requires 0 <= i < |a| => TextContent(a[i]));
    var pb := seq(|b|, i requires 0 <= i < |b| => TextContent(b[i]));
    assert seq(|ab|, i requires 0 <= i < |ab| => TextContent(ab[i])) == pa + pb;
    FlattenAppend(pa, pb);
  }

  /** The nodes of `ns` that are elements tagged `tag`, in their original order. */
  function Tagged(ns: seq<Node>, tag: string): (r: seq<Node>)
    ensures |r| <= |ns|
    ensures forall x :: x in r <==> x in ns && IsElement(x, tag)
  {
    if ns == [] then []
    else (if IsElement(ns[0], tag) then [ns[0]] else []) + Tagged(ns[1..], tag)
  }

  /** Tagged keeps order and multiplicity: it distributes over concatenation. */
  lemma {:induction false} TaggedAppend(a: seq<Node>, b: seq<Node>, tag: string)
    ensures Tagged(a + b, tag) == Tagged(a, tag) + Tagged(b, tag)
  {
    if a == [] {
      assert a + b == b;
    } else {
      assert (a + b)[1..] == a[1..] + b;
      TaggedAppend(a[1..], b, tag);
    }
  }

  /** A single node is kept exactly when it qualifies. */
  lemma TaggedOne(x: Node, tag: string)
    ensures Tagged([x], tag) == if IsElement(x, tag) then [x] else []
  {
    assert [x][1..] == [];
  }

  /** The nodes of `ns` that are elements (character data dropped), in order. */
  function Elements(ns: seq<Node>): (r: seq<Node>)
    ensures |r| <= |ns|
    ensures forall x :: x in r <==> x in ns && x.Elem?
  {
    if ns == [] then []
    else (if ns[0].Elem? then [ns[0]] else []) + Elements(ns[1..])
  }

  /** Elements keeps order and multiplicity: it distributes over concatenation. */
  lemma {:induction false} ElementsAppend(a: seq<Node>, b: seq<Node>)
    ensures Elements(a + b) == Elements(a) + Elements(b)
  {
    if a == [] {
      assert a + b == b;
    } else {
      assert (a + b)[1..] == a[1..] + b;
      ElementsAppend(a[1..], b);
    }
  }

  /** A single node is kept exactly when it qualifies. */
  lemma ElementsOne(x: Node)
    ensures Elements([x]) == if x.Elem? then [x] else []
  {
    assert [x][1..] == [];
  }

  /** One step of a path: the children tagged `tag` of every node in `ns`, parent by parent. */
  function Step(ns: seq<Node>, tag: string): (r: seq<Node>)
    ensures forall x :: x in r <==> exists n :: n in ns && x in ChildNodes(n) && IsElement(x, tag)
  {
    if ns == [] then []
    else
      var r := Tagged(ChildNodes(ns[0]), tag) + Step(ns[1..], tag);
      assert forall n :: n in ns <==> n == ns[0] || n in ns[1..];
      r
  }

  /** Step keeps document order: the children of earlier parents come first. */
  lemma {:induction false} StepAppend(a: seq<Node>, b: seq<Node>, tag: string)
    ensures Step(a + b, tag) == Step(a, tag) + Step(b, tag)
  {
    if a == [] {
      assert a + b == b;
    } else {
      assert (a + b)[1..] == a[1..] + b;
      StepAppend(a[1..], b, tag);
    }
  }

  /** A step from one parent returns that parent's children with the tag, in their own order. */
  lemma StepOne(n: Node, tag: string)
    ensures Step([n], tag) == Tagged(ChildNodes(n), tag)
  {
    assert [n][1..] == [];
  }

  function Select(ns: seq<Node>, path: seq<string>): (r: seq<Node>)
    ensures |path| > 0 ==> forall x :: x in r ==> IsElement(x, path[|path| - 1])
    decreases path
  {
    if path == [] then ns
    else
      var next := Step(ns, path[0]);
      if |path| == 1 then next else Select(next, path[1..])
  }

  lemma {:induction false} SelectSnoc(ns: seq<Node>, path: seq<string>, tag: string)
    ensures Select(ns, path + [tag]) == Step(Select(ns, path), tag)
    decreases path
  {
    if path != [] {
      assert (path + [tag])[1..] == path[1..] + [tag];
      SelectSnoc(Step(ns, path[0]), path[1..], tag);
    }
  }

  /** The nodes reached from the document element `root` by following `path`, one child tag per step;
      the empty path reaches the document element itself. */
  function Query(root: Node, path: seq<string>): (r: seq<Node>)
    ensures path == [] ==> r == [root]
    ensures |path| > 0 ==> forall x :: x in r ==> IsElement(x, path[|path| - 1])
  {
    Select([root], path)
  }

  /** A one-tag path returns the document element's children with that tag, in their own order. */
  lemma QueryOne(root: Node, tag: string)
    ensures Query(root, [tag]) == Tagged(ChildNodes(root), tag)
  {
    StepOne(root, tag);
  }

  /** Extending a path by one tag takes, in order, the children with that tag of every node the
      shorter path reaches; so a node is returned exactly when its parent is reached and its tag matches. */
  lemma QueryStep(root: Node, path: seq<string>, tag: string)
    ensures Query(root, path + [tag]) == Step(Query(root, path), tag)
    ensures forall x :: x in Query(root, path + [tag]) <==>
      exists n :: n in Query(root, path) && x in ChildNodes(n) && IsElement(x, tag)
  {
    SelectSnoc([root], path, tag);
  }

  /** `x` lies strictly below `n`: it is a child of `n` or below one. */
  ghost predicate Below(x: Node, n: Node)
    decreases n
  {
    n.Elem? && exists i :: 0 <= i < |n.children| && (x == n.children[i] || Below(x, n.children[i]))
  }

  /** Every element below `n` tagged `tag`, in document order (a node before its own descendants). */
  function Descendants(n: Node, tag: string): (r: seq<Node>)
    ensures forall x :: x in r <==> IsElement(x, tag) && Below(x, n)
    decreases n
  {
    match n
    case Text(_) => []
    case Elem(_, _, cs) =>
      var parts := seq(|cs|, i requires 0 <= i < |cs| =>
        (if IsElement(cs[i], tag) then [cs[i]] else []) + Descendants(cs[i], tag));
      assert forall i :: 0 <= i < |cs| ==> parts[i] == (if IsElement(cs[i], tag) then [cs[i]] else []) + Descendants(cs[i], tag);
      assert forall i, x :: 0 <= i < |cs| ==> (x in parts[i] <==> IsElement(x, tag) && (x == cs[i] || Below(x, cs[i])));
      FlattenMembers(parts);
      Flatten(parts)
  }

  /** Document order of the descendant search: for one child, the child itself (when it has the
      tag) comes before its own descendants; for several, the earlier children's matches come first. */
  lemma DescendantsOrder(tag: string, attrs: map<string, string>, a: seq<Node>, b: seq<Node>, t: string)
    ensures Descendants(Elem(tag, attrs, a + b), t) == Descendants(Elem(tag, attrs, a), t) + Descendants(Elem(tag, attrs, b), t)
    ensures forall c :: Descendants(Elem(tag, attrs, [c]), t) == (if IsElement(c, t) then [c] else []) + Descendants(c, t)
  {
    var ab := a + b;
    var pa := seq(|a|, i requires 0 <= i < |a| => (if IsElement(a[i], t) then [a[i]] else []) + Descendants(a[i], t));
    var pb := seq(|b|, i requires 0 <= i < |b| => (if IsElement(b[i], t) then [b[i]] else []) + Descendants(b[i], t));
    assert seq(|ab|, i requires 0 <= i < |ab| => (if IsElement(ab[i], t) then [ab[i]] else []) + Descendants(ab[i], t)) == pa + pb;
    FlattenAppend(pa, pb);
    forall c ensures Descendants(Elem(tag, attrs, [c]), t) == (if IsElement(c, t) then [c] else []) + Descendants(c, t) {
      var p := (if IsElement(c, t) then [c] else []) + Descendants(c, t);
      assert seq(1, i requires 0 <= i < 1 => (if IsElement([c][i], t) then [[c][i]] else []) + Descendants([c][i], t)) == [p];
      assert Flatten([p]) == p + Flatten([p][1..]);
      assert [p][1..] == [];
    }
  }
}
