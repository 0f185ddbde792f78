/**
 * The parsed HTML document, as the converter receives it from its HTML parser, and the
 * tree queries the converter runs on it: `get_text(strip=True)`, `find_all`, `find` and the
 * CSS query `select_one('.excerpt p')`.
 *
 * A document is the forest of its top-level nodes. Every query below visits the nodes in
 * document order, that is, pre-order: an element, then everything inside it, then its
 * following siblings.
 */
module Dom {

  import opened Wrappers

  /** A node of the parsed tree: an element, with its tag name, its attributes other than
      `class`, the words of its `class` attribute and its children in document order; or a
      run of character data that `get_text` reads. The character data anywhere below a
      `script`, `style`, `template`, `rt` or `rp` element, which `get_text` skips, is not in
      the tree; the elements below a `template` are. */
  datatype Node =
    | Element(tag: string, attrs: map<string, string>, classes: seq<string>, children: seq<Node>)
    | NavigableString(value: string)

  /** The children of an element; character data has none. */
  function ChildrenOf(n: Node): seq<Node>
  {
    if n.Element? then n.children else []
  }

  /** `n.get(name, default)`: the attribute's value, or `default` when it is absent. */
  function Get(n: Node, name: string, default: string): string
  {
    if n.Element? && name in n.attrs then n.attrs[name] else default
  }

  /** An element whose tag name is one of `names` (what `find_all(names)` matches). */
  predicate HasTag(n: Node, names: set<string>)
  {
    n.Element? && n.tag in names
  }

  // ---------------------------------------------------------------------------------------
  // Text: get_text(strip=True)
  // ---------------------------------------------------------------------------------------

  /** The characters Python's `str.strip()` removes (those for which `str.isspace()` holds). */
  predicate IsSpace(c: char)
  {
    var k := c as int;
    (9 <= k <= 13) || (28 <= k <= 32) || k == 0x85 || k == 0xA0 || k == 0x1680 ||
    (0x2000 <= k <= 0x200A) || k == 0x2028 || k == 0x2029 || k == 0x202F || k == 0x205F ||
    k == 0x3000
  }

  /** A string with no whitespace at either end. */
  predicate Trimmed(s: string)
  {
    s == [] || (!IsSpace(s[0]) && !IsSpace(s[|s| - 1]))
  }

  /** The number of whitespace characters that open `s`. */
  function LeadingSpaces(s: string): (i: nat)
    ensures i <= |s|
    ensures forall k :: 0 <= k < i ==> IsSpace(s[k])
    ensures i < |s| ==> !IsSpace(s[i])
  {
    if s == [] || !IsSpace(s[0]) then 0 else 1 + LeadingSpaces(s[1..])
  }

  /** The position where the whitespace that closes `s` begins. */
  function TrailingStart(s: string): (j: nat)
    ensures j <= |s|
    ensures forall k :: j <= k < |s| ==> IsSpace(s[k])
    ensures 0 < j ==> !IsSpace(s[j - 1])
  {
    if s == [] || !IsSpace(s[|s| - 1]) then |s| else TrailingStart(s[..|s| - 1])
  }

  /** `r` is `s` from position `i` on, less whitespace only, at either end. */
  predicate Surrounds(s: string, i: int, r: string)
  {
    0 <= i && i + |r| <= |s| && r == s[i..i + |r|] &&
    (forall k :: 0 <= k < i ==> IsSpace(s[k])) &&
    (forall k :: i + |r| <= k < |s| ==> IsSpace(s[k]))
  }

  /** `s.strip()`: the part of `s` between its leading and its trailing whitespace. */
  function Strip(s: string): (r: string)
    ensures Trimmed(r)
    ensures exists i :: Surrounds(s, i, r)
  {
    var i := LeadingSpaces(s);
    var t := s[i..];
    var j := TrailingStart(t);
    assert Surrounds(s, i, t[..j]);
    t[..j]
  }

  lemma TrimmedConcat(a: string, b: string)
    requires Trimmed(a) && Trimmed(b)
    ensures Trimmed(a + b)
  {
    if a != [] && b != [] {
      assert (a + b)[0] == a[0];
      assert (a + b)[|a + b| - 1] == b[|b| - 1];
    } else if a == [] {
      assert a + b == b;
    } else {
      assert a + b == a;
    }
  }

  /** `get_text(strip=True)` over a forest: every run of character data under `ns`,
      stripped, concatenated in document order with nothing in between. */
  function TextOf(ns: seq<Node>): (r: string)
    decreases ns
    ensures Trimmed(r)
  {
    if ns == [] then "" else
      var head, rest := NodeText(ns[0]), TextOf(ns[1..]);
      TrimmedConcat(head, rest);
      head + rest
  }

  /** `n.get_text(strip=True)`. */
  function NodeText(n: Node): (r: string)
    decreases n
    ensures Trimmed(r)
  {
    match n
    case NavigableString(v) => Strip(v)
    case Element(_, _, _, children) => TextOf(children)
  }

  // ---------------------------------------------------------------------------------------
  // find_all and find
  // ---------------------------------------------------------------------------------------

  /** Every element in the forest `ns`, at any depth, in document order. */
  function Elements(ns: seq<Node>): (r: seq<Node>)
    decreases ns
    ensures forall k :: 0 <= k < |r| ==> r[k].Element?
  {
    if ns == [] then [] else ElementsOf(ns[0]) + Elements(ns[1..])
  }

  /** The element `n` itself, when it is one, followed by every element inside it. */
  function ElementsOf(n: Node): (r: seq<Node>)
    decreases n
    ensures forall k :: 0 <= k < |r| ==> r[k].Element?
  {
    match n
    case NavigableString(_) => []
    case Element(_, _, _, children) => [n] + Elements(children)
  }

  /** The members of `es` whose tag is one of `names`, in their order in `es`. */
  function Filter(es: seq<Node>, names: set<string>): (r: seq<Node>)
    ensures |r| <= |es|
  {
    if es == [] then []
    else if HasTag(es[0], names) then [es[0]] + Filter(es[1..], names)
    else Filter(es[1..], names)
  }

  /** Filtering keeps exactly the members of `es` that carry one of the tags. */
  lemma {:induction false} FilterMembers(es: seq<Node>, names: set<string>)
    ensures forall e :: e in Filter(es, names) <==> e in es && HasTag(e, names)
  {
    if es != [] {
      FilterMembers(es[1..], names);
      assert es == [es[0]] + es[1..];
    }
  }

  /** `find_all(names)` on a node whose children are `ns`: the matching descendants in
      document order. */
  function FindAll(ns: seq<Node>, names: set<string>): seq<Node>
  {
    Filter(Elements(ns), names)
  }

  /** Position `i` of `es` holds the first member whose tag is one of `names`. */
  predicate FirstWithTag(es: seq<Node>, i: int, names: set<string>)
  {
    0 <= i < |es| && HasTag(es[i], names) && forall j :: 0 <= j < i ==> !HasTag(es[j], names)
  }

  lemma {:induction false} FilterHead(es: seq<Node>, names: set<string>)
    ensures Filter(es, names) == [] <==> forall e :: e in es ==> !HasTag(e, names)
    ensures forall i :: FirstWithTag(es, i, names) ==> Filter(es, names) != [] && Filter(es, names)[0] == es[i]
    ensures Filter(es, names) != [] ==> exists i :: FirstWithTag(es, i, names)
  {
    if es != [] && !HasTag(es[0], names) {
      FilterHead(es[1..], names);
      forall i | FirstWithTag(es, i, names)
        ensures FirstWithTag(es[1..], i - 1, names)
      {
        assert i != 0;
      }
      if Filter(es, names) != [] {
        var i :| FirstWithTag(es[1..], i, names);
        assert FirstWithTag(es, i + 1, names);
      }
    } else if es != [] {
      assert FirstWithTag(es, 0, names);
    }
  }

  /** `find(names)` on a node whose children are `ns`: the first matching descendant in
      document order, if there is one. */
  function Find(ns: seq<Node>, names: set<string>): (r: Option<Node>)
    ensures r.None? <==> forall e :: e in Elements(ns) ==> !HasTag(e, names)
    ensures forall i :: FirstWithTag(Elements(ns), i, names) ==> r == Some(Elements(ns)[i])
    ensures r.Some? ==> exists i :: FirstWithTag(Elements(ns), i, names)
  {
    var all := FindAll(ns, names);
    FilterHead(Elements(ns), names);
    if all == [] then None else Some(all[0])
  }

  // ---------------------------------------------------------------------------------------
  // select_one('.excerpt p')
  // ---------------------------------------------------------------------------------------

  /** An element met during a walk of the tree, with the elements that enclose it,
      outermost first. */
  datatype Visit = Visit(node: Node, ancestors: seq<Node>)

  /** A document-order walk of the forest `ns`, whose nodes are enclosed by `ancestors`. */
  function Walk(ns: seq<Node>, ancestors: seq<Node>): (r: seq<Visit>)
    decreases ns
  {
    if ns == [] then [] else WalkFrom(ns[0], ancestors) + Walk(ns[1..], ancestors)
  }

  function WalkFrom(n: Node, ancestors: seq<Node>): (r: seq<Visit>)
    decreases n
  {
    match n
    case NavigableString(_) => []
    case Element(_, _, _, children) => [Visit(n, ancestors)] + Walk(children, ancestors + [n])
  }

  function VisitedNodes(vs: seq<Visit>): (r: seq<Node>)
    ensures |r| == |vs|
    ensures forall k :: 0 <= k < |vs| ==> r[k] == vs[k].node
  {
    if vs == [] then [] else [vs[0].node] + VisitedNodes(vs[1..])
  }

  lemma {:induction false} VisitedNodesConcat(a: seq<Visit>, b: seq<Visit>)
    ensures VisitedNodes(a + b) == VisitedNodes(a) + VisitedNodes(b)
  {
  }

  /** The walk meets exactly the elements `find_all` ranges over, in the same order,
      whatever encloses the forest. */
  lemma {:induction false} WalkMeetsElements(ns: seq<Node>, ancestors: seq<Node>)
    decreases ns
    ensures VisitedNodes(Walk(ns, ancestors)) == Elements(ns)
  {
    if ns != [] {
      WalkFromMeetsElements(ns[0], ancestors);
      WalkMeetsElements(ns[1..], ancestors);
      VisitedNodesConcat(WalkFrom(ns[0], ancestors), Walk(ns[1..], ancestors));
    }
  }

  lemma {:induction false} WalkFromMeetsElements(n: Node, ancestors: seq<Node>)
    decreases n
    ensures VisitedNodes(WalkFrom(n, ancestors)) == ElementsOf(n)
  {
    match n
    case NavigableString(_) =>
    case Element(_, _, _, children) =>
      WalkMeetsElements(children, ancestors + [n]);
      VisitedNodesConcat([Visit(n, ancestors)], Walk(children, ancestors + [n]));
  }

  /** What `.excerpt p` matches: a `p` element with an enclosing element whose class list
      holds `excerpt`. */
  predicate InExcerpt(v: Visit)
  {
    HasTag(v.node, {"p"}) && exists a :: a in v.ancestors && a.Element? && "excerpt" in a.classes
  }

  /** Position `i` of `vs` holds the first visit that `.excerpt p` matches. */
  predicate FirstInExcerpt(vs: seq<Visit>, i: int)
  {
    0 <= i < |vs| && InExcerpt(vs[i]) && forall j :: 0 <= j < i ==> !InExcerpt(vs[j])
  }

  /** The first visit of `vs` that `.excerpt p` matches. */
  function FirstExcerptParagraph(vs: seq<Visit>): (r: Option<Node>)
    ensures r.None? <==> forall k :: 0 <= k < |vs| ==> !InExcerpt(vs[k])
    ensures forall i :: FirstInExcerpt(vs, i) ==> r == Some(vs[i].node)
  {
    if vs == [] then None
    else if InExcerpt(vs[0]) then Some(vs[0].node)
    else
      var r := FirstExcerptParagraph(vs[1..]);
      assert forall i :: FirstInExcerpt(vs, i) ==> FirstInExcerpt(vs[1..], i - 1);
      r
  }

  /** `select_one('.excerpt p')` on the document `doc`. */
  function SelectExcerptParagraph(doc: seq<Node>): Option<Node>
  {
    FirstExcerptParagraph(Walk(doc, []))
  }
}
