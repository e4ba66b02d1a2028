/**
 * The parsed document the converter reads: a hast tree of elements, text
 * and comment nodes. The document itself is the list of the root's
 * children. The handful of CSS selections the converter makes, and
 * `hast-util-to-string`, are written here as explicit functions over the
 * tree.
 */
module Hast {
  import opened Results

  datatype Node =
    | El(el: Element)
    | Text(value: string)
    | Comment(value: string)

  /** An element: its tag name, its class tokens (`properties.className`) and its children. */
  datatype Element = Element(tag: string, classes: seq<string>, children: seq<Node>)

  /** The children of the document root. */
  type Document = seq<Node>

  // ---------------------------------------------------------------------------
  // Text content (`hast-util-to-string`)
  // ---------------------------------------------------------------------------

  /** The text inside a node: a text node's value, nothing for a comment. */
  function NodeText(n: Node): string
    decreases n
  {
    match n
    case El(e) => ForestText(e.children)
    case Text(v) => v
    case Comment(_) => ""
  }

  function ForestText(ns: seq<Node>): string
    decreases ns
  {
    if ns == [] then "" else NodeText(ns[0]) + ForestText(ns[1..])
  }

  /** `toString(element)`: the text of all the element's descendants. */
  function ToString(e: Element): string
  {
    ForestText(e.children)
  }

  /** Every node of a forest, in document order (a node before its descendants). */
  function Preorder(ns: seq<Node>): seq<Node>
    decreases ns
  {
    if ns == [] then [] else NodePreorder(ns[0]) + Preorder(ns[1..])
  }

  function NodePreorder(n: Node): seq<Node>
    decreases n
  {
    match n
    case El(e) => [n] + Preorder(e.children)
    case _ => [n]
  }

  /** The values of the text nodes of a flat list, concatenated. */
  function TextValues(ns: seq<Node>): string
  {
    if ns == [] then "" else (if ns[0].Text? then ns[0].value else "") + TextValues(ns[1..])
  }

  lemma {:induction false} TextValuesAppend(a: seq<Node>, b: seq<Node>)
    ensures TextValues(a + b) == TextValues(a) + TextValues(b)
    decreases |a|
  {
    if a == [] {
      assert a + b == b;
    } else {
      assert (a + b)[0] == a[0];
      assert (a + b)[1..] == a[1..] + b;
      TextValuesAppend(a[1..], b);
    }
  }

  /** `toString` is the concatenation of the descendant text nodes in document order. */
  lemma {:induction false} ForestTextIsPreorderText(ns: seq<Node>)
    ensures ForestText(ns) == TextValues(Preorder(ns))
    decreases ns
  {
    if ns != [] {
      NodeTextIsPreorderText(ns[0]);
      ForestTextIsPreorderText(ns[1..]);
      TextValuesAppend(NodePreorder(ns[0]), Preorder(ns[1..]));
    }
  }

  lemma {:induction false} NodeTextIsPreorderText(n: Node)
    ensures NodeText(n) == TextValues(NodePreorder(n))
    decreases n
  {
    match n
    case El(e) =>
      ForestTextIsPreorderText(e.children);
      TextValuesAppend([n], Preorder(e.children));
    case Text(_) =>
    case Comment(_) =>
  }

  lemma ToStringIsDescendantText(e: Element)
    ensures ToString(e) == TextValues(Preorder(e.children))
  {
    ForestTextIsPreorderText(e.children);
  }

  // ---------------------------------------------------------------------------
  // Element children (`:scope > *`)
  // ---------------------------------------------------------------------------

  /** The element nodes of a list, in order; text and comment nodes are skipped. */
  function ElementsOf(ns: seq<Node>): (r: seq<Element>)
    ensures |r| <= |ns|
    ensures forall e <- r :: El(e) in ns
    ensures forall n <- ns :: n.El? ==> n.el in r
  {
    if ns == [] then []
    else (if ns[0].El? then [ns[0].el] else []) + ElementsOf(ns[1..])
  }

  /** Skipping the non-elements keeps document order: the elements of a concatenation are concatenated. */
  lemma {:induction false} ElementsOfAppend(a: seq<Node>, b: seq<Node>)
    ensures ElementsOf(a + b) == ElementsOf(a) + ElementsOf(b)
    decreases |a|
  {
    if a == [] {
      assert a + b == b;
    } else {
      var here := if a[0].El? then [a[0].el] else [];
      assert ElementsOf(a + b) == here + ElementsOf(a[1..] + b) by {
        assert (a + b)[0] == a[0];
        assert (a + b)[1..] == a[1..] + b;
      }
      ElementsOfAppend(a[1..], b);
    }
  }

  /** `selectAll(':scope > *', e)`: the element children of `e`. */
  function ElementChildren(e: Element): seq<Element>
  {
    ElementsOf(e.children)
  }

  // ---------------------------------------------------------------------------
  // Selector matching
  // ---------------------------------------------------------------------------

  /**
   * One element met in a document-order walk, with the tags of its parent
   * and grandparent (`None` above the root or above the node a scoped
   * search starts from).
   */
  datatype Visit = Visit(node: Element, parent: Option<string>, grand: Option<string>)

  /** The elements of a forest in document order, each with its parent and grandparent tags. */
  function Visits(ns: seq<Node>, parent: Option<string>, grand: Option<string>): seq<Visit>
    decreases ns
  {
    if ns == [] then [] else NodeVisits(ns[0], parent, grand) + Visits(ns[1..], parent, grand)
  }

  function NodeVisits(n: Node, parent: Option<string>, grand: Option<string>): seq<Visit>
    decreases n
  {
    match n
    case El(e) => [Visit(e, parent, grand)] + Visits(e.children, Some(e.tag), parent)
    case _ => []
  }

  /** The selectors the converter uses. */
  datatype Selector =
    | BlockSel  // main > div > div
    | ListSel   // ul, ol
    | ItemSel   // li
    | CodeSel   // pre > code

  predicate Matches(sel: Selector, v: Visit) {
    match sel
    case BlockSel => v.node.tag == "div" && v.parent == Some("div") && v.grand == Some("main")
    case ListSel => v.node.tag == "ul" || v.node.tag == "ol"
    case ItemSel => v.node.tag == "li"
    case CodeSel => v.node.tag == "code" && v.parent == Some("pre")
  }

  /** `selectAll`: every matching element, in document order. */
  function SelectAll(sel: Selector, vs: seq<Visit>): (r: seq<Element>)
    ensures |r| <= |vs|
  {
    if vs == [] then []
    else (if Matches(sel, vs[0]) then [vs[0].node] else []) + SelectAll(sel, vs[1..])
  }

  /** `select`: the first matching element in document order. */
  function Select(sel: Selector, vs: seq<Visit>): (r: Option<Element>)
    ensures r == if SelectAll(sel, vs) == [] then None else Some(SelectAll(sel, vs)[0])
    ensures r.Some? ==> exists v <- vs :: Matches(sel, v) && v.node == r.value
  {
    if vs == [] then None
    else if Matches(sel, vs[0]) then Some(vs[0].node)
    else Select(sel, vs[1..])
  }

  lemma {:induction false} SelectAllAppend(sel: Selector, a: seq<Visit>, b: seq<Visit>)
    ensures SelectAll(sel, a + b) == SelectAll(sel, a) + SelectAll(sel, b)
    decreases |a|
  {
    if a == [] {
      assert a + b == b;
    } else {
      var here := if Matches(sel, a[0]) then [a[0].node] else [];
      assert SelectAll(sel, a + b) == here + SelectAll(sel, a[1..] + b) by {
        assert (a + b)[0] == a[0];
        assert (a + b)[1..] == a[1..] + b;
      }
      SelectAllAppend(sel, a[1..], b);
      assert SelectAll(sel, a) == here + SelectAll(sel, a[1..]);
    }
  }

  /** Every element `selectAll` returns was visited and matches; there is none exactly when nothing visited matches. */
  lemma {:induction false} SelectAllMatches(sel: Selector, vs: seq<Visit>)
    ensures forall e <- SelectAll(sel, vs) :: exists v <- vs :: Matches(sel, v) && v.node == e
    ensures SelectAll(sel, vs) == [] <==> forall v <- vs :: !Matches(sel, v)
    decreases |vs|
  {
    if vs != [] {
      SelectAllMatches(sel, vs[1..]);
      var here := if Matches(sel, vs[0]) then [vs[0].node] else [];
      assert SelectAll(sel, vs) == here + SelectAll(sel, vs[1..]);
      forall e <- SelectAll(sel, vs) ensures exists v <- vs :: Matches(sel, v) && v.node == e {
        if e in here {
          assert vs[0] in vs;
        } else {
          var v :| v in vs[1..] && Matches(sel, v) && v.node == e;
          assert v in vs;
        }
      }
      assert forall v <- vs :: v == vs[0] || v in vs[1..];
    }
  }

  /** `select` finds an element exactly when some visited element matches. */
  lemma SelectFound(sel: Selector, vs: seq<Visit>)
    ensures Select(sel, vs).Some? <==> exists v <- vs :: Matches(sel, v)
  {
    SelectAllMatches(sel, vs);
  }

  /** The walk of a scoped search: the element itself, then its descendants. */
  function Scope(e: Element): seq<Visit>
  {
    NodeVisits(El(e), None, None)
  }

  /** `selectAll('main > div > div', document)`: the blocks of a page. */
  function SelectBlocks(doc: Document): (r: seq<Element>)
    ensures forall b <- r :: b.tag == "div"
  {
    SelectAllMatches(BlockSel, Visits(doc, None, None));
    SelectAll(BlockSel, Visits(doc, None, None))
  }

  /** `select('ul, ol', column)` */
  function FirstList(column: Element): (r: Option<Element>)
    ensures r.Some? ==> r.value.tag == "ul" || r.value.tag == "ol"
    ensures r.Some? <==> exists v <- Scope(column) :: Matches(ListSel, v)
  {
    SelectFound(ListSel, Scope(column));
    Select(ListSel, Scope(column))
  }

  /** `selectAll('li', list)` */
  function ListItems(list: Element): (r: seq<Element>)
    ensures forall li <- r :: li.tag == "li"
  {
    SelectAllMatches(ItemSel, Scope(list));
    SelectAll(ItemSel, Scope(list))
  }

  /** `select('pre > code', document)` */
  function FirstPreCode(doc: Document): (r: Option<Element>)
    ensures r.Some? ==> r.value.tag == "code"
  {
    Select(CodeSel, Visits(doc, None, None))
  }

  // ---------------------------------------------------------------------------
  // Where blocks are found
  // ---------------------------------------------------------------------------

  /** No `main` element anywhere in the forest. */
  predicate NoMain(ns: seq<Node>)
    decreases ns
  {
    forall i :: 0 <= i < |ns| ==> NoMainNode(ns[i])
  }

  predicate NoMainNode(n: Node)
    decreases n
  {
    match n
    case El(e) => e.tag != "main" && NoMain(e.children)
    case _ => true
  }

  /** Below a forest with no `main` element, and not directly under one, no block is found. */
  lemma {:induction false} NoBlocksWithoutMain(ns: seq<Node>, parent: Option<string>, grand: Option<string>)
    requires NoMain(ns)
    requires parent != Some("main") && grand != Some("main")
    ensures SelectAll(BlockSel, Visits(ns, parent, grand)) == []
    decreases ns
  {
    if ns != [] {
      assert NoMainNode(ns[0]);
      assert NoMain(ns[1..]) by {
        forall i | 0 <= i < |ns[1..]| ensures NoMainNode(ns[1..][i]) {
          assert ns[1..][i] == ns[i + 1];
        }
      }
      NoBlocksWithoutMainNode(ns[0], parent, grand);
      NoBlocksWithoutMain(ns[1..], parent, grand);
      SelectAllAppend(BlockSel, NodeVisits(ns[0], parent, grand), Visits(ns[1..], parent, grand));
    }
  }

  lemma {:induction false} NoBlocksWithoutMainNode(n: Node, parent: Option<string>, grand: Option<string>)
    requires NoMainNode(n)
    requires parent != Some("main") && grand != Some("main")
    ensures SelectAll(BlockSel, NodeVisits(n, parent, grand)) == []
    decreases n
  {
    match n
    case El(e) =>
      NoBlocksWithoutMain(e.children, Some(e.tag), parent);
      SelectAllAppend(BlockSel, [Visit(e, parent, grand)], Visits(e.children, Some(e.tag), parent));
    case _ =>
  }

  /**
   * The page shape the converter is written for: `<main><div>…</div></main>`
   * whose inner `div` holds the blocks (and white space between them).
   * Its blocks are exactly the elements directly inside that `div`, in order.
   */
  lemma PageBlocks(mainClasses: seq<string>, wrapperClasses: seq<string>, ns: seq<Node>)
    requires forall n <- ns :: n.El? ==> n.el.tag == "div" && NoMain(n.el.children)
    ensures SelectBlocks([El(Element("main", mainClasses, [El(Element("div", wrapperClasses, ns))]))])
         == ElementsOf(ns)
  {
    var wrapper := Element("div", wrapperClasses, ns);
    var page := Element("main", mainClasses, [El(wrapper)]);
    var head := [Visit(page, None, None), Visit(wrapper, Some("main"), None)];
    var inner := Visits(ns, Some("div"), Some("main"));
    assert Visits([El(wrapper)], Some("main"), None) == [Visit(wrapper, Some("main"), None)] + inner by {
      assert [El(wrapper)][1..] == [];
    }
    assert Visits([El(page)], None, None) == head + inner by {
      assert [El(page)][1..] == [];
    }
    WrapperChildrenAreBlocks(ns);
    SelectAllAppend(BlockSel, head, inner);
  }

  lemma {:induction false} WrapperChildrenAreBlocks(ns: seq<Node>)
    requires forall n <- ns :: n.El? ==> n.el.tag == "div" && NoMain(n.el.children)
    ensures SelectAll(BlockSel, Visits(ns, Some("div"), Some("main"))) == ElementsOf(ns)
    decreases |ns|
  {
    if ns != [] {
      var n := ns[0];
      WrapperChildrenAreBlocks(ns[1..]);
      WrapperChildIsBlock(n);
      SelectAllAppend(BlockSel, NodeVisits(n, Some("div"), Some("main")), Visits(ns[1..], Some("div"), Some("main")));
    }
  }

  lemma WrapperChildIsBlock(n: Node)
    requires n.El? ==> n.el.tag == "div" && NoMain(n.el.children)
    ensures SelectAll(BlockSel, NodeVisits(n, Some("div"), Some("main"))) == if n.El? then [n.el] else []
  {
    if n.El? {
      var e := n.el;
      NoBlocksWithoutMain(e.children, Some("div"), Some("div"));
      SelectAllAppend(BlockSel, [Visit(e, Some("div"), Some("main"))], Visits(e.children, Some("div"), Some("div")));
    }
  }
}
