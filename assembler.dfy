/**
 * The tree assembler (src/assembler.rs): a recursive fold of the parser's
 * event stream into a tree of nodes. The stream is modelled as the sequence of
 * items the parser yields before it ends; `EventStream` hands them out one
 * call at a time, as the parser's iterator does.
 */
module Assembler {
  import opened Wrappers
  import opened Kdl
  import Unescape

  /** An assembled node: its unescaped name, its properties, values and children. */
  datatype KdlNode = KdlNode(name: seq<char>, attrs: seq<KdlProperty>, values: seq<KdlValue>, children: seq<KdlNode>)

  type Item = ParseResult<KdlEvent>

  /** A result together with the items not yet pulled. */
  datatype Assembled = Assembled(result: ParseResult<seq<KdlNode>>, rest: seq<Item>)

  /**
   * `add_children`, pulling from `items` and appending to `acc`: it returns at
   * a `BracketedNodeClose`, at the end of the stream, or at the first error.
   */
  function AddChildrenSpec(items: seq<Item>, acc: seq<KdlNode>): (r: Assembled)
    ensures |r.rest| <= |items|
    ensures r.result.Ok? ==> acc <= r.result.value
    decreases |items|
  {
    if items == [] then Assembled(Ok(acc), [])
    else
      var rest := items[1..];
      match items[0]
      case Err(e) => Assembled(Err(e), rest)
      case Ok(NodeClose(_)) => AddChildrenSpec(rest, acc)
      case Ok(BracketedNodeClose(_)) => Assembled(Ok(acc), rest)
      case Ok(NodeOpen(name, attrs, values, hasChildren)) =>
        match Unescape.UnescapeName(name)
        case Err(e) => Assembled(Err(e), rest)
        case Ok(n) =>
          if hasChildren then
            var sub := AddChildrenSpec(rest, []);
            match sub.result
            case Err(e) => Assembled(Err(e), sub.rest)
            case Ok(kids) => AddChildrenSpec(sub.rest, acc + [KdlNode(n, attrs, values, kids)])
          else AddChildrenSpec(rest, acc + [KdlNode(n, attrs, values, [])])
  }

  /** `parse_document`: the root-level nodes, or the first error. */
  function ParseDocumentSpec(items: seq<Item>): ParseResult<seq<KdlNode>> {
    AddChildrenSpec(items, []).result
  }

  /** The source of events: what the parser will yield, one item per call. */
  class EventStream {
    var items: seq<Item>

    constructor(items: seq<Item>)
      ensures this.items == items
    {
      this.items := items;
    }

    /** The parser's `next`: the next item, or the end. */
    method Next() returns (r: Option<Item>)
      modifies this
      ensures old(items) == [] ==> r == None && items == []
      ensures old(items) != [] ==> r == Some(old(items)[0]) && items == old(items)[1..]
    {
      if items == [] {
        return None;
      }
      r := Some(items[0]);
      items := items[1..];
    }

    /** `add_children`: pull events, append finished nodes, recurse into child blocks. */
    method AddChildren(children: seq<KdlNode>) returns (r: ParseResult<seq<KdlNode>>)
      modifies this
      ensures Assembled(r, items) == AddChildrenSpec(old(items), children)
      decreases |items|
    {
      var acc := children;
      while true
        invariant |items| <= |old(items)|
        invariant AddChildrenSpec(old(items), children) == AddChildrenSpec(items, acc)
        decreases |items|
      {
        var next := Next();
        if next.None? {
          break;
        }
        var event := next.value;
        if event.Err? {
          return Err(event.error);
        }
        match event.value
        case NodeOpen(name, attrs, values, hasChildren) =>
          var n := Unescape.UnescapeName(name);
          if n.Err? {
            return Err(n.error);
          }
          var kids: seq<KdlNode> := [];
          if hasChildren {
            var sub := AddChildren([]);
            if sub.Err? {
              return Err(sub.error);
            }
            kids := sub.value;
          }
          acc := acc + [KdlNode(n.value, attrs, values, kids)];
        case BracketedNodeClose(_) =>
          return Ok(acc);
        case NodeClose(_) =>
      }
      r := Ok(acc);
    }

    /** `parse_document`. */
    method ParseDocument() returns (r: ParseResult<seq<KdlNode>>)
      modifies this
      ensures r == ParseDocumentSpec(old(items))
    {
      r := AddChildren([]);
    }
  }

  // ---------------------------------------------------------------------
  // Properties
  // ---------------------------------------------------------------------

  /**
   * The events a well-formed stream carries for a tree: a node with children
   * as an open, its children and a bracketed close; a leaf as an open and a
   * plain close.
   */
  function NodeItems(n: KdlNode): seq<Item>
    decreases n, 1
  {
    if n.children == [] then
      [Ok(NodeOpen(Escapeless(n.name), n.attrs, n.values, false)), Ok(NodeClose(Escapeless(n.name)))]
    else
      [Ok(NodeOpen(Escapeless(n.name), n.attrs, n.values, true))]
      + Flatten(n.children)
      + [Ok(BracketedNodeClose(Escapeless(n.name)))]
  }

  function Flatten(ns: seq<KdlNode>): seq<Item>
    decreases ns, 0
  {
    if ns == [] then [] else NodeItems(ns[0]) + Flatten(ns[1..])
  }

  /** Assembling the events of one node appends exactly that node, whatever follows it. */
  lemma {:induction false} AssembleNode(n: KdlNode, tail: seq<Item>, acc: seq<KdlNode>)
    ensures AddChildrenSpec(NodeItems(n) + tail, acc) == AddChildrenSpec(tail, acc + [n])
    decreases n, 1
  {
    var items := NodeItems(n) + tail;
    if n.children == [] {
      assert items[1..][1..] == tail;
    } else {
      var close: seq<Item> := [Ok(BracketedNodeClose(Escapeless(n.name)))];
      assert items[1..] == Flatten(n.children) + (close + tail);
      AssembleFlatten(n.children, close + tail, []);
      assert [] + n.children == n.children;
      assert (close + tail)[1..] == tail;
      assert AddChildrenSpec(items[1..], []) == Assembled(Ok(n.children), tail);
    }
  }

  /**
   * Assembling the events of a forest appends exactly that forest, in order,
   * whatever follows it.
   */
  lemma {:induction false} AssembleFlatten(ns: seq<KdlNode>, tail: seq<Item>, acc: seq<KdlNode>)
    ensures AddChildrenSpec(Flatten(ns) + tail, acc) == AddChildrenSpec(tail, acc + ns)
    decreases ns, 0
  {
    if ns == [] {
      assert Flatten(ns) + tail == tail;
      assert acc + ns == acc;
    } else {
      var tail' := Flatten(ns[1..]) + tail;
      FlattenCons(ns, tail);
      AssembleNode(ns[0], tail', acc);
      AssembleFlatten(ns[1..], tail, acc + [ns[0]]);
      AppendCons(acc, ns);
    }
  }

  lemma FlattenCons(ns: seq<KdlNode>, tail: seq<Item>)
    requires ns != []
    ensures Flatten(ns) + tail == NodeItems(ns[0]) + (Flatten(ns[1..]) + tail)
  {
  }

  lemma AppendCons(acc: seq<KdlNode>, ns: seq<KdlNode>)
    requires ns != []
    ensures acc + [ns[0]] + ns[1..] == acc + ns
  {
    assert [ns[0]] + ns[1..] == ns;
  }

  /** `parse_document` gives back the tree whose events it reads. */
  lemma DocumentRoundTrip(ns: seq<KdlNode>)
    ensures ParseDocumentSpec(Flatten(ns)) == Ok(ns)
  {
    AssembleFlatten(ns, [], []);
    assert Flatten(ns) + [] == Flatten(ns);
    assert [] + ns == ns;
  }

  /** A plain close changes nothing. */
  lemma NodeCloseSkipped(name: KdlString, items: seq<Item>, acc: seq<KdlNode>)
    ensures AddChildrenSpec([Ok(NodeClose(name))] + items, acc) == AddChildrenSpec(items, acc)
  {
    assert ([Ok(NodeClose(name))] + items)[1..] == items;
  }

  /** After the events of a forest, the document goes on from that forest. */
  lemma AfterForest(ns: seq<KdlNode>, x: Item, rest: seq<Item>)
    ensures ParseDocumentSpec(Flatten(ns) + [x] + rest) == AddChildrenSpec([x] + rest, ns).result
  {
    assert Flatten(ns) + [x] + rest == Flatten(ns) + ([x] + rest);
    AssembleFlatten(ns, [x] + rest, []);
    assert [] + ns == ns;
  }

  /** A stray bracketed close at the root ends the document with the nodes read so far. */
  lemma RootCloseEndsDocument(ns: seq<KdlNode>, name: KdlString, rest: seq<Item>)
    ensures ParseDocumentSpec(Flatten(ns) + [Ok(BracketedNodeClose(name))] + rest) == Ok(ns)
  {
    AfterForest(ns, Ok(BracketedNodeClose(name)), rest);
  }

  /**
   * An error item after complete nodes ends the fold with that error, whatever
   * was collected before, and leaves the items after it unread; so it is the
   * document's result.
   */
  lemma ErrorPropagates(ns: seq<KdlNode>, e: ParseError, rest: seq<Item>, acc: seq<KdlNode>)
    ensures AddChildrenSpec(Flatten(ns) + [Err(e)] + rest, acc) == Assembled(Err(e), rest)
    ensures ParseDocumentSpec(Flatten(ns) + [Err(e)] + rest) == Err(e)
  {
    ForestThen(ns, Err(e), rest, acc);
    ForestThen(ns, Err(e), rest, []);
  }

  /** After the events of a forest, the fold goes on from that forest. */
  lemma ForestThen(ns: seq<KdlNode>, x: Item, rest: seq<Item>, acc: seq<KdlNode>)
    ensures AddChildrenSpec(Flatten(ns) + [x] + rest, acc) == AddChildrenSpec([x] + rest, acc + ns)
  {
    assert Flatten(ns) + [x] + rest == Flatten(ns) + ([x] + rest);
    AssembleFlatten(ns, [x] + rest, acc);
  }

  /**
   * A node name that fails to unescape ends the fold with that error, leaving
   * the items after it unread; so it is the document's result.
   */
  lemma NameErrorPropagates(ns: seq<KdlNode>, text: seq<char>, attrs: seq<KdlProperty>, values: seq<KdlValue>,
                            hasChildren: bool, rest: seq<Item>, acc: seq<KdlNode>)
    requires Unescape.Unescaped(text).Err?
    ensures AddChildrenSpec(Flatten(ns) + [Ok(NodeOpen(Escaped(text), attrs, values, hasChildren))] + rest, acc)
            == Assembled(Err(Unescape.Unescaped(text).error), rest)
    ensures ParseDocumentSpec(Flatten(ns) + [Ok(NodeOpen(Escaped(text), attrs, values, hasChildren))] + rest)
            == Err(Unescape.Unescaped(text).error)
  {
    var x: Item := Ok(NodeOpen(Escaped(text), attrs, values, hasChildren));
    ForestThen(ns, x, rest, acc);
    ForestThen(ns, x, rest, []);
    assert ([x] + rest)[1..] == rest;
  }

  /**
   * An error inside a child block propagates out of it: when the items after
   * the open of a node with children fail with `e`, so does the fold that
   * reads the open, with the same items left unread.
   */
  lemma ErrorInsideChildBlock(ns: seq<KdlNode>, k: KdlString, attrs: seq<KdlProperty>, values: seq<KdlValue>,
                              inner: seq<Item>, e: ParseError, rest: seq<Item>, acc: seq<KdlNode>)
    requires Unescape.UnescapeName(k).Ok?
    requires AddChildrenSpec(inner + rest, []) == Assembled(Err(e), rest)
    ensures AddChildrenSpec(Flatten(ns) + [Ok(NodeOpen(k, attrs, values, true))] + inner + rest, acc)
            == Assembled(Err(e), rest)
  {
    var x: Item := Ok(NodeOpen(k, attrs, values, true));
    assert Flatten(ns) + [x] + inner + rest == Flatten(ns) + [x] + (inner + rest);
    ForestThen(ns, x, inner + rest, acc);
    assert ([x] + (inner + rest))[1..] == inner + rest;
  }

  /** Where a stream goes wrong: the complete nodes before, then the failing item or an open block holding it. */
  datatype FailurePath = FailurePath(before: seq<KdlNode>, at: FailurePoint)

  datatype FailurePoint =
    | ErrorItem(error: ParseError)
    | BadName(text: seq<char>, attrs: seq<KdlProperty>, values: seq<KdlValue>, hasChildren: bool)
    | Within(name: KdlString, attrs: seq<KdlProperty>, values: seq<KdlValue>, inner: FailurePath)

  /** The items of a failure path, up to and including the failing item. */
  function FailureItems(p: FailurePath): seq<Item>
    decreases p, 1
  {
    Flatten(p.before) + PointItems(p.at)
  }

  function PointItems(q: FailurePoint): seq<Item>
    decreases q, 0
  {
    match q
    case ErrorItem(e) => [Err(e)]
    case BadName(text, attrs, values, hasChildren) => [Ok(NodeOpen(Escaped(text), attrs, values, hasChildren))]
    case Within(name, attrs, values, inner) => [Ok(NodeOpen(name, attrs, values, true))] + FailureItems(inner)
  }

  /** Every open block on the path has a name that unescapes, and the failing name does not. */
  predicate ValidFailure(p: FailurePath)
    decreases p, 1
  {
    ValidPoint(p.at)
  }

  predicate ValidPoint(q: FailurePoint)
    decreases q, 0
  {
    match q
    case ErrorItem(_) => true
    case BadName(text, _, _, _) => Unescape.Unescaped(text).Err?
    case Within(name, _, _, inner) => Unescape.UnescapeName(name).Ok? && ValidFailure(inner)
  }

  /** The error a failure path ends the fold with. */
  function FailureError(p: FailurePath): ParseError
    requires ValidFailure(p)
    decreases p, 1
  {
    PointError(p.at)
  }

  function PointError(q: FailurePoint): ParseError
    requires ValidPoint(q)
    decreases q, 0
  {
    match q
    case ErrorItem(e) => e
    case BadName(text, _, _, _) => Unescape.Unescaped(text).error
    case Within(_, _, _, inner) => FailureError(inner)
  }

  /**
   * The first error at any depth of nesting is the result of the whole fold,
   * and of the document, and nothing after it is read.
   */
  lemma {:induction false} ErrorAtAnyDepth(p: FailurePath, rest: seq<Item>, acc: seq<KdlNode>)
    requires ValidFailure(p)
    ensures AddChildrenSpec(FailureItems(p) + rest, acc) == Assembled(Err(FailureError(p)), rest)
    ensures ParseDocumentSpec(FailureItems(p) + rest) == Err(FailureError(p))
    decreases p
  {
    match p.at
    case ErrorItem(e) =>
      ErrorPropagates(p.before, e, rest, acc);
      ErrorPropagates(p.before, e, rest, []);
    case BadName(text, attrs, values, hasChildren) =>
      NameErrorPropagates(p.before, text, attrs, values, hasChildren, rest, acc);
      NameErrorPropagates(p.before, text, attrs, values, hasChildren, rest, []);
    case Within(name, attrs, values, inner) =>
      ErrorAtAnyDepth(inner, rest, []);
      var open: Item := Ok(NodeOpen(name, attrs, values, true));
      assert FailureItems(p) + rest == Flatten(p.before) + [open] + FailureItems(inner) + rest;
      ErrorInsideChildBlock(p.before, name, attrs, values, FailureItems(inner), FailureError(inner), rest, acc);
      ErrorInsideChildBlock(p.before, name, attrs, values, FailureItems(inner), FailureError(inner), rest, []);
  }

  /** An escaped name is stored unescaped. */
  lemma EscapedNameUnescaped(text: seq<char>, attrs: seq<KdlProperty>, values: seq<KdlValue>)
    requires Unescape.Unescaped(text).Ok?
    ensures ParseDocumentSpec([Ok(NodeOpen(Escaped(text), attrs, values, false))])
            == Ok([KdlNode(Unescape.Unescaped(text).value, attrs, values, [])])
  {
    var items: seq<Item> := [Ok(NodeOpen(Escaped(text), attrs, values, false))];
    assert items[1..] == [];
    var node := KdlNode(Unescape.Unescaped(text).value, attrs, values, []);
    assert [] + [node] == [node];
    assert Unescape.UnescapeName(Escaped(text)) == Ok(node.name);
    assert AddChildrenSpec(items, []) == AddChildrenSpec([], [node]);
  }
}
