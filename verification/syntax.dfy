/** The slice of the syntax tree the assist looks at: node kinds, ancestor
    chains, and the element that covers the cursor. The tree itself (parsing,
    offsets, `find_node_at_offset`, `covering_element`) is not modelled: a
    cursor is given directly as the chains those queries would walk. */
module Syntax {
  import opened Wrappers

  type NodeId = nat

  /** The syntax kinds the assist distinguishes; every other kind is `Other`. */
  datatype SyntaxKind =
    | Module
    | ItemList
    | SourceFile
    | Path
    | NameRef
    | UseItem
    | Other(code: nat)

  /** A syntax node: its identity, its kind and, for a `mod` declaration, the
      item list it declares (`mod m;` declares none). */
  datatype Node = Node(id: NodeId, kind: SyntaxKind, itemList: Option<NodeId>)

  /** The element covering the cursor, a node or a token, together with the
      nodes strictly above it, innermost (its parent) first. */
  datatype Element =
    | NodeElement(node: Node, above: seq<Node>)
    | TokenElement(tokenKind: SyntaxKind, above: seq<Node>)

  function Kind(e: Element): SyntaxKind
  {
    match e
    case NodeElement(n, _) => n.kind
    case TokenElement(k, _) => k
  }

  /** The ancestor walk of an element, innermost first: a node's walk starts
      with the node itself, a token's with its parent. */
  function Ancestors(e: Element): seq<Node>
  {
    match e
    case NodeElement(n, above) => [n] + above
    case TokenElement(_, above) => above
  }

  function Parent(e: Element): Option<Node>
  {
    if |e.above| == 0 then None else Some(e.above[0])
  }

  /** Some node of the chain has kind `k`. */
  predicate HasKind(nodes: seq<Node>, k: SyntaxKind)
  {
    exists i :: 0 <= i < |nodes| && nodes[i].kind == k
  }

  /** `nodes[i]` is the innermost node of kind `k` in the chain. */
  predicate IsFirstOfKind(nodes: seq<Node>, i: int, k: SyntaxKind)
  {
    && 0 <= i < |nodes|
    && nodes[i].kind == k
    && forall j :: 0 <= j < i ==> nodes[j].kind != k
  }

  /** The ancestor walk `find_map(<kind>::cast)`: the position of the innermost
      node of kind `k`, or `None` when the chain holds none. */
  function FindKind(nodes: seq<Node>, k: SyntaxKind): (r: Option<nat>)
    ensures r.Some? ==> IsFirstOfKind(nodes, r.value, k)
    ensures r.None? <==> !HasKind(nodes, k)
    decreases |nodes|
  {
    if |nodes| == 0 then None
    else if nodes[0].kind == k then Some(0)
    else
      match FindKind(nodes[1..], k)
      case None => None
      case Some(i) => Some(i + 1)
  }
}
