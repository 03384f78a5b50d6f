/**
  React nodes as the MDX components receive them, and the flattening done by
  `React.Children.toArray`.
*/
module ReactNodes {
  import Js

  /** A React node: a string, a number, a boolean, `null`, `undefined`, an
      element (with its `className` prop, of any type, and its `children`
      prop), or an array of nodes. */
  datatype Node =
    | Text(s: string)
    | Number(n: Js.SafeInteger)
    | Flag(b: bool)
    | Null
    | Undefined
    | Element(className: Js.Value, children: Node)
    | List(items: seq<Node>)

  /** `typeof node === 'string' || typeof node === 'number'` */
  predicate IsLeaf(node: Node) {
    node.Text? || node.Number?
  }

  /** `String(node)` for a string or number node. */
  function LeafString(node: Node): string
    requires IsLeaf(node)
  {
    if node.Text? then node.s else Js.IntToDecimal(node.n)
  }

  /** `React.Children.toArray(node)`: arrays are flattened at every depth and
      `null`, `undefined` and booleans are dropped; strings, numbers and
      elements are kept in order. */
  function ToArray(node: Node): (r: seq<Node>)
    ensures forall c :: c in r ==> IsLeaf(c) || c.Element?
    ensures IsLeaf(node) || node.Element? ==> r == [node]
    ensures node.Null? || node.Undefined? || node.Flag? ==> r == []
    decreases node
  {
    match node
    case List(items) => ToArrayAll(items)
    case Text(_) => [node]
    case Number(_) => [node]
    case Element(_, _) => [node]
    case _ => []
  }

  function ToArrayAll(items: seq<Node>): (r: seq<Node>)
    ensures forall c :: c in r ==> IsLeaf(c) || c.Element?
    ensures items == [] ==> r == []
    decreases items
  {
    if items == [] then [] else ToArray(items[0]) + ToArrayAll(items[1..])
  }

  /** Flattening keeps the order of the children: the flattening of two
      arrays put together is the two flattenings put together. */
  lemma {:induction false} ToArrayAllAppend(a: seq<Node>, b: seq<Node>)
    ensures ToArrayAll(a + b) == ToArrayAll(a) + ToArrayAll(b)
  {
    if a == [] {
      assert a + b == b;
    } else {
      var head := ToArray(a[0]);
      assert (a + b)[0] == a[0];
      assert (a + b)[1..] == a[1..] + b;
      assert ToArrayAll(a + b) == head + ToArrayAll(a[1..] + b);
      ToArrayAllAppend(a[1..], b);
      assert ToArrayAll(a) == head + ToArrayAll(a[1..]);
      assert head + (ToArrayAll(a[1..]) + ToArrayAll(b)) == (head + ToArrayAll(a[1..])) + ToArrayAll(b);
    }
  }
}
