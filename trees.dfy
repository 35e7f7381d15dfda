/**
  The expression tree of the calculator, in two forms: `Tree`, the value of a
  tree (what the printer walks), and `TreeNode`, the heap node with mutable
  `left` and `right` fields that the builder creates and links.
 */
module Trees {

  /** A binary tree of token texts; `Nil` is the absent child (`null`). */
  datatype Tree = Nil | Node(value: string, left: Tree, right: Tree)

  /** A node with no children. */
  function Leaf(v: string): Tree {
    Node(v, Nil, Nil)
  }

  /** Number of nodes. */
  function Size(t: Tree): nat {
    match t
    case Nil => 0
    case Node(_, l, r) => Size(l) + 1 + Size(r)
  }

  /** A heap node: a value and two nullable child references. */
  class TreeNode {
    var value: string
    var left: TreeNode?
    var right: TreeNode?
    /** The node and every node below it. */
    ghost var Repr: set<object>

    /** The nodes below form a finite tree: no sharing, no cycles. */
    ghost predicate Valid()
      reads this, Repr
      decreases Repr
    {
      && this in Repr
      && (left != null ==>
            left in Repr && left.Repr <= Repr && this !in left.Repr && left.Valid())
      && (right != null ==>
            right in Repr && right.Repr <= Repr && this !in right.Repr && right.Valid())
      && (left != null && right != null ==> left.Repr !! right.Repr)
    }

    /** A new node holding `value`, with both children absent. */
    constructor (value: string)
      ensures Valid() && fresh(Repr)
      ensures this.value == value && left == null && right == null && Repr == {this}
    {
      this.value := value;
      left := null;
      right := null;
      Repr := {this};
    }

    /** `this.right = new TreeNode(value)`: the right child, if any, is
        dropped and replaced by a new leaf. */
    method ReplaceRight(value: string)
      requires Valid()
      modifies this
      ensures Valid() && fresh(Repr - old(Repr))
      ensures this.value == old(this.value) && left == old(left)
      ensures ToTree() == Node(old(ToTree()).value, old(ToTree()).left, Leaf(value))
    {
      var leaf := new TreeNode(value);
      right := leaf;
      Repr := {this} + leaf.Repr + (if left != null then left.Repr else {});
      assert left != null ==> left.ToTree() == old(left.ToTree());
    }

    /** `this.left = node` on a node without children: `node`, with all the
        nodes below it, becomes the left subtree. */
    method SetLeft(node: TreeNode)
      requires Valid() && left == null && right == null
      requires node.Valid() && this !in node.Repr
      modifies this
      ensures Valid() && Repr == old(Repr) + node.Repr
      ensures this.value == old(this.value) && left == node && right == null
      ensures ToTree() == Node(value, node.ToTree(), Nil)
    {
      left := node;
      Repr := Repr + node.Repr;
    }

    /** The tree rooted at this node, as a value. */
    function ToTree(): (t: Tree)
      reads this, Repr
      requires Valid()
      ensures t.Node? && t.value == value
      ensures t.left == Nil <==> left == null
      ensures t.right == Nil <==> right == null
      decreases Repr
    {
      Node(value,
           if left == null then Nil else left.ToTree(),
           if right == null then Nil else right.ToTree())
    }
  }
}
