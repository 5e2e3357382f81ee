/** `examples/recursion6.rs`: in-order flattening of a binary tree, first
    recursively, then with an explicit stack of pending nodes. */
module Recursion6 {

  import opened Wrappers

  /** `BinaryTree`: a value with optional boxed children. */
  datatype BinaryTree = BinaryTree(value: int, left: Option<BinaryTree>, right: Option<BinaryTree>)

  /** `flatten_v0`: left subtree, then the value, then the right subtree. */
  function FlattenV0(bst: Option<BinaryTree>): seq<int>
  {
    match bst
    case None => []
    case Some(tree) => FlattenV0(tree.left) + [tree.value] + FlattenV0(tree.right)
  }

  /** Number of nodes. */
  function Size(bst: Option<BinaryTree>): nat
  {
    match bst
    case None => 0
    case Some(tree) => Size(tree.left) + 1 + Size(tree.right)
  }

  /** What the nodes on the stack still owe the output, from the top down:
      each one's value followed by its right subtree. */
  function Pending(stack: seq<BinaryTree>): seq<int>
  {
    if stack == [] then []
    else
      var top := stack[|stack| - 1];
      [top.value] + FlattenV0(top.right) + Pending(stack[..|stack| - 1])
  }

  /** `flatten`: walk to the leftmost node pushing every node passed, pop
      one node, emit its value and continue with its right child. */
  method Flatten(bst: Option<BinaryTree>) returns (result: seq<int>)
    ensures result == FlattenV0(bst)
  {
    var stack: seq<BinaryTree> := [];
    result := [];
    var current := bst;
    while current.Some? || |stack| > 0
      invariant result + (FlattenV0(current) + Pending(stack)) == FlattenV0(bst)
      decreases |FlattenV0(bst)| - |result|
    {
      ghost var owed := FlattenV0(current) + Pending(stack);
      while current.Some?
        invariant FlattenV0(current) + Pending(stack) == owed
        invariant current.Some? || |stack| > 0
        decreases current
      {
        var node := current.value;
        PushKeepsOutput(node, stack);
        stack := stack + [node];
        current := node.left;
      }
      if |stack| > 0 {
        var node := stack[|stack| - 1];
        PopKeepsOutput(result, stack);
        stack := stack[..|stack| - 1];
        result := result + [node.value];
        current := node.right;
      }
    }
  }

  /** Pushing a node and moving to its left child owes the same output. */
  lemma PushKeepsOutput(node: BinaryTree, stack: seq<BinaryTree>)
    ensures FlattenV0(Some(node)) + Pending(stack) == FlattenV0(node.left) + Pending(stack + [node])
  {
    assert (stack + [node])[..|stack|] == stack;
  }

  /** Popping the top node and emitting its value owes the same output. */
  lemma PopKeepsOutput(result: seq<int>, stack: seq<BinaryTree>)
    requires |stack| > 0
    ensures result + (FlattenV0(None) + Pending(stack)) ==
      (result + [stack[|stack| - 1].value]) + (FlattenV0(stack[|stack| - 1].right) + Pending(stack[..|stack| - 1]))
  {
    var top, rest := stack[|stack| - 1], stack[..|stack| - 1];
    var a, b, c := [top.value], FlattenV0(top.right), Pending(rest);
    assert Pending(stack) == a + b + c;
    assert FlattenV0(None) == [];
    assert result + [] == result;
    ConcatAssoc(result, a, b, c);
  }

  lemma ConcatAssoc(r: seq<int>, a: seq<int>, b: seq<int>, c: seq<int>)
    ensures r + ([] + (a + b + c)) == (r + a) + (b + c)
  {
  }

  /** Every node is emitted once: the output has one element per node. */
  lemma {:induction false} FlattenLength(bst: Option<BinaryTree>)
    ensures |FlattenV0(bst)| == Size(bst)
  {
    if bst.Some? {
      FlattenLength(bst.value.left);
      FlattenLength(bst.value.right);
    }
  }

  /** Every value of the tree appears in the output and nothing else does. */
  predicate InTree(bst: Option<BinaryTree>, x: int)
  {
    match bst
    case None => false
    case Some(tree) => tree.value == x || InTree(tree.left, x) || InTree(tree.right, x)
  }

  lemma {:induction false} FlattenMembers(bst: Option<BinaryTree>, x: int)
    ensures x in FlattenV0(bst) <==> InTree(bst, x)
  {
    if bst.Some? {
      FlattenMembers(bst.value.left, x);
      FlattenMembers(bst.value.right, x);
    }
  }

  /** `main`'s tree: 7 with children 1 and 5. In-order is [1, 7, 5], which is
      not sorted: the tree is not a search tree. */
  const MainTree: BinaryTree :=
    BinaryTree(7, Some(BinaryTree(1, None, None)), Some(BinaryTree(5, None, None)))

  lemma MainTreeFlattens()
    ensures FlattenV0(Some(MainTree)) == [1, 7, 5]
  {
    assert FlattenV0(Some(BinaryTree(1, None, None))) == [1];
    assert FlattenV0(Some(BinaryTree(5, None, None))) == [5];
  }
}
