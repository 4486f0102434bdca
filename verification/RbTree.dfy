/** The post-order walk over red-black trees (crash/types/rbtree.py).  It has no
    stack: it finds its way with parent pointers, which share their word with the
    colour bits. */
module RbTree {
  import opened Collections

  type Addr = nat

  datatype RbNode = RbNode(parentColor: nat, left: Addr, right: Addr)

  type Memory = map<Addr, RbNode>

  /** A binary tree of node addresses. */
  datatype Tree = Leaf | Node(addr: Addr, left: Tree, right: Tree)

  /** Clearing the two colour bits of a parent word. */
  function ClearColor(w: nat): Addr {
    w - w % 4
  }

  /** A parent word is an aligned address with a colour added. */
  lemma ColorCleared(w: nat, p: Addr)
    ensures ClearColor(w) == p <==> p % 4 == 0 && p <= w < p + 4
  {
  }

  /** `_rb_parent` of a readable node. */
  function Parent(mem: Memory, node: Addr): Option<Addr>
    requires node in mem
  {
    var p := ClearColor(mem[node].parentColor);
    if p == 0 then None else Some(p)
  }

  /** At `ptr`, memory holds exactly the tree t hanging below `parent`; the colour
      bits are arbitrary. */
  ghost predicate Represents(mem: Memory, t: Tree, ptr: Addr, parent: Addr) {
    match t
    case Leaf => ptr == 0
    case Node(a, l, r) =>
      && ptr == a && a != 0 && a % 4 == 0 && a in mem
      && parent % 4 == 0 && parent <= mem[a].parentColor < parent + 4
      && Represents(mem, l, mem[a].left, a)
      && Represents(mem, r, mem[a].right, a)
  }

  /** The recursive walk. */
  ghost function Postorder(t: Tree): seq<Addr> {
    match t
    case Leaf => []
    case Node(a, l, r) => Postorder(l) + Postorder(r) + [a]
  }

  lemma {:induction false} RootLast(t: Tree)
    requires t.Node?
    ensures Postorder(t) != [] && Postorder(t)[|Postorder(t)| - 1] == t.addr
  {
  }

  lemma DistinctParts(t: Tree)
    requires t.Node? && Distinct(Postorder(t))
    ensures Distinct(Postorder(t.left)) && Distinct(Postorder(t.right))
    ensures t.left.Node? && t.right.Node? ==> t.left.addr != t.right.addr
  {
    var l, r, all := Postorder(t.left), Postorder(t.right), Postorder(t);
    assert forall i :: 0 <= i < |l| ==> all[i] == l[i];
    assert forall i :: 0 <= i < |r| ==> all[|l| + i] == r[i];
    if t.left.Node? && t.right.Node? {
      RootLast(t.left);
      RootLast(t.right);
      assert all[|l| - 1] == t.left.addr && all[|l| + |r| - 1] == t.right.addr;
    }
  }

  /** `_rb_left_deepest_node`: the node the post-order walk of a tree starts with. */
  method LeftDeepest(mem: Memory, ptr: Addr, ghost t: Tree, ghost parent: Addr) returns (r: Option<Addr>)
    requires Represents(mem, t, ptr, parent)
    ensures t.Leaf? ==> r == None
    ensures t.Node? ==> Postorder(t) != [] && r == Some(Postorder(t)[0])
  {
    var node := ptr;
    ghost var sub, up := t, parent;
    while node != 0
      invariant Represents(mem, sub, node, up)
      invariant t.Leaf? <==> sub.Leaf?
      invariant t.Node? ==> Postorder(t) != [] && Postorder(sub) != [] && Postorder(t)[0] == Postorder(sub)[0]
      decreases sub
    {
      if mem[node].left != 0 {
        RootLast(sub.left);
        node, sub, up := mem[node].left, sub.left, node;
      } else if mem[node].right != 0 {
        RootLast(sub.right);
        node, sub, up := mem[node].right, sub.right, node;
      } else {
        return Some(node);
      }
    }
    return None;
  }

  /** From node a the walk goes to `next`: up, unless a is a left child with a sibling,
      whose subtree `sibling` comes first. */
  ghost predicate GoesTo(mem: Memory, a: Addr, next: Addr, sibling: Tree) {
    && a in mem && a != 0
    && var p := ClearColor(mem[a].parentColor);
       && p != 0 && p in mem
       && if mem[p].left == a && mem[p].right != 0
          then Represents(mem, sibling, mem[p].right, p) && sibling.Node? &&
               Postorder(sibling) != [] && next == Postorder(sibling)[0]
          else next == p
  }

  lemma AfterLeft(mem: Memory, t: Tree, ptr: Addr, parent: Addr)
    requires Represents(mem, t, ptr, parent) && t.Node? && t.left.Node?
    ensures t.right.Leaf? ==> GoesTo(mem, t.left.addr, t.addr, Leaf)
    ensures t.right.Node? ==>
              Postorder(t.right) != [] && GoesTo(mem, t.left.addr, Postorder(t.right)[0], t.right)
  {
    ColorCleared(mem[t.left.addr].parentColor, t.addr);
    if t.right.Node? {
      RootLast(t.right);
    }
  }

  lemma AfterRight(mem: Memory, t: Tree, ptr: Addr, parent: Addr)
    requires Represents(mem, t, ptr, parent) && t.Node? && t.right.Node?
    requires t.left.Node? ==> t.left.addr != t.right.addr
    ensures GoesTo(mem, t.right.addr, t.addr, Leaf)
  {
    ColorCleared(mem[t.right.addr].parentColor, t.addr);
  }

  lemma PostorderAt(t: Tree, i: nat)
    requires t.Node? && i < |Postorder(t)|
    ensures var l, r := Postorder(t.left), Postorder(t.right);
            && |Postorder(t)| == |l| + |r| + 1
            && Postorder(t)[i] == if i < |l| then l[i] else if i < |l| + |r| then r[i - |l|] else t.addr
  {
  }

  /** Where the walk goes after position i. */
  lemma {:induction false} Successor(mem: Memory, t: Tree, ptr: Addr, parent: Addr, i: nat)
    returns (sibling: Tree)
    requires Represents(mem, t, ptr, parent) && Distinct(Postorder(t))
    requires i + 1 < |Postorder(t)|
    ensures GoesTo(mem, Postorder(t)[i], Postorder(t)[i + 1], sibling)
  {
    var l, r := Postorder(t.left), Postorder(t.right);
    DistinctParts(t);
    PostorderAt(t, i);
    PostorderAt(t, i + 1);
    hide GoesTo, Postorder, Distinct;
    sibling := Leaf;
    if i + 1 < |l| {
      sibling := Successor(mem, t.left, mem[t.addr].left, t.addr, i);
    } else if i < |l| {
      LastIsRoot(t.left, l, i);
      AfterLeft(mem, t, ptr, parent);
      RightEmpty(t.right, r);
      sibling := t.right;
    } else if i + 1 < |l| + |r| {
      sibling := Successor(mem, t.right, mem[t.addr].right, t.addr, i - |l|);
    } else {
      LastIsRoot(t.right, r, i - |l|);
      AfterRight(mem, t, ptr, parent);
    }
  }

  lemma LastIsRoot(t: Tree, l: seq<Addr>, i: nat)
    requires l == Postorder(t) && i + 1 == |l|
    ensures t.Node? && l[i] == t.addr
  {
    assert t.Node?;
    RootLast(t);
  }

  lemma RightEmpty(t: Tree, r: seq<Addr>)
    requires r == Postorder(t)
    ensures r == [] <==> t == Leaf
  {
  }

  lemma {:induction false} AllReadable(mem: Memory, t: Tree, ptr: Addr, parent: Addr, i: nat)
    requires Represents(mem, t, ptr, parent) && i < |Postorder(t)|
    ensures Postorder(t)[i] in mem && Postorder(t)[i] != 0
  {
    var l, r := Postorder(t.left), Postorder(t.right);
    if i < |l| {
      AllReadable(mem, t.left, mem[t.addr].left, t.addr, i);
    } else if i < |l| + |r| {
      AllReadable(mem, t.right, mem[t.addr].right, t.addr, i - |l|);
    }
  }

  /** `_rb_next_postorder`, from position i of the walk of the whole tree. */
  method NextPostorder(mem: Memory, node: Addr, ghost t: Tree, ghost root: Addr, ghost i: nat) returns (r: Option<Addr>)
    requires Represents(mem, t, root, 0) && Distinct(Postorder(t))
    requires i < |Postorder(t)| && Postorder(t)[i] == node
    ensures r == if i + 1 < |Postorder(t)| then Some(Postorder(t)[i + 1]) else None
  {
    AllReadable(mem, t, root, 0, i);
    var parent := Parent(mem, node);
    ghost var sibling := Leaf;
    if i + 1 < |Postorder(t)| {
      sibling := Successor(mem, t, root, 0, i);
    } else {
      RootLast(t);
    }
    if parent.Some? && node == mem[parent.value].left && mem[parent.value].right != 0 {
      r := LeftDeepest(mem, mem[parent.value].right, sibling, parent.value);
    } else {
      r := parent;
    }
  }

  datatype Outcome = Walked(nodes: seq<Addr>) | CorruptTree

  /** `rbtree_postorder_for_each` on memory that holds a tree: the walk ends, and
      what it yields is the recursive post-order. */
  method PostorderForEach(mem: Memory, rootAddr: Addr, rbNode: Addr, ghost t: Tree) returns (r: Outcome)
    requires Represents(mem, t, rbNode, 0) && Distinct(Postorder(t))
    ensures rootAddr == 0 ==> r == CorruptTree
    ensures rootAddr != 0 ==> r == Walked(Postorder(t))
  {
    if rootAddr == 0 {
      return CorruptTree;
    }
    var nodes: seq<Addr> := [];
    var node := LeftDeepest(mem, rbNode, t, 0);
    if t.Node? {
      RootLast(t);
    }
    while node.Some?
      invariant |nodes| <= |Postorder(t)| && nodes == Postorder(t)[..|nodes|]
      invariant node == if |nodes| < |Postorder(t)| then Some(Postorder(t)[|nodes|]) else None
      decreases |Postorder(t)| - |nodes|
    {
      ghost var i := |nodes|;
      nodes := nodes + [node.value];
      node := NextPostorder(mem, node.value, t, rbNode, i);
    }
    return Walked(nodes);
  }

  // ----- A memory holds at most one tree -----

  /** The tree is determined by the memory, so the walk's result is as well. */
  lemma {:induction false} TreeUnique(mem: Memory, s: Tree, t: Tree, ptr: Addr, p: Addr, q: Addr)
    requires Represents(mem, s, ptr, p) && Represents(mem, t, ptr, q)
    ensures s == t
  {
    if s.Node? && t.Node? {
      TreeUnique(mem, s.left, t.left, mem[ptr].left, ptr, ptr);
      TreeUnique(mem, s.right, t.right, mem[ptr].right, ptr, ptr);
    }
  }

  /** Any colouring of the same shape is walked alike. */
  lemma {:induction false} ColorsIgnored(mem: Memory, mem': Memory, t: Tree, ptr: Addr, parent: Addr)
    requires Represents(mem, t, ptr, parent)
    requires forall a :: a in mem ==> a in mem' && mem'[a].left == mem[a].left && mem'[a].right == mem[a].right
    requires forall a :: a in mem ==> mem'[a].parentColor / 4 == mem[a].parentColor / 4
    ensures Represents(mem', t, ptr, parent)
  {
    if t.Node? {
      ColorsIgnored(mem, mem', t.left, mem[t.addr].left, t.addr);
      ColorsIgnored(mem, mem', t.right, mem[t.addr].right, t.addr);
    }
  }
}
