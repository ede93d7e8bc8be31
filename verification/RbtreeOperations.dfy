/** Whole insertion and erasure on a red-black tree in memory: linking a new node in, unlinking a node,
and the walk from node to node, around the rebalancing of module Rbtree. */
module RbtreeOperations {
  import opened Base
  import opened Rbtree

  // ---------- what lies before and after the hole of a context ----------

  ghost function Pre(c: Context): seq<Node> {
    match c
    case Top => []
    case Up(s, up, n, _, other) => if s == Left then Pre(up) else Pre(up) + InOrder(other) + [n]
  }

  ghost function Post(c: Context): seq<Node> {
    match c
    case Top => []
    case Up(s, up, n, _, other) => if s == Left then [n] + InOrder(other) + Post(up) else Post(up)
  }

  lemma {:induction false} AroundIs(c: Context, q: seq<Node>)
    ensures Around(c, q) == Pre(c) + q + Post(c)
  {
    match c
    case Top =>
    case Up(s, up, n, _, other) =>
      var o := InOrder(other);
      AroundIs(up, Joined(s, q, n, o));
      SplitJoined(Pre(up), q, n, o, Post(up));
  }

  lemma SplitJoined(a: seq<Node>, q: seq<Node>, n: Node, o: seq<Node>, b: seq<Node>)
    ensures a + (q + [n] + o) + b == a + q + ([n] + o + b) && a + (o + [n] + q) + b == (a + o + [n]) + q + b
  {
  }

  /** q without the node x. */
  ghost function Without(q: seq<Node>, x: Node): seq<Node> {
    if q == [] then [] else if q[0] == x then q[1..] else [q[0]] + Without(q[1..], x)
  }

  lemma {:induction false} WithoutIs(a: seq<Node>, x: Node, b: seq<Node>)
    requires x !in a
    ensures Without(a + [x] + b, x) == a + b
  {
    if a == [] {
      assert [] + [x] + b == [x] + b;
    } else {
      WithoutIs(a[1..], x, b);
      assert (a + [x] + b)[1..] == a[1..] + [x] + b;
      assert a + b == [a[0]] + (a[1..] + b);
    }
  }

  lemma DistinctWithout(a: seq<Node>, x: Node, b: seq<Node>, S: set<Node>)
    requires Distinct(a + [x] + b) && Within(a + [x] + b, S)
    ensures Distinct(a + b) && x !in a && x !in b && Within(a + b, S) && x in S
  {
    var q, r := a + [x] + b, a + b;
    forall j, k | 0 <= j < k < |r|
      ensures r[j] != r[k]
    {
      var j', k' := if j < |a| then j else j + 1, if k < |a| then k else k + 1;
      assert r[j] == q[j'] && r[k] == q[k'];
    }
    DistinctParts(a, x, b);
    assert forall y :: y in r ==> y in q;
    assert x == q[|a|];
  }

  // ---------- finding a node ----------

  /** The context in c of node x of t. */
  ghost function ContextOf(t: Tree, c: Context, x: Node): Context
    requires x in Nodes(t)
  {
    if t.node == x then c
    else if x in Nodes(t.left) then ContextOf(t.left, Up(Left, c, t.node, t.red, t.right), x)
    else ContextOf(t.right, Up(Right, c, t.node, t.red, t.left), x)
  }

  ghost function TreeOf(t: Tree, x: Node): Tree
    requires x in Nodes(t)
  {
    if t.node == x then t else if x in Nodes(t.left) then TreeOf(t.left, x) else TreeOf(t.right, x)
  }

  lemma {:induction false} Locate(y: Node?, p: Node?, t: Tree, c: Context, root: Root, x: Node)
    requires Holds(y, p, t) && Surrounds(y, p, c, root) && x in Nodes(t)
    ensures var u, d := TreeOf(t, x), ContextOf(t, c, x);
      && u.Fork? && u.node == x && Holds(x, x.parent, u) && Surrounds(x, x.parent, d, root)
      && Plug(d, u) == Plug(c, t)
    decreases t
  {
    if t.node != x {
      if x in Nodes(t.left) {
        Locate(t.node.kids.left, t.node, t.left, Up(Left, c, t.node, t.red, t.right), root, x);
      } else {
        Locate(t.node.kids.right, t.node, t.right, Up(Right, c, t.node, t.red, t.left), root, x);
      }
    }
  }

  /** A red-black tree taken apart at a hole. */
  lemma {:induction false} Unplug(c: Context, t: Tree) returns (h: nat)
    requires ValidTree(Plug(c, t))
    ensures RedBlack(t, h) && Accepts(c, h) && (IsRed(t) ==> RedFits(c))
    decreases c
  {
    match c
    case Top => h :| RedBlack(t, h);
    case Up(s, up, n, red, other) =>
      var h' := Unplug(up, Mk(s, t, n, red, other));
      h := if red then h' else h' - 1;
  }

  // ---------- the leftmost node ----------

  /** The leftmost fork of r. */
  ghost function Lowest(r: Tree): (t: Tree)
    requires r.Fork?
    ensures t.Fork? && t.left == Leaf
  {
    if r.left == Leaf then r else Lowest(r.left)
  }

  /** Its context when r has context c. */
  ghost function Down(r: Tree, c: Context): Context
    requires r.Fork?
  {
    if r.left == Leaf then c else Down(r.left, Up(Left, c, r.node, r.red, r.right))
  }

  /** r with t in the place of its leftmost fork. */
  ghost function Refill(r: Tree, t: Tree): Tree
    requires r.Fork?
  {
    if r.left == Leaf then t else Fork(Refill(r.left, t), r.node, r.red, r.right)
  }

  lemma {:induction false} RefillInOrder(r: Tree, t: Tree, c: Context)
    requires r.Fork?
    ensures Around(Down(r, c), InOrder(t)) == Around(c, InOrder(Refill(r, t)))
    decreases r
  {
    if r.left != Leaf {
      RefillInOrder(r.left, t, Up(Left, c, r.node, r.red, r.right));
    }
  }

  lemma {:induction false} LowestFirst(r: Tree, t: Tree)
    requires r.Fork? && InOrder(t) == InOrder(Lowest(r).right)
    ensures InOrder(r) == [Lowest(r).node] + InOrder(Refill(r, t))
    decreases r
  {
    if r.left != Leaf {
      LowestFirst(r.left, t);
      var a := InOrder(Refill(r.left, t));
      assert [Lowest(r).node] + a + [r.node] + InOrder(r.right) == [Lowest(r).node] + (a + [r.node] + InOrder(r.right));
    } else {
      assert InOrder(r) == [] + [r.node] + InOrder(r.right);
    }
  }

  lemma {:induction false} RefillSelf(r: Tree)
    requires r.Fork?
    ensures Refill(r, Lowest(r)) == r
    decreases r
  {
    if r.left != Leaf {
      RefillSelf(r.left);
    }
  }

  lemma {:induction false} LowestRedBlack(r: Tree, c: Context, h: nat) returns (k: nat)
    requires r.Fork? && RedBlack(r, h) && Accepts(c, h) && (IsRed(r) ==> RedFits(c))
    ensures RedBlack(Lowest(r), k) && Accepts(Down(r, c), k) && (IsRed(Lowest(r)) ==> RedFits(Down(r, c)))
    decreases r
  {
    k := h;
    if r.left != Leaf {
      k := LowestRedBlack(r.left, Up(Left, c, r.node, r.red, r.right), if r.red then h else h - 1);
    }
  }

  /** A fork with an empty side is a black node with at most a red leaf, or a red leaf. */
  lemma AlmostLeaf(t: Tree, s: Side, h: nat)
    requires t.Fork? && RedBlack(t, h) && Sub(t, s) == Leaf
    ensures h == if t.red then 0 else 1
    ensures var o := Sub(t, Opp(s));
      o == Leaf || (!t.red && o == Fork(Leaf, o.node, true, Leaf))
  {
    var o := Sub(t, Opp(s));
    if o.Fork? {
      assert RedBlack(o, 0) && o.red;
      assert RedBlack(o.left, 0) && RedBlack(o.right, 0) && !IsRed(o.left) && !IsRed(o.right);
    }
  }

  // ---------- unlinking ----------

  /** What fills the place of t, one side of which is empty: the other side in the color of t. */
  ghost function Remnant(t: Tree, o: Tree): (u: Tree)
    requires t.Fork?
    ensures (o == Leaf || o == Fork(Leaf, o.node, true, Leaf)) ==> InOrder(u) == InOrder(o)
  {
    if o == Leaf then Leaf else Fork(Leaf, o.node, t.red, Leaf)
  }

  lemma RemnantApart(t: Tree, s: Side, c: Context, S: set<Node>)
    requires t.Fork? && Sub(t, s) == Leaf && Distinct(Around(c, InOrder(t))) && Within(Around(c, InOrder(t)), S)
    ensures Apart(t.node, c) && t.node in S && ContextNodes(c) <= S
    ensures var o := Sub(t, Opp(s)); o.Fork? ==> o.node != t.node && o.node !in ContextNodes(c) && o.node in S
  {
    var q, o := InOrder(t), Sub(t, Opp(s));
    assert t.node in q && (o.Fork? ==> o.node in InOrder(o) && o.node in q);
    AroundDistinct(c, q);
    AroundApart(t.node, c, q);
    AroundMembers(c, q);
    ForkApart(t);
    InOrderNodes(o);
    hide Distinct, Around, ContextNodes, InOrder;
  }

  /** Taking out a node with at most one child, which takes over its place and color. */
  method Unlink(node: Node, s: Side, root: Root, ghost t: Tree, ghost c: Context, ghost S: set<Node>)
    returns (child: Node?)
    requires t.Fork? && t.node == node && Fact(Linked(node, node.parent, t, c, root, S))
    requires Sub(t, s) == Leaf && var o := Sub(t, Opp(s)); o == Leaf || o == Fork(Leaf, o.node, true, Leaf)
    modifies root, S
    ensures child == old(node.Child(Opp(s))) && node.kids == old(node.kids) && node.parent == old(node.parent)
      && node.red == old(node.red)
    ensures Fact(Holds(child, node.parent, Remnant(t, Sub(t, Opp(s)))))
    ensures Fact(Surrounds(child, node.parent, c, root))
  {
    ghost var o := Sub(t, Opp(s));
    RemnantApart(t, s, c, S);
    OpenFork(node, t, s);
    child := node.Child(Opp(s));
    HeadInside(child, node, o);
    ParentInContext(node, node.parent, c, root);
    hide ContextNodes, Around, Distinct, Within, InOrder;
    ChangeChild(node, child, node.parent, root, c);
    if child != null {
      child.parent, child.red := node.parent, node.red;
    }
  }

  /** Down to the leftmost node: the loop of rb_first, rb_next and __rb_erase_augmented. */
  method Descend(top: Node, root: Root, ghost r: Tree, ghost c: Context) returns (n: Node)
    requires r.Fork? && Fact(Holds(top, top.parent, r)) && Fact(Surrounds(top, top.parent, c, root))
    ensures n == Lowest(r).node && Fact(Holds(n, n.parent, Lowest(r))) && Fact(Surrounds(n, n.parent, Down(r, c), root))
  {
    n := top;
    ghost var t, d := r, c;
    HeadInside(n, n.parent, t);
    hide Holds, Surrounds;
    while n.kids.left != null
      invariant t.Fork? && t.node == n && Fact(Holds(n, n.parent, t)) && Fact(Surrounds(n, n.parent, d, root))
      invariant Lowest(t) == Lowest(r) && Down(t, d) == Down(r, c)
      decreases t
    {
      GoLeft(n, t, d, root);
      t, d := t.left, Up(Left, d, n, t.red, t.right);
      n := n.kids.left;
    }
    GoLeft(n, t, d, root);
  }

  lemma GoLeft(n: Node, t: Tree, d: Context, root: Root)
    requires t.Fork? && t.node == n && Fact(Holds(n, n.parent, t)) && Fact(Surrounds(n, n.parent, d, root))
    ensures n.kids.left == null <==> t.left == Leaf
    ensures n.kids.left != null ==>
      var m := n.kids.left;
      && t.left.Fork? && t.left.node == m && m.parent == n && Fact(Holds(m, m.parent, t.left))
      && Fact(Surrounds(m, m.parent, Up(Left, d, n, t.red, t.right), root))
  {
    Unzip(n, Left, t.left, t.red, t.right, d, root);
    HeadInside(n.kids.left, n, t.left);
    hide Surrounds, Nodes;
  }

  /** Back up from the hole where the leftmost fork of r was. */
  lemma {:induction false} ZipUp(x: Node?, p: Node?, t: Tree, r: Tree, c: Context, root: Root)
    requires r.Fork? && c.Up? && Holds(x, p, t) && Surrounds(x, p, Down(r, c), root)
    ensures Holds(c.node.Child(c.s), c.node, Refill(r, t)) && Surrounds(c.node.Child(c.s), c.node, c, root)
    decreases r
  {
    if r.left != Leaf {
      ZipUp(x, p, t, r.left, Up(Left, c, r.node, r.red, r.right), root);
    }
  }

  /** Down again to it. */
  lemma {:induction false} ZipDown(y: Node?, q: Node?, t: Tree, r: Tree, c: Context, root: Root)
    requires r.Fork? && c.Up? && Holds(y, q, Refill(r, t)) && Surrounds(y, q, c, root)
    ensures var d := Down(r, c);
      d.Up? && Holds(d.node.Child(d.s), d.node, t) && Surrounds(d.node.Child(d.s), d.node, d, root)
    decreases r
  {
    if r.left != Leaf {
      ZipDown(r.node.kids.left, r.node, t, r.left, Up(Left, c, r.node, r.red, r.right), root);
    }
  }

  /** The context of the leftmost node ends in r, unless that node is its root. */
  lemma {:induction false} DownEnds(r: Tree, c: Context, c': Context)
    requires r.Fork? && r.left != Leaf
    ensures var d, d' := Down(r, c), Down(r, c'); d.Up? && d'.Up? && d.node == d'.node && d.s == d'.s == Left
    decreases r
  {
    if r.left.left != Leaf {
      DownEnds(r.left, Up(Left, c, r.node, r.red, r.right), Up(Left, c', r.node, r.red, r.right));
    }
  }

  lemma FourParts(a: seq<Node>, x: Node, y: Node, b: seq<Node>)
    requires Distinct(a + [x] + ([y] + b))
    ensures Distinct(a) && Distinct(b) && x != y && x !in a && x !in b && y !in a && y !in b && forall z :: z in a ==>
      z !in b
    ensures forall z :: z in a + [x] + ([y] + b) <==> z in a || z == x || z == y || z in b
  {
    DistinctParts(a, x, [y] + b);
    assert [y] + b == [] + [y] + b && y in [y] + b && forall z :: z in b ==> z in [y] + b;
    DistinctParts([], y, b);
    hide Distinct;
  }

  lemma ReplaceApart(l: Tree, node: Node, succ: Node, r: Tree, c: Context, S: set<Node>)
    requires Distinct(Around(c, InOrder(l) + [node] + ([succ] + InOrder(r))))
    requires Within(Around(c, InOrder(l) + [node] + ([succ] + InOrder(r))), S)
    ensures Apart(node, c) && succ !in ContextNodes(c) && node != succ
    ensures node !in Nodes(l) && node !in Nodes(r) && succ !in Nodes(l) && succ !in Nodes(r)
    ensures Nodes(l) !! Nodes(r) && Nodes(l) !! ContextNodes(c) && Nodes(r) !! ContextNodes(c)
    ensures node in S && succ in S && Nodes(l) <= S && Nodes(r) <= S && ContextNodes(c) <= S
    ensures Distinct(InOrder(l)) && Distinct(InOrder(r))
  {
    hide InOrder, Nodes, Distinct, Around, ContextNodes, Apart;
    var L, R := InOrder(l), InOrder(r);
    var q := L + [node] + ([succ] + R);
    InOrderNodes(l);
    InOrderNodes(r);
    AroundDistinct(c, q);
    FourParts(L, node, succ, R);
    AroundMembers(c, q);
    AroundApart(node, c, q);
  }

  /** succ takes over the left subtree of node. */
  method TakeLeft(node: Node, succ: Node, root: Root, ghost l: Tree, ghost r: Tree, ghost c: Context,
                  ghost S: set<Node>)
    requires l.Fork? && Fact(Holds(node.kids.left, node, l)) && Fact(Surrounds(node, node.parent, c, root))
    requires Fact(Holds(succ.kids.right, succ, r))
    requires Distinct(Around(c, InOrder(l) + [node] + ([succ] + InOrder(r))))
    requires Within(Around(c, InOrder(l) + [node] + ([succ] + InOrder(r))), S)
    modifies S
    ensures Fact(Holds(succ.kids.left, succ, l)) && Fact(Holds(succ.kids.right, succ, r))
    ensures Fact(Surrounds(node, node.parent, c, root)) && node.red == old(node.red)
  {
    ReplaceApart(l, node, succ, r, c, S);
    ForkApart(l);
    var tmp := node.kids.left;
    HeadInside(tmp, node, l);
    hide InOrder, Around, Distinct, Within, ContextNodes, Surrounds, Apart;
    succ.kids := succ.kids.Put(Left, tmp);
    tmp.parent := succ;
  }

  /** The second half of cases 2 and 3: succ, which holds its right subtree already, takes the place of node. */
  method Replace(node: Node, succ: Node, root: Root, ghost l: Tree, ghost r: Tree, ghost c: Context, ghost S: set<Node>)
    requires l.Fork? && Fact(Holds(node.kids.left, node, l)) && Fact(Surrounds(node, node.parent, c, root))
    requires Fact(Holds(succ.kids.right, succ, r))
    requires Distinct(Around(c, InOrder(l) + [node] + ([succ] + InOrder(r))))
    requires Within(Around(c, InOrder(l) + [node] + ([succ] + InOrder(r))), S)
    modifies root, S
    ensures Fact(Holds(succ, succ.parent, Fork(l, succ, old(node.red), r)))
      && Fact(Surrounds(succ, succ.parent, c, root))
  {
    ReplaceApart(l, node, succ, r, c, S);
    hide InOrder, Around, Distinct, Within, ContextNodes, Surrounds, Nodes, Holds, Apart;
    TakeLeft(node, succ, root, l, r, c, S);
    ParentInContext(node, node.parent, c, root);
    StepIn(node, succ, root, l, r, c, S);
  }

  /** succ, with both its subtrees, in the place of node */
  method StepIn(node: Node, succ: Node, root: Root, ghost l: Tree, ghost r: Tree, ghost c: Context, ghost S: set<Node>)
    requires Nodes(l) <= S && Nodes(r) <= S
    requires Fact(Holds(succ.kids.left, succ, l)) && Fact(Holds(succ.kids.right, succ, r))
      && Fact(Surrounds(node, node.parent, c, root))
    requires Apart(node, c) && node != succ && succ !in ContextNodes(c) && succ !in Nodes(l) && succ !in Nodes(r)
    requires Nodes(l) !! ContextNodes(c) && Nodes(r) !! ContextNodes(c)
    modifies root, succ, if node.parent == null then {} else {node.parent}
    ensures Fact(Holds(succ, succ.parent, Fork(l, succ, old(node.red), r)))
      && Fact(Surrounds(succ, succ.parent, c, root))
  {
    ParentInContext(node, node.parent, c, root);
    hide Apart, ContextNodes, Surrounds, Nodes, Holds;
    ChangeChild(node, succ, node.parent, root, c);
    succ.parent, succ.red := node.parent, node.red;
    FoldMk(Left, l, succ, r);
  }

  /** In case 3 succ, out of the tree by now, takes over the right subtree of node. */
  method TakeRight(node: Node, succ: Node, root: Root, ghost l: Tree, ghost r: Tree, ghost c: Context,
                   ghost S: set<Node>)
    requires r.Fork? && Fact(Holds(node.kids.left, node, l)) && Fact(Holds(node.kids.right, node, r))
    requires Fact(Surrounds(node, node.parent, c, root))
    requires Distinct(Around(c, InOrder(l) + [node] + ([succ] + InOrder(r))))
    requires Within(Around(c, InOrder(l) + [node] + ([succ] + InOrder(r))), S)
    modifies S
    ensures Fact(Holds(node.kids.left, node, l)) && Fact(Holds(succ.kids.right, succ, r))
    ensures Fact(Surrounds(node, node.parent, c, root)) && node.red == old(node.red)
  {
    ReplaceApart(l, node, succ, r, c, S);
    ForkApart(r);
    var child := node.kids.right;
    HeadInside(child, node, r);
    hide InOrder, Around, Distinct, Within, ContextNodes, Surrounds, Apart;
    succ.kids := succ.kids.Put(Right, child);
    child.parent := succ;
  }

  /** The nodes of a fork before and after its successor is taken out of its right subtree. */
  lemma SwapInOrder(l: Tree, node: Node, red: bool, r: Tree, c: Context)
    requires r.Fork?
    requires var o := Lowest(r).right; o == Leaf || o == Fork(Leaf, o.node, true, Leaf)
    ensures var succ, r' := Lowest(r).node, Refill(r, Remnant(Lowest(r), Lowest(r).right));
      && InOrder(r) == [succ] + InOrder(r')
      && Around(c, InOrder(Fork(l, node, red, r))) == Around(c, InOrder(l) + [node] + ([succ] + InOrder(r')))
      && Around(Down(r, Up(Right, c, node, red, l)), InOrder(Lowest(r))) == Around(c, InOrder(Fork(l, node, red, r)))
  {
    LowestFirst(r, Remnant(Lowest(r), Lowest(r).right));
    RefillInOrder(r, Lowest(r), Up(Right, c, node, red, l));
    RefillSelf(r);
  }

  /** Case 3: the successor is taken out from under the right child, which it then takes over. */
  method FromBelow(node: Node, succ: Node, root: Root, ghost l: Tree, ghost red: bool, ghost r: Tree, ghost c: Context,
                   ghost S: set<Node>)
    requires r.Fork? && r.left != Leaf && succ == Lowest(r).node
    requires var o := Lowest(r).right; o == Leaf || o == Fork(Leaf, o.node, true, Leaf)
    requires Distinct(Around(c, InOrder(Fork(l, node, red, r)))) && Within(Around(c, InOrder(Fork(l, node, red, r))), S)
    requires Fact(Holds(succ, succ.parent, Lowest(r)))
      && Fact(Surrounds(succ, succ.parent, Down(r, Up(Right, c, node, red, l)), root))
    modifies root, S
    ensures Fact(Holds(node.kids.left, node, l)) && Fact(Surrounds(node, node.parent, c, root)) && node.red == red
    ensures Fact(Holds(succ.kids.right, succ, Refill(r, Remnant(Lowest(r), Lowest(r).right))))
  {
    ghost var base := Up(Right, c, node, red, l);
    ghost var t := Remnant(Lowest(r), Lowest(r).right);
    SwapInOrder(l, node, red, r, c);
    hide Holds, Surrounds, Distinct, Within, Around, InOrder, Remnant;
    var child2 := Unlink(succ, Left, root, Lowest(r), Down(r, base), S);
    ZipUp(child2, succ.parent, t, r, base, root);
    OpenContext(node.kids.right, node, Right, c, red, l, root);
    TakeRight(node, succ, root, l, Refill(r, t), c, S);
  }

  /** Case 2: the right child is the successor and keeps its own right child, which turns black. */
  method FromRight(node: Node, succ: Node, root: Root, ghost l: Tree, ghost red: bool, ghost r: Tree, ghost c: Context,
                   ghost S: set<Node>)
    requires r.Fork? && r.left == Leaf && succ == r.node
    requires r.right == Leaf || (!r.red && r.right == Fork(Leaf, r.right.node, true, Leaf))
    requires Distinct(Around(c, InOrder(Fork(l, node, red, r)))) && Within(Around(c, InOrder(Fork(l, node, red, r))), S)
    requires Fact(Holds(succ, succ.parent, r)) && Fact(Surrounds(succ, succ.parent, Up(Right, c, node, red, l), root))
    modifies S
    ensures Fact(Holds(node.kids.left, node, l)) && Fact(Surrounds(node, node.parent, c, root)) && node.red == red
    ensures Fact(Holds(succ.kids.right, succ, Remnant(r, r.right)))
  {
    var child2 := succ.kids.right;
    SwapInOrder(l, node, red, r, c);
    ReplaceApart(l, node, succ, Remnant(r, r.right), c, S);
    OpenContext(succ, node, Right, c, red, l, root);
    OpenFork(succ, r, Right);
    HeadInside(child2, succ, r.right);
    hide Surrounds, Distinct, Within, Around, InOrder, ContextNodes;
    if child2 != null {
      assert child2 in Nodes(Remnant(r, r.right));
      child2.parent, child2.red := succ, false;
    }
  }

  lemma RemnantHead(t: Tree)
    requires t.Fork?
    ensures if t.right == Leaf then Remnant(t, t.right) == Leaf
      else Remnant(t, t.right).Fork? && Remnant(t, t.right).node == t.right.node
  {
  }

  /** Cases 2 and 3: the successor of node takes its place; parent is where a node is missing now. */
  method Swap(node: Node, root: Root, ghost l: Tree, ghost red: bool, ghost r: Tree, ghost c: Context,
              ghost S: set<Node>)
    returns (parent: Node, child2: Node?, black: bool)
    requires l.Fork? && r.Fork? && Fact(Linked(node, node.parent, Fork(l, node, red, r), c, root, S))
    requires var o := Lowest(r).right; o == Leaf || (!Lowest(r).red && o == Fork(Leaf, o.node, true, Leaf))
    modifies root, S
    ensures black == !Lowest(r).red
    ensures var k := Down(r, Up(Right, c, Lowest(r).node, red, l));
      && k.Up? && parent == k.node && Fact(Surrounds(child2, parent, k, root))
      && Fact(Holds(child2, parent, Remnant(Lowest(r), Lowest(r).right)))
  {
    ghost var t := Remnant(Lowest(r), Lowest(r).right);
    ghost var all := Around(c, InOrder(Fork(l, node, red, r)));
    SwapInOrder(l, node, red, r, c);
    Unzip(node, Right, r, red, l, c, root);
    var child := node.kids.right;
    HeadInside(child, node, r);
    hide Holds, Surrounds, Distinct, Within, Around, InOrder, Remnant;
    GoLeft(child, r, Up(Right, c, node, red, l), root);
    var succ := Descend(child, root, r, Up(Right, c, node, red, l));
    HeadInside(succ, succ.parent, Lowest(r));
    OpenFork(succ, Lowest(r), Right);
    child2 := succ.kids.right;
    HeadInside(child2, succ, Lowest(r).right);
    black := !succ.red;
    parent := succ;
    if child.kids.left == null {
      FromRight(node, succ, root, l, red, r, c, S);
    } else {
      DownEnds(r, Up(Right, c, node, red, l), Up(Right, c, succ, red, l));
      ParentInContext(succ, succ.parent, Down(r, Up(Right, c, node, red, l)), root);
      parent := succ.parent;
      FromBelow(node, succ, root, l, red, r, c, S);
    }
    Replace(node, succ, root, l, Refill(r, t), c, S);
    Unzip(succ, Right, Refill(r, t), red, l, c, root);
    ZipDown(succ.kids.right, succ, t, r, Up(Right, c, succ, red, l), root);
    ghost var side := if child == succ then Right else Left;
    RemnantHead(Lowest(r));
    HeadInside(parent.Child(side), parent, t);
  }

  /** The black heights around the place a node was taken from: all is well, or one black node is missing there. */
  lemma RemnantRedBlack(t: Tree, s: Side, c: Context, h: nat)
    requires t.Fork? && Sub(t, s) == Leaf && Fact(RedBlack(t, h)) && Fact(Accepts(c, h)) && (IsRed(t) ==> RedFits(c))
    ensures var o := Sub(t, Opp(s)); var u := Remnant(t, o);
      && (o == Leaf || (!t.red && o == Fork(Leaf, o.node, true, Leaf)))
      && !IsRed(u)
      && if o == Leaf && !t.red && c.Up? then Fact(Accepts(c, 1))
         else var k := if o == Leaf then 0 else 1; Fact(RedBlack(u, k)) && Fact(Accepts(c, k))
  {
    AlmostLeaf(t, s, h);
  }

  /** Rebalancing where it is due. */
  method Settle(rebalance: bool, parent: Node?, child: Node?, root: Root, ghost u: Tree, ghost c: Context, ghost k: nat,
                ghost S: set<Node>)
    returns (ghost t': Tree)
    requires Fact(Holds(child, parent, u)) && Fact(Surrounds(child, parent, c, root))
    requires Distinct(Around(c, InOrder(u))) && Within(Around(c, InOrder(u)), S)
    requires if rebalance then u == Leaf && c.Up? && Fact(Accepts(c, 1))
      else !IsRed(u) && Fact(RedBlack(u, k)) && Fact(Accepts(c, k))
    modifies root, S
    ensures Fact(Holds(root.node, null, t')) && Fact(ValidTree(t')) && InOrder(t') == Around(c, InOrder(u))
  {
    ParentInContext(child, parent, c, root);
    if rebalance {
      assert child == null;
      hide Holds, Surrounds, Distinct, Within, Around, RedBlack, ValidTree, Accepts;
      t' := EraseColor(parent, root, c, S);
    } else {
      hide Holds, Surrounds, Distinct, Within, Around, RedBlack, ValidTree, Accepts;
      PluggedIn(child, parent, u, c, k, root);
      t' := Plug(c, u);
    }
  }

  /** The sequence around a hole that held t, t.node taken out. */
  lemma TakenOut(c: Context, t: Tree, c': Context, u: Tree, S: set<Node>)
    requires t.Fork? && Distinct(Around(c, InOrder(t))) && Within(Around(c, InOrder(t)), S)
    requires Around(c', InOrder(u)) == Around(c, InOrder(t.left) + InOrder(t.right))
    ensures Around(c', InOrder(u)) == Without(Around(c, InOrder(t)), t.node)
    ensures Distinct(Around(c', InOrder(u))) && Within(Around(c', InOrder(u)), S)
  {
    var l, r := InOrder(t.left), InOrder(t.right);
    assert InOrder(t) == l + [t.node] + r;
    hide InOrder, Distinct, Within, Without, Around, Pre, Post;
    AroundSplit(c, l, t.node, r);
    DistinctWithout(Pre(c) + l, t.node, r + Post(c), S);
    WithoutIs(Pre(c) + l, t.node, r + Post(c));
  }

  lemma AroundSplit(c: Context, l: seq<Node>, x: Node, r: seq<Node>)
    ensures Around(c, l + [x] + r) == (Pre(c) + l) + [x] + (r + Post(c))
    ensures Around(c, l + r) == (Pre(c) + l) + (r + Post(c))
  {
    AroundIs(c, l + [x] + r);
    AroundIs(c, l + r);
    hide Around, Pre, Post;
    SplitAround(Pre(c), l, x, r, Post(c));
  }

  lemma SplitAround(a: seq<Node>, l: seq<Node>, x: Node, r: seq<Node>, b: seq<Node>)
    ensures a + (l + [x] + r) + b == (a + l) + [x] + (r + b) && a + (l + r) + b == (a + l) + (r + b)
  {
  }

  /** Case 1: a node with at most one child. */
  method EraseEasy(node: Node, s: Side, root: Root, ghost t: Tree, ghost c: Context, ghost h: nat, ghost S: set<Node>)
    returns (ghost t': Tree)
    requires t.Fork? && t.node == node && Fact(Linked(node, node.parent, t, c, root, S)) && Sub(t, s) == Leaf
    requires Fact(RedBlack(t, h)) && Fact(Accepts(c, h)) && (IsRed(t) ==> RedFits(c))
    modifies root, S
    ensures Fact(Holds(root.node, null, t')) && Fact(ValidTree(t'))
      && InOrder(t') == Without(Around(c, InOrder(t)), node)
  {
    ghost var o := Sub(t, Opp(s));
    ghost var u := Remnant(t, o);
    RemnantRedBlack(t, s, c, h);
    assert InOrder(t.left) + InOrder(t.right) == InOrder(u);
    TakenOut(c, t, c, u, S);
    HeadInside(node, node.parent, t);
    RemnantApart(t, s, c, S);
    ParentInContext(node, node.parent, c, root);
    OpenFork(node, t, s);
    HeadInside(node.Child(Opp(s)), node, o);
    hide Holds, Surrounds, Distinct, Within, Around, RedBlack, ValidTree, Accepts, Linked, Remnant;
    var child := Unlink(node, s, root, t, c, S);
    var rebalance := child == null && !node.red && node.parent != null;
    t' := Settle(rebalance, node.parent, child, root, u, c, if o == Leaf then 0 else 1, S);
  }

  /** Cases 2 and 3: a node with two children. */
  method EraseInner(node: Node, root: Root, ghost t: Tree, ghost c: Context, ghost h: nat, ghost S: set<Node>)
    returns (ghost t': Tree)
    requires t.Fork? && t.node == node && t.left != Leaf && t.right != Leaf
      && Fact(Linked(node, node.parent, t, c, root, S))
    requires Fact(RedBlack(t, h)) && Fact(Accepts(c, h)) && (IsRed(t) ==> RedFits(c))
    modifies root, S
    ensures Fact(Holds(root.node, null, t')) && Fact(ValidTree(t'))
      && InOrder(t') == Without(Around(c, InOrder(t)), node)
  {
    ghost var l, red, r := t.left, t.red, t.right;
    ghost var low := Lowest(r);
    ghost var base := Up(Right, c, low.node, red, l);
    ghost var k, u := Down(r, base), Remnant(low, low.right);
    ghost var kk := LowestRedBlack(r, base, if red then h else h - 1);
    RemnantRedBlack(low, Left, k, kk);
    SwapInOrder(l, node, red, r, c);
    RefillInOrder(r, u, base);
    assert InOrder(l) + [low.node] + InOrder(Refill(r, u)) == InOrder(l) + InOrder(r);
    TakenOut(c, t, k, u, S);
    hide Holds, Surrounds, Distinct, Within, Around, InOrder, RedBlack, ValidTree, Accepts, Linked, Remnant;
    var parent, child2, black := Swap(node, root, l, red, r, c, S);
    RemnantHead(low);
    HeadInside(child2, parent, u);
    t' := Settle(child2 == null && black, parent, child2, root, u, k, if low.right == Leaf then 0 else 1, S);
  }

  /** rb_erase: node leaves the tree, which stays red-black with all parent links right and the others in order. */
  method Erase(node: Node, root: Root, ghost t: Tree, ghost S: set<Node>) returns (ghost t': Tree)
    requires Holds(root.node, null, t) && ValidTree(t) && Distinct(InOrder(t)) && Within(InOrder(t), S)
      && node in Nodes(t)
    modifies root, S
    ensures Fact(Holds(root.node, null, t')) && Fact(ValidTree(t')) && InOrder(t') == Without(InOrder(t), node)
  {
    ghost var u, c := TreeOf(t, node), ContextOf(t, Top, node);
    Locate(root.node, null, t, Top, root, node);
    ghost var h := Unplug(c, u);
    PlugInOrder(c, u);
    OpenFork(node, u, Left);
    HeadInside(node.kids.left, node, u.left);
    HeadInside(node.kids.right, node, u.right);
    assert Linked(node, node.parent, u, c, root, S);
    hide Holds, Surrounds, Distinct, Within, Around, RedBlack, ValidTree, Accepts, Linked;
    if node.kids.left == null {
      t' := EraseEasy(node, Left, root, u, c, h, S);
    } else if node.kids.right == null {
      t' := EraseEasy(node, Right, root, u, c, h, S);
    } else {
      t' := EraseInner(node, root, u, c, h, S);
    }
  }

  // ---------- linking in ----------

  /** rb_link_node: node becomes a red leaf in the empty place on side s of parent. */
  method Link(node: Node, parent: Node?, s: Side, root: Root, ghost c: Context)
    requires Surrounds(null, parent, c, root) && node !in ContextNodes(c) && (c.Up? ==> c.s == s && Apart(node, c))
    modifies root, node, if parent == null then {} else {parent}
    ensures Fact(Holds(node, parent, Fork(Leaf, node, true, Leaf))) && Fact(Surrounds(node, parent, c, root))
  {
    node.parent, node.red := parent, true;
    node.kids := Kids(null, null);
    if parent == null {
      root.node := node;
    } else {
      parent.kids := parent.kids.Put(s, node);
    }
  }

  lemma DistinctWith(a: seq<Node>, x: Node, b: seq<Node>)
    requires Distinct(a + b) && x !in a + b
    ensures Distinct(a + [x] + b)
  {
    var q, r := a + [x] + b, a + b;
    forall j, k | 0 <= j < k < |q|
      ensures q[j] != q[k]
    {
      assert j != |a| ==> q[j] == r[if j < |a| then j else j - 1];
      assert k != |a| ==> q[k] == r[if k < |a| then k else k - 1];
    }
  }

  lemma WithinWith(a: seq<Node>, x: Node, b: seq<Node>, S: set<Node>)
    requires Within(a + b, S) && x in S
    ensures Within(a + [x] + b, S)
  {
    assert forall y :: y in a + [x] + b ==> y in a + b || y == x;
  }

  lemma LinkApart(c: Context, node: Node, S: set<Node>)
    requires Distinct(Around(c, [])) && Within(Around(c, []), S) && node !in Around(c, []) && node in S
    ensures node !in ContextNodes(c) && Apart(node, c)
    ensures Distinct(Around(c, [node])) && Within(Around(c, [node]), S) && ContextNodes(c) <= S
  {
    hide Around, Pre, Post, Distinct, Apart, ContextNodes;
    AroundIs(c, []);
    AroundIs(c, [node]);
    assert Pre(c) + [] + Post(c) == Pre(c) + Post(c);
    DistinctWith(Pre(c), node, Post(c));
    WithinWith(Pre(c), node, Post(c), S);
    AroundDistinct(c, [node]);
    AroundApart(node, c, [node]);
    AroundMembers(c, [node]);
  }

  /** rb_link_node and rb_insert_color in an empty place of a red-black tree: the tree stays one, with node in that
      place. */
  method LinkAndColor(node: Node, parent: Node?, s: Side, root: Root, ghost c: Context, ghost S: set<Node>)
    returns (ghost t': Tree)
    requires Fact(Surrounds(null, parent, c, root)) && (c.Up? ==> c.s == s) && Fact(ValidTree(Plug(c, Leaf)))
    requires Distinct(Around(c, [])) && Within(Around(c, []), S) && node !in Around(c, []) && node in S
    modifies root, S
    ensures Fact(Holds(root.node, null, t')) && Fact(ValidTree(t')) && InOrder(t') == Pre(c) + [node] + Post(c)
  {
    ghost var t := Fork(Leaf, node, true, Leaf);
    ghost var h := Unplug(c, Leaf);
    LinkApart(c, node, S);
    ParentInContext(null, parent, c, root);
    PlugInOrder(c, t);
    AroundIs(c, [node]);
    assert InOrder(t) == [node];
    hide Surrounds, Distinct, Within, Around, ContextNodes, ValidTree, Accepts, Plug, Apart, Pre, Post;
    Link(node, parent, s, root, c);
    t' := InsertColor(node, root, t, c, 0, S);
  }

  /** The callback of rb_add orders the nodes of S: it is a strict weak order. */
  ghost predicate Orders(less: (Node, Node) -> bool, S: set<Node>) {
    && (forall a, b :: a in S && b in S && less(a, b) ==> !less(b, a))
    && (forall a, b, c :: a in S && b in S && c in S && less(a, c) ==> less(a, b) || less(b, c))
  }

  ghost predicate Sorted(q: seq<Node>, less: (Node, Node) -> bool) {
    forall i, j :: 0 <= i < j < |q| ==> !less(q[j], q[i])
  }

  /** a goes before node, and b behind it. */
  ghost predicate Parts(a: seq<Node>, node: Node, b: seq<Node>, less: (Node, Node) -> bool) {
    (forall y :: y in a ==> !less(node, y)) && (forall y :: y in b ==> less(node, y))
  }

  /** The new node between what is not above it and what is above it keeps the order. */
  lemma PartsSorted(a: seq<Node>, node: Node, b: seq<Node>, less: (Node, Node) -> bool, S: set<Node>)
    requires Sorted(a + b, less) && Parts(a, node, b, less) && Orders(less, S) && Within(a + b, S) && node in S
    ensures Sorted(a + [node] + b, less)
  {
    var q, r := a + [node] + b, a + b;
    forall i, j | 0 <= i < j < |q|
      ensures !less(q[j], q[i])
    {
      assert i != |a| ==> q[i] == r[if i < |a| then i else i - 1];
      assert j != |a| ==> q[j] == r[if j < |a| then j else j - 1];
      assert j > |a| ==> q[j] in b;
      assert i < |a| ==> q[i] in a;
    }
  }

  /** Going down past u.node on the side the comparison says keeps the parts right. */
  lemma PartsStep(c: Context, u: Tree, node: Node, less: (Node, Node) -> bool, s: Side, S: set<Node>)
    requires u.Fork? && Sorted(Around(c, InOrder(u)), less) && Within(Around(c, InOrder(u)), S) && node in S
      && Orders(less, S)
    requires Parts(Pre(c), node, Post(c), less) && s == if less(node, u.node) then Left else Right
    ensures var c' := Up(s, c, u.node, u.red, Sub(u, Opp(s))); Parts(Pre(c'), node, Post(c'), less)
  {
    var n, o := u.node, InOrder(Sub(u, Opp(s)));
    var a, b := Pre(c), Post(c);
    AroundIs(c, InOrder(u));
    var q := a + InOrder(u) + b;
    var l, r := InOrder(u.left), InOrder(u.right);
    AroundSplit(c, l, n, r);
    assert InOrder(u) == l + [n] + r;
    hide InOrder, Around;
    forall y | y in o
      ensures y in S && n in S && if s == Left then less(node, y) else !less(node, y)
    {
      PastOne(a + l, n, r + b, y, less);
      assert y in q && n in q;
    }
  }

  lemma PastOne(a: seq<Node>, n: Node, b: seq<Node>, y: Node, less: (Node, Node) -> bool)
    requires Sorted(a + [n] + b, less)
    ensures y in a ==> !less(n, y)
    ensures y in b ==> !less(y, n)
  {
    var q := a + [n] + b;
    if y in a {
      var i :| 0 <= i < |a| && a[i] == y;
      assert q[i] == y && q[|a|] == n;
    }
    if y in b {
      var i :| 0 <= i < |b| && b[i] == y;
      assert q[|a| + 1 + i] == y && q[|a|] == n;
    }
  }

  /** rb_add: node goes behind everything that is not above it, and the order stays. */
  method Add(node: Node, root: Root, less: (Node, Node) -> bool, ghost t: Tree, ghost S: set<Node>)
    returns (ghost t': Tree, ghost i: nat)
    requires Holds(root.node, null, t) && ValidTree(t) && Distinct(InOrder(t)) && Within(InOrder(t), S)
    requires node in S && node !in InOrder(t) && Orders(less, S) && Sorted(InOrder(t), less)
    modifies root, S
    ensures Fact(Holds(root.node, null, t')) && Fact(ValidTree(t')) && Sorted(InOrder(t'), less)
    ensures i <= |InOrder(t)| && InOrder(t') == InOrder(t)[..i] + [node] + InOrder(t)[i..]
    ensures Parts(InOrder(t)[..i], node, InOrder(t)[i..], less)
  {
    var parent: Node?, s, x := null, Left, root.node;
    ghost var u, c := t, Top;
    hide Holds, Surrounds, ValidTree, Distinct, Within, Orders, Sorted, Parts, Plug, InOrder, Around;
    StartParts(root, node, less, t);
    while x != null
      invariant Fact(Holds(x, parent, u)) && Fact(Surrounds(x, parent, c, root)) && (c.Up? ==> c.s == s)
      invariant Plug(c, u) == t && Around(c, InOrder(u)) == InOrder(t) && Parts(Pre(c), node, Post(c), less)
      decreases u
    {
      HeadInside(x, parent, u);
      parent := x;
      s := if less(node, parent) then Left else Right;
      PartsStep(c, u, node, less, s, S);
      StepDown(parent, s, u, c, root);
      x := parent.Child(s);
      c, u := Up(s, c, parent, u.red, Sub(u, Opp(s))), Sub(u, s);
    }
    EmptyPlace(x, parent, u, c);
    i := |Pre(c)|;
    PartsSorted(Pre(c), node, Post(c), less, S);
    t' := LinkAndColor(node, parent, s, root, c, S);
  }

  lemma StartParts(root: Root, node: Node, less: (Node, Node) -> bool, t: Tree)
    ensures Fact(Surrounds(root.node, null, Top, root)) && Plug(Top, t) == t && Around(Top, InOrder(t)) == InOrder(t)
    ensures Parts(Pre(Top), node, Post(Top), less)
  {
  }

  lemma StepDown(n: Node, s: Side, u: Tree, c: Context, root: Root)
    requires u.Fork? && u.node == n && Fact(Holds(n, n.parent, u)) && Fact(Surrounds(n, n.parent, c, root))
    ensures var c', u' := Up(s, c, n, u.red, Sub(u, Opp(s))), Sub(u, s);
      && Fact(Holds(n.Child(s), n, u')) && Fact(Surrounds(n.Child(s), n, c', root))
      && Plug(c', u') == Plug(c, u) && Around(c', InOrder(u')) == Around(c, InOrder(u)) && u' < u
  {
    Unzip(n, s, Sub(u, s), u.red, Sub(u, Opp(s)), c, root);
  }

  lemma EmptyPlace(x: Node?, p: Node?, u: Tree, c: Context)
    requires x == null && Fact(Holds(x, p, u))
    ensures u == Leaf && Around(c, InOrder(u)) == Around(c, []) == Pre(c) + Post(c)
    ensures (Pre(c) + Post(c))[..|Pre(c)|] == Pre(c) && (Pre(c) + Post(c))[|Pre(c)|..] == Post(c)
  {
    AroundIs(c, []);
    assert Pre(c) + [] + Post(c) == Pre(c) + Post(c);
  }

  // ---------- walking ----------

  /** rb_first */
  method First(root: Root, ghost t: Tree) returns (n: Node?)
    requires Holds(root.node, null, t)
    ensures if InOrder(t) == [] then n == null else n == InOrder(t)[0]
  {
    n := root.node;
    if n == null {
      return;
    }
    LowestFirst(t, Lowest(t).right);
    n := Descend(n, root, t, Top);
  }

  /** Node i of the tree t that root holds. */
  ghost predicate Stands(node: Node, root: Root, t: Tree, i: nat)
    reads root, Nodes(t)
  {
    Holds(root.node, null, t) && Distinct(InOrder(t)) && i < |InOrder(t)| && InOrder(t)[i] == node
  }

  /** RB_EMPTY_NODE: the parent link is the node itself and the color bit is that of a red node. */
  predicate IsEmptyNode(node: Node)
    reads node
  {
    node.parent == node && node.red
  }

  /** A node in a tree is not its own parent. */
  lemma NotEmptyNode(node: Node, root: Root, t: Tree, i: nat)
    requires Stands(node, root, t, i)
    ensures node.parent != node
  {
    InOrderNodes(t);
    ghost var u, c := TreeOf(t, node), ContextOf(t, Top, node);
    Locate(root.node, null, t, Top, root, node);
    PlugInOrder(c, u);
    AroundDistinct(c, InOrder(u));
    ParentInContext(node, node.parent, c, root);
    assert node in InOrder(u);
  }

  /** rb_next: the node behind node i, or nothing behind the last one; nothing for a node that is in no tree */
  method Next(node: Node, root: Root, ghost t: Tree, ghost i: nat) returns (n: Node?)
    requires IsEmptyNode(node) || Stands(node, root, t, i)
    ensures IsEmptyNode(node) ==> n == null && !Stands(node, root, t, i)
    ensures Stands(node, root, t, i) ==> n == if i + 1 < |InOrder(t)| then InOrder(t)[i + 1] else null
  {
    if Stands(node, root, t, i) {
      NotEmptyNode(node, root, t, i);
    }
    if IsEmptyNode(node) {
      return null;
    }
    InOrderNodes(t);
    ghost var u, c := TreeOf(t, node), ContextOf(t, Top, node);
    Locate(root.node, null, t, Top, root, node);
    PlugInOrder(c, u);
    AroundSplit(c, InOrder(u.left), node, InOrder(u.right));
    IndexOf(Pre(c) + InOrder(u.left), node, InOrder(u.right) + Post(c), i);
    OpenFork(node, u, Right);
    HeadInside(node.kids.right, node, u.right);
    hide Holds, Surrounds, Distinct, Plug;
    if node.kids.right != null {
      LowestFirst(u.right, Lowest(u.right).right);
      StepDown(node, Right, u, c, root);
      n := Descend(node.kids.right, root, u.right, Up(Right, c, node, u.red, u.left));
    } else {
      n := Climb(node, root, u, c);
    }
  }

  lemma IndexOf(a: seq<Node>, x: Node, b: seq<Node>, i: nat)
    requires Distinct(a + [x] + b) && i < |a + [x] + b| && (a + [x] + b)[i] == x
    ensures i == |a| && (a + [x] + b)[i + 1..] == b
  {
    assert (a + [x] + b)[|a|] == x;
  }

  /** Up to the first ancestor that has the way come from on its left: the first node behind the hole of c. */
  method Climb(start: Node, root: Root, ghost u: Tree, ghost c: Context) returns (parent: Node?)
    requires u.Fork? && u.node == start && Fact(Holds(start, start.parent, u))
      && Fact(Surrounds(start, start.parent, c, root))
    requires Distinct(Around(c, InOrder(u)))
    ensures parent == if Post(c) == [] then null else Post(c)[0]
  {
    var n := start;
    ghost var v, d := u, c;
    parent := n.parent;
    hide Holds, Surrounds, Distinct, Around, InOrder, Nodes;
    while true
      invariant v.Fork? && v.node == n && parent == n.parent && Fact(Holds(n, parent, v))
        && Fact(Surrounds(n, parent, d, root))
      invariant Distinct(Around(d, InOrder(v))) && Post(d) == Post(c)
      decreases d
    {
      ParentInContext(n, parent, d, root);
      if parent == null {
        return;
      }
      SideSeen(n, parent, d.other, d.s, v, d.up, root);
      if n != parent.kids.right {
        return;
      }
      StepUp(n, parent, v, d, root);
      v, d := Mk(d.s, v, parent, d.red, d.other), d.up;
      n := parent;
      parent := n.parent;
    }
  }

  lemma StepUp(n: Node, p: Node, v: Tree, d: Context, root: Root)
    requires d.Up? && Fact(Holds(n, p, v)) && Fact(Surrounds(n, p, d, root))
    ensures var v' := Mk(d.s, v, p, d.red, d.other);
      v'.Fork? && v'.node == p && Fact(Holds(p, p.parent, v')) && Fact(Surrounds(p, p.parent, d.up, root))
      && Around(d.up, InOrder(v')) == Around(d, InOrder(v))
  {
    FoldMk(d.s, v, p, d.other);
  }
}
