/** Red-black rebalancing, lib/rbtree.c, in place on nodes with parent links.

The two mirror-image halves of every fix-up are one piece of code here, run with a Side. */
module Rbtree {
  import opened Base

  datatype Side = Left | Right

  function Opp(s: Side): Side {
    if s == Left then Right else Left
  }

  /** The pair rb_left, rb_right of a node. */
  datatype Kids = Kids(left: Node?, right: Node?) {

    function At(s: Side): Node? {
      if s == Left then left else right
    }

    function Put(s: Side, c: Node?): (k: Kids)
      ensures k.At(s) == c && k.At(Opp(s)) == At(Opp(s))
    {
      if s == Left then Kids(c, right) else Kids(left, c)
    }
  }

  /** struct rb_node; __rb_parent_color is the pair of parent and color. */
  class Node {
    var kids: Kids
    var parent: Node?
    var red: bool

    function Child(s: Side): Node?
      reads this
    {
      kids.At(s)
    }
  }

  /** struct rb_root. */
  class Root {
    var node: Node?
  }

  // ---------- trees and tree contexts as values ----------

  datatype Tree = Leaf | Fork(left: Tree, node: Node, red: bool, right: Tree)

  /** A tree with a hole: the hole is the side `s` subtree of `node`. */
  datatype Context = Top | Up(s: Side, up: Context, node: Node, red: bool, other: Tree)

  /** The fork with `near` on side s and `far` on the other side. */
  ghost function Mk(s: Side, near: Tree, n: Node, red: bool, far: Tree): Tree {
    if s == Left then Fork(near, n, red, far) else Fork(far, n, red, near)
  }

  ghost function Plug(c: Context, t: Tree): Tree {
    match c
    case Top => t
    case Up(s, up, n, red, other) => Plug(up, Mk(s, t, n, red, other))
  }

  ghost function Nodes(t: Tree): set<Node> {
    match t
    case Leaf => {}
    case Fork(l, n, _, r) => Nodes(l) + {n} + Nodes(r)
  }

  ghost function ContextNodes(c: Context): set<Node> {
    match c
    case Top => {}
    case Up(_, up, n, _, other) => ContextNodes(up) + {n} + Nodes(other)
  }

  ghost function InOrder(t: Tree): seq<Node> {
    match t
    case Leaf => []
    case Fork(l, n, _, r) => InOrder(l) + [n] + InOrder(r)
  }

  /** The in-order sequence of a fork with near sequence q on side s of node n. */
  ghost function Joined(s: Side, q: seq<Node>, n: Node, other: seq<Node>): seq<Node> {
    if s == Left then q + [n] + other else other + [n] + q
  }

  /** The in-order sequence of context c whose hole contributes q. */
  ghost function Around(c: Context, q: seq<Node>): seq<Node> {
    match c
    case Top => q
    case Up(s, up, n, _, other) => Around(up, Joined(s, q, n, InOrder(other)))
  }

  lemma PlugInOrder(c: Context, t: Tree)
    ensures InOrder(Plug(c, t)) == Around(c, InOrder(t))
  {
  }

  ghost predicate Distinct(q: seq<Node>) {
    forall j, k :: 0 <= j < k < |q| ==> q[j] != q[k]
  }

  predicate IsRed(t: Tree) {
    t.Fork? && t.red
  }

  /** Properties 4 and 5 of the header comment: no red node has a red child, and h black nodes lie
      on every path from the root of t to a leaf. */
  ghost predicate RedBlack(t: Tree, h: nat) {
    match t
    case Leaf => h == 0
    case Fork(l, _, red, r) =>
      if red then !IsRed(l) && !IsRed(r) && RedBlack(l, h) && RedBlack(r, h)
      else h > 0 && RedBlack(l, h - 1) && RedBlack(r, h - 1)
  }

  /** The hole of c may hold a red node. */
  predicate RedFits(c: Context) {
    c.Up? && !c.red
  }

  /** Plugged with a red-black tree of black height h whose root color fits, c is a red-black tree. */
  ghost predicate Accepts(c: Context, h: nat) {
    match c
    case Top => true
    case Up(_, up, _, red, other) =>
      && RedBlack(other, h)
      && (red ==> !IsRed(other) && RedFits(up))
      && Accepts(up, if red then h else h + 1)
  }

  // ---------- trees in memory ----------

  /** The pointer x, whose parent link is p, heads the tree t in memory. */
  ghost predicate Holds(x: Node?, p: Node?, t: Tree)
    reads Nodes(t)
    decreases t
  {
    match t
    case Leaf => x == null
    case Fork(l, n, red, r) =>
      x == n && n.parent == p && n.red == red && Holds(n.kids.left, n, l) && Holds(n.kids.right, n, r)
  }

  /** The pointer x sits in the hole of the context c of root, and its parent link must be p. */
  ghost predicate Surrounds(x: Node?, p: Node?, c: Context, root: Root)
    reads root, ContextNodes(c)
    decreases c
  {
    match c
    case Top => p == null && root.node == x
    case Up(s, up, n, red, other) =>
      && p == n && n.red == red && n.Child(s) == x
      && Holds(n.Child(Opp(s)), n, other)
      && Surrounds(n, n.parent, up, root)
  }

  lemma InOrderNodes(t: Tree)
    ensures forall x :: x in Nodes(t) ==> x in InOrder(t)
    ensures forall x :: x in InOrder(t) ==> x in Nodes(t)
  {
  }

  lemma DistinctParts(a: seq<Node>, n: Node, b: seq<Node>)
    requires Distinct(a + [n] + b)
    ensures Distinct(a) && Distinct(b) && n !in a && n !in b && forall x :: x in a ==> x !in b
  {
    var q := a + [n] + b;
    forall j, k | 0 <= j < k < |a| ensures a[j] != a[k] { assert q[j] != q[k]; }
    forall j, k | 0 <= j < k < |b| ensures b[j] != b[k] { assert q[|a| + 1 + j] != q[|a| + 1 + k]; }
    forall k | 0 <= k < |b| ensures n != b[k] { assert q[|a|] != q[|a| + 1 + k]; }
    forall j, k | 0 <= j < |a| && 0 <= k < |b| ensures a[j] != b[k] { assert q[j] != q[|a| + 1 + k]; }
    forall j | 0 <= j < |a| ensures a[j] != n { assert q[j] != q[|a|]; }
  }

  /** What lies in the hole of c is not in c. */
  lemma {:induction false} AroundDistinct(c: Context, q: seq<Node>)
    requires Distinct(Around(c, q))
    ensures Distinct(q)
    ensures forall x :: x in q ==> x !in ContextNodes(c)
  {
    match c
    case Top =>
    case Up(s, up, n, _, other) =>
      AroundDistinct(up, Joined(s, q, n, InOrder(other)));
      InOrderNodes(other);
      if s == Left { DistinctParts(q, n, InOrder(other)); } else { DistinctParts(InOrder(other), n, q); }
  }

  /** A fork of distinct nodes keeps its parts apart. */
  lemma ForkApart(t: Tree)
    requires t.Fork? && Distinct(InOrder(t))
    ensures Distinct(InOrder(t.left)) && Distinct(InOrder(t.right))
    ensures t.node !in Nodes(t.left) && t.node !in Nodes(t.right) && Nodes(t.left) !! Nodes(t.right)
  {
    InOrderNodes(t.left);
    InOrderNodes(t.right);
    var l, r := InOrder(t.left), InOrder(t.right);
    assert InOrder(t) == l + [t.node] + r;
    hide InOrder, Nodes, Distinct;
    DistinctParts(l, t.node, r);
    forall x | x in Nodes(t.left) ensures x !in Nodes(t.right) { assert x in l; }
  }

  /** The node x is not in context c, and the nearest node of c occurs in it once. */
  ghost predicate Apart(x: Node, c: Context) {
    && x !in ContextNodes(c)
    && (c.Up? ==> c.node !in ContextNodes(c.up) && c.node !in Nodes(c.other))
  }

  lemma AroundApart(x: Node, c: Context, q: seq<Node>)
    requires Distinct(Around(c, q)) && x in q
    ensures Apart(x, c)
  {
    AroundDistinct(c, q);
    if c.Up? {
      InOrderNodes(c.other);
      AroundDistinct(c.up, Joined(c.s, q, c.node, InOrder(c.other)));
      if c.s == Left { DistinctParts(q, c.node, InOrder(c.other)); }
      else { DistinctParts(InOrder(c.other), c.node, q); }
    }
  }

  /** __rb_change_child. */
  method ChangeChild(old_: Node, new_: Node?, parent: Node?, root: Root, ghost c: Context)
    requires Surrounds(old_, parent, c, root) && Apart(old_, c)
    modifies root`node, if parent == null then {} else {parent}
    ensures Surrounds(new_, parent, c, root)
    ensures parent != null ==> parent.parent == old(parent.parent) && parent.red == old(parent.red)
  {
    if parent != null {
      assert parent.Child(Opp(c.s)) != old_;
      if parent.kids.left == old_ { parent.kids := parent.kids.Put(Left, new_); }
      else { parent.kids := parent.kids.Put(Right, new_); }
    } else {
      root.node := new_;
    }
  }

  /** __rb_rotate_set_parents. */
  method RotateSetParents(old_: Node, new_: Node, root: Root, red: bool, ghost c: Context)
    requires old_ != new_ && new_ !in ContextNodes(c)
    requires Surrounds(old_, old_.parent, c, root) && Apart(old_, c)
    modifies root`node, old_`parent, old_`red, new_`parent, new_`red, old_.parent
    ensures Surrounds(new_, old(old_.parent), c, root)
    ensures new_.parent == old(old_.parent) && new_.red == old(old_.red)
    ensures old_.parent == new_ && old_.red == red
  {
    var parent := old_.parent;
    new_.parent, new_.red := old_.parent, old_.red;
    old_.parent, old_.red := new_, red;
    ChangeChild(old_, new_, parent, root, c);
  }

  lemma FoldMk(s: Side, near: Tree, n: Node, far: Tree)
    requires Fact(Holds(n.Child(s), n, near)) && Fact(Holds(n.Child(Opp(s)), n, far))
    ensures Fact(Holds(n, n.parent, Mk(s, near, n, n.red, far)))
  {
  }

  lemma HeadInside(x: Node?, p: Node?, t: Tree)
    requires Fact(Holds(x, p, t))
    ensures if x == null then t == Leaf
            else t.Fork? && t.node == x && x in Nodes(t) && x.parent == p && x.red == t.red
    ensures t.Fork? ==> Nodes(t.left) <= Nodes(t) && Nodes(t.right) <= Nodes(t)
  {
  }

  lemma ParentInContext(x: Node?, p: Node?, c: Context, root: Root)
    requires Fact(Surrounds(x, p, c, root))
    ensures if p == null then c == Top else c.Up? && p == c.node && p in ContextNodes(c) && p.red == c.red
  {
  }

  /** The node x lies outside of the trees t, u, v, w. */
  ghost predicate Outside(x: Node, t: Tree, u: Tree, v: Tree, w: Tree) {
    x !in Nodes(t) && x !in Nodes(u) && x !in Nodes(v) && x !in Nodes(w)
  }

  /** Everything two levels of context keep apart. */
  lemma TwoLevelsApart(t: Tree, s1: Side, p: Node, o: Tree, s: Side, g: Node, u: Tree, up: Context)
    requires Distinct(Around(up, Joined(s, Joined(s1, InOrder(t), p, InOrder(o)), g, InOrder(u))))
    ensures Distinct(InOrder(t)) && Distinct(InOrder(o)) && Distinct(InOrder(u)) && p != g
    ensures Outside(p, t, o, u, u) && Outside(g, t, o, u, u)
    ensures Nodes(t) !! Nodes(o) && Nodes(t) !! Nodes(u) && Nodes(o) !! Nodes(u)
    ensures Nodes(t) !! ContextNodes(up) && Nodes(o) !! ContextNodes(up) && Nodes(u) !! ContextNodes(up)
    ensures p !in ContextNodes(up) && Apart(g, up)
  {
    var T, O, U := InOrder(t), InOrder(o), InOrder(u);
    InOrderNodes(t);
    InOrderNodes(o);
    InOrderNodes(u);
    hide InOrder, Nodes, Distinct, ContextNodes, Around, Apart;
    var q1 := Joined(s1, T, p, O);
    var q2 := Joined(s, q1, g, U);
    AroundDistinct(up, q2);
    assert g in q2;
    AroundApart(g, up, q2);
    if s == Left { DistinctParts(q1, g, U); } else { DistinctParts(U, g, q1); }
    if s1 == Left { DistinctParts(T, p, O); } else { DistinctParts(O, p, T); }
    JoinedHas(s1, T, p, O);
    JoinedHas(s, q1, g, U);
    hide Joined;
  }

  lemma JoinedHas(s: Side, a: seq<Node>, n: Node, b: seq<Node>)
    ensures forall x :: x in Joined(s, a, n, b) <==> x in a || x == n || x in b
  {
  }

  // ---------- plugging a context back together ----------

  ghost predicate ValidTree(t: Tree) {
    !IsRed(t) && exists h: nat :: RedBlack(t, h)
  }

  lemma {:induction false} PlugValid(c: Context, t: Tree, h: nat)
    requires RedBlack(t, h) && Accepts(c, h) && (IsRed(t) ==> RedFits(c))
    ensures ValidTree(Plug(c, t))
  {
    match c
    case Top =>
    case Up(s, up, n, red, other) => PlugValid(up, Mk(s, t, n, red, other), if red then h else h + 1);
  }

  lemma {:induction false} PlugHolds(x: Node?, p: Node?, t: Tree, c: Context, root: Root)
    requires Holds(x, p, t) && Surrounds(x, p, c, root)
    ensures Holds(root.node, null, Plug(c, t))
    decreases c
  {
    match c
    case Top =>
    case Up(s, up, n, red, other) =>
      FoldMk(s, t, n, other);
      PlugHolds(n, n.parent, Mk(s, t, n, red, other), up, root);
  }

  ghost function Sub(t: Tree, s: Side): Tree
    requires t.Fork?
  {
    if s == Left then t.left else t.right
  }

  lemma {:induction false} AroundMembers(c: Context, q: seq<Node>)
    ensures forall x :: x in q ==> x in Around(c, q)
    ensures forall x :: x in ContextNodes(c) ==> x in Around(c, q)
  {
    match c
    case Top =>
    case Up(s, up, n, red, other) =>
      AroundMembers(up, Joined(s, q, n, InOrder(other)));
      InOrderNodes(other);
  }

  lemma JoinAssoc(a: seq<Node>, x: Node, b: seq<Node>, y: Node, c: seq<Node>)
    ensures (a + [x] + b) + [y] + c == a + [x] + (b + [y] + c)
  {
  }


  // ---------- rotations ----------

  ghost predicate Within(q: seq<Node>, S: set<Node>) {
    forall x :: x in q ==> x in S
  }

  /** The tree t stands in the hole of c in memory, all of it within S, no node twice. */
  ghost predicate Linked(x: Node?, p: Node?, t: Tree, c: Context, root: Root, S: set<Node>)
    reads root, Nodes(t), ContextNodes(c)
  {
    && Holds(x, p, t) && Surrounds(x, p, c, root)
    && Distinct(Around(c, InOrder(t))) && Within(Around(c, InOrder(t)), S)
  }

  /** The in-order sequence of context c whose hole holds: old_ with new_ on side s and u on the other,
      new_ with x on side s and b on the other. */
  ghost function Rotating(x: Tree, b: Tree, u: Tree, c: Context, old_: Node, new_: Node, s: Side): seq<Node> {
    Around(c, Joined(s, Joined(s, InOrder(x), new_, InOrder(b)), old_, InOrder(u)))
  }

  lemma RotatedInOrder(x: Tree, b: Tree, u: Tree, c: Context, old_: Node, new_: Node, s: Side, red: bool, red': bool)
    ensures Around(c, InOrder(Mk(s, x, new_, red, Mk(s, b, old_, red', u)))) == Rotating(x, b, u, c, old_, new_, s)
  {
    if s == Left { JoinAssoc(InOrder(x), new_, InOrder(b), old_, InOrder(u)); }
    else { JoinAssoc(InOrder(u), old_, InOrder(b), new_, InOrder(x)); }
  }

  lemma RotatingWithin(x: Tree, b: Tree, u: Tree, c: Context, old_: Node, new_: Node, s: Side, S: set<Node>)
    requires Within(Rotating(x, b, u, c, old_, new_, s), S)
    ensures Nodes(x) <= S && Nodes(b) <= S && Nodes(u) <= S && ContextNodes(c) <= S && old_ in S && new_ in S
  {
    var q := Joined(s, Joined(s, InOrder(x), new_, InOrder(b)), old_, InOrder(u));
    AroundMembers(c, q);
    InOrderNodes(x);
    InOrderNodes(b);
    InOrderNodes(u);
    hide InOrder, Around, Nodes, ContextNodes;
    forall n | n in Nodes(x) + Nodes(b) + Nodes(u) + {old_, new_} ensures n in S { assert n in q; }
    forall n | n in ContextNodes(c) ensures n in S { assert n in Around(c, q); }
  }

  lemma RotatingApart(x: Tree, b: Tree, u: Tree, c: Context, old_: Node, new_: Node, s: Side)
    requires Distinct(Rotating(x, b, u, c, old_, new_, s))
    ensures old_ != new_ && Apart(old_, c) && new_ !in ContextNodes(c)
    ensures Outside(old_, x, b, u, u) && Outside(new_, x, b, u, u)
    ensures c.Up? ==> Outside(c.node, x, b, u, u)
    ensures b.Fork? ==> Outside(new_, b.left, b.right, u, u) && Outside(old_, b.left, b.right, u, u)
                        && Outside(b.node, x, u, b.left, b.right) && b.node !in ContextNodes(c)
  {
    TwoLevelsApart(x, s, new_, b, s, old_, u, c);
    if b.Fork? {
      ForkApart(b);
      assert Nodes(b) == Nodes(b.left) + {b.node} + Nodes(b.right);
    }
    assert c.Up? ==> c.node in ContextNodes(c);
    hide Distinct, Nodes, ContextNodes, Rotating;
  }

  /** The end of every rotation, once child pointers are set: new_ holds x on side s and old_ on the
      other, old_ holds b and u. */
  method FinishRotation(old_: Node, new_: Node, root: Root, red: bool, ghost s: Side,
                        ghost x: Tree, ghost b: Tree, ghost u: Tree, ghost c: Context, ghost S: set<Node>)
    requires Distinct(Rotating(x, b, u, c, old_, new_, s)) && Within(Rotating(x, b, u, c, old_, new_, s), S)
    requires new_.Child(Opp(s)) == old_ && Fact(Holds(new_.Child(s), new_, x))
    requires Fact(Holds(old_.Child(s), old_, b)) && Fact(Holds(old_.Child(Opp(s)), old_, u))
    requires Fact(Surrounds(old_, old_.parent, c, root))
    modifies root, S
    ensures Fact(Holds(new_, new_.parent, Mk(s, x, new_, old(old_.red), Mk(s, b, old_, red, u))))
    ensures Fact(Surrounds(new_, new_.parent, c, root))
  {
    RotatingApart(x, b, u, c, old_, new_, s);
    RotatingWithin(x, b, u, c, old_, new_, s, S);
    ParentInContext(old_, old_.parent, c, root);
    hide Nodes, ContextNodes, Surrounds, Distinct, Within, Rotating;
    RotateSetParents(old_, new_, root, red, c);
    assert Holds(old_, new_, Mk(s, b, old_, red, u));
  }

  /** The child pointers of a rotation at old_: its child new_ on side s rises, new_'s subtree b goes
      over to old_. Setting b's root black is what case 3 of insertion and case 1 of erasure do,
      where it is black anyway. */
  method TurnLinks(old_: Node, new_: Node, tmp: Node?, root: Root, s: Side, blacken: bool,
                   ghost x: Tree, ghost b: Tree, ghost u: Tree, ghost c: Context)
    requires Distinct(Rotating(x, b, u, c, old_, new_, s))
    requires new_.Child(Opp(s)) == tmp && Fact(Holds(new_.Child(s), new_, x)) && Fact(Holds(tmp, new_, b))
    requires blacken ==> !IsRed(b)
    requires Fact(Holds(old_.Child(Opp(s)), old_, u)) && Fact(Surrounds(old_, old_.parent, c, root))
    modifies old_`kids, new_`kids, if tmp == null then {} else {tmp}
    ensures new_.Child(Opp(s)) == old_ && Fact(Holds(new_.Child(s), new_, x))
    ensures Fact(Holds(old_.Child(s), old_, b)) && Fact(Holds(old_.Child(Opp(s)), old_, u))
    ensures Fact(Surrounds(old_, old_.parent, c, root)) && old_.red == old(old_.red) && old_.parent == old(old_.parent)
  {
    hide Nodes, ContextNodes, Surrounds, Distinct, Rotating, InOrder;
    RotatingApart(x, b, u, c, old_, new_, s);
    HeadInside(tmp, new_, b);
    hide Kids.At, Kids.Put;
    old_.kids := old_.kids.Put(s, tmp);
    new_.kids := new_.kids.Put(Opp(s), old_);
    if tmp != null { tmp.parent, tmp.red := old_, tmp.red && !blacken; }
  }

  /** A whole rotation at old_. */
  method Rotate(old_: Node, new_: Node, tmp: Node?, root: Root, s: Side, red: bool, blacken: bool,
                ghost x: Tree, ghost b: Tree, ghost u: Tree, ghost c: Context, ghost S: set<Node>)
    requires Distinct(Rotating(x, b, u, c, old_, new_, s)) && Within(Rotating(x, b, u, c, old_, new_, s), S)
    requires new_.Child(Opp(s)) == tmp && Fact(Holds(new_.Child(s), new_, x)) && Fact(Holds(tmp, new_, b))
    requires blacken ==> !IsRed(b)
    requires Fact(Holds(old_.Child(Opp(s)), old_, u)) && Fact(Surrounds(old_, old_.parent, c, root))
    modifies root, S
    ensures Fact(Holds(new_, new_.parent, Mk(s, x, new_, old(old_.red), Mk(s, b, old_, red, u))))
    ensures Fact(Surrounds(new_, new_.parent, c, root))
  {
    RotatingWithin(x, b, u, c, old_, new_, s, S);
    HeadInside(tmp, new_, b);
    hide Holds, Nodes, ContextNodes, Surrounds, Distinct, Rotating, Within, Mk;
    TurnLinks(old_, new_, tmp, root, s, blacken, x, b, u, c);
    FinishRotation(old_, new_, root, red, s, x, b, u, c, S);
  }

  lemma OpenMk(n: Node, s: Side, near: Tree, red: bool, far: Tree)
    requires Fact(Holds(n, n.parent, Mk(s, near, n, red, far)))
    ensures Fact(Holds(n.Child(s), n, near)) && Fact(Holds(n.Child(Opp(s)), n, far)) && n.red == red
  {
  }

  lemma OpenFork(n: Node, t: Tree, s: Side)
    requires t.Fork? && Fact(Holds(n, n.parent, t))
    ensures Fact(Holds(n.Child(s), n, Sub(t, s))) && Fact(Holds(n.Child(Opp(s)), n, Sub(t, Opp(s)))) && n.red == t.red
  {
  }

  lemma OpenContext(x: Node?, p: Node, s: Side, up: Context, red: bool, o: Tree, root: Root)
    requires Fact(Surrounds(x, p, Up(s, up, p, red, o), root))
    ensures Fact(Surrounds(p, p.parent, up, root)) && Fact(Holds(p.Child(Opp(s)), p, o)) && p.red == red
      && p.Child(s) == x
  {
  }

  // ---------- insertion ----------

  /** The in-order sequence around node's tree t, parent and gparent. */
  ghost function Whole(t: Tree, s1: Side, p: Node, o: Tree, s: Side, g: Node, u: Tree, up: Context): seq<Node> {
    Around(up, Joined(s, Joined(s1, InOrder(t), p, InOrder(o)), g, InOrder(u)))
  }

  lemma FlipApart(t: Tree, s1: Side, p: Node, o: Tree, s: Side, g: Node, u: Tree, up: Context)
    requires u.Fork? && Distinct(Whole(t, s1, p, o, s, g, u, up))
    ensures u.node != p && u.node != g && p != g
    ensures Outside(p, t, o, u.left, u.right) && Outside(g, t, o, u.left, u.right)
    ensures Outside(u.node, t, o, u.left, u.right)
    ensures p !in ContextNodes(up) && g !in ContextNodes(up) && u.node !in ContextNodes(up)
  {
    TwoLevelsApart(t, s1, p, o, s, g, u, up);
    ForkApart(u);
    assert Nodes(u) == Nodes(u.left) + {u.node} + Nodes(u.right);
    hide Nodes, ContextNodes, Distinct, Whole;
  }

  /** Case 1 of __rb_insert, color flips at node's red uncle. */
  method InsertFlip(node: Node, parent: Node, gparent: Node, uncle: Node, root: Root,
                    ghost s: Side, ghost s1: Side, ghost t: Tree, ghost o: Tree, ghost u: Tree, ghost up: Context)
    requires u.Fork? && uncle == u.node && Distinct(Whole(t, s1, parent, o, s, gparent, u, up))
    requires Fact(Holds(node, parent, t))
    requires Fact(Surrounds(node, parent, Up(s1, Up(s, up, gparent, false, u), parent, true, o), root))
    modifies uncle`parent, uncle`red, parent`parent, parent`red, gparent`red
    ensures Fact(Holds(gparent, gparent.parent,
                       Mk(s, Mk(s1, t, parent, false, o), gparent, true, Fork(u.left, uncle, false, u.right))))
    ensures Fact(Surrounds(gparent, gparent.parent, up, root))
  {
    FlipApart(t, s1, parent, o, s, gparent, u, up);
    hide Nodes, ContextNodes, Distinct, Whole;
    assert Surrounds(parent, parent.parent, Up(s, up, gparent, false, u), root);
    uncle.parent, uncle.red := gparent, false;
    parent.parent, parent.red := gparent, false;
    gparent.red := true;
    assert Holds(parent, gparent, Mk(s1, t, parent, false, o));
    assert Holds(uncle, gparent, Fork(u.left, uncle, false, u.right));
  }

  ghost function Turned(t: Tree, p: Node, o: Tree, s: Side): Tree
    requires t.Fork?
  {
    Mk(s, o, p, true, Sub(t, s))
  }

  lemma TurnedInOrder(t: Tree, p: Node, o: Tree, s: Side, g: Node, u: Tree, up: Context)
    requires t.Fork?
    ensures Rotating(Sub(t, Opp(s)), Sub(t, s), o, Up(s, up, g, false, u), p, t.node, Opp(s))
              == Whole(t, Opp(s), p, o, s, g, u, up)
    ensures Rotating(Turned(t, p, o, s), Sub(t, Opp(s)), u, up, g, t.node, s) == Whole(t, Opp(s), p, o, s, g, u, up)
  {
    if s == Left { JoinAssoc(InOrder(o), p, InOrder(t.left), t.node, InOrder(t.right)); }
    else { JoinAssoc(InOrder(t.left), t.node, InOrder(t.right), p, InOrder(o)); }
  }

  lemma InsertTurnApart(t: Tree, p: Node, o: Tree, s: Side, g: Node, u: Tree, up: Context, S: set<Node>)
    requires t.Fork? && Distinct(Whole(t, Opp(s), p, o, s, g, u, up)) && Within(Whole(t, Opp(s), p, o, s, g, u, up), S)
    ensures var a, b := Sub(t, s), Sub(t, Opp(s));
            && Distinct(Rotating(b, a, o, Up(s, up, g, false, u), p, t.node, Opp(s)))
            && Outside(p, a, b, o, u) && p !in ContextNodes(up) && p != g && p != t.node
            && Nodes(a) <= S && Nodes(b) <= S && Nodes(o) <= S && Nodes(u) <= S && ContextNodes(up) <= S
            && p in S && g in S && t.node in S && (a.Fork? ==> a.node in S)
  {
    var a, b := Sub(t, s), Sub(t, Opp(s));
    var c := Up(s, up, g, false, u);
    TurnedInOrder(t, p, o, s, g, u, up);
    RotatingApart(b, a, o, c, p, t.node, Opp(s));
    RotatingWithin(b, a, o, c, p, t.node, Opp(s), S);
    assert ContextNodes(c) == ContextNodes(up) + {g} + Nodes(u);
    hide Distinct, Within, Rotating, ContextNodes;
  }

  /** Case 2 of __rb_insert, node being the inner grandchild: rotate at parent. gparent's link to node
      and node's parent link are left to case 3. */
  method InsertTurn(node: Node, parent: Node, gparent: Node, root: Root, s: Side,
                    ghost t: Tree, ghost o: Tree, ghost u: Tree, ghost up: Context, ghost S: set<Node>)
    requires t.Fork? && t.node == node && !IsRed(t.left) && !IsRed(t.right)
    requires Distinct(Whole(t, Opp(s), parent, o, s, gparent, u, up))
    requires Within(Whole(t, Opp(s), parent, o, s, gparent, u, up), S)
    requires Fact(Holds(node, parent, t))
    requires Fact(Surrounds(node, parent, Up(Opp(s), Up(s, up, gparent, false, u), parent, true, o), root))
    modifies S
    ensures Fact(Holds(node.Child(s), node, Turned(t, parent, o, s)))
    ensures Fact(Holds(node.Child(Opp(s)), node, Sub(t, Opp(s))))
    ensures Fact(Holds(gparent.Child(Opp(s)), gparent, u)) && Fact(Surrounds(gparent, gparent.parent, up, root))
    ensures !gparent.red
  {
    hide Holds, Surrounds, Nodes, ContextNodes, Distinct, Whole, Rotating, Within, InOrder, Kids.At, Kids.Put;
    ghost var a, b := Sub(t, s), Sub(t, Opp(s));
    ghost var c := Up(s, up, gparent, false, u);
    InsertTurnApart(t, parent, o, s, gparent, u, up, S);
    HeadInside(node, parent, t);
    OpenFork(node, t, s);
    OpenContext(node, parent, Opp(s), c, true, o, root);
    var tmp := node.Child(s);
    HeadInside(tmp, node, a);
    TurnLinks(parent, node, tmp, root, Opp(s), true, b, a, o, c);
    ParentInContext(parent, parent.parent, c, root);
    OpenContext(parent, gparent, s, up, false, u, root);
    parent.parent, parent.red := node, true;
    FoldMk(s, o, parent, a);
  }

  /** What cases 2 and 3 of __rb_insert make of the red node p on side s of the black node g, with the
      red tree t on p's side s1. */
  ghost function Restructured(t: Tree, s1: Side, p: Node, o: Tree, s: Side, g: Node, u: Tree): Tree
    requires t.Fork?
  {
    if s1 == s then Mk(s, t, p, false, Mk(s, o, g, true, u))
    else Mk(s, Turned(t, p, o, s), t.node, false, Mk(s, Sub(t, Opp(s)), g, true, u))
  }

  lemma RestructuredInOrder(t: Tree, s1: Side, p: Node, o: Tree, s: Side, g: Node, u: Tree, up: Context)
    requires t.Fork?
    ensures Around(up, InOrder(Restructured(t, s1, p, o, s, g, u))) == Whole(t, s1, p, o, s, g, u, up)
  {
    if s1 == s {
      RotatedInOrder(t, o, u, up, g, p, s, false, true);
    } else {
      TurnedInOrder(t, p, o, s, g, u, up);
      RotatedInOrder(Turned(t, p, o, s), Sub(t, Opp(s)), u, up, g, t.node, s, false, true);
    }
  }

  /** Cases 2 and 3 of __rb_insert. */
  method InsertRestructure(node: Node, parent: Node, gparent: Node, root: Root, s: Side, ghost s1: Side,
                           ghost t: Tree, ghost o: Tree, ghost u: Tree, ghost up: Context, ghost S: set<Node>)
    returns (n: Node)
    requires t.Fork? && t.node == node && !IsRed(t.left) && !IsRed(t.right) && !IsRed(o)
    requires Distinct(Whole(t, s1, parent, o, s, gparent, u, up))
    requires Within(Whole(t, s1, parent, o, s, gparent, u, up), S)
    requires Fact(Holds(node, parent, t))
    requires Fact(Surrounds(node, parent, Up(s1, Up(s, up, gparent, false, u), parent, true, o), root))
    modifies root, S
    ensures n == Restructured(t, s1, parent, o, s, gparent, u).node
    ensures Fact(Holds(n, n.parent, Restructured(t, s1, parent, o, s, gparent, u)))
    ensures Fact(Surrounds(n, n.parent, up, root))
  {
    var tmp := parent.Child(Opp(s));
    HeadInside(node, parent, t);
    TwoLevelsApart(t, s1, parent, o, s, gparent, u, up);
    assert s1 == s ==> tmp != node by { if s1 == s { HeadInside(tmp, parent, o); } }
    if node == tmp {
      TurnedInOrder(t, parent, o, s, gparent, u, up);
      hide Nodes, ContextNodes, Distinct, Whole, Rotating, Within, InOrder;
      InsertTurn(node, parent, gparent, root, s, t, o, u, up, S);
      Rotate(gparent, node, node.Child(Opp(s)), root, s, true, true, Turned(t, parent, o, s), Sub(t, Opp(s)), u, up, S);
      n := node;
    } else {
      Rotate(gparent, parent, tmp, root, s, true, true, t, o, u, up, S);
      n := parent;
    }
  }

  lemma FlipRedBlack(t: Tree, s1: Side, p: Node, o: Tree, s: Side, g: Node, u: Tree, up: Context, h: nat)
    requires RedBlack(t, h) && Accepts(Up(s1, Up(s, up, g, false, u), p, true, o), h) && IsRed(u)
    ensures RedBlack(Mk(s, Mk(s1, t, p, false, o), g, true, Fork(u.left, u.node, false, u.right)), h + 1)
    ensures Accepts(up, h + 1)
  {
    assert Accepts(Up(s, up, g, false, u), h);
  }

  lemma RestructuredRedBlack(t: Tree, s1: Side, p: Node, o: Tree, s: Side, g: Node, u: Tree, up: Context, h: nat)
    requires IsRed(t) && RedBlack(t, h) && Accepts(Up(s1, Up(s, up, g, false, u), p, true, o), h) && !IsRed(u)
    ensures RedBlack(Restructured(t, s1, p, o, s, g, u), h + 1) && !IsRed(Restructured(t, s1, p, o, s, g, u))
    ensures Accepts(up, h + 1)
  {
    assert Accepts(Up(s, up, g, false, u), h);
  }

  /** Which child of gparent is parent: the test `parent != gparent->rb_right`. */
  lemma SideSeen(x: Node?, p: Node, o: Tree, s: Side, t: Tree, c: Context, root: Root)
    requires Fact(Holds(x, p, t)) && t.Fork? && Fact(Surrounds(x, p, Up(s, c, p, p.red, o), root))
    requires Distinct(Around(Up(s, c, p, p.red, o), InOrder(t)))
    ensures s == if x != p.kids.right then Left else Right
  {
    AroundDistinct(Up(s, c, p, p.red, o), InOrder(t));
    InOrderNodes(t);
    InOrderNodes(o);
    HeadInside(x, p, t);
    HeadInside(p.Child(Opp(s)), p, o);
  }

  lemma WholeWithin(t: Tree, s1: Side, p: Node, o: Tree, s: Side, g: Node, u: Tree, up: Context, S: set<Node>)
    requires Within(Whole(t, s1, p, o, s, g, u, up), S)
    ensures p in S && g in S && Nodes(u) <= S
  {
    var q := Joined(s, Joined(s1, InOrder(t), p, InOrder(o)), g, InOrder(u));
    AroundMembers(up, q);
    InOrderNodes(u);
    forall x | x in Nodes(u) + {p, g} ensures x in S { assert x in q; }
  }

  /** A red parent has a black parent. */
  lemma RedParent(node: Node, parent: Node, c: Context, h: nat, root: Root)
    requires Fact(Surrounds(node, parent, c, root)) && Accepts(c, h) && c.Up? && c.red
    ensures c.up.Up? && !c.up.red && c.node == parent && c.up.node == parent.parent
    ensures Fact(Surrounds(parent, parent.parent, c.up, root)) && parent.red
    ensures Fact(Holds(parent.parent.Child(Opp(c.up.s)), parent.parent, c.up.other)) && !parent.parent.red
  {
    assert Surrounds(parent, parent.parent, c.up, root);
  }

  /** One round of __rb_insert at a red parent. */
  method InsertStep(node: Node, parent: Node, root: Root, ghost t: Tree, ghost c: Context, ghost h: nat,
                    ghost S: set<Node>)
    returns (again: bool, n: Node, ghost t': Tree)
    requires Fact(Holds(node, parent, t)) && Fact(Surrounds(node, parent, c, root))
    requires Distinct(Around(c, InOrder(t))) && Within(Around(c, InOrder(t)), S)
    requires IsRed(t) && Fact(RedBlack(t, h)) && Fact(Accepts(c, h)) && c.Up? && c.red
    modifies root, S
    ensures c.up.Up? && t'.Fork? && t'.node == n && again == t'.red && n in S
    ensures Fact(Holds(n, n.parent, t')) && Fact(Surrounds(n, n.parent, c.up.up, root))
    ensures Around(c.up.up, InOrder(t')) == Around(c, InOrder(t))
    ensures Fact(RedBlack(t', h + 1)) && Fact(Accepts(c.up.up, h + 1))
  {
    RedParent(node, parent, c, h, root);
    ghost var s, s1, o, u, up := c.up.s, c.s, c.other, c.up.other, c.up.up;
    var gparent := parent.parent;
    assert c == Up(s1, Up(s, up, gparent, false, u), parent, true, o);
    HeadInside(node, parent, t);
    WholeWithin(t, s1, parent, o, s, gparent, u, up, S);
    FoldMk(s1, t, parent, o);
    SideSeen(parent, gparent, u, s, Mk(s1, t, parent, true, o), up, root);
    var side := if parent != gparent.kids.right then Left else Right;
    var tmp := gparent.Child(Opp(side));
    HeadInside(tmp, gparent, u);
    assert tmp != null ==> tmp.red == u.red;
    hide Holds, Surrounds, Nodes, Distinct, Within;
    if tmp != null && tmp.red {
      FlipRedBlack(t, s1, parent, o, s, gparent, u, up, h);
      InsertFlip(node, parent, gparent, tmp, root, s, s1, t, o, u, up);
      again, n := true, gparent;
      t' := Mk(s, Mk(s1, t, parent, false, o), gparent, true, Fork(u.left, tmp, false, u.right));
    } else {
      RestructuredRedBlack(t, s1, parent, o, s, gparent, u, up, h);
      RestructuredInOrder(t, s1, parent, o, s, gparent, u, up);
      again := false;
      n := InsertRestructure(node, parent, gparent, root, side, s1, t, o, u, up, S);
      t' := Restructured(t, s1, parent, o, s, gparent, u);
    }
  }

  /** The inserted node is root: rb_set_parent_color(node, NULL, RB_BLACK). */
  method BlackRoot(node: Node, root: Root, ghost t: Tree)
    requires t.Fork? && t.node == node && Distinct(InOrder(t))
    requires Fact(Holds(node, null, t)) && Fact(Surrounds(node, null, Top, root))
    modifies node`parent, node`red
    ensures Fact(Holds(node, null, Fork(t.left, node, false, t.right))) && Fact(Surrounds(node, null, Top, root))
  {
    ForkApart(t);
    node.parent, node.red := null, false;
  }

  /** A red-black tree in a context that accepts it is a red-black tree as a whole. */
  lemma PluggedIn(x: Node?, p: Node?, t: Tree, c: Context, h: nat, root: Root)
    requires Fact(Holds(x, p, t)) && Fact(Surrounds(x, p, c, root))
    requires Fact(RedBlack(t, h)) && Fact(Accepts(c, h)) && (IsRed(t) ==> RedFits(c))
    ensures Fact(Holds(root.node, null, Plug(c, t))) && Fact(ValidTree(Plug(c, t)))
    ensures InOrder(Plug(c, t)) == Around(c, InOrder(t))
  {
    PlugHolds(x, p, t, c, root);
    PlugValid(c, t, h);
    PlugInOrder(c, t);
  }

  lemma BlackRootRedBlack(t: Tree, h: nat)
    requires IsRed(t) && Fact(RedBlack(t, h))
    ensures Fact(RedBlack(Fork(t.left, t.node, false, t.right), h + 1))
    ensures InOrder(Fork(t.left, t.node, false, t.right)) == InOrder(t) && Fact(Accepts(Top, h + 1))
  {
  }

  /** __rb_insert: from a tree that is red-black but for a red node that may sit under a red parent, to a
      red-black tree with the same in-order sequence and all parent links right. */
  method InsertColor(node0: Node, root: Root, ghost t0: Tree, ghost c0: Context, ghost h0: nat, ghost S: set<Node>)
    returns (ghost t': Tree)
    requires Linked(node0, node0.parent, t0, c0, root, S)
    requires IsRed(t0) && RedBlack(t0, h0) && Accepts(c0, h0)
    modifies root, S
    ensures Fact(Holds(root.node, null, t')) && Fact(ValidTree(t')) && InOrder(t') == InOrder(Plug(c0, t0))
  {
    var node, parent := node0, node0.parent;
    ghost var t, c, h := t0, c0, h0;
    ghost var all := Around(c0, InOrder(t0));
    PlugInOrder(c0, t0);
    HeadInside(node, parent, t);
    AroundMembers(c0, InOrder(t0));
    InOrderNodes(t0);
    hide Holds, Surrounds, RedBlack, Accepts, ValidTree, Nodes, ContextNodes, Plug, Distinct, Within;
    while true
      invariant Fact(Holds(node, parent, t)) && Fact(Surrounds(node, parent, c, root))
      invariant Around(c, InOrder(t)) == all && t.Fork? && t.node == node && node in S
      invariant Fact(RedBlack(t, h)) && Fact(Accepts(c, h)) && t.red
      decreases c
    {
      ParentInContext(node, parent, c, root);
      if parent == null {
        BlackRootRedBlack(t, h);
        BlackRoot(node, root, t);
        t, h := Fork(t.left, node, false, t.right), h + 1;
        break;
      }
      if !parent.red { break; }
      var again, n, t1 := InsertStep(node, parent, root, t, c, h, S);
      node, parent, t, c, h := n, n.parent, t1, c.up.up, h + 1;
      if !again { break; }
    }
    PluggedIn(node, parent, t, c, h, root);
    t' := Plug(c, t);
  }

  // ---------- erasure ----------

  /** Moving the focus from a node down to its side s subtree. */
  lemma Unzip(n: Node, s: Side, near: Tree, red: bool, far: Tree, up: Context, root: Root)
    requires Fact(Holds(n, n.parent, Mk(s, near, n, red, far))) && Fact(Surrounds(n, n.parent, up, root))
    ensures Fact(Holds(n.Child(s), n, near)) && Fact(Surrounds(n.Child(s), n, Up(s, up, n, red, far), root))
  {
  }

  lemma MkFlip(s: Side, near: Tree, n: Node, red: bool, far: Tree)
    ensures Mk(s, near, n, red, far) == Mk(Opp(s), far, n, red, near)
  {
  }

  /** The in-order sequence of the hole of c, its node p and the sibling tree with the nodes
      sl, sibling, sr from the hole outward. */
  lemma SiblingInOrder(t: Tree, s: Side, p: Node, sl: Tree, sib: Node, red: bool, sr: Tree, up: Context, pred: bool)
    ensures Rotating(sr, sl, t, up, p, sib, Opp(s)) == Around(Up(s, up, p, pred, Mk(s, sl, sib, red, sr)), InOrder(t))
  {
  }

  /** Case 1 of ____rb_erase_color: a red sibling, rotate at parent. The hole sinks one level. */
  method EraseRedSibling(node: Node?, parent: Node, sibling: Node, root: Root, s: Side, ghost t: Tree,
                         ghost sl: Tree, ghost sr: Tree, ghost up: Context, ghost S: set<Node>)
    requires Fact(Holds(node, parent, t)) && !IsRed(sl)
    requires Fact(Surrounds(node, parent, Up(s, up, parent, false, Mk(s, sl, sibling, true, sr)), root))
    requires Distinct(Rotating(sr, sl, t, up, parent, sibling, Opp(s)))
    requires Within(Rotating(sr, sl, t, up, parent, sibling, Opp(s)), S)
    modifies root, S
    ensures Fact(Holds(node, parent, t))
    ensures Fact(Surrounds(node, parent, Up(s, Up(s, up, sibling, false, sr), parent, true, sl), root))
  {
    var tmp1 := sibling.Child(s);
    HeadInside(node, parent, t);
    assert Holds(sibling, parent, Mk(s, sl, sibling, true, sr));
    assert !parent.red && parent.Child(s) == node && Surrounds(parent, parent.parent, up, root);
    assert Holds(sibling.Child(Opp(s)), sibling, sr) && Holds(tmp1, sibling, sl);
    hide Holds, Surrounds, Distinct, Within, Rotating;
    Rotate(parent, sibling, tmp1, root, Opp(s), true, true, sr, sl, t, up, S);
    MkFlip(s, t, parent, true, sl);
    MkFlip(s, Mk(s, t, parent, true, sl), sibling, false, sr);
    Unzip(sibling, s, Mk(s, t, parent, true, sl), false, sr, up, root);
    HeadInside(sibling.Child(s), sibling, Mk(s, t, parent, true, sl));
    Unzip(parent, s, t, true, sl, Up(s, up, sibling, false, sr), root);
    HeadInside(parent.Child(s), parent, t);
  }

  /** Case 2 of ____rb_erase_color: both children of the sibling are black, sibling turns red and a red
      parent turns black. */
  method EraseFlip(node: Node?, parent: Node, sibling: Node, root: Root, ghost s: Side, ghost t: Tree,
                   ghost o: Tree, ghost red: bool, ghost up: Context)
    requires o.Fork? && o.node == sibling && Distinct(Around(Up(s, up, parent, red, o), InOrder(t)))
    requires Fact(Holds(node, parent, t)) && Fact(Surrounds(node, parent, Up(s, up, parent, red, o), root))
    modifies sibling`parent, sibling`red, parent`red
    ensures Fact(Holds(parent, parent.parent, Mk(s, t, parent, false, Fork(o.left, sibling, true, o.right))))
    ensures Fact(Surrounds(parent, parent.parent, up, root))
  {
    OneLevelApart(t, s, parent, o, red, up);
    hide Nodes, ContextNodes, Distinct, Around;
    sibling.parent, sibling.red := parent, true;
    if parent.red { parent.red := false; }
    assert Holds(sibling, parent, Fork(o.left, sibling, true, o.right));
  }

  lemma OneLevelApart(t: Tree, s: Side, p: Node, o: Tree, red: bool, up: Context)
    requires o.Fork? && Distinct(Around(Up(s, up, p, red, o), InOrder(t)))
    ensures p != o.node && Outside(p, t, o, o.left, o.right) && p !in ContextNodes(up)
    ensures Outside(o.node, t, o.left, o.right, t) && o.node !in ContextNodes(up)
  {
    var T, O := InOrder(t), InOrder(o);
    InOrderNodes(t);
    InOrderNodes(o);
    AroundDistinct(up, Joined(s, T, p, O));
    if s == Left { DistinctParts(T, p, O); } else { DistinctParts(O, p, T); }
    ForkApart(o);
    assert o.node in Nodes(o) && Nodes(o.left) <= Nodes(o) && Nodes(o.right) <= Nodes(o);
    assert p in Joined(s, T, p, O) && o.node in O && o.node in Joined(s, T, p, O);
    hide InOrder, Distinct, Around, Nodes, ContextNodes;
  }

  /** rb_set_parent_color(x, p, RB_BLACK) on the root of t. */
  method SetBlack(x: Node, p: Node, ghost t: Tree)
    requires t.Fork? && t.node == x && Distinct(InOrder(t)) && Fact(Holds(x, x.parent, t))
    modifies x`parent, x`red
    ensures Fact(Holds(x, p, Fork(t.left, x, false, t.right)))
  {
    ForkApart(t);
    x.parent, x.red := p, false;
  }

  /** Case 4 of ____rb_erase_color: the outer child of sibling turns black, rotate at parent. */
  method EraseRotate(parent: Node, sibling: Node, tmp1: Node, root: Root, s: Side, ghost t: Tree,
                     ghost sl: Tree, ghost sr: Tree, ghost up: Context, ghost S: set<Node>)
    requires sr.Fork? && sr.node == tmp1
    requires Distinct(Rotating(sr, sl, t, up, parent, sibling, Opp(s)))
    requires Within(Rotating(sr, sl, t, up, parent, sibling, Opp(s)), S)
    requires Fact(Holds(parent.Child(s), parent, t)) && Fact(Surrounds(parent, parent.parent, up, root))
    requires Fact(Holds(sibling.Child(s), sibling, sl)) && Fact(Holds(tmp1, tmp1.parent, sr))
    requires sibling.Child(Opp(s)) == tmp1
    modifies root, S
    ensures Fact(Holds(sibling, sibling.parent, Mk(s, Mk(s, t, parent, false, sl), sibling, old(parent.red),
                                                   Fork(sr.left, tmp1, false, sr.right))))
    ensures Fact(Surrounds(sibling, sibling.parent, up, root))
  {
    ghost var sr' := Fork(sr.left, tmp1, false, sr.right);
    RotatingApart(sr, sl, t, up, parent, sibling, Opp(s));
    RotatingWithin(sr, sl, t, up, parent, sibling, Opp(s), S);
    assert Rotating(sr', sl, t, up, parent, sibling, Opp(s)) == Rotating(sr, sl, t, up, parent, sibling, Opp(s));
    TwoLevelsApart(sr, Opp(s), sibling, sl, Opp(s), parent, t, up);
    assert tmp1 in Nodes(sr);
    hide Holds, Surrounds, Nodes, ContextNodes, Distinct, Within, Rotating;
    SetBlack(tmp1, sibling, sr);
    Rotate(parent, sibling, sibling.Child(s), root, Opp(s), false, false, sr', sl, t, up, S);
    MkFlip(s, t, parent, false, sl);
    MkFlip(s, Mk(s, t, parent, false, sl), sibling, old(parent.red), sr');
  }

  lemma EraseTurnInOrder(t: Tree, s: Side, p: Node, sl: Tree, sib: Node, sr: Tree, up: Context, red: bool)
    requires sl.Fork?
    ensures Rotating(Sub(sl, s), Sub(sl, Opp(s)), sr, Up(Opp(s), up, p, red, t), sib, sl.node, s)
              == Rotating(sr, sl, t, up, p, sib, Opp(s))
    ensures Rotating(Mk(s, Sub(sl, Opp(s)), sib, false, sr), Sub(sl, s), t, up, p, sl.node, Opp(s))
              == Rotating(sr, sl, t, up, p, sib, Opp(s))
  {
    if s == Left { JoinAssoc(InOrder(sl.left), sl.node, InOrder(sl.right), sib, InOrder(sr)); }
    else { JoinAssoc(InOrder(sr), sib, InOrder(sl.left), sl.node, InOrder(sl.right)); }
  }

  lemma EraseTurnApart(t: Tree, s: Side, p: Node, sl: Tree, sib: Node, sr: Tree, up: Context, red: bool, S: set<Node>)
    requires sl.Fork? && Distinct(Rotating(sr, sl, t, up, p, sib, Opp(s)))
    requires Within(Rotating(sr, sl, t, up, p, sib, Opp(s)), S)
    ensures var near, far := Sub(sl, s), Sub(sl, Opp(s));
            && Distinct(Rotating(near, far, sr, Up(Opp(s), up, p, red, t), sib, sl.node, s))
            && Outside(p, near, far, sr, t) && p !in ContextNodes(up) && p != sib && p != sl.node
            && Nodes(near) <= S && Nodes(far) <= S && Nodes(sr) <= S && Nodes(t) <= S && ContextNodes(up) <= S
            && p in S && sib in S && sl.node in S && (far.Fork? ==> far.node in S)
  {
    var near, far := Sub(sl, s), Sub(sl, Opp(s));
    var c := Up(Opp(s), up, p, red, t);
    EraseTurnInOrder(t, s, p, sl, sib, sr, up, red);
    RotatingApart(near, far, sr, c, sib, sl.node, s);
    RotatingWithin(near, far, sr, c, sib, sl.node, s, S);
    assert ContextNodes(c) == ContextNodes(up) + {p} + Nodes(t);
    hide Distinct, Within, Rotating, ContextNodes;
  }

  /** Case 3 of ____rb_erase_color: rotate at sibling. The parent links of sibling and tmp2 are left to
      case 4. */
  method EraseTurn(parent: Node, sibling: Node, tmp2: Node, root: Root, s: Side, ghost t: Tree,
                   ghost sl: Tree, ghost sr: Tree, ghost red: bool, ghost up: Context, ghost S: set<Node>)
    requires sl.Fork? && sl.node == tmp2 && !IsRed(Sub(sl, Opp(s)))
    requires Distinct(Rotating(sr, sl, t, up, parent, sibling, Opp(s)))
    requires Within(Rotating(sr, sl, t, up, parent, sibling, Opp(s)), S)
    requires Fact(Holds(sibling, parent, Mk(s, sl, sibling, false, sr)))
    requires Fact(Surrounds(sibling, parent, Up(Opp(s), up, parent, red, t), root))
    modifies S
    ensures Fact(Holds(tmp2.Child(s), tmp2, Sub(sl, s))) && tmp2.Child(Opp(s)) == sibling
    ensures Fact(Holds(sibling, sibling.parent, Mk(s, Sub(sl, Opp(s)), sibling, false, sr)))
    ensures Fact(Holds(parent.Child(s), parent, t)) && Fact(Surrounds(parent, parent.parent, up, root))
    ensures parent.red == red
  {
    hide Holds, Surrounds, Nodes, ContextNodes, Distinct, Rotating, Within, InOrder, Kids.At, Kids.Put, Mk;
    ghost var near, far := Sub(sl, s), Sub(sl, Opp(s));
    ghost var c := Up(Opp(s), up, parent, red, t);
    EraseTurnApart(t, s, parent, sl, sibling, sr, up, red, S);
    HeadInside(sibling, parent, Mk(s, sl, sibling, false, sr));
    OpenMk(sibling, s, sl, false, sr);
    HeadInside(sibling.Child(s), sibling, sl);
    var tmp1 := tmp2.Child(Opp(s));
    OpenFork(tmp2, sl, s);
    HeadInside(tmp1, tmp2, far);
    TurnLinks(sibling, tmp2, tmp1, root, s, true, near, far, sr, c);
    OpenContext(sibling, parent, Opp(s), up, red, t, root);
    parent.kids := parent.kids.Put(Opp(s), tmp2);
    FoldMk(s, far, sibling, sr);
  }

  /** What cases 3 and 4 of ____rb_erase_color make of the fork of node p with the hole tree t on side s and
      a black sibling with subtrees sl (near the hole) and sr, one of them red. */
  ghost function Refilled(t: Tree, s: Side, p: Node, red: bool, sl: Tree, sib: Node, sr: Tree): Tree
    requires IsRed(sl) || IsRed(sr)
  {
    if IsRed(sr) then Mk(s, Mk(s, t, p, false, sl), sib, red, Fork(sr.left, sr.node, false, sr.right))
    else Mk(s, Mk(s, t, p, false, Sub(sl, s)), sl.node, red, Mk(s, Sub(sl, Opp(s)), sib, false, sr))
  }

  lemma RefilledInOrder(t: Tree, s: Side, p: Node, red: bool, sl: Tree, sib: Node, sr: Tree, up: Context)
    requires IsRed(sl) || IsRed(sr)
    ensures Around(up, InOrder(Refilled(t, s, p, red, sl, sib, sr))) == Rotating(sr, sl, t, up, p, sib, Opp(s))
  {
    if IsRed(sr) {
      var sr' := Fork(sr.left, sr.node, false, sr.right);
      assert InOrder(sr') == InOrder(sr);
      RotatedInOrder(sr', sl, t, up, p, sib, Opp(s), red, false);
      MkFlip(s, t, p, false, sl);
      MkFlip(s, Mk(s, t, p, false, sl), sib, red, sr');
    } else {
      var near, sr' := Sub(sl, s), Mk(s, Sub(sl, Opp(s)), sib, false, sr);
      EraseTurnInOrder(t, s, p, sl, sib, sr, up, red);
      RotatedInOrder(sr', near, t, up, p, sl.node, Opp(s), red, false);
      MkFlip(s, t, p, false, near);
      MkFlip(s, Mk(s, t, p, false, near), sl.node, red, sr');
    }
  }

  lemma RefilledRedBlack(t: Tree, s: Side, p: Node, red: bool, sl: Tree, sib: Node, sr: Tree, up: Context, h: nat)
    requires Fact(RedBlack(t, h)) && Fact(Accepts(Up(s, up, p, red, Mk(s, sl, sib, false, sr)), h + 1))
    requires IsRed(sl) || IsRed(sr)
    ensures var t' := Refilled(t, s, p, red, sl, sib, sr);
            Fact(RedBlack(t', if red then h + 1 else h + 2)) && IsRed(t') == red
    ensures Fact(Accepts(up, if red then h + 1 else h + 2)) && (red ==> RedFits(up))
  {
    assert RedBlack(sl, h) && RedBlack(sr, h) by { assert RedBlack(Mk(s, sl, sib, false, sr), h + 1); }
    if IsRed(sr) {
      assert RedBlack(Fork(sr.left, sr.node, false, sr.right), h + 1);
      assert RedBlack(Mk(s, t, p, false, sl), h + 1);
    } else {
      assert RedBlack(Mk(s, Sub(sl, Opp(s)), sib, false, sr), h + 1);
      assert RedBlack(Mk(s, t, p, false, Sub(sl, s)), h + 1);
    }
  }

  /** Cases 3 and 4 of ____rb_erase_color. */
  method EraseRefill(node: Node?, parent: Node, sibling: Node, root: Root, s: Side, ghost t: Tree, ghost red: bool,
                     ghost sl: Tree, ghost sr: Tree, ghost up: Context, ghost S: set<Node>) returns (n: Node)
    requires IsRed(sl) || IsRed(sr)
    requires IsRed(sl) ==> !IsRed(Sub(sl, Opp(s)))
    requires Distinct(Rotating(sr, sl, t, up, parent, sibling, Opp(s)))
    requires Within(Rotating(sr, sl, t, up, parent, sibling, Opp(s)), S)
    requires Fact(Holds(node, parent, t))
    requires Fact(Surrounds(node, parent, Up(s, up, parent, red, Mk(s, sl, sibling, false, sr)), root))
    modifies root, S
    ensures n == Refilled(t, s, parent, red, sl, sibling, sr).node
    ensures Fact(Holds(n, n.parent, Refilled(t, s, parent, red, sl, sibling, sr)))
    ensures Fact(Surrounds(n, n.parent, up, root))
  {
    hide Holds, Surrounds, Nodes, ContextNodes, Distinct, Rotating, Within, InOrder;
    OpenContext(node, parent, s, up, red, Mk(s, sl, sibling, false, sr), root);
    HeadInside(parent.Child(Opp(s)), parent, Mk(s, sl, sibling, false, sr));
    OpenMk(sibling, s, sl, false, sr);
    var tmp1, tmp2 := sibling.Child(Opp(s)), sibling.Child(s);
    HeadInside(tmp1, sibling, sr);
    HeadInside(tmp2, sibling, sl);
    if tmp1 == null || !tmp1.red {
      FlipContext(node, parent, sibling, s, t, red, Mk(s, sl, sibling, false, sr), up, root);
      EraseTurnInOrder(t, s, parent, sl, sibling, sr, up, red);
      EraseTurn(parent, sibling, tmp2, root, s, t, sl, sr, red, up, S);
      EraseRotate(parent, tmp2, sibling, root, s, t, Sub(sl, s), Mk(s, Sub(sl, Opp(s)), sibling, false, sr), up, S);
      n := tmp2;
      ghost var sr' := Mk(s, Sub(sl, Opp(s)), sibling, false, sr);
      assert sr' == Fork(sr'.left, sibling, false, sr'.right);
      assert Refilled(t, s, parent, red, sl, sibling, sr) == Mk(s, Mk(s, t, parent, false, Sub(sl, s)), tmp2, red, sr');
    } else {
      EraseRotate(parent, sibling, tmp1, root, s, t, sl, sr, up, S);
      n := sibling;
      assert Refilled(t, s, parent, red, sl, sibling, sr) ==
        Mk(s, Mk(s, t, parent, false, sl), sibling, red, Fork(sr.left, sr.node, false, sr.right));
    }
  }

  /** The focus moves from the side s subtree of p to its other subtree. */
  lemma FlipContext(x: Node?, p: Node, y: Node?, s: Side, t: Tree, red: bool, o: Tree, up: Context, root: Root)
    requires Fact(Holds(x, p, t)) && Fact(Surrounds(x, p, Up(s, up, p, red, o), root)) && p.Child(Opp(s)) == y
    ensures Fact(Holds(y, p, o)) && Fact(Surrounds(y, p, Up(Opp(s), up, p, red, t), root))
  {
  }

  /** Which child of parent is node: the test `node != parent->rb_right`, node being possibly NULL. */
  lemma ErasureSide(x: Node?, p: Node, o: Tree, s: Side, red: bool, t: Tree, up: Context, h: nat, root: Root)
    requires Fact(Holds(x, p, t)) && Fact(Surrounds(x, p, Up(s, up, p, red, o), root))
    requires Distinct(Around(Up(s, up, p, red, o), InOrder(t))) && Fact(Accepts(Up(s, up, p, red, o), h + 1))
    ensures o.Fork? && s == if x != p.kids.right then Left else Right
  {
    AroundDistinct(Up(s, up, p, red, o), InOrder(t));
    InOrderNodes(t);
    HeadInside(x, p, t);
    HeadInside(p.Child(Opp(s)), p, o);
  }

  lemma RedSiblingRedBlack(t: Tree, s: Side, p: Node, red: bool, sl: Tree, sib: Node, sr: Tree, up: Context, h: nat)
    requires Fact(Accepts(Up(s, up, p, red, Mk(s, sl, sib, true, sr)), h + 1))
    ensures !red && !IsRed(sl) && sl.Fork?
    ensures Fact(Accepts(Up(s, Up(s, up, sib, false, sr), p, true, sl), h + 1))
  {
    assert RedBlack(Mk(s, sl, sib, true, sr), h + 1);
    assert RedBlack(sl, h + 1);
  }

  lemma FlippedRedBlack(t: Tree, s: Side, p: Node, red: bool, o: Tree, up: Context, h: nat)
    requires Fact(RedBlack(t, h)) && Fact(Accepts(Up(s, up, p, red, o), h + 1))
    requires o.Fork? && !o.red && !IsRed(o.left) && !IsRed(o.right)
    ensures Fact(RedBlack(Mk(s, t, p, false, Fork(o.left, o.node, true, o.right)), h + 1))
    ensures Fact(Accepts(up, if red then h + 1 else h + 2))
    ensures Around(up, InOrder(Mk(s, t, p, false, Fork(o.left, o.node, true, o.right))))
              == Around(Up(s, up, p, red, o), InOrder(t))
  {
    assert RedBlack(Fork(o.left, o.node, true, o.right), h);
  }

  /** Cases 2 to 4 of ____rb_erase_color: a black sibling. */
  method EraseBlackSibling(node: Node?, parent: Node, sibling: Node, root: Root, s: Side, ghost t: Tree,
                           ghost red: bool,
                           ghost o: Tree, ghost up: Context, ghost h: nat, ghost S: set<Node>)
    returns (again: bool, n: Node, ghost t': Tree, ghost h': nat)
    requires o.Fork? && !o.red && o.node == sibling && parent.Child(Opp(s)) == sibling
    requires Fact(Holds(node, parent, t)) && Fact(Surrounds(node, parent, Up(s, up, parent, red, o), root))
    requires Distinct(Around(Up(s, up, parent, red, o), InOrder(t)))
    requires Within(Around(Up(s, up, parent, red, o), InOrder(t)), S)
    requires Fact(RedBlack(t, h)) && Fact(Accepts(Up(s, up, parent, red, o), h + 1))
    modifies root, S
    ensures t'.Fork? && t'.node == n && Fact(Holds(n, n.parent, t')) && Fact(Surrounds(n, n.parent, up, root))
    ensures Around(up, InOrder(t')) == Around(Up(s, up, parent, red, o), InOrder(t))
    ensures Fact(RedBlack(t', h')) && Fact(Accepts(up, if again then h' + 1 else h'))
    ensures if again then !red && !t'.red else (t'.red ==> RedFits(up))
  {
    ghost var sl, sr := Sub(o, s), Sub(o, Opp(s));
    assert o == Mk(s, sl, sibling, false, sr);
    SiblingInOrder(t, s, parent, sl, sibling, false, sr, up, red);
    assert RedBlack(o, h + 1) && RedBlack(sl, h);
    SiblingWithin(t, s, parent, o, red, up, S);
    OpenContext(node, parent, s, up, red, o, root);
    HeadInside(sibling, parent, o);
    OpenFork(sibling, o, s);
    var tmp1, tmp2 := sibling.Child(Opp(s)), sibling.Child(s);
    HeadInside(tmp1, sibling, sr);
    HeadInside(tmp2, sibling, sl);
    hide Holds, Surrounds, Nodes, ContextNodes, Distinct, Rotating, Within, InOrder, RedBlack, Accepts, Around;
    if (tmp1 == null || !tmp1.red) && (tmp2 == null || !tmp2.red) {
      FlippedRedBlack(t, s, parent, red, o, up, h);
      again := !parent.red;
      EraseFlip(node, parent, sibling, root, s, t, o, red, up);
      n, t', h' := parent, Mk(s, t, parent, false, Fork(o.left, sibling, true, o.right)), h + 1;
    } else {
      RefilledInOrder(t, s, parent, red, sl, sibling, sr, up);
      RefilledRedBlack(t, s, parent, red, sl, sibling, sr, up, h);
      again := false;
      n := EraseRefill(node, parent, sibling, root, s, t, red, sl, sr, up, S);
      t', h' := Refilled(t, s, parent, red, sl, sibling, sr), if red then h + 1 else h + 2;
    }
  }

  lemma SiblingWithin(t: Tree, s: Side, p: Node, o: Tree, red: bool, up: Context, S: set<Node>)
    requires o.Fork? && Within(Around(Up(s, up, p, red, o), InOrder(t)), S)
    ensures p in S && o.node in S
  {
    AroundMembers(Up(s, up, p, red, o), InOrder(t));
    assert o.node in Nodes(o);
    assert ContextNodes(Up(s, up, p, red, o)) == ContextNodes(up) + {p} + Nodes(o);
  }

  /** One round of ____rb_erase_color. */
  method EraseStep(node: Node?, parent: Node, root: Root, ghost t: Tree, ghost c: Context, ghost h: nat,
                   ghost S: set<Node>)
    returns (again: bool, n: Node, ghost t': Tree, ghost c': Context, ghost h': nat)
    requires c.Up? && Fact(Holds(node, parent, t)) && Fact(Surrounds(node, parent, c, root))
    requires Distinct(Around(c, InOrder(t))) && Within(Around(c, InOrder(t)), S)
    requires Fact(RedBlack(t, h)) && Fact(Accepts(c, h + 1))
    modifies root, S
    ensures t'.Fork? && t'.node == n && Fact(Holds(n, n.parent, t')) && Fact(Surrounds(n, n.parent, c', root))
    ensures Around(c', InOrder(t')) == Around(c, InOrder(t))
    ensures Fact(RedBlack(t', h')) && Fact(Accepts(c', if again then h' + 1 else h'))
    ensures if again then c' == c.up && !t'.red else (t'.red ==> RedFits(c'))
  {
    ParentInContext(node, parent, c, root);
    ghost var s, o, up, red := c.s, c.other, c.up, c.red;
    assert c == Up(s, up, parent, red, o);
    ErasureSide(node, parent, o, s, red, t, up, h, root);
    var side := if node != parent.kids.right then Left else Right;
    OpenContext(node, parent, s, up, red, o, root);
    HeadInside(parent.Child(Opp(s)), parent, o);
    var sibling := parent.Child(Opp(side));
    ghost var sl, sr := Sub(o, s), Sub(o, Opp(s));
    assert o == Mk(s, sl, sibling, o.red, sr);
    hide Holds, Surrounds, Nodes, ContextNodes, Distinct, Rotating, Within, InOrder, RedBlack, Accepts, Around;
    if sibling.red {
      RedSiblingRedBlack(t, s, parent, red, sl, sibling, sr, up, h);
      SiblingInOrder(t, s, parent, sl, sibling, true, sr, up, red);
      SunkenInOrder(t, s, parent, sl, sibling, sr, up, red);
      OpenFork(sibling, o, s);
      var tmp1 := sibling.Child(side);
      HeadInside(tmp1, sibling, sl);
      EraseRedSibling(node, parent, sibling, root, side, t, sl, sr, up, S);
      c' := Up(s, up, sibling, false, sr);
      OpenContext(node, parent, s, c', true, sl, root);
      HeadInside(parent.Child(Opp(s)), parent, sl);
      again, n, t', h' := EraseBlackSibling(node, parent, tmp1, root, side, t, true, sl, c', h, S);
    } else {
      again, n, t', h' := EraseBlackSibling(node, parent, sibling, root, side, t, red, o, up, h, S);
      c' := up;
    }
  }

  lemma SunkenInOrder(t: Tree, s: Side, p: Node, sl: Tree, sib: Node, sr: Tree, up: Context, red: bool)
    ensures Around(Up(s, Up(s, up, sib, false, sr), p, true, sl), InOrder(t))
              == Around(Up(s, up, p, red, Mk(s, sl, sib, true, sr)), InOrder(t))
  {
    if s == Left { JoinAssoc(InOrder(t), p, InOrder(sl), sib, InOrder(sr)); }
    else { JoinAssoc(InOrder(sr), sib, InOrder(sl), p, InOrder(t)); }
  }

  /** ____rb_erase_color: from a tree that is red-black except that all paths through an empty child of
      `parent` are short by one black node, to a red-black tree with the same in-order sequence and all parent
      links right. */
  method EraseColor(parent0: Node, root: Root, ghost c0: Context, ghost S: set<Node>) returns (ghost t': Tree)
    requires c0.Up? && Linked(null, parent0, Leaf, c0, root, S) && Accepts(c0, 1)
    modifies root, S
    ensures Fact(Holds(root.node, null, t')) && Fact(ValidTree(t')) && InOrder(t') == Around(c0, [])
  {
    var node: Node?, parent := null, parent0;
    ghost var t, c, h := Leaf, c0, 0;
    ghost var all := Around(c0, InOrder(t));
    hide Holds, Surrounds, Accepts, ValidTree, Nodes, ContextNodes, Plug, Distinct, Within;
    while true
      invariant c.Up? && Fact(Holds(node, parent, t)) && Fact(Surrounds(node, parent, c, root))
      invariant Around(c, InOrder(t)) == all
      invariant Fact(RedBlack(t, h)) && Fact(Accepts(c, h + 1))
      decreases c
    {
      var again, n, t1, c1, h1 := EraseStep(node, parent, root, t, c, h, S);
      var p := n.parent;
      ParentInContext(n, p, c1, root);
      node, t := n, t1;
      if !again || p == null {
        PluggedIn(node, p, t, c1, h1, root);
        return Plug(c1, t);
      }
      parent, c, h := p, c1, h1;
    }
  }
}
