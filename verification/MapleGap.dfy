/**
 * The gap cache of the maple tree, lib/maple_tree.c: the largest free run of a leaf,
 * and the recorded gaps and offsets of its ancestors.
 */
module MapleGap {

  const ULONG_MAX: nat := 0xffff_ffff_ffff_ffff

  /** The offset that stands for "no gap" in the metadata of a node. */
  const META_MAX: nat := 15

  // ----- leaves -----

  /**
   * A range leaf: slot 0 covers min..pivots[0], slot i covers pivots[i-1]+1..pivots[i], the
   * last slot runs to max.  A slot is true when it holds an entry.
   */
  datatype Leaf = Leaf(min: nat, max: nat, pivots: seq<nat>, slots: seq<bool>)

  function Last(l: Leaf): int
  {
    |l.slots| - 1
  }

  /** The first index of slot i. */
  function Lo(l: Leaf, i: nat): nat
    requires i <= |l.pivots|
  {
    if i == 0 then l.min else l.pivots[i - 1] + 1
  }

  /** The last index of slot i. */
  function Hi(l: Leaf, i: nat): nat
    requires i < |l.slots| && |l.pivots| + 1 >= |l.slots|
  {
    if i == |l.slots| - 1 then l.max else l.pivots[i]
  }

  /** Slots in order, none empty; no two free slots side by side; a free last slot only in the right-most leaf. */
  ghost predicate LeafOk(l: Leaf)
  {
    && |l.slots| >= 2 && |l.pivots| == |l.slots| - 1 && l.max <= ULONG_MAX
    && (forall i :: 0 <= i < |l.slots| ==> Lo(l, i) <= Hi(l, i))
    && (forall i, j :: 0 <= i && j == i + 1 && j < |l.slots| ==> l.slots[i] || l.slots[j])
    && (!l.slots[Last(l)] ==> l.max == ULONG_MAX)
  }

  ghost predicate InSlot(l: Leaf, i: int, x: int)
    requires |l.pivots| == |l.slots| - 1
  {
    0 <= i < |l.slots| && Lo(l, i) <= x <= Hi(l, i)
  }

  /** No index from a to b is taken. */
  ghost predicate FreeRun(l: Leaf, a: int, b: int)
    requires |l.pivots| == |l.slots| - 1
  {
    && l.min <= a <= b <= l.max
    && forall x, i :: a <= x <= b && InSlot(l, i, x) ==> !l.slots[i]
  }

  /** g is the length of the longest free run. */
  ghost predicate LargestRun(l: Leaf, g: int)
    requires |l.pivots| == |l.slots| - 1
  {
    && (forall a, b :: FreeRun(l, a, b) ==> b - a + 1 <= g)
    && (g > 0 ==> exists a, b :: FreeRun(l, a, b) && b - a + 1 == g)
  }

  /** The length of slot i. */
  function Size(l: Leaf, i: nat): int
    requires i < |l.slots| && |l.pivots| == |l.slots| - 1
  {
    Hi(l, i) - Lo(l, i) + 1
  }

  lemma {:induction false} Ordered(l: Leaf, i: nat, j: nat)
    requires LeafOk(l) && i < j < |l.slots|
    ensures Hi(l, i) < Lo(l, j)
    decreases j
  {
    if i + 1 < j {
      Ordered(l, i, j - 1);
      assert Lo(l, j - 1) <= Hi(l, j - 1);
    }
  }

  /** A free slot is a free run. */
  lemma SlotIsRun(l: Leaf, i: nat)
    requires LeafOk(l) && i < |l.slots| && !l.slots[i]
    ensures FreeRun(l, Lo(l, i), Hi(l, i))
  {
    forall x, j | Lo(l, i) <= x <= Hi(l, i) && InSlot(l, j, x)
      ensures j == i
    {
      if j < i {
        Ordered(l, j, i);
      } else if i < j {
        Ordered(l, i, j);
      }
    }
    if i > 0 {
      Ordered(l, 0, i);
    }
    if i < Last(l) {
      Ordered(l, i, Last(l));
    }
    assert Lo(l, 0) <= Hi(l, 0) && Lo(l, Last(l)) <= Hi(l, Last(l));
  }

  lemma {:induction false} SlotOf(l: Leaf, x: int, i: nat) returns (j: nat)
    requires LeafOk(l) && i < |l.slots| && Lo(l, i) <= x <= l.max
    ensures InSlot(l, j, x)
    decreases |l.slots| - i
  {
    if x <= Hi(l, i) {
      j := i;
    } else {
      j := SlotOf(l, x, i + 1);
    }
  }

  /** A free run stays inside one free slot. */
  lemma RunInSlot(l: Leaf, a: int, b: int) returns (i: nat)
    requires LeafOk(l) && FreeRun(l, a, b)
    ensures i < |l.slots| && !l.slots[i] && b - a + 1 <= Size(l, i)
  {
    i := SlotOf(l, a, 0);
    if b > Hi(l, i) {
      assert InSlot(l, i + 1, Hi(l, i) + 1);
    }
  }

  /** g is 0, or the size of a free slot. */
  ghost predicate SomeSlot(l: Leaf, g: int)
    requires |l.pivots| == |l.slots| - 1
  {
    g == 0 || exists i :: 0 <= i < |l.slots| && !l.slots[i] && g == Size(l, i)
  }

  /** The largest free slot is the largest free run. */
  lemma SlotsSuffice(l: Leaf, g: int)
    requires LeafOk(l) && SomeSlot(l, g) && forall i :: 0 <= i < |l.slots| && !l.slots[i] ==> Size(l, i) <= g
    ensures LargestRun(l, g)
  {
    forall a, b | FreeRun(l, a, b)
      ensures b - a + 1 <= g
    {
      var i := RunInSlot(l, a, b);
    }
    if g > 0 {
      var i :| 0 <= i < |l.slots| && !l.slots[i] && g == Size(l, i);
      SlotIsRun(l, i);
    }
  }

  /** mas_leaf_max_gap on a range leaf */
  method LeafMaxGap(l: Leaf) returns (maxGap: nat)
    requires LeafOk(l)
    ensures LargestRun(l, maxGap)
  {
    var i := 1;
    maxGap := 0;
    assert Lo(l, 0) <= Hi(l, 0);
    if !l.slots[0] {
      maxGap := l.pivots[0] - l.min + 1;
      i := 2;
    }
    var maxPiv := |l.slots| - 2;
    if l.max == ULONG_MAX && !l.slots[maxPiv + 1] {
      var gap := ULONG_MAX - l.pivots[maxPiv];
      if gap > maxGap {
        maxGap := gap;
      }
    }
    while i <= maxPiv
      invariant 1 <= i <= maxPiv + 2 && SomeSlot(l, maxGap)
      invariant forall j :: 0 <= j < |l.slots| && !l.slots[j] && (j < i || j == maxPiv + 1) ==> Size(l, j) <= maxGap
    {
      if !l.slots[i] {
        assert Lo(l, i) <= Hi(l, i);
        var gap := l.pivots[i] - l.pivots[i - 1];
        assert gap == Size(l, i);
        if gap > maxGap {
          maxGap := gap;
        }
        i := i + 1;
      }
      i := i + 1;
    }
    SlotsSuffice(l, maxGap);
  }

  /** mas_leaf_max_gap on a dense node: every slot is one index */
  method DenseMaxGap(slots: seq<bool>) returns (maxGap: nat)
    ensures forall a, b :: 0 <= a <= b <= |slots| && AllFree(slots, a, b) ==> b - a <= maxGap
    ensures exists a, b :: 0 <= a <= b <= |slots| && AllFree(slots, a, b) && b - a == maxGap
  {
    var gap := 0;
    maxGap := 0;
    ghost var from, to := 0, 0;
    for i := 0 to |slots|
      invariant 0 <= gap <= i && AllFree(slots, i - gap, i) && (gap < i ==> slots[i - gap - 1])
      invariant 0 <= from <= to <= i && AllFree(slots, from, to) && to - from == maxGap
      invariant forall a, b :: 0 <= a <= b <= i && AllFree(slots, a, b) ==> b - a <= maxGap || b - a <= gap
    {
      if slots[i] {
        if gap > maxGap {
          maxGap, from, to := gap, i - gap, i;
        }
        gap := 0;
      } else {
        gap := gap + 1;
      }
    }
    if gap > maxGap {
      maxGap, from, to := gap, |slots| - gap, |slots|;
    }
  }

  ghost predicate AllFree(slots: seq<bool>, a: int, b: int)
  {
    forall i :: a <= i < b && 0 <= i < |slots| ==> !slots[i]
  }

  // ----- inner nodes -----

  /** The gaps of a node's children up to the metadata's end, and the offset of a largest one. */
  datatype Node = Node(gaps: seq<nat>, metaGap: nat)

  ghost predicate IsMax(gaps: seq<nat>, m: nat)
  {
    (forall i :: 0 <= i < |gaps| ==> gaps[i] <= m) && (m > 0 ==> m in gaps)
  }

  /** The metadata offset points at a maximum; META_MAX says there is no gap. */
  ghost predicate MetaOk(n: Node)
  {
    && 0 < |n.gaps| <= META_MAX
    && if n.metaGap == META_MAX then IsMax(n.gaps, 0) else n.metaGap < |n.gaps| && IsMax(n.gaps, n.gaps[n.metaGap])
  }

  /** mas_max_gap on an inner node */
  function Recorded(n: Node): nat
    requires n.metaGap == META_MAX || n.metaGap < |n.gaps|
  {
    if n.metaGap == META_MAX then 0 else n.gaps[n.metaGap]
  }

  /** ma_max_gap: from the end down, so that the right-most of equal gaps is found */
  method MaxGap(gaps: seq<nat>) returns (m: nat, off: nat)
    requires gaps != []
    ensures off < |gaps| && IsMax(gaps, m) && gaps[off] == m
    ensures m > 0 ==> forall i :: off < i < |gaps| ==> gaps[i] < m
  {
    var i := |gaps| - 1;
    m, off := 0, i;
    while true
      invariant 0 <= i < |gaps| && off < |gaps|
      invariant (forall j :: i < j < |gaps| ==> gaps[j] <= m) && (m > 0 ==> gaps[off] == m && i < off)
      invariant m == 0 ==> off == |gaps| - 1
      invariant m > 0 ==> forall j :: off < j < |gaps| ==> gaps[j] < m
      decreases i
    {
      if gaps[i] > m {
        m, off := gaps[i], i;
      }
      if i == 0 {
        break;
      }
      i := i - 1;
    }
  }

  // ----- the way up -----

  /** The ancestors of a node, nearest first, each with the slot through which the path goes. */
  ghost predicate Path(nodes: seq<Node>, slots: seq<nat>)
  {
    |nodes| == |slots| && forall k :: 0 <= k < |nodes| ==> MetaOk(nodes[k]) && slots[k] < |nodes[k].gaps|
  }

  /** From level k up, each node has recorded the gap of the one below it. */
  ghost predicate Linked(nodes: seq<Node>, slots: seq<nat>, k: nat)
  {
    Path(nodes, slots) && forall i, j :: k <= i && j == i + 1 && j < |nodes| ==>
      nodes[j].gaps[slots[j]] == Recorded(nodes[i])
  }

  /** Only the entries on the path differ. */
  ghost predicate OnlyPath(was: seq<Node>, nodes: seq<Node>, slots: seq<nat>)
  {
    && |was| == |nodes| == |slots|
    && forall k :: 0 <= k < |nodes| ==>
      && |nodes[k].gaps| == |was[k].gaps|
      && forall j :: 0 <= j < |nodes[k].gaps| && j != slots[k] ==> nodes[k].gaps[j] == was[k].gaps[j]
  }

  /** One node takes a new gap at offset; the result tells whether the gap it reports itself is another one now. */
  method SetGap(n: Node, offset: nat, gap_: nat) returns (n': Node, up: bool)
    requires MetaOk(n) && offset < |n.gaps|
    ensures MetaOk(n') && n'.gaps == n.gaps[offset := gap_] && (!up ==> Recorded(n') == Recorded(n))
  {
    var metaOffset := n.metaGap;
    var metaGap := if metaOffset == META_MAX then 0 else n.gaps[metaOffset];
    var gaps := n.gaps[offset := gap_];
    if metaGap == gap_ {
      return Node(gaps, metaOffset), false;
    }
    if offset != metaOffset {
      if metaGap > gap_ {
        return Node(gaps, metaOffset), false;
      }
      return Node(gaps, offset), true;
    } else if gap_ < metaGap {
      var m, off := MaxGap(gaps);
      return Node(gaps, off), true;
    }
    return Node(gaps, metaOffset), true;
  }

  class Ancestors {
    var nodes: seq<Node>
    const slots: seq<nat>

    constructor (nodes: seq<Node>, slots: seq<nat>)
      ensures this.nodes == nodes && this.slots == slots
    {
      this.nodes := nodes;
      this.slots := slots;
    }

    /** mas_parent_gap */
    method ParentGap(gap: nat)
      requires Linked(nodes, slots, 0) && nodes != []
      modifies this
      ensures Linked(nodes, slots, 0) && OnlyPath(old(nodes), nodes, slots) && nodes[0].gaps[slots[0]] == gap
    {
      var k, found := 0, gap;
      ghost var was := nodes;
      assert Rising(was, nodes, slots, 0, found, gap);
      hide Rising, Linked, OnlyPath;
      while k < |nodes|
        invariant 0 <= k <= |nodes| && Rising(was, nodes, slots, k, found, gap)
      {
        AtLevel(was, nodes, slots, k, found, gap);
        var n, up := SetGap(nodes[k], slots[k], found);
        StepUp(was, nodes, slots, k, found, gap, n);
        nodes := nodes[k := n];
        if !up {
          return;
        }
        found := Recorded(n);
        k := k + 1;
      }
      AtTop(was, nodes, slots, found, gap);
    }

    /** mas_update_gap for a node that now has the given largest gap; without ancestors there is nothing to do */
    method UpdateGap(maxGap: nat)
      requires Linked(nodes, slots, 0)
      modifies this
      ensures Linked(nodes, slots, 0) && OnlyPath(old(nodes), nodes, slots)
      ensures nodes != [] ==> nodes[0].gaps[slots[0]] == maxGap
    {
      if nodes == [] {
        return;
      }
      if nodes[0].gaps[slots[0]] != maxGap {
        ParentGap(maxGap);
      }
    }

    /**
     * mas_update_gap for a leaf whose entries have changed: when all else agreed before, every
     * gap recorded in the tree is again the length of the longest free run below it.
     */
    method UpdateLeaf(l: Leaf, ghost sides: seq<seq<Tree>>)
      requires LeafOk(l) && Linked(nodes, slots, 0) && OthersAgree(nodes, slots, sides)
      requires Placed(Subtree(nodes, slots, sides, LeafTree(l), |nodes|))
      modifies this
      ensures Linked(nodes, slots, 0) && OthersAgree(nodes, slots, sides) && OnlyPath(old(nodes), nodes, slots)
      ensures var t := Subtree(nodes, slots, sides, LeafTree(l), |nodes|);
        Placed(t) && Agrees(t) && (nodes != [] ==> HasGap(t, Recorded(nodes[|nodes| - 1])))
    {
      var g := LeafMaxGap(l);
      ghost var was := nodes;
      UpdateGap(g);
      OthersStay(was, nodes, slots, sides);
      PlacedStays(was, nodes, slots, sides, LeafTree(l), |nodes|);
      LeafGap(l, g);
      if nodes != [] {
        AllAgree(nodes, slots, sides, LeafTree(l), |nodes|);
      }
    }
  }

  // ----- what the records stand for -----

  datatype Tree = LeafTree(leaf: Leaf) | InnerTree(node: Node, kids: seq<Tree>)

  /** The first index below t. */
  function Min(t: Tree): nat
  {
    match t
    case LeafTree(l) => l.min
    case InnerTree(_, kids) => if kids == [] then 0 else Min(kids[0])
  }

  /** The last index below t. */
  function Max(t: Tree): nat
  {
    match t
    case LeafTree(l) => l.max
    case InnerTree(_, kids) => if kids == [] then 0 else Max(kids[|kids| - 1])
  }

  /** The children of every node cover its range side by side. */
  ghost predicate Placed(t: Tree)
    decreases t
  {
    match t
    case LeafTree(l) => LeafOk(l)
    case InnerTree(_, kids) =>
      && kids != [] && (forall i :: 0 <= i < |kids| ==> Placed(kids[i]))
      && forall i, j :: 0 <= i && j == i + 1 && j < |kids| ==> Max(kids[i]) + 1 == Min(kids[j])
  }

  /** Some entry below t covers index x. */
  ghost predicate Taken(t: Tree, x: int)
    decreases t
  {
    match t
    case LeafTree(l) => |l.pivots| == |l.slots| - 1 && exists i :: InSlot(l, i, x) && l.slots[i]
    case InnerTree(_, kids) => exists k :: 0 <= k < |kids| && Taken(kids[k], x)
  }

  /** No entry below t covers an index from a to b. */
  ghost predicate TreeRun(t: Tree, a: int, b: int)
  {
    Min(t) <= a <= b <= Max(t) && forall x :: a <= x <= b ==> !Taken(t, x)
  }

  /** g is the length of the longest free run of indices below t. */
  ghost predicate HasGap(t: Tree, g: nat)
  {
    && (forall a, b :: TreeRun(t, a, b) ==> b - a + 1 <= g)
    && (g > 0 ==> exists a, b :: TreeRun(t, a, b) && b - a + 1 == g)
  }

  lemma LeafGap(l: Leaf, g: nat)
    requires LeafOk(l) && LargestRun(l, g)
    ensures HasGap(LeafTree(l), g)
  {
    forall a, b
      ensures TreeRun(LeafTree(l), a, b) <==> FreeRun(l, a, b)
    {
      LeafRun(l, a, b);
    }
    hide TreeRun, FreeRun;
  }

  lemma LeafRun(l: Leaf, a: int, b: int)
    requires LeafOk(l)
    ensures TreeRun(LeafTree(l), a, b) <==> FreeRun(l, a, b)
  {
    if FreeRun(l, a, b) {
      forall x | a <= x <= b
        ensures !Taken(LeafTree(l), x)
      {
        assert forall i :: InSlot(l, i, x) ==> !l.slots[i];
      }
    }
    if TreeRun(LeafTree(l), a, b) {
      forall x, i | a <= x <= b && InSlot(l, i, x)
        ensures !l.slots[i]
      {
        assert !Taken(LeafTree(l), x);
      }
    }
    hide LeafOk, Lo, Hi;
  }

  lemma LeafRange(l: Leaf, i: int, x: int)
    requires LeafOk(l) && InSlot(l, i, x)
    ensures l.min <= x <= l.max
  {
    if i > 0 {
      Ordered(l, 0, i);
      assert Lo(l, 0) <= Hi(l, 0);
    }
    if i < Last(l) {
      Ordered(l, i, Last(l));
      assert Lo(l, Last(l)) <= Hi(l, Last(l));
    }
  }

  /** Children stand in the order of their ranges. */
  lemma {:induction false} KidsOrdered(t: Tree, i: nat, j: nat)
    requires Placed(t) && t.InnerTree? && i <= j < |t.kids|
    ensures Min(t) <= Min(t.kids[i]) && Max(t.kids[j]) <= Max(t)
    ensures i < j ==> Max(t.kids[i]) < Min(t.kids[j])
    ensures Min(t.kids[i]) <= Max(t.kids[i])
    decreases t, if i < j then 1 else 0, j - i, |t.kids|
  {
    Steps(t, 0, i);
    Steps(t, j, |t.kids| - 1);
    Steps(t, i, j);
    RangeOk(t.kids[i]);
  }

  lemma {:induction false} Steps(t: Tree, i: nat, j: nat)
    requires Placed(t) && t.InnerTree? && i <= j < |t.kids|
    ensures Min(t.kids[i]) <= Min(t.kids[j]) && Max(t.kids[i]) <= Max(t.kids[j])
      && (i < j ==> Max(t.kids[i]) < Min(t.kids[j]))
    decreases t, 0, j - i
  {
    if i < j {
      Steps(t, i, j - 1);
      RangeOk(t.kids[i]);
      RangeOk(t.kids[j - 1]);
      RangeOk(t.kids[j]);
      assert Max(t.kids[j - 1]) + 1 == Min(t.kids[j]);
    }
  }

  lemma {:induction false} RangeOk(t: Tree)
    requires Placed(t)
    ensures Min(t) <= Max(t) <= ULONG_MAX
    decreases t, 2
  {
    match t
    case LeafTree(l) =>
      Ordered(l, 0, Last(l));
      assert Lo(l, 0) <= Hi(l, 0) && Lo(l, Last(l)) <= Hi(l, Last(l));
    case InnerTree(_, kids) =>
      Steps(t, 0, |kids| - 1);
      RangeOk(kids[0]);
      RangeOk(kids[|kids| - 1]);
  }

  lemma {:induction false} TakenInRange(t: Tree, x: int)
    requires Placed(t) && Taken(t, x)
    ensures Min(t) <= x <= Max(t)
    decreases t
  {
    match t
    case LeafTree(l) =>
      var i :| InSlot(l, i, x) && l.slots[i];
      LeafRange(l, i, x);
    case InnerTree(_, kids) =>
      var k :| 0 <= k < |kids| && Taken(kids[k], x);
      TakenInRange(kids[k], x);
      KidsOrdered(t, k, k);
  }

  /** Short of the very end of the index space, the last index below a node is taken. */
  lemma {:induction false} LastTaken(t: Tree)
    requires Placed(t) && Max(t) < ULONG_MAX
    ensures Taken(t, Max(t))
    decreases t
  {
    match t
    case LeafTree(l) =>
      assert Lo(l, Last(l)) <= Hi(l, Last(l));
      assert InSlot(l, Last(l), l.max);
    case InnerTree(_, kids) => LastTaken(kids[|kids| - 1]);
  }

  lemma {:induction false} KidOf(t: Tree, x: int, i: nat) returns (k: nat)
    requires Placed(t) && t.InnerTree? && i < |t.kids| && Min(t.kids[i]) <= x <= Max(t)
    ensures k < |t.kids| && Min(t.kids[k]) <= x <= Max(t.kids[k])
    decreases |t.kids| - i
  {
    if x <= Max(t.kids[i]) {
      k := i;
    } else {
      assert i + 1 < |t.kids| ==> Max(t.kids[i]) + 1 == Min(t.kids[i + 1]);
      k := KidOf(t, x, i + 1);
    }
  }

  /** A free run stays below one child. */
  lemma RunInKid(t: Tree, a: int, b: int) returns (k: nat)
    requires Placed(t) && t.InnerTree? && TreeRun(t, a, b)
    ensures k < |t.kids| && TreeRun(t.kids[k], a, b)
  {
    k := KidOf(t, a, 0);
    var m := Max(t.kids[k]);
    if b > m {
      RangeOk(t);
      LastTaken(t.kids[k]);
      assert Taken(t, m);
      assert false;
    }
    forall x | a <= x <= b
      ensures !Taken(t.kids[k], x)
    {
      assert !Taken(t, x);
    }
  }

  lemma KidRun(t: Tree, k: nat, a: int, b: int)
    requires Placed(t) && t.InnerTree? && k < |t.kids| && TreeRun(t.kids[k], a, b)
    ensures TreeRun(t, a, b)
  {
    KidsOrdered(t, k, k);
    forall x | a <= x <= b
      ensures !Taken(t, x)
    {
      forall j | 0 <= j < |t.kids| && Taken(t.kids[j], x)
        ensures j == k
      {
        TakenInRange(t.kids[j], x);
        if j < k {
          KidsOrdered(t, j, k);
        } else if k < j {
          KidsOrdered(t, k, j);
        }
      }
    }
  }

  /** The longest run below a node is the longest of those below its children. */
  lemma InnerGap(t: Tree, gaps: seq<nat>, g: nat)
    requires Placed(t) && t.InnerTree? && |gaps| == |t.kids| && IsMax(gaps, g)
    requires forall i :: 0 <= i < |t.kids| ==> HasGap(t.kids[i], gaps[i])
    ensures HasGap(t, g)
  {
    hide Placed, TreeRun;
    forall a, b | TreeRun(t, a, b)
      ensures b - a + 1 <= g
    {
      var k := RunInKid(t, a, b);
      assert HasGap(t.kids[k], gaps[k]);
    }
    if g > 0 {
      var k :| 0 <= k < |gaps| && gaps[k] == g;
      assert HasGap(t.kids[k], gaps[k]);
      var a, b :| TreeRun(t.kids[k], a, b) && b - a + 1 == g;
      KidRun(t, k, a, b);
    }
  }

  /** Every gap recorded in t is the true one, and every offset points at a maximum. */
  ghost predicate Agrees(t: Tree)
    decreases t
  {
    match t
    case LeafTree(l) => LeafOk(l)
    case InnerTree(n, kids) =>
      && MetaOk(n) && |n.gaps| == |kids|
      && forall i :: 0 <= i < |kids| ==> HasGap(kids[i], n.gaps[i]) && Agrees(kids[i])
  }

  /** The subtree below level k of the path, with bottom at its end; sides are the children of the ancestors. */
  ghost function Subtree(nodes: seq<Node>, slots: seq<nat>, sides: seq<seq<Tree>>, bottom: Tree, k: nat): Tree
    requires k <= |nodes| == |slots| == |sides| && forall i :: 0 <= i < |nodes| ==> slots[i] < |sides[i]|
    decreases k
  {
    if k == 0 then bottom
    else InnerTree(nodes[k - 1], sides[k - 1][slots[k - 1] := Subtree(nodes, slots, sides, bottom, k - 1)])
  }

  /** Off the path the records are right. */
  ghost predicate OthersAgree(nodes: seq<Node>, slots: seq<nat>, sides: seq<seq<Tree>>)
  {
    && |nodes| == |slots| == |sides|
    && forall k :: 0 <= k < |nodes| ==>
         && slots[k] < |sides[k]| == |nodes[k].gaps|
         && forall j :: 0 <= j < |sides[k]| && j != slots[k] ==>
           HasGap(sides[k][j], nodes[k].gaps[j]) && Agrees(sides[k][j])
  }

  lemma OthersStay(was: seq<Node>, nodes: seq<Node>, slots: seq<nat>, sides: seq<seq<Tree>>)
    requires OthersAgree(was, slots, sides) && OnlyPath(was, nodes, slots)
    ensures OthersAgree(nodes, slots, sides)
  {
    hide HasGap, Agrees;
  }

  /** The ranges do not depend on what is recorded. */
  lemma {:induction false} PlacedStays(was: seq<Node>, nodes: seq<Node>, slots: seq<nat>, sides: seq<seq<Tree>>,
                                       bottom: Tree, k: nat)
    requires k <= |nodes| == |was| == |slots| == |sides| && forall i :: 0 <= i < |nodes| ==> slots[i] < |sides[i]|
    requires Placed(Subtree(was, slots, sides, bottom, k))
    ensures var t, t' := Subtree(was, slots, sides, bottom, k), Subtree(nodes, slots, sides, bottom, k);
      Placed(t') && Min(t') == Min(t) && Max(t') == Max(t)
    decreases k
  {
    if k > 0 {
      var t, t' := Subtree(was, slots, sides, bottom, k), Subtree(nodes, slots, sides, bottom, k);
      assert Placed(t.kids[slots[k - 1]]);
      PlacedStays(was, nodes, slots, sides, bottom, k - 1);
      KidSwap(t, t', slots[k - 1]);
    }
  }

  lemma KidSwap(t: Tree, t': Tree, s: nat)
    requires t.InnerTree? && t'.InnerTree? && s < |t.kids| == |t'.kids| && Placed(t)
      && t'.kids == t.kids[s := t'.kids[s]]
    requires Placed(t'.kids[s]) && Min(t'.kids[s]) == Min(t.kids[s]) && Max(t'.kids[s]) == Max(t.kids[s])
    ensures Placed(t') && Min(t') == Min(t) && Max(t') == Max(t)
  {
    assert forall i :: 0 <= i < |t.kids| ==> Min(t'.kids[i]) == Min(t.kids[i]) && Max(t'.kids[i]) == Max(t.kids[i]);
  }

  lemma {:induction false} AllAgree(nodes: seq<Node>, slots: seq<nat>, sides: seq<seq<Tree>>, bottom: Tree, k: nat)
    requires Linked(nodes, slots, 0) && OthersAgree(nodes, slots, sides) && nodes != [] && k <= |nodes|
    requires HasGap(bottom, nodes[0].gaps[slots[0]]) && Agrees(bottom)
      && Placed(Subtree(nodes, slots, sides, bottom, k))
    ensures Agrees(Subtree(nodes, slots, sides, bottom, k))
    ensures k < |nodes| ==> HasGap(Subtree(nodes, slots, sides, bottom, k), nodes[k].gaps[slots[k]])
    ensures k > 0 ==> HasGap(Subtree(nodes, slots, sides, bottom, k), Recorded(nodes[k - 1]))
    decreases k
  {
    if k > 0 {
      var t := Subtree(nodes, slots, sides, bottom, k);
      assert Placed(t.kids[slots[k - 1]]);
      AllAgree(nodes, slots, sides, bottom, k - 1);
      hide HasGap, Placed, Linked;
      KidsAgree(nodes, slots, sides, bottom, k);
      assert IsMax(nodes[k - 1].gaps, Recorded(nodes[k - 1]));
      InnerGap(t, nodes[k - 1].gaps, Recorded(nodes[k - 1]));
      NextRecords(nodes, slots, k);
    }
  }

  lemma KidsAgree(nodes: seq<Node>, slots: seq<nat>, sides: seq<seq<Tree>>, bottom: Tree, k: nat)
    requires Path(nodes, slots) && OthersAgree(nodes, slots, sides) && 0 < k <= |nodes|
    requires var kid := Subtree(nodes, slots, sides, bottom, k - 1);
      HasGap(kid, nodes[k - 1].gaps[slots[k - 1]]) && Agrees(kid)
    ensures Agrees(Subtree(nodes, slots, sides, bottom, k))
  {
    hide HasGap;
  }

  lemma NextRecords(nodes: seq<Node>, slots: seq<nat>, k: nat)
    requires Linked(nodes, slots, 0) && 0 < k <= |nodes|
    ensures Path(nodes, slots) && (k < |nodes| ==> nodes[k].gaps[slots[k]] == Recorded(nodes[k - 1]))
  {
  }

  /** Below level k all is up to date, from k up it is as before, and level k is to record found. */
  ghost predicate Rising(was: seq<Node>, nodes: seq<Node>, slots: seq<nat>, k: nat, found: nat, gap: nat)
  {
    && k <= |nodes| && nodes != [] && Linked(nodes, slots, k) && OnlyPath(was, nodes, slots)
    && (forall i, j :: 0 <= i && j == i + 1 && j < k ==> nodes[j].gaps[slots[j]] == Recorded(nodes[i]))
    && if k == 0 then found == gap else nodes[0].gaps[slots[0]] == gap && found == Recorded(nodes[k - 1])
  }

  lemma AtLevel(was: seq<Node>, nodes: seq<Node>, slots: seq<nat>, k: nat, found: nat, gap: nat)
    requires Rising(was, nodes, slots, k, found, gap) && k < |nodes|
    ensures |slots| == |nodes| && MetaOk(nodes[k]) && slots[k] < |nodes[k].gaps|
  {
  }

  lemma AtTop(was: seq<Node>, nodes: seq<Node>, slots: seq<nat>, found: nat, gap: nat)
    requires Rising(was, nodes, slots, |nodes|, found, gap)
    ensures Linked(nodes, slots, 0) && OnlyPath(was, nodes, slots) && nodes != [] && nodes[0].gaps[slots[0]] == gap
  {
  }

  lemma StepUp(was: seq<Node>, nodes: seq<Node>, slots: seq<nat>, k: nat, found: nat, gap: nat, n: Node)
    requires Rising(was, nodes, slots, k, found, gap) && k < |nodes|
    requires MetaOk(n) && slots[k] < |nodes[k].gaps| && n.gaps == nodes[k].gaps[slots[k] := found]
    ensures Rising(was, nodes[k := n], slots, k + 1, Recorded(n), gap)
    ensures Recorded(n) == Recorded(nodes[k]) ==>
      Linked(nodes[k := n], slots, 0) && OnlyPath(was, nodes[k := n], slots) && nodes[k := n][0].gaps[slots[0]] == gap
  {
    var ns := nodes[k := n];
    forall i, j | 0 <= i && j == i + 1 && j < |ns| && i != k
      ensures j != k || i < k
      ensures ns[j].gaps[slots[j]] == Recorded(ns[i])
    {
      assert i > k ==> nodes[j].gaps[slots[j]] == Recorded(nodes[i]);
    }
    if k + 1 < |ns| {
      assert nodes[k + 1].gaps[slots[k + 1]] == Recorded(nodes[k]);
    }
  }
}
