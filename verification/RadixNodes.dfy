/**
 * The nodes of the radix tree of lib/radix-tree.c, as values: what each must record about the ones
 * below it, and how the operations on single nodes keep that.
 *
 * A node is known by its level (shift / MAP_SHIFT) and its prefix (the index
 * bits above the ones the node decodes), so `nodes[(k, p)]` stands for the
 * node that covers the indices i with Prefix(i, k + 1) == p.  Its parent is
 * (k + 1, p / 4), and its offset in the parent is p % 4, so the parent links and
 * offsets of the nodes are right by construction.  A node has four slots
 * (XA_CHUNK_SHIFT is 2, include/linux/xarray.h:1118).
 */
module RadixNodes {
  import opened Base

  const MAX_TAGS: nat := 3
  const IDR_FREE: nat := 0

  /** The number of indices: an index is an unsigned long of 64 bits. */
  const U64: nat := 0x1_0000_0000_0000_0000

  /** RADIX_TREE_MAX_PATH */
  const MAX_PATH: nat := 32

  // ----- indices -----

  /** index >> (k * MAP_SHIFT) */
  function Prefix(index: nat, k: nat): nat
    decreases k
  {
    if k == 0 then index else Prefix(index, k - 1) / 4
  }

  /** The least index whose Prefix at level k is q: q << (k * MAP_SHIFT). */
  function First(q: nat, k: nat): nat
    decreases k
  {
    if k == 0 then q else First(4 * q, k - 1)
  }

  lemma {:induction false} PrefixAtLeast(i: nat, q: nat, k: nat)
    ensures Prefix(i, k) >= q <==> i >= First(q, k)
    decreases k
  {
    if k > 0 {
      PrefixAtLeast(i, 4 * q, k - 1);
    }
  }

  /** The height of the lowest tree with nodes that has room for index i. */
  function LevelsOf(i: nat): (h: nat)
    ensures h > 0
  {
    if i < 4 then 1 else 1 + LevelsOf(i / 4)
  }

  lemma {:induction false} LevelsFit(i: nat, j: nat, h: nat)
    requires i <= j && h > 0 && (h == 1 || Prefix(i, h - 1) > 0)
    ensures h <= LevelsOf(j)
    decreases h
  {
    if h > 1 {
      PrefixShift(i, h - 1);
      if j < 4 {
        PrefixZero(h - 2);
      } else {
        LevelsFit(i / 4, j / 4, h - 1);
      }
    }
  }

  lemma {:induction false} LevelsGrow(i: nat, j: nat)
    requires i <= j
    ensures LevelsOf(i) <= LevelsOf(j)
  {
    if i >= 4 {
      LevelsGrow(i / 4, j / 4);
    }
  }

  lemma {:induction false} LevelsEnough(i: nat, h: nat)
    requires h > 0 && Prefix(i, h) == 0
    ensures LevelsOf(i) <= h
    decreases h
  {
    if i >= 4 {
      PrefixShift(i, h);
      if h > 1 {
        LevelsEnough(i / 4, h - 1);
      }
    }
  }

  lemma FourLevels(q: nat, k: nat)
    ensures First(q, k + 4) == First(256 * q, k)
  {
    assert First(q, k + 4) == First(4 * q, k + 3) && First(4 * q, k + 3) == First(16 * q, k + 2);
    assert First(16 * q, k + 2) == First(64 * q, k + 1) && First(64 * q, k + 1) == First(256 * q, k);
  }

  /** A tree of 32 levels has room for every index, and for no more. */
  lemma WholeRange()
    ensures First(1, MAX_PATH) == U64
  {
    FourLevels(0x1, 28);
    FourLevels(0x100, 24);
    FourLevels(0x1_0000, 20);
    FourLevels(0x100_0000, 16);
    FourLevels(0x1_0000_0000, 12);
    FourLevels(0x100_0000_0000, 8);
    FourLevels(0x1_0000_0000_0000, 4);
    FourLevels(0x100_0000_0000_0000, 0);
    assert First(U64, 0) == U64;
  }

  lemma LevelsBound(i: nat)
    requires i < U64
    ensures LevelsOf(i) <= MAX_PATH
  {
    WholeRange();
    PrefixAtLeast(i, 1, MAX_PATH);
    hide Prefix, First, LevelsOf;
    LevelsEnough(i, MAX_PATH);
  }

  lemma {:induction false} FirstMonotone(q: nat, r: nat, k: nat)
    requires q <= r
    ensures First(q, k) <= First(r, k)
    decreases r - q
  {
    if q < r {
      FirstGrows(q, k);
      FirstMonotone(q + 1, r, k);
    }
  }

  /** The slots of a node do not reach past the tree of h levels it is in. */
  lemma {:induction false} SlotInside(i: nat, k: nat, h: nat, o: nat)
    requires k < h && Prefix(i, h) == 0 && o <= 4
    ensures First(4 * Prefix(i, k + 1) + o, k) <= First(1, h)
    decreases h - k
  {
    var p := Prefix(i, k + 1);
    FirstMonotone(4 * p + o, 4 * (p + 1), k);
    if k + 1 < h {
      var q := Prefix(i, k + 2);
      assert p == 4 * q + p % 4;
      SlotInside(i, k + 1, h, p % 4 + 1);
    }
  }

  lemma TreeInside(h: nat)
    requires h <= MAX_PATH
    ensures First(1, h) <= U64
  {
    WholeRange();
    FirstHigher(h, MAX_PATH);
  }

  lemma {:induction false} FirstHigher(h: nat, k: nat)
    requires h <= k
    ensures First(1, h) <= First(1, k)
    decreases k - h
  {
    if h < k {
      FirstMonotone(1, 4, h);
      FirstHigher(h + 1, k);
    }
  }

  lemma {:induction false} PrefixShift(i: nat, h: nat)
    requires h > 0
    ensures Prefix(i, h) == Prefix(i / 4, h - 1)
    decreases h
  {
    if h > 1 {
      PrefixShift(i, h - 1);
    }
  }

  lemma {:induction false} PrefixZero(h: nat)
    ensures Prefix(0, h) == 0
    decreases h
  {
    if h > 0 {
      PrefixZero(h - 1);
    }
  }

  lemma PrefixOfFirst(q: nat, k: nat)
    ensures Prefix(First(q, k), k) == q
  {
    PrefixAtLeast(First(q, k), q, k);
    PrefixAtLeast(First(q, k), q + 1, k);
    FirstGrows(q, k);
  }

  lemma {:induction false} FirstGrows(q: nat, k: nat)
    ensures First(q, k) < First(q + 1, k)
    decreases k
  {
    if k > 0 {
      FirstGrows(4 * q, k - 1);
      FirstGrows(4 * q + 1, k - 1);
      FirstGrows(4 * q + 2, k - 1);
      FirstGrows(4 * q + 3, k - 1);
    }
  }

  // ----- nodes -----

  datatype Entry = Null | Child | Item(v: int)

  /** A node: its count, its slots, and the (tag, offset) pairs whose tag bit is set. */
  datatype Node = Node(count: int, slots: seq<Entry>, tags: set<(nat, nat)>)

  datatype Head = Nil | Direct(item: Entry) | Top(level: nat)

  type Nodes = map<(nat, nat), Node>

  function Slot0(n: Node): Entry
  {
    if n.slots == [] then Null else n.slots[0]
  }

  /** any_tag_set */
  predicate Any(n: Node, t: nat)
  {
    (t, 0) in n.tags || (t, 1) in n.tags || (t, 2) in n.tags || (t, 3) in n.tags
  }

  /** What a slot's tag bit says when there is no node below it. */
  predicate Default(idr: bool, t: nat)
  {
    idr && t == IDR_FREE
  }

  function One(b: bool): int
  {
    if b then 1 else 0
  }

  // ----- the invariant, one node at a time -----

  /**
   * What the tree stands for: the stored entries and the (tag, index) pairs in
   * force.  In an ID allocator tag 0 marks the unused indices.
   */
  datatype Content = Content(idr: bool, level: int, m: map<nat, Entry>, tagged: iset<(nat, nat)>)

  /**
   * Where a tag bit may for the moment disagree with the node below it: nowhere,
   * in the parent of node (k, p), or all along the path of one index.
   */
  datatype Stale = Fresh | Stale(k: nat, p: nat, t: nat) | Path(i: nat, t: nat)

  ghost predicate Excused(x: Stale, k: nat, p: nat, t: nat)
  {
    match x
    case Fresh => false
    case Stale(k', p', t') => (k, p, t) == (k', p', t')
    case Path(i, t') => p == Prefix(i, k + 1) && t == t'
  }

  ghost function Stored(m: map<nat, Entry>, i: nat): Entry
  {
    if i in m then m[i] else Null
  }

  /** The bit a parent must hold for node (k, p). */
  ghost predicate Summary(ns: Nodes, idr: bool, k: nat, p: nat, t: nat)
  {
    if (k, p) in ns then Any(ns[(k, p)], t) else Default(idr, t)
  }

  ghost predicate LeafSlotOk(n: Node, m: map<nat, Entry>, tagged: iset<(nat, nat)>, p: nat, off: nat)
    requires |n.slots| == 4
  {
    off < 4 ==>
      && n.slots[off] == Stored(m, 4 * p + off)
      && forall t: nat :: (t, off) in n.tags <==> (t, 4 * p + off) in tagged
  }

  ghost predicate LeafOk(n: Node, m: map<nat, Entry>, tagged: iset<(nat, nat)>, p: nat)
  {
    && |n.slots| == 4
    && n.count == One(4 * p in m) + One(4 * p + 1 in m) + One(4 * p + 2 in m) + One(4 * p + 3 in m)
    && forall off: nat :: LeafSlotOk(n, m, tagged, p, off)
  }

  ghost function Children(s: seq<Entry>): int
    requires |s| == 4
  {
    One(s[0].Child?) + One(s[1].Child?) + One(s[2].Child?) + One(s[3].Child?)
  }

  ghost predicate SlotOk(ns: Nodes, idr: bool, x: Stale, n: Node, k: nat, p: nat, off: nat)
    requires |n.slots| == 4 && k > 0
  {
    off < 4 ==>
      && n.slots[off] == (if (k - 1, 4 * p + off) in ns then Child else Null)
      && forall t: nat :: !Excused(x, k - 1, 4 * p + off, t) ==>
        ((t, off) in n.tags <==> Summary(ns, idr, k - 1, 4 * p + off, t))
  }

  ghost predicate InnerOk(ns: Nodes, idr: bool, x: Stale, n: Node, k: nat, p: nat)
    requires k > 0
  {
    && |n.slots| == 4
    && n.count == Children(n.slots)
    && forall off: nat :: SlotOk(ns, idr, x, n, k, p, off)
  }

  ghost predicate NodeOk(ns: Nodes, c: Content, x: Stale, k: nat, p: nat)
  {
    (k, p) in ns ==>
      && k <= c.level
      && (k == c.level ==> p == 0)
      && (k < c.level ==> (k + 1, p / 4) in ns)
      && (if k == 0 then LeafOk(ns[(k, p)], c.m, c.tagged, p) else InnerOk(ns, c.idr, x, ns[(k, p)], k, p))
  }

  /** Tags sit on stored items only; in an ID allocator every unused index is tagged free. */
  ghost predicate Linked(c: Content)
  {
    && (forall t, i :: (t, i) in c.tagged && i !in c.m ==> Default(c.idr, t))
    && (c.idr ==> forall i: nat :: i !in c.m ==> (IDR_FREE, i) in c.tagged)
    && (c.idr ==> forall t, i :: (t, i) in c.tagged ==> t == IDR_FREE)
    && (forall i :: i in c.m ==> c.m[i].Item? || (c.idr && c.m[i].Null?))
  }

  ghost predicate Forest(ns: Nodes, c: Content, x: Stale)
  {
    && Linked(c)
    && (forall k: nat, p: nat :: NodeOk(ns, c, x, k, p))
    && (forall i :: i in c.m ==> (0, i / 4) in ns)
  }

  /** No node but x is empty. */
  ghost predicate Tidy(ns: Nodes, x: Option<(nat, nat)>)
  {
    forall key :: key in ns && Some(key) != x ==> ns[key].count > 0
  }

  lemma TidySame(ns: Nodes, ns': Nodes, key: (nat, nat))
    requires ns.Keys == ns'.Keys && forall k :: k in ns && k != key ==> ns'[k].count == ns[k].count
    ensures Tidy(ns, Some(key)) ==> Tidy(ns', Some(key)) && (key in ns' && ns'[key].count > 0 ==> Tidy(ns', None))
  {
  }

  lemma TidyAbove(ns: Nodes, key: (nat, nat), n: Node)
    requires n.count > 0
    ensures Tidy(ns, None) ==> Tidy(ns[key := n], None)
  {
  }

  lemma SameTidy(ns: Nodes, ns': Nodes, x: Option<(nat, nat)>)
    requires SameShape(ns, ns')
    ensures Tidy(ns, x) ==> Tidy(ns', x)
  {
  }

  lemma TidyWithChild(ns: Nodes, idr: bool, k: nat, p: nat)
    requires (k + 1, p / 4) in ns && p % 4 < |ns[(k + 1, p / 4)].slots| && ns[(k + 1, p / 4)].count >= 0
    ensures Tidy(ns, Some((k + 1, p / 4))) ==> Tidy(WithChild(ns, idr, k, p), Some((k, p)))
  {
  }

  lemma TidyWeaker(ns: Nodes, key: (nat, nat))
    ensures Tidy(ns, None) ==> Tidy(ns, Some(key))
  {
  }

  /** A node above another one, or with a stored index, is not empty. */
  lemma Occupied(ns: Nodes, c: Content, k: nat, p: nat)
    requires Forest(ns, c, Fresh) && (k, p) in ns
    ensures ns[(k, p)].count >= 0
    ensures k > 0 ==> forall q: nat :: q / 4 == p && (k - 1, q) in ns ==> ns[(k, p)].count > 0
    ensures k == 0 ==> forall i :: i in c.m && i / 4 == p ==> ns[(k, p)].count > 0
  {
    assert NodeOk(ns, c, Fresh, k, p);
    if k > 0 {
      forall q: nat | q / 4 == p && (k - 1, q) in ns
        ensures ns[(k, p)].count > 0
      {
        assert q == 4 * p + q % 4 && SlotOk(ns, c.idr, Fresh, ns[(k, p)], k, p, q % 4);
      }
    } else {
      forall i | i in c.m && i / 4 == p
        ensures ns[(k, p)].count > 0
      {
        assert i == 4 * p + i % 4;
      }
    }
  }

  /** A node whose only child is not the first one has a child further up. */
  lemma HighChild(ns: Nodes, c: Content, l: nat) returns (off: nat)
    requires Forest(ns, c, Fresh) && (l, 0) in ns && l > 0 && ns[(l, 0)].count > 0
    requires ns[(l, 0)].count == 1 ==> (l - 1, 0) !in ns
    ensures 0 < off < 4 && (l - 1, off) in ns
  {
    var n := ns[(l, 0)];
    assert NodeOk(ns, c, Fresh, l, 0);
    hide Forest;
    assert SlotOk(ns, c.idr, Fresh, n, l, 0, 0);
    off := if n.slots[1].Child? then 1 else if n.slots[2].Child? then 2 else 3;
    assert SlotOk(ns, c.idr, Fresh, n, l, 0, off);
  }

  /** Below every node of a tidy tree something is stored. */
  lemma {:induction false} SomethingBelow(ns: Nodes, c: Content, k: nat, p: nat) returns (i: nat)
    requires Forest(ns, c, Fresh) && Tidy(ns, None) && (k, p) in ns
    ensures i in c.m && Prefix(i, k + 1) == p
    decreases k
  {
    var n := ns[(k, p)];
    assert NodeOk(ns, c, Fresh, k, p) && n.count > 0;
    if k == 0 {
      i := if 4 * p in c.m then 4 * p else if 4 * p + 1 in c.m then 4 * p + 1
        else if 4 * p + 2 in c.m then 4 * p + 2 else 4 * p + 3;
    } else {
      var off: nat :=
        if n.slots[0].Child? then 0 else if n.slots[1].Child? then 1 else if n.slots[2].Child? then 2 else 3;
      assert SlotOk(ns, c.idr, Fresh, n, k, p, off);
      i := SomethingBelow(ns, c, k - 1, 4 * p + off);
    }
  }

  /** The same nodes with the same counts. */
  ghost predicate SameShape(ns: Nodes, ns': Nodes)
  {
    ns.Keys == ns'.Keys && forall key :: key in ns ==> ns'[key].count == ns[key].count
  }

  // ----- one bit changes -----

  function SetBit(n: Node, t: nat, off: nat, b: bool): Node
  {
    n.(tags := if b then n.tags + {(t, off)} else n.tags - {(t, off)})
  }

  ghost function Retag(c: Content, t: nat, i: nat, b: bool): Content
  {
    c.(tagged := if b then c.tagged + iset{(t, i)} else c.tagged - iset{(t, i)})
  }

  lemma LeafBitNode(ns: Nodes, c: Content, p: nat, off: nat, t: nat, b: bool, k: nat, q: nat)
    requires (0, p) in ns && off < 4
    requires NodeOk(ns, c, Fresh, k, q)
    ensures NodeOk(ns[(0, p) := SetBit(ns[(0, p)], t, off, b)], Retag(c, t, 4 * p + off, b), Stale(0, p, t), k, q)
  {
    var ns' := ns[(0, p) := SetBit(ns[(0, p)], t, off, b)];
    var c' := Retag(c, t, 4 * p + off, b);
    if (k, q) in ns {
      forall o: nat
        ensures k == 0 ==> LeafSlotOk(ns'[(k, q)], c'.m, c'.tagged, q, o)
        ensures k > 0 ==> SlotOk(ns', c.idr, Stale(0, p, t), ns'[(k, q)], k, q, o)
      {
        if k == 0 {
          assert LeafSlotOk(ns[(k, q)], c.m, c.tagged, q, o);
        } else {
          assert SlotOk(ns, c.idr, Fresh, ns[(k, q)], k, q, o);
        }
      }
    }
  }

  lemma LeafBit(ns: Nodes, c: Content, p: nat, off: nat, t: nat, b: bool)
    requires Forest(ns, c, Fresh) && (0, p) in ns && off < 4
    requires Linked(Retag(c, t, 4 * p + off, b))
    ensures Forest(ns[(0, p) := SetBit(ns[(0, p)], t, off, b)], Retag(c, t, 4 * p + off, b), Stale(0, p, t))
  {
    var ns' := ns[(0, p) := SetBit(ns[(0, p)], t, off, b)];
    var c' := Retag(c, t, 4 * p + off, b);
    hide NodeOk, Linked;
    forall k: nat, q: nat
      ensures NodeOk(ns', c', Stale(0, p, t), k, q)
    {
      assert NodeOk(ns, c, Fresh, k, q);
      LeafBitNode(ns, c, p, off, t, b, k, q);
    }
  }

  lemma InnerBitNode(ns: Nodes, c: Content, k: nat, p: nat, t: nat, b: bool, j: nat, q: nat)
    requires (k + 1, p / 4) in ns
    requires b == Summary(ns, c.idr, k, p, t)
    requires NodeOk(ns, c, Stale(k, p, t), j, q)
    ensures NodeOk(ns[(k + 1, p / 4) := SetBit(ns[(k + 1, p / 4)], t, p % 4, b)], c, Stale(k + 1, p / 4, t), j, q)
  {
    var ns' := ns[(k + 1, p / 4) := SetBit(ns[(k + 1, p / 4)], t, p % 4, b)];
    var x := Stale(k + 1, p / 4, t);
    if (j, q) in ns && j > 0 {
      forall o: nat
        ensures SlotOk(ns', c.idr, x, ns'[(j, q)], j, q, o)
      {
        assert SlotOk(ns, c.idr, Stale(k, p, t), ns[(j, q)], j, q, o);
      }
    }
  }

  lemma InnerBit(ns: Nodes, c: Content, k: nat, p: nat, t: nat, b: bool)
    requires Forest(ns, c, Stale(k, p, t)) && (k + 1, p / 4) in ns
    requires b == Summary(ns, c.idr, k, p, t)
    ensures Forest(ns[(k + 1, p / 4) := SetBit(ns[(k + 1, p / 4)], t, p % 4, b)], c, Stale(k + 1, p / 4, t))
  {
    var ns' := ns[(k + 1, p / 4) := SetBit(ns[(k + 1, p / 4)], t, p % 4, b)];
    var x := Stale(k + 1, p / 4, t);
    hide NodeOk, Linked;
    forall j: nat, q: nat
      ensures NodeOk(ns', c, x, j, q)
    {
      assert NodeOk(ns, c, Stale(k, p, t), j, q);
      InnerBitNode(ns, c, k, p, t, b, j, q);
    }
  }

  lemma NoLongerStale(ns: Nodes, c: Content, k: nat, p: nat, t: nat)
    requires Forest(ns, c, Stale(k, p, t))
    requires (k + 1, p / 4) in ns ==> ((t, p % 4) in ns[(k + 1, p / 4)].tags <==> Summary(ns, c.idr, k, p, t))
    ensures Forest(ns, c, Fresh)
  {
    forall j: nat, q: nat
      ensures NodeOk(ns, c, Fresh, j, q)
    {
      assert NodeOk(ns, c, Stale(k, p, t), j, q);
      if (j, q) in ns && j > 0 {
        forall o: nat
          ensures SlotOk(ns, c.idr, Fresh, ns[(j, q)], j, q, o)
        {
          assert SlotOk(ns, c.idr, Stale(k, p, t), ns[(j, q)], j, q, o);
        }
      }
    }
  }

  // ----- one item comes or goes -----

  function SetSlot(n: Node, off: nat, e: Entry, delta: int): Node
    requires off < |n.slots|
  {
    n.(slots := n.slots[off := e], count := n.count + delta)
  }

  lemma StoreNode(ns: Nodes, c: Content, p: nat, off: nat, m': map<nat, Entry>, delta: int, k: nat, q: nat)
    requires (0, p) in ns && off < 4 && |ns[(0, p)].slots| == 4
    requires NodeOk(ns, c, Fresh, k, q)
    requires forall i :: i != 4 * p + off ==> (i in m' <==> i in c.m) && (i in m' ==> m'[i] == c.m[i])
    requires delta == One(4 * p + off in m') - One(4 * p + off in c.m)
    ensures NodeOk(ns[(0, p) := SetSlot(ns[(0, p)], off, Stored(m', 4 * p + off), delta)], c.(m := m'), Fresh, k, q)
  {
    var ns' := ns[(0, p) := SetSlot(ns[(0, p)], off, Stored(m', 4 * p + off), delta)];
    var c' := c.(m := m');
    if (k, q) in ns {
      forall o: nat
        ensures k == 0 ==> LeafSlotOk(ns'[(k, q)], c'.m, c'.tagged, q, o)
        ensures k > 0 ==> SlotOk(ns', c.idr, Fresh, ns'[(k, q)], k, q, o)
      {
        if k == 0 {
          assert LeafSlotOk(ns[(k, q)], c.m, c.tagged, q, o);
        } else {
          assert SlotOk(ns, c.idr, Fresh, ns[(k, q)], k, q, o);
        }
      }
    }
  }

  lemma Store(ns: Nodes, c: Content, p: nat, off: nat, m': map<nat, Entry>, delta: int)
    requires Forest(ns, c, Fresh) && (0, p) in ns && off < 4 && |ns[(0, p)].slots| == 4
    requires Linked(c.(m := m'))
    requires forall i :: i != 4 * p + off ==> (i in m' <==> i in c.m) && (i in m' ==> m'[i] == c.m[i])
    requires delta == One(4 * p + off in m') - One(4 * p + off in c.m)
    ensures Forest(ns[(0, p) := SetSlot(ns[(0, p)], off, Stored(m', 4 * p + off), delta)], c.(m := m'), Fresh)
  {
    var ns' := ns[(0, p) := SetSlot(ns[(0, p)], off, Stored(m', 4 * p + off), delta)];
    var c' := c.(m := m');
    hide NodeOk, Linked;
    forall k: nat, q: nat
      ensures NodeOk(ns', c', Fresh, k, q)
    {
      assert NodeOk(ns, c, Fresh, k, q);
      StoreNode(ns, c, p, off, m', delta, k, q);
    }
  }

  // ----- a node comes or goes -----

  function Empty(idr: bool): Node
  {
    Node(0, [Null, Null, Null, Null], if idr then {(IDR_FREE, 0), (IDR_FREE, 1), (IDR_FREE, 2), (IDR_FREE, 3)} else {})
  }

  function WithChild(ns: Nodes, idr: bool, k: nat, p: nat): Nodes
    requires (k + 1, p / 4) in ns && p % 4 < |ns[(k + 1, p / 4)].slots|
  {
    ns[(k, p) := Empty(idr)][(k + 1, p / 4) := SetSlot(ns[(k + 1, p / 4)], p % 4, Child, 1)]
  }

  lemma EmptyOk(ns: Nodes, c: Content, k: nat, p: nat)
    requires Forest(ns, c, Fresh) && (k, p) !in ns && k < c.level
    requires (k + 1, p / 4) in ns && p % 4 < |ns[(k + 1, p / 4)].slots|
    ensures NodeOk(WithChild(ns, c.idr, k, p), c, Fresh, k, p)
  {
    var ns' := WithChild(ns, c.idr, k, p);
    var n := Empty(c.idr);
    forall o: nat
      ensures k == 0 ==> LeafSlotOk(n, c.m, c.tagged, p, o)
      ensures k > 0 ==> SlotOk(ns', c.idr, Fresh, n, k, p, o)
    {
      if o < 4 {
        assert (4 * p + o) / 4 == p;
        if k > 0 {
          assert NodeOk(ns, c, Fresh, k - 1, 4 * p + o);
        }
      }
    }
    assert 4 * p / 4 == (4 * p + 1) / 4 == (4 * p + 2) / 4 == (4 * p + 3) / 4 == p;
  }

  lemma Counted(s: seq<Entry>, off: nat, e: Entry)
    requires |s| == 4 && off < 4
    ensures Children(s[off := e]) == Children(s) - One(s[off].Child?) + One(e.Child?)
  {
  }

  lemma WithChildSlot(ns: Nodes, idr: bool, k: nat, p: nat, j: nat, q: nat, o: nat)
    requires (k, p) !in ns && (k + 1, p / 4) in ns && p % 4 < |ns[(k + 1, p / 4)].slots|
    requires (j, q) in ns && j > 0 && |ns[(j, q)].slots| == 4 && SlotOk(ns, idr, Fresh, ns[(j, q)], j, q, o)
    ensures SlotOk(WithChild(ns, idr, k, p), idr, Fresh, WithChild(ns, idr, k, p)[(j, q)], j, q, o)
  {
    if o < 4 {
      assert (4 * q + o) / 4 == q && (4 * q + o) % 4 == o;
    }
  }

  lemma WithChildNode(ns: Nodes, c: Content, k: nat, p: nat, j: nat, q: nat)
    requires (k, p) !in ns && (k + 1, p / 4) in ns && p % 4 < |ns[(k + 1, p / 4)].slots|
    requires NodeOk(ns, c, Fresh, j, q) && (j, q) != (k, p)
    ensures NodeOk(WithChild(ns, c.idr, k, p), c, Fresh, j, q)
  {
    var ns' := WithChild(ns, c.idr, k, p);
    if (j, q) in ns && j > 0 {
      forall o: nat
        ensures SlotOk(ns', c.idr, Fresh, ns'[(j, q)], j, q, o)
      {
        assert SlotOk(ns, c.idr, Fresh, ns[(j, q)], j, q, o);
        WithChildSlot(ns, c.idr, k, p, j, q, o);
      }
      if (j, q) == (k + 1, p / 4) {
        assert SlotOk(ns, c.idr, Fresh, ns[(j, q)], j, q, p % 4);
        Counted(ns[(j, q)].slots, p % 4, Child);
      }
    }
  }

  lemma AddChild(ns: Nodes, c: Content, k: nat, p: nat)
    requires Forest(ns, c, Fresh) && (k, p) !in ns && k < c.level
    requires (k + 1, p / 4) in ns && p % 4 < |ns[(k + 1, p / 4)].slots|
    ensures Forest(WithChild(ns, c.idr, k, p), c, Fresh)
  {
    var ns' := WithChild(ns, c.idr, k, p);
    EmptyOk(ns, c, k, p);
    hide NodeOk, Linked;
    forall j: nat, q: nat
      ensures NodeOk(ns', c, Fresh, j, q)
    {
      assert NodeOk(ns, c, Fresh, j, q);
      if (j, q) != (k, p) {
        WithChildNode(ns, c, k, p, j, q);
      }
    }
  }

  function WithoutChild(ns: Nodes, k: nat, p: nat): Nodes
    requires (k + 1, p / 4) in ns && p % 4 < |ns[(k + 1, p / 4)].slots|
  {
    ns[(k + 1, p / 4) := SetSlot(ns[(k + 1, p / 4)], p % 4, Null, -1)] - {(k, p)}
  }

  /** A node that counts no entry has nothing below it, and its tag bits say so. */
  lemma NothingBelow(ns: Nodes, c: Content, k: nat, p: nat)
    requires Forest(ns, c, Fresh) && (k, p) in ns && ns[(k, p)].count == 0
    ensures k == 0 ==> forall i :: i in c.m ==> i / 4 != p
    ensures k > 0 ==> forall q: nat :: q / 4 == p ==> (k - 1, q) !in ns
    ensures forall t: nat :: Any(ns[(k, p)], t) <==> Default(c.idr, t)
  {
    assert NodeOk(ns, c, Fresh, k, p);
    var n := ns[(k, p)];
    if k == 0 {
      assert LeafSlotOk(n, c.m, c.tagged, p, 0) && LeafSlotOk(n, c.m, c.tagged, p, 1)
        && LeafSlotOk(n, c.m, c.tagged, p, 2) && LeafSlotOk(n, c.m, c.tagged, p, 3);
      forall i | i in c.m
        ensures i / 4 != p
      {
        assert i == 4 * (i / 4) + i % 4;
      }
    } else {
      assert SlotOk(ns, c.idr, Fresh, n, k, p, 0) && SlotOk(ns, c.idr, Fresh, n, k, p, 1);
      assert SlotOk(ns, c.idr, Fresh, n, k, p, 2) && SlotOk(ns, c.idr, Fresh, n, k, p, 3);
      forall q: nat | q / 4 == p
        ensures (k - 1, q) !in ns
      {
        assert q == 4 * p + q % 4;
        assert SlotOk(ns, c.idr, Fresh, n, k, p, q % 4);
      }
    }
  }

  lemma WithoutChildSlot(ns: Nodes, idr: bool, k: nat, p: nat, j: nat, q: nat, o: nat)
    requires (k, p) in ns && (k + 1, p / 4) in ns && p % 4 < |ns[(k + 1, p / 4)].slots|
    requires forall t: nat :: Any(ns[(k, p)], t) <==> Default(idr, t)
    requires (j, q) in ns && (j, q) != (k, p) && j > 0 && |ns[(j, q)].slots| == 4
    requires SlotOk(ns, idr, Fresh, ns[(j, q)], j, q, o)
    ensures SlotOk(WithoutChild(ns, k, p), idr, Fresh, WithoutChild(ns, k, p)[(j, q)], j, q, o)
  {
    if o < 4 {
      assert (4 * q + o) / 4 == q && (4 * q + o) % 4 == o;
    }
  }

  lemma WithoutChildNode(ns: Nodes, c: Content, k: nat, p: nat, j: nat, q: nat)
    requires (k, p) in ns && (k + 1, p / 4) in ns && p % 4 < |ns[(k + 1, p / 4)].slots|
    requires forall t: nat :: Any(ns[(k, p)], t) <==> Default(c.idr, t)
    requires k > 0 ==> forall q: nat :: q / 4 == p ==> (k - 1, q) !in ns
    requires NodeOk(ns, c, Fresh, j, q)
    ensures NodeOk(WithoutChild(ns, k, p), c, Fresh, j, q)
  {
    var ns' := WithoutChild(ns, k, p);
    if (j, q) in ns' && j > 0 {
      forall o: nat
        ensures SlotOk(ns', c.idr, Fresh, ns'[(j, q)], j, q, o)
      {
        assert SlotOk(ns, c.idr, Fresh, ns[(j, q)], j, q, o);
        WithoutChildSlot(ns, c.idr, k, p, j, q, o);
      }
      if (j, q) == (k + 1, p / 4) {
        assert SlotOk(ns, c.idr, Fresh, ns[(j, q)], j, q, p % 4);
        Counted(ns[(j, q)].slots, p % 4, Null);
      }
    }
  }

  lemma DropChild(ns: Nodes, c: Content, k: nat, p: nat)
    requires Forest(ns, c, Fresh) && (k, p) in ns && ns[(k, p)].count == 0
    requires (k + 1, p / 4) in ns && p % 4 < |ns[(k + 1, p / 4)].slots|
    ensures Forest(WithoutChild(ns, k, p), c, Fresh)
  {
    var ns' := WithoutChild(ns, k, p);
    NothingBelow(ns, c, k, p);
    hide NodeOk, Linked;
    forall j: nat, q: nat
      ensures NodeOk(ns', c, Fresh, j, q)
    {
      assert NodeOk(ns, c, Fresh, j, q);
      WithoutChildNode(ns, c, k, p, j, q);
    }
  }

  // ----- the path from a node to the top -----

  lemma {:induction false} PathUp(ns: Nodes, c: Content, i: nat, j: nat, k: nat)
    requires Forest(ns, c, Fresh) && (j, Prefix(i, j + 1)) in ns && j <= k <= c.level
    ensures (k, Prefix(i, k + 1)) in ns
    decreases k - j
  {
    if j < k {
      assert NodeOk(ns, c, Fresh, j, Prefix(i, j + 1));
      PathUp(ns, c, i, j + 1, k);
    }
  }

  /** Every stored index has its whole path in the tree and fits under its top. */
  lemma StoredPath(ns: Nodes, c: Content, i: nat, k: nat)
    requires Forest(ns, c, Fresh) && i in c.m && k <= c.level
    ensures (k, Prefix(i, k + 1)) in ns && Prefix(i, c.level + 1) == 0
  {
    assert Prefix(i, 1) == i / 4;
    PathUp(ns, c, i, 0, k);
    PathUp(ns, c, i, 0, c.level);
    assert NodeOk(ns, c, Fresh, c.level, Prefix(i, c.level + 1));
  }

  /** Some index with prefix q at level k carries tag t. */
  ghost predicate TaggedBelow(c: Content, k: nat, q: nat, t: nat)
  {
    exists i: nat :: Prefix(i, k) == q && (t, i) in c.tagged
  }

  /** A tag bit is set exactly when some index below the slot carries the tag. */
  lemma {:induction false} BitMeans(ns: Nodes, c: Content, k: nat, p: nat, off: nat, t: nat)
    requires Forest(ns, c, Fresh) && (k, p) in ns && off < 4
    ensures (t, off) in ns[(k, p)].tags <==> TaggedBelow(c, k, 4 * p + off, t)
    decreases k, 0
  {
    assert NodeOk(ns, c, Fresh, k, p);
    var q := 4 * p + off;
    if k == 0 {
      assert LeafSlotOk(ns[(k, p)], c.m, c.tagged, p, off);
      assert Prefix(q, 0) == q;
    } else {
      assert SlotOk(ns, c.idr, Fresh, ns[(k, p)], k, p, off);
      hide TaggedBelow, NodeOk, Linked, Prefix;
      if (k - 1, q) in ns {
        ChildBitsMean(ns, c, k - 1, q, t);
      } else {
        AbsentMeans(ns, c, k - 1, q, t);
      }
    }
  }

  lemma {:induction false} ChildBitsMean(ns: Nodes, c: Content, k: nat, q: nat, t: nat)
    requires Forest(ns, c, Fresh) && (k, q) in ns
    ensures Any(ns[(k, q)], t) <==> TaggedBelow(c, k + 1, q, t)
    decreases k, 1
  {
    BitMeans(ns, c, k, q, 0, t);
    BitMeans(ns, c, k, q, 1, t);
    BitMeans(ns, c, k, q, 2, t);
    BitMeans(ns, c, k, q, 3, t);
    if i: nat :| Prefix(i, k + 1) == q && (t, i) in c.tagged {
      assert Prefix(i, k) == 4 * q + Prefix(i, k) % 4;
    }
  }

  lemma AbsentMeans(ns: Nodes, c: Content, k: nat, q: nat, t: nat)
    requires Forest(ns, c, Fresh) && (k, q) !in ns && k <= c.level
    ensures Default(c.idr, t) <==> TaggedBelow(c, k + 1, q, t)
  {
    forall i: nat | Prefix(i, k + 1) == q
      ensures i !in c.m
    {
      if i in c.m {
        StoredPath(ns, c, i, k);
      }
    }
    var i := First(q, k + 1);
    PrefixOfFirst(q, k + 1);
    assert c.idr ==> (IDR_FREE, i) in c.tagged;
  }

  lemma ParentBit(ns: Nodes, c: Content, x: Stale, k: nat, p: nat, t: nat)
    requires Forest(ns, c, x) && (k, p) in ns && k < c.level
    ensures (k + 1, p / 4) in ns
    ensures !Excused(x, k, p, t) ==> ((t, p % 4) in ns[(k + 1, p / 4)].tags <==> Any(ns[(k, p)], t))
  {
    assert NodeOk(ns, c, x, k, p);
    assert NodeOk(ns, c, x, k + 1, p / 4);
    assert SlotOk(ns, c.idr, x, ns[(k + 1, p / 4)], k + 1, p / 4, p % 4);
    assert 4 * (p / 4) + p % 4 == p;
  }

  lemma PathBit(ns: Nodes, c: Content, i: nat, k: nat, t: nat)
    requires Forest(ns, c, Fresh) && (k, Prefix(i, k + 1)) in ns
    ensures var bit := (t, Prefix(i, k) % 4) in ns[(k, Prefix(i, k + 1))].tags;
      if k == 0 then bit <==> (t, i) in c.tagged else bit <==> Summary(ns, c.idr, k - 1, Prefix(i, k), t)
  {
    var p, off := Prefix(i, k + 1), Prefix(i, k) % 4;
    assert NodeOk(ns, c, Fresh, k, p);
    assert Prefix(i, k) == 4 * p + off;
    if k == 0 {
      assert LeafSlotOk(ns[(k, p)], c.m, c.tagged, p, off);
    } else {
      assert SlotOk(ns, c.idr, Fresh, ns[(k, p)], k, p, off);
    }
  }

  // ----- a tag set on the way down -----

  lemma PathWeaker(ns: Nodes, c: Content, i: nat, t: nat)
    requires Forest(ns, c, Fresh)
    ensures Forest(ns, c, Path(i, t))
  {
    var x := Path(i, t);
    forall k: nat, p: nat
      ensures NodeOk(ns, c, x, k, p)
    {
      assert NodeOk(ns, c, Fresh, k, p);
      if (k, p) in ns && k > 0 {
        forall o: nat
          ensures SlotOk(ns, c.idr, x, ns[(k, p)], k, p, o)
        {
          assert SlotOk(ns, c.idr, Fresh, ns[(k, p)], k, p, o);
        }
      }
    }
  }

  function PathTo(ns: Nodes, i: nat, k: nat, t: nat): Nodes
    requires (k, Prefix(i, k + 1)) in ns
  {
    ns[(k, Prefix(i, k + 1)) := SetBit(ns[(k, Prefix(i, k + 1))], t, Prefix(i, k) % 4, true)]
  }

  ghost function PathContent(c: Content, i: nat, k: nat, t: nat): Content
  {
    if k == 0 then Retag(c, t, i, true) else c
  }

  lemma PathSetNode(ns: Nodes, c: Content, i: nat, k: nat, t: nat, j: nat, q: nat)
    requires (k, Prefix(i, k + 1)) in ns && NodeOk(ns, c, Path(i, t), j, q)
    ensures NodeOk(PathTo(ns, i, k, t), PathContent(c, i, k, t), Path(i, t), j, q)
  {
    var ns', c', x := PathTo(ns, i, k, t), PathContent(c, i, k, t), Path(i, t);
    assert Prefix(i, 1) == i / 4;
    assert Prefix(i, k) == 4 * Prefix(i, k + 1) + Prefix(i, k) % 4;
    if (j, q) in ns {
      forall o: nat
        ensures j == 0 ==> LeafSlotOk(ns'[(j, q)], c'.m, c'.tagged, q, o)
        ensures j > 0 ==> SlotOk(ns', c.idr, x, ns'[(j, q)], j, q, o)
      {
        if j == 0 {
          assert LeafSlotOk(ns[(j, q)], c.m, c.tagged, q, o);
        } else {
          assert SlotOk(ns, c.idr, x, ns[(j, q)], j, q, o);
        }
      }
    }
  }

  lemma PathSet(ns: Nodes, c: Content, i: nat, k: nat, t: nat)
    requires Forest(ns, c, Path(i, t)) && (k, Prefix(i, k + 1)) in ns && Linked(PathContent(c, i, k, t))
    ensures Forest(PathTo(ns, i, k, t), PathContent(c, i, k, t), Path(i, t))
  {
    var ns', c', x := PathTo(ns, i, k, t), PathContent(c, i, k, t), Path(i, t);
    hide NodeOk, Linked;
    forall j: nat, q: nat
      ensures NodeOk(ns', c', x, j, q)
    {
      assert NodeOk(ns, c, x, j, q);
      PathSetNode(ns, c, i, k, t, j, q);
    }
  }

  ghost predicate PathIsSet(ns: Nodes, i: nat, t: nat, k: nat)
  {
    (k, Prefix(i, k + 1)) in ns && (t, Prefix(i, k) % 4) in ns[(k, Prefix(i, k + 1))].tags
  }

  lemma PathDone(ns: Nodes, c: Content, i: nat, t: nat)
    requires Forest(ns, c, Path(i, t)) && forall k: nat :: k <= c.level ==> PathIsSet(ns, i, t, k)
    ensures Forest(ns, c, Fresh)
  {
    var x := Path(i, t);
    forall k: nat, p: nat
      ensures NodeOk(ns, c, Fresh, k, p)
    {
      assert NodeOk(ns, c, x, k, p);
      if (k, p) in ns && k > 0 {
        assert PathIsSet(ns, i, t, k) && PathIsSet(ns, i, t, k - 1);
        forall o: nat
          ensures SlotOk(ns, c.idr, Fresh, ns[(k, p)], k, p, o)
        {
          assert SlotOk(ns, c.idr, x, ns[(k, p)], k, p, o);
          assert o < 4 ==> (4 * p + o) / 4 == p && (4 * p + o) % 4 == o;
        }
      }
    }
  }

  // ----- the root -----

  ghost predicate Rooted(ns: Nodes, head: Head, root: set<nat>, c: Content, x: Stale)
  {
    match head
    case Nil => Linked(c) && ns == map[] && c.m == map[] && forall t: nat :: t in root <==> Default(c.idr, t)
    case Direct(item) =>
      && Linked(c) && !c.idr && ns == map[] && item.Item? && c.m == map[0 := item]
      && forall t: nat :: t in root <==> (t, 0) in c.tagged
    case Top(level) =>
      && Forest(ns, c, x) && c.level == level && (level, 0) in ns
      && forall t: nat :: !Excused(x, level, 0, t) ==> (t in root <==> Any(ns[(level, 0)], t))
  }

  /** The node radix_tree_extend puts above the current root entry. */
  function Above(idr: bool, root: set<nat>, entry: Entry): Node
  {
    var tags := if idr
      then {(IDR_FREE, 1), (IDR_FREE, 2), (IDR_FREE, 3)} + (if IDR_FREE in root then {(IDR_FREE, 0)} else {})
      else set t | t in root :: (t, 0);
    Node(1, [entry, Null, Null, Null], tags)
  }

  lemma GrowOnTop(ns: Nodes, l: nat, root: set<nat>, c: Content)
    requires Rooted(ns, Top(l), root, c, Fresh)
    ensures (l + 1, 0) !in ns
    ensures Rooted(ns[(l + 1, 0) := Above(c.idr, root, Child)], Top(l + 1), if c.idr then root + {IDR_FREE} else root,
                   c.(level := l + 1), Fresh)
  {
    var n := Above(c.idr, root, Child);
    var ns' := ns[(l + 1, 0) := n];
    var c' := c.(level := l + 1);
    assert NodeOk(ns, c, Fresh, l + 1, 0);
    forall t: nat | c.idr && t != IDR_FREE
      ensures t !in root
    {
      ChildBitsMean(ns, c, l, 0, t);
    }
    forall j: nat, q: nat
      ensures NodeOk(ns', c', Fresh, j, q)
    {
      GrownNode(ns, l, root, c, j, q);
    }
  }

  lemma GrownNode(ns: Nodes, l: nat, root: set<nat>, c: Content, j: nat, q: nat)
    requires Rooted(ns, Top(l), root, c, Fresh)
    requires c.idr ==> root <= {IDR_FREE}
    ensures NodeOk(ns[(l + 1, 0) := Above(c.idr, root, Child)], c.(level := l + 1), Fresh, j, q)
  {
    var n := Above(c.idr, root, Child);
    var ns' := ns[(l + 1, 0) := n];
    var c' := c.(level := l + 1);
    assert NodeOk(ns, c, Fresh, j, q);
    if (j, q) == (l + 1, 0) {
      forall o: nat
        ensures SlotOk(ns', c.idr, Fresh, n, j, q, o)
      {
        assert NodeOk(ns, c, Fresh, l, o);
      }
    } else if (j, q) in ns && j > 0 {
      forall o: nat
        ensures SlotOk(ns', c.idr, Fresh, ns[(j, q)], j, q, o)
      {
        assert SlotOk(ns, c.idr, Fresh, ns[(j, q)], j, q, o);
      }
    }
  }

  lemma GrowOnDirect(item: Entry, root: set<nat>, c: Content)
    requires Rooted(map[], Direct(item), root, c, Fresh)
    ensures Rooted(map[(0, 0) := Above(false, root, item)], Top(0), root, c.(level := 0), Fresh)
  {
    var n := Above(false, root, item);
    var ns' := map[(0, 0) := n];
    var c' := c.(level := 0);
    forall j: nat, q: nat
      ensures NodeOk(ns', c', Fresh, j, q)
    {
      if (j, q) == (0, 0) {
        forall o: nat
          ensures LeafSlotOk(n, c'.m, c'.tagged, 0, o)
        {
        }
      }
    }
  }

  lemma PlantTop(l: nat, root: set<nat>, c: Content)
    requires Rooted(map[], Nil, root, c, Fresh)
    ensures Rooted(map[(l, 0) := Empty(c.idr)], Top(l), root, c.(level := l), Fresh)
  {
    var n := Empty(c.idr);
    var ns' := map[(l, 0) := n];
    var c' := c.(level := l);
    forall j: nat, q: nat
      ensures NodeOk(ns', c', Fresh, j, q)
    {
      if (j, q) == (l, 0) {
        forall o: nat
          ensures l == 0 ==> LeafSlotOk(n, c'.m, c'.tagged, 0, o)
          ensures l > 0 ==> SlotOk(ns', c.idr, Fresh, n, l, 0, o)
        {
        }
      }
    }
  }

  /** Taking away a top that counts only its first child. */
  lemma ShrinkTop(ns: Nodes, l: nat, root: set<nat>, c: Content)
    requires Rooted(ns, Top(l), root, c, Fresh) && l > 0
    requires ns[(l, 0)].count == 1 && |ns[(l, 0)].slots| == 4 && ns[(l, 0)].slots[0].Child?
    ensures Rooted(ns - {(l, 0)}, Top(l - 1), if c.idr
      && (IDR_FREE, 0) !in ns[(l, 0)].tags then root - {IDR_FREE} else root,
                   c.(level := l - 1), Fresh)
  {
    var ns' := ns - {(l, 0)};
    var c' := c.(level := l - 1);
    var n := ns[(l, 0)];
    assert NodeOk(ns, c, Fresh, l, 0);
    assert SlotOk(ns, c.idr, Fresh, n, l, 0, 0) && SlotOk(ns, c.idr, Fresh, n, l, 0, 1);
    assert SlotOk(ns, c.idr, Fresh, n, l, 0, 2) && SlotOk(ns, c.idr, Fresh, n, l, 0, 3);
    forall j: nat, q: nat
      ensures NodeOk(ns', c', Fresh, j, q)
    {
      ShrunkNode(ns, l, c, j, q);
    }
  }

  lemma ShrunkNode(ns: Nodes, l: nat, c: Content, j: nat, q: nat)
    requires NodeOk(ns, c, Fresh, j, q) && NodeOk(ns, c, Fresh, j + 1, q / 4) && c.level == l > 0 && (l, 0) in ns
    requires (l - 1, 1) !in ns && (l - 1, 2) !in ns && (l - 1, 3) !in ns
    ensures NodeOk(ns - {(l, 0)}, c.(level := l - 1), Fresh, j, q)
  {
    var ns' := ns - {(l, 0)};
    if (j, q) in ns' && j > 0 {
      forall o: nat
        ensures SlotOk(ns', c.idr, Fresh, ns[(j, q)], j, q, o)
      {
        assert SlotOk(ns, c.idr, Fresh, ns[(j, q)], j, q, o);
      }
    }
  }

  /** A top leaf holding only index 0 hands its item to the root. */
  lemma ShrinkToDirect(ns: Nodes, root: set<nat>, c: Content)
    requires Rooted(ns, Top(0), root, c, Fresh) && !c.idr
    requires ns[(0, 0)].count == 1 && |ns[(0, 0)].slots| == 4 && !ns[(0, 0)].slots[0].Null?
    ensures Rooted(map[], Direct(ns[(0, 0)].slots[0]), root, c.(level := -1), Fresh)
    ensures ns - {(0, 0)} == map[]
  {
    var n := ns[(0, 0)];
    assert NodeOk(ns, c, Fresh, 0, 0);
    assert LeafSlotOk(n, c.m, c.tagged, 0, 0) && LeafSlotOk(n, c.m, c.tagged, 0, 1)
      && LeafSlotOk(n, c.m, c.tagged, 0, 2) && LeafSlotOk(n, c.m, c.tagged, 0, 3);
    forall i | i in c.m
      ensures i == 0
    {
      assert NodeOk(ns, c, Fresh, 0, i / 4);
      assert i == i % 4;
    }
    forall key | key in ns
      ensures key == (0, 0)
    {
      assert NodeOk(ns, c, Fresh, key.0, key.1);
    }
  }

  lemma UnderTop(ns: Nodes, c: Content, k: nat, p: nat) returns (q: nat)
    requires Forest(ns, c, Fresh) && (k, p) in ns && k < c.level
    ensures (c.level - 1, q) in ns && q / 4 == 0
  {
    var i := First(p, k + 1);
    PrefixOfFirst(p, k + 1);
    PathUp(ns, c, i, k, c.level - 1);
    PathUp(ns, c, i, k, c.level);
    assert NodeOk(ns, c, Fresh, c.level, Prefix(i, c.level + 1));
    q := Prefix(i, c.level);
  }

  /** An empty top is the whole tree. */
  lemma DropTop(ns: Nodes, l: nat, root: set<nat>, c: Content)
    requires Rooted(ns, Top(l), root, c, Fresh) && ns[(l, 0)].count == 0
    ensures ns - {(l, 0)} == map[] && c.m == map[]
    ensures Linked(c) && forall t: nat :: t in root <==> Default(c.idr, t)
  {
    NothingBelow(ns, c, l, 0);
    forall key | key in ns
      ensures key == (l, 0)
    {
      var (k, p) := key;
      assert NodeOk(ns, c, Fresh, k, p);
      if k < l {
        var _ := UnderTop(ns, c, k, p);
        assert false;
      }
    }
    assert forall i :: i !in c.m;
  }

  lemma RootedWithChild(ns: Nodes, l: nat, root: set<nat>, c: Content, k: nat, p: nat)
    requires Rooted(ns, Top(l), root, c, Fresh) && (k, p) !in ns && k < l && (k + 1, p / 4) in ns
    ensures p % 4 < |ns[(k + 1, p / 4)].slots|
    ensures Rooted(WithChild(ns, c.idr, k, p), Top(l), root, c, Fresh)
    ensures |WithChild(ns, c.idr, k, p)| == |ns| + 1
  {
    assert NodeOk(ns, c, Fresh, k + 1, p / 4);
    AddChild(ns, c, k, p);
    assert |ns[(k, p) := Empty(c.idr)]| == |ns| + 1;
  }

  lemma RootedStore(ns: Nodes, l: nat, root: set<nat>, c: Content, i: nat, m': map<nat, Entry>, delta: int)
    requires Rooted(ns, Top(l), root, c, Fresh) && (0, i / 4) in ns && Linked(c.(m := m'))
    requires forall j :: j != i ==> (j in m' <==> j in c.m) && (j in m' ==> m'[j] == c.m[j])
    requires delta == One(i in m') - One(i in c.m)
    ensures |ns[(0, i / 4)].slots| == 4
    ensures Rooted(ns[(0, i / 4) := SetSlot(ns[(0, i / 4)], i % 4, Stored(m', i), delta)], Top(l), root, c.(m := m'),
      Fresh)
  {
    assert NodeOk(ns, c, Fresh, 0, i / 4);
    assert i == 4 * (i / 4) + i % 4;
    Store(ns, c, i / 4, i % 4, m', delta);
    assert forall t: nat :: Any(SetSlot(ns[(0, i / 4)], i % 4, Stored(m', i), delta), t) == Any(ns[(0, i / 4)], t);
  }

  /** The bit of a leaf changes; the parent of the leaf, or the root, may now be behind. */
  lemma RootedLeafBit(ns: Nodes, l: nat, root: set<nat>, c: Content, i: nat, t: nat, b: bool)
    requires Rooted(ns, Top(l), root, c, Fresh) && (0, i / 4) in ns && Fact(Linked(Retag(c, t, i, b)))
    ensures Rooted(ns[(0, i / 4) := SetBit(ns[(0, i / 4)], t, i % 4, b)], Top(l), root, Retag(c, t, i, b),
      Stale(0, i / 4, t))
    ensures (t, i % 4) in ns[(0, i / 4)].tags <==> (t, i) in c.tagged
  {
    assert i == 4 * (i / 4) + i % 4;
    LeafBit(ns, c, i / 4, i % 4, t, b);
    assert NodeOk(ns, c, Fresh, 0, i / 4);
    assert LeafSlotOk(ns[(0, i / 4)], c.m, c.tagged, i / 4, i % 4);
  }

  /** The parent's bit catches up with node (k, p); now its own parent, or the root, may be behind. */
  lemma RootedInnerBit(ns: Nodes, l: nat, root: set<nat>, c: Content, k: nat, p: nat, t: nat, b: bool)
    requires Rooted(ns, Top(l), root, c, Stale(k, p, t)) && (k, p) in ns && k < l && b == Any(ns[(k, p)], t)
    ensures (k + 1, p / 4) in ns
    ensures Rooted(ns[(k + 1, p / 4) := SetBit(ns[(k + 1, p / 4)], t, p % 4, b)], Top(l), root, c,
      Stale(k + 1, p / 4, t))
  {
    ParentBit(ns, c, Stale(k, p, t), k, p, t);
    InnerBit(ns, c, k, p, t, b);
    assert NodeOk(ns, c, Stale(k, p, t), k + 1, p / 4);
  }

  /** What the parent of node (k, p), or the root, holds for tag t. */
  predicate Upper(ns: Nodes, l: nat, root: set<nat>, k: nat, p: nat, t: nat)
    requires k < l ==> (k + 1, p / 4) in ns
  {
    if k < l then (t, p % 4) in ns[(k + 1, p / 4)].tags else t in root
  }

  lemma RootedFresh(ns: Nodes, l: nat, root: set<nat>, c: Content, k: nat, p: nat, t: nat)
    requires Rooted(ns, Top(l), root, c, Stale(k, p, t)) && (k, p) in ns && (k < l ==> (k + 1, p / 4) in ns)
    requires Upper(ns, l, root, k, p, t) == Any(ns[(k, p)], t)
    ensures Rooted(ns, Top(l), root, c, Fresh)
  {
    assert NodeOk(ns, c, Stale(k, p, t), k, p);
    if (k + 1, p / 4) in ns {
      assert NodeOk(ns, c, Stale(k, p, t), k + 1, p / 4);
    }
    NoLongerStale(ns, c, k, p, t);
  }

  lemma FlipKeeps(ns: Nodes, l: nat, root: set<nat>, i: nat, t: nat, b: bool)
    requires (0, i / 4) in ns && (0 < l ==> (1, i / 4 / 4) in ns)
    ensures var ns' := ns[(0, i / 4) := SetBit(ns[(0, i / 4)], t, i % 4, b)];
      && SameShape(ns, ns') && (b ==> Any(ns'[(0, i / 4)], t))
      && (0 < l ==> (1, i / 4 / 4) in ns') && Upper(ns', l, root, 0, i / 4, t) == Upper(ns, l, root, 0, i / 4, t)
  {
  }

  lemma UpperAgrees(ns: Nodes, l: nat, root: set<nat>, c: Content, x: Stale, k: nat, p: nat, t: nat)
    requires Rooted(ns, Top(l), root, c, x) && (k, p) in ns && !Excused(x, k, p, t)
    ensures k < l ==> (k + 1, p / 4) in ns
    ensures k <= l && (k == l ==> p == 0) && Upper(ns, l, root, k, p, t) == Any(ns[(k, p)], t)
  {
    assert NodeOk(ns, c, x, k, p);
    if k < l {
      ParentBit(ns, c, x, k, p, t);
    }
  }

  lemma RootFresh(ns: Nodes, l: nat, root: set<nat>, root': set<nat>, c: Content, t: nat)
    requires Rooted(ns, Top(l), root, c, Stale(l, 0, t))
    requires forall u :: u != t ==> (u in root' <==> u in root)
    requires t in root' <==> Any(ns[(l, 0)], t)
    ensures Rooted(ns, Top(l), root', c, Fresh)
  {
    assert NodeOk(ns, c, Stale(l, 0, t), l + 1, 0);
    NoLongerStale(ns, c, l, 0, t);
  }

  /** delete_node on a node that still has a parent */
  lemma RootedWithoutChild(ns: Nodes, l: nat, root: set<nat>, c: Content, k: nat, p: nat)
    requires Rooted(ns, Top(l), root, c, Fresh) && (k, p) in ns && k < l && ns[(k, p)].count == 0
    ensures (k + 1, p / 4) in ns && p % 4 < |ns[(k + 1, p / 4)].slots|
    ensures Rooted(WithoutChild(ns, k, p), Top(l), root, c, Fresh)
    ensures |WithoutChild(ns, k, p)| == |ns| - 1 && (k + 1, p / 4) in WithoutChild(ns, k, p)
  {
    assert NodeOk(ns, c, Fresh, k, p);
    assert NodeOk(ns, c, Fresh, k + 1, p / 4);
    DropChild(ns, c, k, p);
    var ns1 := ns[(k + 1, p / 4) := SetSlot(ns[(k + 1, p / 4)], p % 4, Null, -1)];
    assert ns1.Keys == ns.Keys && (ns1 - {(k, p)}).Keys == ns.Keys - {(k, p)};
    assert |ns.Keys - {(k, p)}| == |ns.Keys| - 1;
  }

  lemma RootedLinked(ns: Nodes, head: Head, root: set<nat>, c: Content, x: Stale)
    requires Rooted(ns, head, root, c, x)
    ensures Linked(c)
  {
  }

  lemma RetagLinked(c: Content, t: nat, i: nat, b: bool)
    requires Linked(c) && if c.idr then b && t == IDR_FREE else !b
    ensures Fact(Linked(Retag(c, t, i, b)))
  {
  }

  lemma DropLinked(c: Content, i: nat)
    requires Linked(c) && if c.idr then (IDR_FREE, i) in c.tagged else forall t: nat :: (t, i) !in c.tagged
    ensures Linked(c.(m := c.m - {i}))
  {
  }

  ghost predicate SameRoot(ns: Nodes, l: nat, root: set<nat>, t: nat)
  {
    (l, 0) in ns && forall u: nat :: u != t ==> (u in root <==> Any(ns[(l, 0)], u))
  }

  lemma PathToKeeps(before: Nodes, ns: Nodes, l: nat, root: set<nat>, i: nat, k: nat, t: nat)
    requires SameShape(before, ns) && (k, Prefix(i, k + 1)) in ns && SameRoot(ns, l, root, t)
    ensures SameShape(before, PathTo(ns, i, k, t)) && SameRoot(PathTo(ns, i, k, t), l, root, t)
    ensures PathIsSet(PathTo(ns, i, k, t), i, t, k)
    ensures forall j :: j != k && PathIsSet(ns, i, t, j) ==> PathIsSet(PathTo(ns, i, k, t), i, t, j)
  {
  }

  lemma PathDoneRooted(ns: Nodes, l: nat, root: set<nat>, c: Content, i: nat, t: nat)
    requires Fact(Forest(ns, c, Path(i, t))) && c.level == l && SameRoot(ns, l, root, t) && Prefix(i, l + 1) == 0
    requires forall j :: 0 <= j <= l ==> PathIsSet(ns, i, t, j)
    ensures Rooted(ns, Top(l), root + {t}, c, Fresh)
  {
    PathDone(ns, c, i, t);
    assert PathIsSet(ns, i, t, l);
  }

  lemma RetagStored(c: Content, t: nat, i: nat)
    requires Linked(c) && !c.idr && i in c.m
    ensures Linked(Retag(c, t, i, true))
  {
  }

  // ----- the search for an unused index -----

  /** radix_tree_find_next_bit */
  function NextBit(n: Node, t: nat, off: nat): (o: nat)
    requires off <= 4
    ensures off <= o <= 4 && (o < 4 ==> (t, o) in n.tags)
    ensures forall j: nat :: off <= j < o ==> (t, j) !in n.tags
    decreases 4 - off
  {
    if off == 4 || (t, off) in n.tags then off else NextBit(n, t, off + 1)
  }

  lemma {:induction false} PrefixMonotone(i: nat, j: nat, k: nat)
    requires i <= j
    ensures Prefix(i, k) <= Prefix(j, k)
    decreases k
  {
    if k > 0 {
      PrefixMonotone(i, j, k - 1);
    }
  }

  /** Slots whose free bit is clear have only used indices below them. */
  lemma Skipped(ns: Nodes, c: Content, start: nat, k: nat, o: nat, j: nat)
    requires Forest(ns, c, Fresh) && (k, Prefix(start, k + 1)) in ns && c.idr && o <= 4
    requires forall i: nat :: (IDR_FREE, i) in c.tagged <==> i !in c.m
    requires forall u: nat :: Prefix(start, k) % 4 <= u < o ==> (IDR_FREE, u) !in ns[(k, Prefix(start, k + 1))].tags
    requires start <= j < First(4 * Prefix(start, k + 1) + o, k)
    ensures j in c.m
  {
    var p := Prefix(start, k + 1);
    PrefixMonotone(start, j, k);
    PrefixAtLeast(j, 4 * p + o, k);
    assert Prefix(start, k) == 4 * p + Prefix(start, k) % 4;
    BitMeans(ns, c, k, p, Prefix(j, k) - 4 * p, IDR_FREE);
  }

  lemma TreeIsFull(ns: Nodes, l: nat, root: set<nat>, c: Content, j: nat)
    requires Rooted(ns, Top(l), root, c, Fresh) && c.idr && IDR_FREE !in root
    requires forall i: nat :: (IDR_FREE, i) in c.tagged <==> i !in c.m
    requires j < First(1, l + 1)
    ensures j in c.m
  {
    ChildBitsMean(ns, c, l, 0, IDR_FREE);
    PrefixAtLeast(j, 1, l + 1);
  }

  datatype Probe = Hit(i: nat) | Past(next: nat) | Full | Starved

  /** The search from start up to max does not go past index b. */
  ghost predicate Ceiling(m: map<nat, Entry>, start: nat, max: nat, b: nat)
  {
    b >= max || (b >= start && b !in m)
  }

  ghost predicate AllUsed(m: map<nat, Entry>, from: nat, to: nat)
  {
    forall j: nat :: from <= j < to ==> j in m
  }

  /** The height that index i needs when it is stored: index 0 alone goes into the root itself, but not in an IDR. */
  function Needs(idr: bool, i: nat): nat
  {
    if i == 0 && !idr then 0 else LevelsOf(i)
  }

  ghost predicate SnugAt(idr: bool, m: map<nat, Entry>, h: nat)
  {
    if m == map[] then h == 0 else exists i :: i in m && Needs(idr, i) == h
  }

  function Higher(a: nat, b: nat): nat
  {
    if a < b then b else a
  }

  lemma SnugStored(idr: bool, m: map<nat, Entry>, h: nat, i: nat, e: Entry)
    requires SnugAt(idr, m, h)
    ensures SnugAt(idr, m[i := e], Higher(h, Needs(idr, i)))
  {
    var m' := m[i := e];
    assert i in m';
    if m != map[] && h >= Needs(idr, i) {
      var j :| j in m && Needs(idr, j) == h;
      assert j in m';
    }
  }
}
