/** The radix tree of lib/radix-tree.c and what lib/idr.c needs of it, updated in place. */
module RadixTree {
  import opened Base
  import opened RadixNodes

  /** Where a walk ended: past the tree, at the root's own slot, or at a slot of node (k, p). */
  datatype Place = Nowhere | AtRoot | Slot(k: nat, p: nat, off: nat)

  datatype Outcome = Done | Exists | NoMemory

  /** In an ID allocator the tag IDR_FREE marks the indices not in use, and there are MAX_TAGS tags. */
  ghost predicate TagsRight(idr: bool, m: map<nat, Entry>, tagged: iset<(nat, nat)>)
  {
    && (idr ==> forall i: nat :: (IDR_FREE, i) in tagged <==> i !in m)
    && forall t, i :: (t, i) in tagged ==> t < MAX_TAGS
  }

  lemma TagsTaken(m: map<nat, Entry>, tagged: iset<(nat, nat)>, i: nat, e: Entry)
    requires TagsRight(true, m, tagged)
    ensures TagsRight(true, m[i := e], tagged - iset{(IDR_FREE, i)})
  {
  }

  /** The tags after index i is deleted: it is free in an ID allocator, and otherwise loses its tags. */
  ghost function Released(idr: bool, tagged: iset<(nat, nat)>, i: nat): iset<(nat, nat)>
  {
    if idr then tagged + iset{(IDR_FREE, i)} else tagged - iset{(0, i), (1, i), (2, i)}
  }

  lemma TagsDropped(idr: bool, m: map<nat, Entry>, tagged: iset<(nat, nat)>, i: nat)
    requires TagsRight(idr, m, tagged)
    ensures TagsRight(idr, m - {i}, Released(idr, tagged, i))
    ensures forall t, j :: j != i ==> ((t, j) in Released(idr, tagged, i) <==> (t, j) in tagged)
    ensures idr ==> (IDR_FREE, i) in Released(idr, tagged, i)
    ensures !idr ==> forall t: nat :: (t, i) !in Released(idr, tagged, i)
  {
  }

  class Tree {
    const idr: bool
    /** Nodes the slab allocator can still hand out. */
    var spare: nat
    var head: Head
    var nodes: Nodes
    var root: set<nat>

    ghost var m: map<nat, Entry>
    ghost var tagged: iset<(nat, nat)>
    ghost const capacity: nat

    ghost function View(): Content
      reads this
    {
      Content(idr, if head.Top? then head.level else -1, m, tagged)
    }

    ghost predicate Ok(x: Stale)
      reads this
    {
      Fact(Rooted(nodes, head, root, View(), x)) && spare + |nodes| == capacity && Height() <= MAX_PATH
    }

    /** In an ID allocator an index is tagged free exactly when it is not stored. */
    ghost predicate Valid()
      reads this
    {
      && Ok(Fresh)
      && TagsRight(idr, m, tagged)
    }

    constructor (idr: bool, spare: nat)
      ensures Valid() && m == map[] && this.idr == idr && capacity == this.spare == spare && Height() == 0
      ensures Lean()
    {
      this.idr := idr;
      this.spare := spare;
      head := Nil;
      nodes := map[];
      root := if idr then {IDR_FREE} else {};
      m := map[];
      tagged := if idr then (iset i: nat | true :: (IDR_FREE, i)) else iset{};
      capacity := spare;
    }

    function Height(): nat
      reads this
    {
      if head.Top? then head.level + 1 else 0
    }

    /** The height the tree has or needs for index i. */
    function Reach(i: nat): nat
      reads this
    {
      if Height() > LevelsOf(i) then Height() else LevelsOf(i)
    }

    /**
     * Memory for index i whatever the tree looks like: with the nodes it has for its height, two
     * branches of full height that share the root node.
     */
    predicate Enough(i: nat)
      reads this
    {
      spare + Height() + 1 >= 2 * Reach(i)
    }

    /** The tree is as high as one of the indices stored needs. */
    ghost predicate Snug()
      reads this
    {
      SnugAt(idr, m, Height())
    }

    /** There is no node and no level too many. */
    ghost predicate Lean()
      reads this
    {
      Tidy(nodes, None) && Snug()
    }

    /** A lean tree has the least height that holds all that is stored. */
    lemma LeastHeight()
      requires Valid() && Lean()
      ensures forall i :: i in m ==> Needs(idr, i) <= Height()
      ensures if m == map[] then Height() == 0 else exists i :: i in m && Needs(idr, i) == Height()
    {
      forall i | i in m
        ensures Needs(idr, i) <= Height()
      {
        StoredFits(i);
      }
    }

    lemma StoredFits(i: nat)
      requires Ok(Fresh) && i in m
      ensures Needs(idr, i) <= Height() && !TooHigh(i)
    {
      if head.Top? {
        StoredPath(nodes, View(), i, head.level);
        assert NodeOk(nodes, View(), Fresh, head.level, Prefix(i, head.level + 1));
        LevelsEnough(i, head.level + 1);
      }
    }

    /** The test of radix_tree_shrink, in a tree without empty nodes, tells whether the height is the least. */
    lemma ShrunkIsSnug()
      requires Ok(Fresh) && Tidy(nodes, None)
      ensures Shrunk() <==> Snug()
    {
      if head.Top? {
        var some := SomethingBelow(nodes, View(), head.level, 0);
        if head.level == 0 {
          ShrunkLeaf();
        } else {
          if Shrunk() {
            ShrunkThenSnug();
          }
          if Snug() {
            var i :| i in m && Needs(idr, i) == Height();
            SnugThenShrunk(i);
          }
        }
      }
    }

    lemma ShrunkLeaf()
      requires Ok(Fresh) && Tidy(nodes, None) && head == Top(0) && m != map[]
      ensures Shrunk() <==> Snug()
    {
      var n := nodes[(0, 0)];
      assert NodeOk(nodes, View(), Fresh, 0, 0) && n.count > 0;
      assert LeafSlotOk(n, m, tagged, 0, 0);
      forall i | i in m
        ensures i < 4
      {
        StoredFits(i);
      }
      assert forall i :: i in m ==> Needs(idr, i) == if i == 0 && !idr then 0 else 1;
      hide Prefix;
    }

    /** Something is stored outside the first quarter of the tree. */
    lemma ShrunkThenSnug()
      requires Ok(Fresh) && Tidy(nodes, None) && head.Top? && head.level > 0 && Shrunk()
      ensures Snug()
    {
      var l := head.level;
      var off := HighChild(nodes, View(), l);
      var i := SomethingBelow(nodes, View(), l - 1, off);
      StoredFits(i);
      hide Rooted, Tidy;
      LevelsFit(i, i, l + 1);
    }

    lemma SnugThenShrunk(i: nat)
      requires Ok(Fresh) && head.Top? && head.level > 0 && i in m && Needs(idr, i) == Height()
      ensures Shrunk()
    {
      var l := head.level;
      var n := nodes[(l, 0)];
      assert NodeOk(nodes, View(), Fresh, l, 0);
      if Prefix(i, l) == 0 {
        LevelsEnough(i, l);
      }
      StoredPath(nodes, View(), i, l - 1);
      StoredPath(nodes, View(), i, l);
      assert NodeOk(nodes, View(), Fresh, l, Prefix(i, l + 1));
      assert Prefix(i, l) < 4;
      assert SlotOk(nodes, idr, Fresh, n, l, 0, Prefix(i, l));
      assert SlotOk(nodes, idr, Fresh, n, l, 0, 0);
    }

    /** Once everything is deleted, all memory is back where it came from. */
    lemma EmptyHoldsNothing()
      requires Valid() && Tidy(nodes, None) && m == map[]
      ensures nodes == map[] && spare == capacity
    {
      forall key | key in nodes
        ensures false
      {
        var _ := SomethingBelow(nodes, View(), key.0, key.1);
      }
    }

    /** index > maxindex, as radix_tree_load_root computes maxindex */
    predicate TooHigh(i: nat)
      reads this
    {
      if head.Top? then Prefix(i, head.level + 1) > 0 else i > 0
    }

    /** __radix_tree_lookup */
    method Lookup(i: nat) returns (e: Entry, at: Place)
      requires Ok(Fresh)
      ensures e == Stored(m, i)
      ensures (at.Nowhere? <==> TooHigh(i)) && (at.Nowhere? ==> i !in m)
      ensures at.AtRoot? ==> i == 0 && !head.Top?
      ensures at.Slot? ==>
        && head.Top? && (at.k, at.p) in nodes && at.p == Prefix(i, at.k + 1) && at.off == Prefix(i, at.k) % 4
        && (at.k > 0 ==> i !in m && (at.k - 1, Prefix(i, at.k)) !in nodes)
    {
      if TooHigh(i) {
        if i in m && head.Top? {
          StoredPath(nodes, View(), i, 0);
        }
        return Null, Nowhere;
      }
      match head {
        case Nil => return Null, AtRoot;
        case Direct(item) => return item, AtRoot;
        case Top(level) =>
          var k := level;
          assert Forest(nodes, View(), Fresh);
          hide Rooted, Forest;
          while true
            invariant 0 <= k <= level && (k, Prefix(i, k + 1)) in nodes
            decreases k
          {
            var p, off := Prefix(i, k + 1), Prefix(i, k) % 4;
            e := Descend(i, k);
            if k == 0 {
              return e, Slot(k, p, off);
            }
            if !e.Child? {
              if i in m {
                StoredPath(nodes, View(), i, k - 1);
              }
              return e, Slot(k, p, off);
            }
            k := k - 1;
          }
      }
    }

    /** One turn of the loop of radix_tree_extend: a new node above the root entry. */
    method GrowOne()
      requires Ok(Fresh) && !head.Nil? && spare > 0 && Height() < MAX_PATH
      modifies this`head, this`nodes, this`root, this`spare
      ensures Ok(Fresh) && head == Top(if old(head).Top? then old(head).level + 1 else 0) && spare == old(spare) - 1
      ensures old(Tidy(nodes, None)) ==> Tidy(nodes, None)
    {
      if head.Top? {
        GrowTop();
      } else {
        GrowHead();
      }
    }

    method GrowTop()
      requires Ok(Fresh) && head.Top? && spare > 0 && Height() < MAX_PATH
      modifies this`head, this`nodes, this`root, this`spare
      ensures Ok(Fresh) && head == Top(old(head).level + 1) && spare == old(spare) - 1
      ensures old(Tidy(nodes, None)) ==> Tidy(nodes, None)
    {
      hide Rooted;
      ghost var c := View();
      GrowOnTop(nodes, head.level, root, c);
      TidyAbove(nodes, (head.level + 1, 0), Above(idr, root, Child));
      hide Tidy, Above;
      nodes := nodes[(head.level + 1, 0) := Above(idr, root, Child)];
      root := if idr then root + {IDR_FREE} else root;
      head, spare := Top(head.level + 1), spare - 1;
      assert View() == c.(level := head.level);
    }

    method GrowHead()
      requires Ok(Fresh) && head.Direct? && spare > 0
      modifies this`head, this`nodes, this`spare
      ensures Ok(Fresh) && head == Top(0) && spare == old(spare) - 1 && Tidy(nodes, None)
    {
      ghost var c := View();
      GrowOnDirect(head.item, root, c);
      assert nodes == map[] && !idr;
      var n := Above(false, root, head.item);
      assert Tidy(map[(0, 0) := n], None);
      hide Rooted, Tidy, Above;
      nodes := map[(0, 0) := n];
      head, spare := Top(0), spare - 1;
      assert View() == c.(level := 0);
    }

    /**
     * radix_tree_extend: makes the tree high enough for index i.  The result is
     * the number of levels the tree then has, or the failure of an allocation.
     */
    method Extend(i: nat) returns (h: Option<nat>)
      requires Ok(Fresh) && TooHigh(i) && i < U64
      modifies this`head, this`nodes, this`root, this`spare
      ensures Ok(Fresh)
      ensures h.Some? ==> Prefix(i, h.value) == 0 && h.value == LevelsOf(i) > old(Height()) && h.value <= MAX_PATH
      ensures h.Some? ==> if old(head).Nil? then head.Nil? else head == Top(h.value - 1)
      ensures spare + Height() == old(spare) + old(Height()) && Height() >= old(Height())
      ensures (head.Nil? <==> old(head).Nil?) && (old(Tidy(nodes, None)) ==> Tidy(nodes, None))
      ensures h.None? ==> spare == 0 && Height() < LevelsOf(i)
      ensures i !in m
    {
      if i in m {
        StoredFits(i);
      }
      hide Rooted, Tidy, Prefix, LevelsOf;
      var last := LastLevel(i);
      if head.Nil? {
        return Some(last + 1);
      }
      while Height() <= last
        invariant old(Height()) <= Height() <= last + 1 && Ok(Fresh) && !head.Nil?
        invariant (old(Tidy(nodes, None)) ==> Tidy(nodes, None)) && spare + Height() == old(spare) + old(Height())
        decreases last + 1 - Height()
      {
        if spare == 0 {
          return None;
        }
        GrowOne();
      }
      return Some(last + 1);
    }

    /** The first loop of radix_tree_extend: the level from which the whole of i fits */
    method LastLevel(i: nat) returns (last: nat)
      requires Ok(Fresh) && TooHigh(i) && i < U64
      ensures Height() <= last < MAX_PATH && last + 1 == LevelsOf(i) && Prefix(i, last + 1) == 0
    {
      last := if head.Top? then head.level + 1 else 0;
      assert last > 0 ==> Prefix(i, last) > 0;
      while Prefix(i, last + 1) > 0
        invariant Height() <= last && (last == 0 || Prefix(i, last) > 0)
        decreases Prefix(i, last + 1)
      {
        last := last + 1;
      }
      LevelsFit(i, i, last + 1);
      LevelsEnough(i, last + 1);
      LevelsBound(i);
    }

    /** The node allocation shared by __radix_tree_create and idr_get_free: the missing node on the path of i. */
    method AddNode(i: nat, k: nat) returns (ok: bool)
      requires Ok(Fresh) && (k, Prefix(i, k + 1)) !in nodes
      requires if head.Nil? then Prefix(i, k + 1) == 0 && k < MAX_PATH
        else head.Top? && k < head.level && (k + 1, Prefix(i, k + 2)) in nodes
      modifies this`head, this`nodes, this`spare
      ensures Ok(Fresh) && ok == (old(spare) > 0)
      ensures ok ==> (k, Prefix(i, k + 1)) in nodes && head == if old(head).Nil? then Top(k) else old(head)
      ensures ok ==> nodes[(k, Prefix(i, k + 1))] == Empty(idr) && spare == old(spare) - 1
      ensures !ok ==> head == old(head) && nodes == old(nodes) && spare == 0
      ensures ok && old(Tidy(nodes, Some((k + 1, Prefix(i, k + 2))))) ==> Tidy(nodes, Some((k, Prefix(i, k + 1))))
    {
      if spare == 0 {
        return false;
      }
      if head.Nil? {
        Plant(k);
      } else {
        AttachNode(k, Prefix(i, k + 1));
      }
      return true;
    }

    method Plant(k: nat)
      requires Ok(Fresh) && head.Nil? && k < MAX_PATH && spare > 0
      modifies this`head, this`nodes, this`spare
      ensures Ok(Fresh) && head == Top(k) && nodes == map[(k, 0) := Empty(idr)] && spare == old(spare) - 1
      ensures Tidy(nodes, Some((k, 0)))
    {
      ghost var c := View();
      PlantTop(k, root, c);
      assert nodes == map[];
      hide Rooted, Empty;
      nodes, head, spare := map[(k, 0) := Empty(idr)], Top(k), spare - 1;
      assert View() == c.(level := k);
    }

    method AttachNode(k: nat, p: nat)
      requires Ok(Fresh) && head.Top? && (k, p) !in nodes && k < head.level && (k + 1, p / 4) in nodes && spare > 0
      modifies this`nodes, this`spare
      ensures Ok(Fresh) && (k, p) in nodes && nodes[(k, p)] == Empty(idr) && spare == old(spare) - 1
      ensures old(Tidy(nodes, Some((k + 1, p / 4)))) ==> Tidy(nodes, Some((k, p)))
    {
      RootedWithChild(nodes, head.level, root, View(), k, p);
      Occupied(nodes, View(), k + 1, p / 4);
      TidyWithChild(nodes, idr, k, p);
      hide Rooted, Tidy, Empty;
      nodes, spare := WithChild(nodes, idr, k, p), spare - 1;
    }

    /** The root's slot read as an entry. */
    function HeadEntry(): Entry
      reads this
    {
      match head
      case Nil => Null
      case Direct(item) => item
      case Top(_) => Child
    }

    /** radix_tree_descend: the entry on the path of i in the node at level k */
    method Descend(i: nat, k: nat) returns (e: Entry)
      requires Ok(Fresh) && head.Top? && (k, Prefix(i, k + 1)) in nodes
      ensures |nodes[(k, Prefix(i, k + 1))].slots| == 4 && e == nodes[(k, Prefix(i, k + 1))].slots[Prefix(i, k) % 4]
      ensures k == 0 ==> e == Stored(m, i)
      ensures k > 0 ==> e == if (k - 1, Prefix(i, k)) in nodes then Child else Null
    {
      var p, off := Prefix(i, k + 1), Prefix(i, k) % 4;
      assert NodeOk(nodes, View(), Fresh, k, p);
      assert Prefix(i, k) == 4 * p + off;
      e := nodes[(k, p)].slots[off];
      if k == 0 {
        assert LeafSlotOk(nodes[(k, p)], m, tagged, p, off);
      } else {
        assert SlotOk(nodes, idr, Fresh, nodes[(k, p)], k, p, off);
      }
    }

    /** A walk down the path of i has h levels to go, and child is the entry it looks at next. */
    ghost predicate OnPath(i: nat, h: nat, levels: nat, child: Entry)
      reads this
    {
      if h >= levels then
        h == levels && child == HeadEntry() && (levels > 0 ==> head.Nil? || head == Top(levels - 1))
      else
        && head == Top(levels - 1) && (h, Prefix(i, h + 1)) in nodes
        && (h > 0 ==> child == if (h - 1, Prefix(i, h)) in nodes then Child else Null)
    }

    lemma StepTidy(i: nat, k: nat, levels: nat)
      requires Ok(Fresh) && k < levels && OnPath(i, k + 1, levels, Child)
      ensures Tidy(nodes, Some((k + 1, Prefix(i, k + 2)))) ==> Tidy(nodes, Some((k, Prefix(i, k + 1))))
    {
      if k + 1 < levels {
        Occupied(nodes, View(), k + 1, Prefix(i, k + 2));
      } else {
        assert NodeOk(nodes, View(), Fresh, k + 1, Prefix(i, k + 2));
      }
    }

    /** One level down the path of i, adding the node if it is missing. */
    method Enter(i: nat, k: nat, ghost levels: nat, child: Entry) returns (ok: bool, next: Entry)
      requires Ok(Fresh) && Prefix(i, levels) == 0 && k < levels <= MAX_PATH && OnPath(i, k + 1, levels, child)
      modifies this`head, this`nodes, this`spare
      ensures Ok(Fresh)
      ensures if ok then OnPath(i, k, levels, next) else i !in m && spare == 0
      ensures child.Child? ==> nodes == old(nodes) && head == old(head) && spare == old(spare) && ok
      ensures if child.Null? && ok then spare == old(spare) - 1 else spare == old(spare)
      ensures ok && child.Null? ==> nodes[(k, Prefix(i, k + 1))] == Empty(idr) && next.Null?
      ensures ok && old(Tidy(nodes, Some((k + 1, Prefix(i, k + 2))))) ==> Tidy(nodes, Some((k, Prefix(i, k + 1))))
    {
      if child.Null? {
        if i in m && head.Top? {
          StoredPath(nodes, View(), i, k);
        }
        ok := AddNode(i, k);
        if !ok {
          return false, Null;
        }
      } else {
        StepTidy(i, k, levels);
      }
      ok := true;
      next := Descend(i, k);
    }

    /** The first half of __radix_tree_create: the tree is made high enough for the index. */
    method Raise(i: nat) returns (h: Option<nat>)
      requires Ok(Fresh) && !idr && i < U64
      modifies this`head, this`nodes, this`root, this`spare
      ensures Ok(Fresh) && (old(Tidy(nodes, None)) ==> Tidy(nodes, None))
      ensures if h.None? then i !in m && !old(Enough(i)) else
        && Prefix(i, h.value) == 0 && OnPath(i, h.value, h.value, HeadEntry())
        && h.value == Higher(old(Height()), Needs(idr, i)) <= MAX_PATH && (h.value == 0 ==> i == 0 && !head.Top?)
        && (spare + (if head.Nil? then 0 else 1) < h.value ==> !old(Enough(i)))
    {
      hide Rooted, Tidy;
      h := Some(if head.Top? then head.level + 1 else 0);
      if TooHigh(i) {
        h := Extend(i);
      } else if head.Top? {
        LevelsEnough(i, h.value);
      }
    }

    /** __radix_tree_create */
    method Create(i: nat) returns (at: Place)
      requires Ok(Fresh) && !idr && i < U64
      modifies this`head, this`nodes, this`root, this`spare
      ensures Ok(Fresh)
      ensures !at.Nowhere? ==> Height() == Higher(old(Height()), Needs(idr, i))
      ensures at.Nowhere? ==> i !in m && !old(Enough(i))
      ensures at.AtRoot? ==> i == 0 && !head.Top?
      ensures at.Slot? ==> at == Slot(0, i / 4, i % 4) && head.Top? && (0, i / 4) in nodes
      ensures old(Tidy(nodes, None)) ==>
        (at.Slot? ==> Tidy(nodes, Some((0, i / 4)))) && (at.AtRoot? ==> Tidy(nodes, None))
    {
      hide Rooted, Tidy, Enough, Reach, Needs, LevelsOf;
      var ready := Raise(i);
      if ready.None? {
        return Nowhere;
      }
      var h, child := ready.value, HeadEntry();
      at := AtRoot;
      ghost var levels, had, top := h, spare, if head.Nil? then 0 else 1;
      while h > 0
        invariant Ok(Fresh) && 0 <= h <= levels <= MAX_PATH && Prefix(i, levels) == 0
        invariant had + top < levels ==> !old(Enough(i))
        invariant if h == levels then spare == had && (head.Nil? <==> top == 0) else had - spare + top <= levels - h
        invariant old(Tidy(nodes, None)) ==> Tidy(nodes, if h == levels then None else Some((h, Prefix(i, h + 1))))
        invariant OnPath(i, h, levels, child)
        invariant at == if h == levels then AtRoot else Slot(h, Prefix(i, h + 1), Prefix(i, h) % 4)
        invariant levels == 0 ==> !head.Top?
      {
        h := h - 1;
        var ok := true;
        TidyWeaker(nodes, (h + 1, Prefix(i, h + 2)));
        ok, child := Enter(i, h, levels, child);
        if !ok {
          return Nowhere;
        }
        at := Slot(h, Prefix(i, h + 1), Prefix(i, h) % 4);
      }
      assert Prefix(i, 1) == i / 4;
    }

    /** Writes a leaf slot and adjusts its node's count. */
    method PutLeaf(i: nat, e: Entry, delta: int, ghost m': map<nat, Entry>)
      requires Ok(Fresh) && head.Top? && (0, i / 4) in nodes
      requires Linked(View().(m := m')) && e == Stored(m', i) && delta == One(i in m') - One(i in m)
      requires forall j :: j != i ==> (j in m' <==> j in m) && (j in m' ==> m'[j] == m[j])
      modifies this`nodes, this`m
      ensures Ok(Fresh) && m == m' && nodes.Keys == old(nodes).Keys
      ensures nodes[(0, i / 4)].count == old(nodes)[(0, i / 4)].count + delta
      ensures forall key :: key in nodes && key != (0, i / 4) ==> nodes[key].count == old(nodes)[key].count
      ensures i in m ==> nodes[(0, i / 4)].count > 0
      ensures old(Tidy(nodes, Some((0, i / 4)))) ==>
        Tidy(nodes, Some((0, i / 4))) && (i in m ==> Tidy(nodes, None))
    {
      ghost var c, was := View(), nodes;
      RootedStore(nodes, head.level, root, c, i, m', delta);
      hide Rooted, Tidy;
      nodes := nodes[(0, i / 4) := SetSlot(nodes[(0, i / 4)], i % 4, e, delta)];
      m := m';
      assert View() == c.(m := m');
      LeafOccupied(i);
      TidySame(was, nodes, (0, i / 4));
    }

    lemma LeafOccupied(i: nat)
      requires Ok(Fresh) && head.Top? && (0, i / 4) in nodes
      ensures i in m ==> nodes[(0, i / 4)].count > 0
    {
      Occupied(nodes, View(), 0, i / 4);
    }

    /** Index 0 of a tree without nodes is kept in the head. */
    method InsertAtRoot(v: int) returns (r: Outcome)
      requires Ok(Fresh) && !idr && !head.Top?
      modifies this`head, this`m
      ensures Ok(Fresh) && !head.Top? && r != NoMemory && (r == Exists <==> 0 in old(m))
      ensures m == if r == Done then old(m)[0 := Item(v)] else old(m)
    {
      if !head.Nil? {
        return Exists;
      }
      head, m := Direct(Item(v)), m[0 := Item(v)];
      return Done;
    }

    /** An index whose leaf node is there. */
    method InsertAtSlot(i: nat, v: int) returns (r: Outcome)
      requires Ok(Fresh) && !idr && head.Top? && (0, i / 4) in nodes
      modifies this`nodes, this`m
      ensures Ok(Fresh) && r != NoMemory && (r == Exists <==> i in old(m))
      ensures m == if r == Done then old(m)[i := Item(v)] else old(m)
      ensures old(Tidy(nodes, Some((0, i / 4)))) ==> Tidy(nodes, None)
    {
      RootedLinked(nodes, head, root, View(), Fresh);
      var e := Descend(i, 0);
      if !e.Null? {
        LeafOccupied(i);
        return Exists;
      }
      PutLeaf(i, Item(v), 1, m[i := Item(v)]);
      return Done;
    }

    /** radix_tree_insert of an item that is not NULL */
    method Insert(i: nat, v: int) returns (r: Outcome)
      requires Valid() && !idr && i < U64
      modifies this
      ensures Valid() && tagged == old(tagged) && (r != NoMemory && old(Lean()) ==> Lean())
      ensures r == Exists <==> i in old(m)
      ensures r == NoMemory ==> !old(Enough(i))
      ensures r != NoMemory && old(Tidy(nodes, None)) ==> Tidy(nodes, None)
      ensures m == if r == Done then old(m)[i := Item(v)] else old(m)
    {
      ghost var h := Height();
      if Snug() {
        SnugStored(idr, m, h, i, Item(v));
      }
      if i in m {
        StoredFits(i);
      }
      assert TagsRight(idr, m[i := Item(v)], tagged);
      hide SnugAt, Needs, Tidy, TagsRight, Rooted;
      var at := Create(i);
      if at.Nowhere? {
        return NoMemory;
      }
      if at.AtRoot? {
        r := InsertAtRoot(v);
        return;
      }
      r := InsertAtSlot(i, v);
    }

    /** One turn of node_tag_set and node_tag_clear: the parent of node (k, p) takes over its summary b. */
    method SyncParent(k: nat, p: nat, t: nat, b: bool)
      requires Ok(Stale(k, p, t)) && head.Top? && k < head.level && (k, p) in nodes && b == Any(nodes[(k, p)], t)
      modifies this`nodes
      ensures Ok(Stale(k + 1, p / 4, t)) && SameShape(old(nodes), nodes) && (k + 1, p / 4) in nodes
      ensures k + 1 < head.level ==> (k + 2, p / 4 / 4) in nodes
      ensures k + 1 == head.level ==> p / 4 == 0
      ensures Upper(nodes, head.level, root, k + 1, p / 4, t) == Any(old(nodes)[(k + 1, p / 4)], t)
      ensures b ==> Any(nodes[(k + 1, p / 4)], t)
    {
      hide Rooted;
      RootedInnerBit(nodes, head.level, root, View(), k, p, t, b);
      UpperAgrees(nodes, head.level, root, View(), Stale(k, p, t), k + 1, p / 4, t);
      nodes := nodes[(k + 1, p / 4) := SetBit(nodes[(k + 1, p / 4)], t, p % 4, b)];
    }

    /** The tag bit in the leaf slot of i changes; the nodes above have not heard of it yet. */
    method FlipLeaf(i: nat, t: nat, b: bool)
      requires Ok(Fresh) && head.Top? && (0, i / 4) in nodes && Fact(Linked(Retag(View(), t, i, b)))
      modifies this`nodes, this`tagged
      ensures Ok(Stale(0, i / 4, t)) && SameShape(old(nodes), nodes)
      ensures tagged == if b then old(tagged) + iset{(t, i)} else old(tagged) - iset{(t, i)}
      ensures 0 < head.level ==> (1, i / 4 / 4) in nodes
      ensures 0 == head.level ==> i / 4 == 0
      ensures Upper(nodes, head.level, root, 0, i / 4, t) == Any(old(nodes)[(0, i / 4)], t)
      ensures b ==> Any(nodes[(0, i / 4)], t)
    {
      hide Rooted, Linked;
      ghost var c := View();
      RootedLeafBit(nodes, head.level, root, c, i, t, b);
      UpperAgrees(nodes, head.level, root, c, Fresh, 0, i / 4, t);
      FlipKeeps(nodes, head.level, root, i, t, b);
      hide SetBit, SameShape, Upper, Any;
      nodes := nodes[(0, i / 4) := SetBit(nodes[(0, i / 4)], t, i % 4, b)];
      tagged := if b then tagged + iset{(t, i)} else tagged - iset{(t, i)};
      assert View() == Retag(c, t, i, b);
    }

    lemma LeafBitMeans(i: nat, t: nat)
      requires Ok(Fresh) && head.Top? && (0, i / 4) in nodes
      ensures (t, i % 4) in nodes[(0, i / 4)].tags <==> (t, i) in tagged
    {
      assert Prefix(i, 1) == i / 4;
      PathBit(nodes, View(), i, 0, t);
    }

    /** node_tag_clear from the leaf slot of i */
    method ClearUp(i: nat, t: nat)
      requires Ok(Fresh) && head.Top? && (0, i / 4) in nodes && Fact(Linked(Retag(View(), t, i, false)))
      modifies this`nodes, this`root, this`tagged
      ensures Ok(Fresh) && tagged == old(tagged) - iset{(t, i)} && SameShape(old(nodes), nodes)
    {
      hide Rooted, Linked;
      var k: nat, p: nat := 0, i / 4;
      LeafBitMeans(i, t);
      if (t, i % 4) !in nodes[(0, p)].tags {
        return;
      }
      FlipLeaf(i, t, false);
      while !Any(nodes[(k, p)], t)
        invariant Ok(Stale(k, p, t)) && (k, p) in nodes && SameShape(old(nodes), nodes) && k <= head.level
        invariant k < head.level ==> (k + 1, p / 4) in nodes
        invariant k == head.level ==> p == 0
        invariant Upper(nodes, head.level, root, k, p, t) && tagged == old(tagged) - iset{(t, i)}
        decreases head.level - k
      {
        if k == head.level {
          RootFresh(nodes, head.level, root, root - {t}, View(), t);
          root := root - {t};
          return;
        }
        SyncParent(k, p, t, false);
        k, p := k + 1, p / 4;
      }
      RootedFresh(nodes, head.level, root, View(), k, p, t);
    }

    /** node_tag_set from the leaf slot of i */
    method SetUp(i: nat, t: nat)
      requires Ok(Fresh) && head.Top? && (0, i / 4) in nodes && Fact(Linked(Retag(View(), t, i, true)))
      modifies this`nodes, this`root, this`tagged
      ensures Ok(Fresh) && tagged == old(tagged) + iset{(t, i)} && SameShape(old(nodes), nodes)
    {
      hide Rooted, Linked;
      var k: nat, p: nat := 0, i / 4;
      LeafBitMeans(i, t);
      if (t, i % 4) in nodes[(0, p)].tags {
        return;
      }
      FlipLeaf(i, t, true);
      while k < head.level
        invariant Ok(Stale(k, p, t)) && (k, p) in nodes && SameShape(old(nodes), nodes) && k <= head.level
        invariant k < head.level ==> (k + 1, p / 4) in nodes
        invariant k == head.level ==> p == 0
        invariant Any(nodes[(k, p)], t) && tagged == old(tagged) + iset{(t, i)}
      {
        if (t, p % 4) in nodes[(k + 1, p / 4)].tags {
          RootedFresh(nodes, head.level, root, View(), k, p, t);
          return;
        }
        SyncParent(k, p, t, true);
        k, p := k + 1, p / 4;
      }
      RootFresh(nodes, head.level, root, root + {t}, View(), t);
      root := root + {t};
    }

    /** Not everything is below slot 0 of the top. */
    predicate Shrunk()
      reads this
    {
      head.Top? && (head.level, 0) in nodes ==>
        || nodes[(head.level, 0)].count != 1
        || if head.level > 0 then (head.level - 1, 0) !in nodes else idr || Slot0(nodes[(0, 0)]).Null?
    }

    /** One turn of the loop of radix_tree_shrink: the top gives way to the entry in its slot 0. */
    method ShrinkOne()
      requires Ok(Fresh) && head.Top? && (head.level, 0) in nodes
      requires var n := nodes[(head.level, 0)]; n.count == 1 && !Slot0(n).Null? && !(head.level == 0 && idr)
      modifies this`head, this`nodes, this`root, this`spare
      ensures Ok(Fresh) && Height() < old(Height()) && (old(Tidy(nodes, None)) ==> Tidy(nodes, None))
    {
      var l := head.level;
      var n := nodes[(l, 0)];
      ghost var c := View();
      assert NodeOk(nodes, c, Fresh, l, 0);
      if l == 0 {
        ShrinkToDirect(nodes, root, c);
        head := Direct(n.slots[0]);
      } else {
        assert SlotOk(nodes, idr, Fresh, n, l, 0, 0);
        ShrinkTop(nodes, l, root, c);
        head := Top(l - 1);
        root := if idr && (IDR_FREE, 0) !in n.tags then root - {IDR_FREE} else root;
      }
      nodes := nodes - {(l, 0)};
      spare := spare + 1;
      assert View() == c.(level := View().level);
    }

    /** radix_tree_shrink */
    method Shrink()
      requires Ok(Fresh)
      modifies this`head, this`nodes, this`root, this`spare
      ensures Ok(Fresh) && Shrunk() && (old(Tidy(nodes, None)) ==> Tidy(nodes, None) && Lean())
      ensures idr && old(head) == Top(0) ==> head == old(head) && nodes == old(nodes)
    {
      hide Rooted, Tidy, Snug;
      while head.Top?
        invariant Ok(Fresh) && (old(Tidy(nodes, None)) ==> Tidy(nodes, None))
        invariant idr && old(head) == Top(0) ==> head == old(head) && nodes == old(nodes)
        decreases Height()
      {
        TopIs();
        var n := nodes[(head.level, 0)];
        if n.count != 1 || n.slots[0].Null? || (head.level == 0 && idr) {
          break;
        }
        ShrinkOne();
      }
      if Tidy(nodes, None) {
        ShrunkIsSnug();
      }
    }

    lemma TopIs()
      requires Ok(Fresh) && head.Top?
      ensures (head.level, 0) in nodes && |nodes[(head.level, 0)].slots| == 4
      ensures head.level > 0 ==> (nodes[(head.level, 0)].slots[0].Null? <==> (head.level - 1, 0) !in nodes)
    {
      assert NodeOk(nodes, View(), Fresh, head.level, 0);
      assert head.level > 0 ==> SlotOk(nodes, idr, Fresh, nodes[(head.level, 0)], head.level, 0, 0);
    }

    /** delete_node on a top that counts nothing: the tree is empty */
    method DropRoot()
      requires Ok(Fresh) && head.Top? && (head.level, 0) in nodes && nodes[(head.level, 0)].count == 0
      modifies this`head, this`nodes, this`root, this`spare
      ensures Ok(Fresh) && head == Nil && nodes == map[]
    {
      ghost var c := View();
      DropTop(nodes, head.level, root, c);
      root := if idr then root else {};
      nodes := nodes - {(head.level, 0)};
      head := Nil;
      spare := spare + 1;
      assert View() == c.(level := -1);
    }

    /** delete_node */
    method DeleteNode(k0: nat, p0: nat)
      requires Ok(Fresh) && head.Top? && (k0, p0) in nodes
      modifies this`head, this`nodes, this`root, this`spare
      ensures Ok(Fresh) && (old(Tidy(nodes, Some((k0, p0)))) ==> Tidy(nodes, None))
      ensures old(Shrunk()) || k0 == old(head).level ==> Shrunk()
      ensures idr && k0 == 0 && old(nodes)[(k0, p0)].count != 0 ==> head == old(head) && nodes == old(nodes)
    {
      var k, p := k0, p0;
      while true
        invariant Ok(Fresh) && head.Top? && (k, p) in nodes
        invariant old(Tidy(nodes, Some((k0, p0)))) ==> Tidy(nodes, Some((k, p)))
        invariant head == old(head) && (head.level, 0) in old(nodes) && (head.level, 0) in nodes
        invariant k < head.level ==> nodes[(head.level, 0)] == old(nodes)[(head.level, 0)]
        invariant k < head.level ==> ((head.level - 1, 0) in nodes <==> (head.level - 1, 0) in old(nodes))
        invariant k >= k0 && (k == k0 ==> p == p0 && nodes == old(nodes))
        invariant k > k0 ==> old(nodes)[(k0, p0)].count == 0
        decreases head.level - k
      {
        ghost var c := View();
        assert NodeOk(nodes, c, Fresh, k, p);
        if nodes[(k, p)].count != 0 {
          if (k, p) == (head.level, 0) {
            Shrink();
          }
          return;
        }
        if k == head.level {
          DropRoot();
          return;
        }
        RootedWithoutChild(nodes, head.level, root, c, k, p);
        nodes := WithoutChild(nodes, k, p);
        spare := spare + 1;
        k, p := k + 1, p / 4;
      }
    }

    /** The tags of an entry that is about to go: all cleared, or IDR_FREE set. */
    method Untag(i: nat)
      requires Ok(Fresh) && head.Top? && (0, i / 4) in nodes
      modifies this`nodes, this`root, this`tagged
      ensures Ok(Fresh) && SameShape(old(nodes), nodes)
      ensures tagged == Released(idr, old(tagged), i)
    {
      hide Rooted, Linked;
      RootedLinked(nodes, head, root, View(), Fresh);
      if idr {
        RetagLinked(View(), IDR_FREE, i, true);
        SetUp(i, IDR_FREE);
      } else {
        RetagLinked(View(), 0, i, false);
        ClearUp(i, 0);
        RootedLinked(nodes, head, root, View(), Fresh);
        RetagLinked(View(), 1, i, false);
        ClearUp(i, 1);
        RootedLinked(nodes, head, root, View(), Fresh);
        RetagLinked(View(), 2, i, false);
        ClearUp(i, 2);
      }
    }

    /** The entry and its tags go, and the node stays. */
    method ClearLeaf(i: nat)
      requires Valid() && i in m && head.Top? && (0, i / 4) in nodes
      modifies this`nodes, this`root, this`m, this`tagged
      ensures Valid() && (0, i / 4) in nodes && m == old(m) - {i} && tagged == Released(idr, old(tagged), i)
      ensures old(Tidy(nodes, None)) ==> Tidy(nodes, Some((0, i / 4)))
      ensures old(Shrunk()) && head.level > 0 ==> Shrunk()
    {
      TagsDropped(idr, m, tagged, i);
      hide Rooted, Linked, Tidy, Released, TagsRight;
      ghost var was := nodes;
      Untag(i);
      SameTidy(was, nodes, None);
      TidyWeaker(nodes, (0, i / 4));
      RootedLinked(nodes, head, root, View(), Fresh);
      DropLinked(View(), i);
      PutLeaf(i, Null, -1, m - {i});
    }

    /** __radix_tree_delete on the leaf slot of i */
    method DeleteLeaf(i: nat)
      requires Valid() && i in m && head.Top? && (0, i / 4) in nodes
      modifies this
      ensures Valid() && m == old(m) - {i}
      ensures forall t, j :: j != i ==> ((t, j) in tagged <==> (t, j) in old(tagged))
      ensures (old(Tidy(nodes, None)) ==> Tidy(nodes, None)) && (old(Lean()) ==> Lean())
    {
      TagsDropped(idr, m, tagged, i);
      hide Rooted, Tidy, Snug, TagsRight, Released;
      ghost var lean := Lean();
      if lean {
        ShrunkIsSnug();
      }
      ClearLeaf(i);
      hide Shrunk;
      DeleteNode(0, i / 4);
      if lean {
        ShrunkIsSnug();
      }
    }

    /** node_tag_get of IDR_FREE at a place a lookup found */
    predicate FreeAt(at: Place)
      requires at.Slot? ==> (at.k, at.p) in nodes
      reads this
    {
      if at.Slot? then (IDR_FREE, at.off) in nodes[(at.k, at.p)].tags else IDR_FREE in root
    }

    lemma FreeAtMeans(i: nat, at: Place)
      requires Valid() && idr && !at.Nowhere?
      requires at.AtRoot? ==> i == 0 && !head.Top?
      requires at.Slot? ==>
        && head.Top? && (at.k, at.p) in nodes && at.p == Prefix(i, at.k + 1) && at.off == Prefix(i, at.k) % 4
        && (at.k > 0 ==> i !in m && (at.k - 1, Prefix(i, at.k)) !in nodes)
      ensures FreeAt(at) <==> i !in m
      ensures at.AtRoot? ==> i !in m
    {
      hide Forest, Linked;
      if at.Slot? {
        PathBit(nodes, View(), i, at.k, IDR_FREE);
      }
    }

    /** radix_tree_delete_item; a caller's NULL for the item is None */
    method DeleteItem(i: nat, item: Option<Entry>) returns (e: Entry)
      requires Valid()
      modifies this
      ensures Valid()
      ensures var hit := i in old(m) && (item.None? || item.value == old(m)[i]);
        && e == (if hit then old(m)[i] else Null)
        && m == (if hit then old(m) - {i} else old(m))
        && (!hit ==> tagged == old(tagged))
      ensures (old(Tidy(nodes, None)) ==> Tidy(nodes, None)) && (old(Lean()) ==> Lean())
      ensures forall t, j :: j != i ==> ((t, j) in tagged <==> (t, j) in old(tagged))
    {
      var at;
      e, at := Lookup(i);
      if at.Nowhere? {
        return Null;
      }
      if idr {
        FreeAtMeans(i, at);
      }
      if (e.Null? && (!idr || FreeAt(at))) || (item.Some? && e != item.value) {
        return Null;
      }
      if at.AtRoot? {
        head, root := Nil, {};
        m, tagged := map[], iset{};
      } else {
        assert Prefix(i, 1) == i / 4;
        DeleteLeaf(i);
      }
    }

    /** radix_tree_tag_set; setting a tag on an index that is not stored is a bug of the caller */
    method TagSet(i: nat, t: nat) returns (e: Entry)
      requires Valid() && !idr && i in m && t < MAX_TAGS
      modifies this`nodes, this`root, this`tagged
      ensures Valid() && e == m[i] && tagged == old(tagged) + iset{(t, i)} && SameShape(old(nodes), nodes)
    {
      ghost var c := View();
      if !head.Top? {
        root, tagged := root + {t}, tagged + iset{(t, i)};
        return HeadEntry();
      }
      var h := head.level + 1;
      PathWeaker(nodes, c, i, t);
      ghost var before := nodes;
      e := Child;
      RetagStored(c, t, i);
      ghost var now := c;
      while h > 0
        invariant 0 <= h <= head.level + 1 && SameShape(before, nodes)
        invariant Fact(Forest(nodes, now, Path(i, t))) && Fact(Forest(before, c, Fresh))
          && now == PathContent(c, i, h, t)
        invariant forall j :: h <= j <= head.level ==> PathIsSet(nodes, i, t, j)
        invariant SameRoot(nodes, head.level, root, t)
        invariant h == 0 ==> e == m[i]
        modifies this`nodes
      {
        h := h - 1;
        e := TagStep(i, h, t, now, before);
        now := PathContent(c, i, h, t);
      }
      StoredPath(before, c, i, head.level);
      PathDoneRooted(nodes, head.level, root, now, i, t);
      root, tagged := root + {t}, tagged + iset{(t, i)};
      hide Rooted;
      assert View() == now;
    }

    /** One level of the walk down of radix_tree_tag_set. */
    method TagStep(i: nat, k: nat, t: nat, ghost c: Content, ghost before: Nodes) returns (e: Entry)
      requires Fact(Forest(nodes, c, Path(i, t))) && SameShape(before, nodes) && head.Top?
        && k <= head.level == c.level
      requires Fact(Forest(before, c, Fresh)) && i in c.m && SameRoot(nodes, head.level, root, t)
      requires Linked(Retag(c, t, i, true))
      modifies this`nodes
      ensures Fact(Forest(nodes, PathContent(c, i, k, t), Path(i, t))) && SameShape(before, nodes)
      ensures SameRoot(nodes, head.level, root, t)
      ensures PathIsSet(nodes, i, t, k)
      ensures forall j :: j != k && PathIsSet(old(nodes), i, t, j) ==> PathIsSet(nodes, i, t, j)
      ensures k == 0 ==> e == c.m[i]
    {
      StoredPath(before, c, i, k);
      PathSet(nodes, c, i, k, t);
      var p, off := Prefix(i, k + 1), Prefix(i, k) % 4;
      assert NodeOk(nodes, c, Path(i, t), k, p);
      e := nodes[(k, p)].slots[off];
      assert k == 0 ==> i == 4 * p + off && LeafSlotOk(nodes[(k, p)], c.m, c.tagged, p, off);
      PathToKeeps(before, nodes, head.level, root, i, k, t);
      hide Forest, NodeOk, Linked, PathTo, SameShape, SameRoot, PathIsSet;
      nodes := PathTo(nodes, i, k, t);
    }

    /** radix_tree_tag_clear */
    method TagClear(i: nat, t: nat) returns (e: Entry)
      requires Valid() && !idr && t < MAX_TAGS
      modifies this`nodes, this`root, this`tagged
      ensures Valid() && e == Stored(m, i) && tagged == old(tagged) - iset{(t, i)} && SameShape(old(nodes), nodes)
    {
      var at;
      e, at := Lookup(i);
      if e.Null? {
        return;
      }
      if at.AtRoot? {
        root, tagged := root - {t}, tagged - iset{(t, i)};
      } else {
        assert Prefix(i, 1) == i / 4;
        RootedLinked(nodes, head, root, View(), Fresh);
        RetagLinked(View(), t, i, false);
        ClearUp(i, t);
      }
    }

    /** radix_tree_tag_get; in an ID allocator an index past the tree reads as not tagged */
    method TagGet(i: nat, t: nat) returns (r: bool)
      requires Valid()
      ensures r <==> (t, i) in tagged && !(idr && TooHigh(i))
    {
      ghost var c := View();
      if t !in root {
        if head.Top? {
          ChildBitsMean(nodes, c, head.level, 0, t);
          if i in m {
            StoredPath(nodes, c, i, 0);
          }
        }
        return false;
      }
      if TooHigh(i) {
        if i in m && head.Top? {
          StoredPath(nodes, c, i, 0);
        }
        return false;
      }
      if !head.Top? {
        return true;
      }
      var k := head.level;
      while true
        invariant 0 <= k <= head.level && (k, Prefix(i, k + 1)) in nodes
        decreases k
      {
        PathBit(nodes, c, i, k, t);
        var e := Descend(i, k);
        if (t, Prefix(i, k) % 4) !in nodes[(k, Prefix(i, k + 1))].tags {
          BitMeans(nodes, c, k, Prefix(i, k + 1), Prefix(i, k) % 4, t);
          assert Prefix(i, k) == 4 * Prefix(i, k + 1) + Prefix(i, k) % 4;
          return false;
        }
        if !e.Child? || k == 0 {
          if i in m {
            StoredPath(nodes, c, i, if k > 0 then k - 1 else 0);
          }
          return true;
        }
        k := k - 1;
      }
    }

    /** From the slot of start to slot o of the same node, when the free bits in between are clear. */
    lemma Jump(start0: nat, start: nat, k: nat, o: nat)
      requires Valid() && idr && head.Top? && (k, Prefix(start, k + 1)) in nodes && AllUsed(m, start0, start)
      requires Prefix(start, k) % 4 < o <= 4
      requires forall u: nat :: Prefix(start, k) % 4 <= u < o ==>
        (IDR_FREE, u) !in nodes[(k, Prefix(start, k + 1))].tags
      requires o < 4 ==> (IDR_FREE, o) in nodes[(k, Prefix(start, k + 1))].tags
      ensures var next := First(4 * Prefix(start, k + 1) + o, k);
        && start < next && AllUsed(m, start0, next)
        && (k == 0 && o < 4 ==> next !in m)
    {
      assert Forest(nodes, View(), Fresh);
      hide Rooted, Forest;
      var p := Prefix(start, k + 1);
      var next := First(4 * p + o, k);
      PrefixAtLeast(start, 4 * p + o, k);
      assert Prefix(start, k) == 4 * p + Prefix(start, k) % 4;
      forall j: nat | start0 <= j < next
        ensures j in m
      {
        if start <= j {
          Skipped(nodes, View(), start, k, o, j);
        }
      }
      if k == 0 && o < 4 {
        assert next / 4 == p && next % 4 == o && Prefix(next, 1) == next / 4;
        PathBit(nodes, View(), next, 0, IDR_FREE);
      }
    }

    /** Node (k, p) covers the index and has room for slot o of it. */
    lemma AtSlot(k: nat, p: nat, o: nat)
      requires Ok(Fresh) && head.Top? && (k, p) in nodes && o <= 4
      ensures k <= head.level && (k == head.level ==> p == 0) && (k < head.level ==> (k + 1, p / 4) in nodes)
      ensures o < 4 ==> Prefix(First(4 * p + o, k), k) == 4 * p + o
      ensures o < 4 ==> Prefix(First(4 * p + o, k), k + 1) == p
      ensures o < 4 ==> Prefix(First(4 * p + o, k), head.level + 1) == 0
      ensures First(4 * p + 4, k) == First(4 * (p / 4) + (p % 4 + 1), k + 1)
    {
      PrefixOfFirst(4 * p + o, k);
      assert NodeOk(nodes, View(), Fresh, k, p);
      if o < 4 {
        var i := First(4 * p + o, k);
        assert Prefix(i, k + 1) == p;
        PathUp(nodes, View(), i, k, head.level);
        assert NodeOk(nodes, View(), Fresh, head.level, Prefix(i, head.level + 1));
      }
      assert 4 * (p / 4) + (p % 4 + 1) == p + 1;
    }

    lemma PathFree(i: nat)
      requires Valid() && idr && head.Top? && (0, Prefix(i, 1)) in nodes
        && (IDR_FREE, i % 4) in nodes[(0, Prefix(i, 1))].tags
      ensures i !in m
    {
      PathBit(nodes, View(), i, 0, IDR_FREE);
    }

    /**
     * Up from node (k0, p0), whose last slot is behind us, to the first node
     * where start has a slot, if there is one.
     */
    method Ascend(start: nat, k0: nat, p0: nat) returns (inside: bool, k: nat, child: Entry)
      requires Ok(Fresh) && head.Top? && (k0, p0) in nodes && start == First(4 * p0 + 4, k0)
      ensures inside ==>
        k0 < k <= head.level && OnPath(start, k, head.level + 1, child) && Prefix(start, head.level + 1) == 0
      ensures !inside ==> start == First(1, head.level + 1)
    {
      var p, o := p0, 4;
      k, child := k0, Null;
      while o == 4
        invariant k0 <= k && (k, p) in nodes && 0 <= o <= 4 && start == First(4 * p + o, k) && (o < 4 ==> k0 < k)
        decreases head.level - k
      {
        AtSlot(k, p, o);
        if k == head.level {
          return false, k, Null;
        }
        o := p % 4 + 1;
        k, p := k + 1, p / 4;
        AtSlot(k, p, o);
      }
      AtSlot(k, p, o);
      inside := true;
      child := Descend(start, k);
    }

    /** next_index in 64 bits wraps around to 0 at most, and then the whole range is behind us. */
    lemma NextWraps(start: nat, k: nat, levels: nat, o: nat)
      requires k < levels <= MAX_PATH && Prefix(start, levels) == 0 && o <= 4
      ensures var next := First(4 * Prefix(start, k + 1) + o, k); next % U64 == if next == U64 then 0 else next
    {
      SlotInside(start, k, levels, o);
      TreeInside(levels);
    }

    /** Past the slot of start at level k, whose free bit is clear: on to the next candidate, or out of the tree. */
    method Skip(start0: nat, start: nat, max: nat, levels: nat, k: nat)
      returns (out: Option<Probe>, next: nat, h: nat, child: Entry)
      requires Valid() && idr && AllUsed(m, start0, start) && start <= max < U64
      requires k < levels && head == Top(levels - 1) && (k, Prefix(start, k + 1)) in nodes && Prefix(start, levels) == 0
      requires (IDR_FREE, Prefix(start, k) % 4) !in nodes[(k, Prefix(start, k + 1))].tags
      ensures start < next && AllUsed(m, start0, next)
      ensures match out
        case None =>
          && next <= max && h < levels && OnPath(next, h, levels, child) && Prefix(next, levels) == 0
          && (h == 0 ==> next !in m)
        case Some(r) => if r.Full? then next > max else r == Past(next) && next <= max
    {
      hide Rooted, TagsRight, AllUsed;
      var p, off := Prefix(start, k + 1), Prefix(start, k) % 4;
      var o := NextBit(nodes[(k, p)], IDR_FREE, off + 1);
      Jump(start0, start, k, o);
      next, h, child := First(4 * p + o, k), k, Null;
      NextWraps(start, k, levels, o);
      if next % U64 > max || next % U64 == 0 {
        return Some(Full), next, h, child;
      }
      if o == 4 {
        var inside;
        inside, h, child := Ascend(next, k, p);
        return if inside then None else Some(Past(next)), next, h, child;
      }
      AtSlot(k, p, o);
      child := Descend(next, k);
      return None, next, k, child;
    }

    /** One turn of the search: a node is added where there is none, and otherwise full slots are skipped. */
    method Turn(start0: nat, start: nat, max: nat, levels: nat, h: nat, child: Entry)
      returns (out: Option<Probe>, next: nat, k: nat, below: Entry)
      requires Valid() && idr && AllUsed(m, start0, start) && start <= max < U64
      requires 0 < h <= levels <= MAX_PATH && Prefix(start, levels) == 0 && OnPath(start, h, levels, child)
      modifies this`head, this`nodes, this`spare
      ensures Valid()
      ensures match out
        case None =>
          && start <= next <= max && k < levels && (start < next || k < h) && AllUsed(m, start0, next)
          && OnPath(next, k, levels, below) && Prefix(next, levels) == 0 && (k == 0 ==> next !in m)
        case Some(r) =>
          if r.Starved? then child.Null? && spare == 0
          else start < next && AllUsed(m, start0, next) && r == if next > max then Full else Past(next)
      ensures !child.Null? ==> head == old(head) && nodes == old(nodes) && spare == old(spare)
      ensures spare == old(spare) || out.None?
      ensures child.Null? && out.Some? ==> out == Some(Starved)
      ensures child.Null? && out.None? ==> next == start && k == h - 1 && spare == old(spare) - 1 && below.Null?
      ensures child.Null? && out.None? && old(Tidy(nodes, Some((h, Prefix(start, h + 1))))) ==>
        Tidy(nodes, Some((k, Prefix(start, k + 1))))
    {
      hide Rooted, Tidy, AllUsed;
      var ok;
      next, k := start, h - 1;
      ok, below := Enter(start, k, levels, child);
      if !ok {
        return Some(Starved), next, k, below;
      }
      out := None;
      if (IDR_FREE, Prefix(start, k) % 4) !in nodes[(k, Prefix(start, k + 1))].tags {
        out, next, k, below := Skip(start0, start, max, levels, k);
      } else if k == 0 {
        PathFree(start);
      }
    }

    /**
     * The descent of idr_get_free through a tree of the given height: it ends at
     * an unused index, past the last index of the tree, or past max.
     */
    method Search(start0: nat, from: nat, max: nat, levels: nat) returns (r: Probe)
      requires Valid() && idr && AllUsed(m, start0, from) && start0 <= from <= max < U64
      requires 0 < levels <= MAX_PATH && Prefix(from, levels) == 0 && OnPath(from, levels, levels, HeadEntry())
      modifies this`head, this`nodes, this`spare
      ensures Valid()
      ensures match r
        case Hit(i) => from <= i <= max && i !in m && AllUsed(m, start0, i) && head.Top? && (0, i / 4) in nodes
        case Past(next) => from < next <= max && AllUsed(m, start0, next)
        case Full => AllUsed(m, start0, max + 1)
        case Starved => old(spare) + (if old(head).Nil? then 0 else 1) < levels
      ensures r.Past? || r.Full? ==> head == old(head) && spare == old(spare) && nodes == old(nodes)
      ensures r.Hit? ==> head == Top(levels - 1) && Prefix(r.i, levels) == 0
      ensures r.Hit? && old(Tidy(nodes, None)) ==> Tidy(nodes, Some((0, r.i / 4)))
    {
      hide Rooted, Tidy;
      ghost var top := if head.Nil? then 0 else 1;
      var start, h, child := from, levels, HeadEntry();
      while h > 0
        invariant Valid() && 0 <= h <= levels && from <= start <= max && Prefix(start, levels) == 0
        invariant OnPath(start, h, levels, child) && AllUsed(m, start0, start)
        invariant h == 0 ==> start !in m
        invariant if h == levels then spare == old(spare) else old(spare) - spare + top <= levels - h
        invariant spare == old(spare) ==> head == old(head) && nodes == old(nodes)
        invariant spare != old(spare) ==> spare < old(spare) && child.Null?
        invariant old(Tidy(nodes, None)) ==>
          Tidy(nodes, if spare == old(spare) then None else Some((h, Prefix(start, h + 1))))
        decreases max - start, h
      {
        TidyWeaker(nodes, (h, Prefix(start, h + 1)));
        var out;
        out, start, h, child := Turn(start0, start, max, levels, h, child);
        if out.Some? {
          return out.value;
        }
      }
      assert Prefix(start, 1) == start / 4;
      TidyWeaker(nodes, (0, start / 4));
      return Hit(start);
    }

    /**
     * idr_get_free: the least unused index from start on, with a leaf slot made
     * ready for it, unless that index is above max.
     */
    method GetFree(start0: nat, max: nat) returns (r: Probe)
      requires Valid() && idr && max < U64
      modifies this`head, this`nodes, this`root, this`spare
      ensures Valid()
      ensures match r
        case Hit(i) => start0 <= i <= max && i !in m && AllUsed(m, start0, i) && head.Top? && (0, i / 4) in nodes
        case Full => AllUsed(m, start0, max + 1)
        case Past(_) => false
        case Starved => true
      ensures r == Starved ==> forall b :: Ceiling(m, start0, max, b) ==> !old(Enough(b))
      ensures r.Full? ==> head == old(head) && nodes == old(nodes) && spare == old(spare)
      ensures r.Hit? ==> Height() == Higher(old(Height()), Needs(idr, r.i))
      ensures start0 > max ==> r.Full?
      ensures r.Hit? && old(Tidy(nodes, None)) ==> Tidy(nodes, Some((0, r.i / 4)))
    {
      hide Rooted, Tidy, LevelsOf, Prefix;
      var start := start0;
      while true
        invariant Valid() && start0 <= start && AllUsed(m, start0, start)
        invariant head == old(head) && nodes == old(nodes) && spare == old(spare)
        invariant start0 <= max || start == start0
        decreases max - start
      {
        if IDR_FREE !in root {
          start := BeyondTree(start0, start);
        }
        if start > max {
          return Full;
        }
        r := Try(start0, start, max);
        if !r.Past? {
          return;
        }
        start := r.next;
      }
    }

    /** One turn of idr_get_free: the tree is made high enough for start, then searched from there. */
    method Try(start0: nat, start: nat, max: nat) returns (r: Probe)
      requires Valid() && idr && AllUsed(m, start0, start) && start0 <= start <= max < U64
      modifies this`head, this`nodes, this`root, this`spare
      ensures Valid()
      ensures match r
        case Hit(i) => start <= i <= max && i !in m && AllUsed(m, start0, i) && head.Top? && (0, i / 4) in nodes
        case Past(next) => start < next <= max && AllUsed(m, start0, next)
        case Full => AllUsed(m, start0, max + 1)
        case Starved => true
      ensures r == Starved ==> forall b :: Ceiling(m, start0, max, b) ==> !old(Enough(b))
      ensures r.Past? || r.Full? ==> head == old(head) && nodes == old(nodes) && spare == old(spare)
      ensures r.Hit? ==> Height() == Higher(old(Height()), Needs(idr, r.i))
      ensures r.Hit? && old(Tidy(nodes, None)) ==> Tidy(nodes, Some((0, r.i / 4)))
    {
      hide Rooted, Tidy, LevelsOf, Prefix;
      forall b | Ceiling(m, start0, max, b)
        ensures LevelsOf(start) <= LevelsOf(b)
      {
        LevelsGrow(start, b);
      }
      var h := Ready(start);
      if h.None? {
        return Starved;
      }
      r := Search(start0, start, max, h.value);
      if r.Hit? {
        LevelsEnough(r.i, h.value);
        LevelsGrow(start, r.i);
      }
    }

    /** The tree is made high enough for the index; the result is the height to search. */
    method Ready(start: nat) returns (h: Option<nat>)
      requires Valid() && idr && start < U64
      modifies this`head, this`nodes, this`root, this`spare
      ensures Valid() && (head.Nil? <==> old(head).Nil?) && (old(Tidy(nodes, None)) ==> Tidy(nodes, None))
      ensures spare + Height() == old(spare) + old(Height()) && Height() >= old(Height())
      ensures h.Some? ==> Prefix(start, h.value) == 0 && OnPath(start, h.value, h.value, HeadEntry())
      ensures if h.Some? then h.value == Higher(old(Height()), LevelsOf(start)) <= MAX_PATH
        else spare == 0 && Height() < LevelsOf(start)
      ensures start in m ==> head == old(head) && nodes == old(nodes) && spare == old(spare)
    {
      if TooHigh(start) {
        h := Extend(start);
      } else {
        h := Some(if head.Top? then head.level + 1 else 1);
        LevelsEnough(start, h.value);
      }
    }

    /** max(start, maxindex + 1), when every index of the tree is in use; maxindex + 1 may wrap around to 0 */
    method BeyondTree(start0: nat, start: nat) returns (next: nat)
      requires Valid() && idr && IDR_FREE !in root && start0 <= start && AllUsed(m, start0, start)
      ensures start <= next && AllUsed(m, start0, next)
    {
      assert head.Top?;
      hide Rooted;
      var end := First(1, head.level + 1);
      forall j: nat | start0 <= j < end
        ensures j in m
      {
        TreeIsFull(nodes, head.level, root, View(), j);
      }
      TreeInside(head.level + 1);
      next := if start < end % U64 then end % U64 else start;
    }

    /**
     * The body of idr_alloc_u32 on this tree: radix_tree_iter_replace stores the
     * entry in the slot found, radix_tree_iter_tag_clear takes the index out of use.
     */
    method AllocIndex(e: Entry, start: nat, max: nat) returns (r: Probe)
      requires Valid() && idr && !e.Child? && max < U64
      modifies this
      ensures Valid()
      ensures match r
        case Hit(i) => start <= i <= max && i !in old(m) && AllUsed(old(m), start, i) && m == old(m)[i := e]
        case Full => AllUsed(m, start, max + 1) && m == old(m)
        case Past(_) => false
        case Starved => m == old(m)
      ensures r == Starved ==> forall b :: Ceiling(m, start, max, b) ==> !old(Enough(b))
      ensures r.Full? ==> head == old(head) && nodes == old(nodes) && spare == old(spare)
      ensures start > max ==> r.Full?
      ensures r != Starved && old(Tidy(nodes, None)) ==> Tidy(nodes, None)
      ensures r != Starved && old(Lean()) ==> Lean()
    {
      hide Rooted, Tidy, Reach, SnugAt, Needs;
      ghost var was, h, snug := m, Height(), Snug();
      r := GetFree(start, max);
      if r.Hit? {
        Occupy(r.i, e);
        if snug {
          StaysSnug(was, h, r.i, e);
        }
      }
    }

    lemma StoreLinked(i: nat, e: Entry)
      requires Valid() && idr && !e.Child?
      ensures Linked(View().(m := m[i := e])) && e == Stored(m[i := e], i)
    {
      RootedLinked(nodes, head, root, View(), Fresh);
      hide Rooted;
    }

    lemma StaysSnug(was: map<nat, Entry>, h: nat, i: nat, e: Entry)
      requires SnugAt(idr, was, h) && m == was[i := e] && Height() == Higher(h, Needs(idr, i))
      ensures Snug()
    {
      SnugStored(idr, was, h, i, e);
    }

    /** radix_tree_iter_replace and radix_tree_iter_tag_clear on the leaf slot of an unused index */
    method Occupy(i: nat, e: Entry)
      requires Valid() && idr && !e.Child? && i !in m && head.Top? && (0, i / 4) in nodes
      modifies this
      ensures Valid() && m == old(m)[i := e] && head == old(head)
      ensures old(Tidy(nodes, Some((0, i / 4)))) ==> Tidy(nodes, None)
    {
      StoreLinked(i, e);
      TagsTaken(m, tagged, i, e);
      hide Tidy, Rooted, Linked, SameShape, TagsRight;
      PutLeaf(i, e, 1, m[i := e]);
      KeepNode(i);
      ghost var ns := nodes;
      ClearUp(i, IDR_FREE);
      SameTidy(ns, nodes, None);
    }

    /** delete_node after a replacement: the node of index i holds an entry, so nothing goes away. */
    method KeepNode(i: nat)
      requires Ok(Fresh) && idr && i in m
      modifies this`head, this`nodes, this`root, this`spare
      ensures Ok(Fresh) && head.Top? && (0, i / 4) in nodes && head == old(head) && nodes == old(nodes)
    {
      StoredPath(nodes, View(), i, 0);
      assert Prefix(i, 1) == i / 4;
      LeafOccupied(i);
      DeleteNode(0, i / 4);
    }

    /** idr_replace on this tree: the entry of an index in use changes, and nothing else. */
    method ReplaceIndex(i: nat, e: Entry) returns (was: Option<Entry>)
      requires Valid() && idr && !e.Child?
      modifies this
      ensures Valid() && tagged == old(tagged)
      ensures (old(Tidy(nodes, None)) ==> Tidy(nodes, None)) && (old(Lean()) ==> Lean())
      ensures if i in old(m) then was == Some(old(m)[i]) && m == old(m)[i := e] else was == None && m == old(m)
    {
      var entry, at := Lookup(i);
      var unused := TagGet(i, IDR_FREE);
      if at.Nowhere? || unused {
        return None;
      }
      StoredPath(nodes, View(), i, 0);
      assert Prefix(i, 1) == i / 4;
      Overwrite(i, e);
      return Some(entry);
    }

    /** __radix_tree_replace on the leaf slot of an index in use */
    method Overwrite(i: nat, e: Entry)
      requires Valid() && idr && !e.Child? && i in m && head.Top? && (0, i / 4) in nodes
      modifies this
      ensures Valid() && tagged == old(tagged) && m == old(m)[i := e]
      ensures (old(Tidy(nodes, None)) ==> Tidy(nodes, None)) && (old(Lean()) ==> Lean())
    {
      ghost var was, h, snug := m, Height(), Snug();
      StoredFits(i);
      StoreLinked(i, e);
      hide SnugAt, Needs, Tidy, Rooted, Linked;
      TidyWeaker(nodes, (0, i / 4));
      PutLeaf(i, e, 0, m[i := e]);
      KeepNode(i);
      if snug {
        StaysSnug(was, h, i, e);
      }
    }
  }
}
