/**
 * The ID allocator of lib/idr.c: IDs are the indices of a radix tree, offset by
 * idr_base, with the machine's unsigned arithmetic written out.
 */
module Idr {
  import opened Base
  import opened RadixNodes
  import opened RadixTree

  const U32: nat := 0x1_0000_0000
  const INT_MAX: nat := 0x7fff_ffff
  const INT_MIN: int := -0x8000_0000

  /** x - base in unsigned 64-bit arithmetic */
  function Minus(x: nat, base: nat): (r: nat)
    requires x < U64 && base < U64
    ensures r < U64 && (r + base == x || r + base == x + U64)
  {
    if x >= base then x - base else x + U64 - base
  }

  /** A 32-bit pattern read as a C int. */
  function Signed(x: nat): (r: int)
    requires x < U32
    ensures INT_MIN <= r <= INT_MAX && (r == x || r + U32 == x)
  {
    if x <= INT_MAX then x else x - U32
  }

  /** A C int turned into 32 unsigned bits. */
  function Unsigned(x: int): (r: nat)
    requires INT_MIN <= x <= INT_MAX
    ensures r < U32 && (r == x || r == x + U32)
  {
    if x < 0 then x + U32 else x
  }

  datatype Result = Id(id: nat) | NoSpace | OutOfMemory | Invalid

  /** The ID is allocated when the tree stores m. */
  ghost predicate Used(m: map<nat, Entry>, base: nat, id: nat)
  {
    id >= base && id - base in m
  }

  ghost predicate UsedBetween(m: map<nat, Entry>, base: nat, from: nat, to: nat)
  {
    forall id :: from <= id < to ==> Used(m, base, id)
  }

  /** The step from m to m' allocates id, the least unused ID from `from` on. */
  ghost predicate Takes(m: map<nat, Entry>, m': map<nat, Entry>, base: nat, from: nat, id: nat, e: Entry)
  {
    && from <= id && base <= id && !Used(m, base, id) && UsedBetween(m, base, from, id)
    && m' == m[id - base := e]
  }

  /** The least ID a request from start can be given. */
  function Lowest(base: nat, start: nat): nat
  {
    if start < base then base else start
  }

  /** The last ID a request up to max can be given: max - base wraps around when max is below base. */
  function Last(base: nat, max: nat): nat
    requires base < U64 && max < U64
    ensures Last(base, max) == base + Minus(max, base)
  {
    if base <= max then max else max + U64
  }

  /** The last ID that a request up to, and not including, end asks for: INT_MAX when end is not positive. */
  ghost function MaxOf(end: int): nat
    requires end <= INT_MAX
  {
    if end > 0 then end - 1 else INT_MAX
  }

  /** The least ID that idr_alloc_cyclic can give out before it wraps around. */
  function Cursor(base: nat, next: nat, start: int): nat
    requires next < U32 && INT_MIN <= start <= INT_MAX
  {
    Lowest(base, if Signed(next) < start then Unsigned(start) else next)
  }

  /** Where the range of a request from start begins, a negative start being below every ID. */
  function RangeStart(base: nat, start: int): nat
  {
    Lowest(base, if start < 0 then 0 else start)
  }

  /** When idr_alloc_cyclic reports -ENOSPC. */
  ghost predicate CyclicFull(m: map<nat, Entry>, base: nat, next: nat, start: int, max: nat)
    requires next < U32 && INT_MIN <= start <= INT_MAX
  {
    && UsedBetween(m, base, Cursor(base, next, start), max + 1)
    && (start >= 0 ==> UsedBetween(m, base, RangeStart(base, start), max + 1))
  }

  /** -ENOSPC from idr_alloc_cyclic means that the range is in use, whatever is allocated, exactly in this case. */
  lemma CyclicFullMeansFull(base: nat, next: nat, start: int, max: nat)
    requires next < U32 && INT_MIN <= start <= INT_MAX && base <= max <= INT_MAX
    ensures
      (forall m :: CyclicFull(m, base, next, start, max) ==> UsedBetween(m, base, RangeStart(base, start), max + 1))
      <==> start >= 0 || next <= base
  {
    if start < 0 && next > base {
      var m := Upper(base, Cursor(base, next, start), max + 1);
      assert CyclicFull(m, base, next, start, max);
      assert !Used(m, base, base) && RangeStart(base, start) == base;
    }
  }

  /** What is stored when the IDs from `from` up to, and not including, `to` are in use. */
  ghost function Upper(base: nat, from: nat, to: nat): (m: map<nat, Entry>)
    requires base < from
    ensures forall i :: i in m <==> from <= i + base < to
  {
    if to <= from then map[] else Upper(base, from, to - 1)[to - 1 - base := Null]
  }

  lemma TakesNone(m: map<nat, Entry>, m': map<nat, Entry>, base: nat, from: nat, id: nat, e: Entry, to: nat)
    ensures Takes(m, m', base, from, id, e) && id < to ==> !UsedBetween(m, base, from, to)
  {
  }

  lemma Narrower(m: map<nat, Entry>, base: nat, from: nat, from': nat, to: nat)
    requires from <= from'
    ensures UsedBetween(m, base, from, to) ==> UsedBetween(m, base, from', to)
  {
  }

  /** Where the two searches of idr_alloc_cyclic begin. */
  lemma CursorIs(base: nat, next: nat, start: int, max: nat)
    requires base < U32 && next < U32 && INT_MIN <= start <= INT_MAX && max <= INT_MAX
    ensures
      var id := if Signed(next) < start then Unsigned(start) else next;
      && Cursor(base, next, start) == Lowest(base, id)
      && (id <= Unsigned(start) && start >= 0 ==> id == start)
    ensures start >= 0 ==>
      RangeStart(base, start) == Lowest(base, Unsigned(start)) == Lowest(base, start) <= Cursor(base, next, start)
    ensures base <= max ==> Last(base, max) == max
    ensures start < 0 && base <= max ==> Lowest(base, Unsigned(start)) > max
    ensures start < 0 && next <= base <= max ==> Cursor(base, next, start) == RangeStart(base, start)
    ensures start < 0 && base <= max < next ==> Cursor(base, next, start) > max
  {
  }

  class Allocator {
    const tree: Tree
    const base: nat
    var next: nat

    ghost predicate Valid()
      reads this, tree
    {
      Fact(tree.Valid()) && tree.idr && base < U32 && next < U32
    }

    constructor (base: nat, spare: nat)
      requires base < U32
      ensures Valid() && fresh(tree) && tree.m == map[] && this.base == base && next == 0
      ensures tree.spare == spare && tree.Height() == 0
    {
      tree := new Tree(true, spare);
      this.base := base;
      next := 0;
    }

    /** There is memory for the least unused ID from start on, or for ID last. */
    ghost predicate Room(start: nat, last: nat)
      reads this, tree
    {
      exists id ::
        id >= Lowest(base, start) && (id >= last || !Used(tree.m, base, id)) && tree.Enough(id - base)
    }

    /**
     * idr_alloc_u32.  The tree gives out the least unused ID from Lowest(base, start) on, here in
     * `given`.  When base <= max that ID is in the range asked for, and -ENOSPC means there
     * is none; when max < base, max - base wraps around and `given` is always above max.
     */
    method AllocU32(e: Entry, start: nat, max: nat) returns (r: Result, ghost given: nat)
      requires Valid() && start < U32 && max < U64 && !e.Child?
      modifies tree
      ensures Valid() && !r.Invalid?
      ensures r.Id? ==> Takes(old(tree.m), tree.m, base, Lowest(base, start), given, e) && r.id == given % U32
      ensures r.Id? ==> given <= Last(base, max) && (given <= max <==> base <= max)
      ensures !r.Id? ==> tree.m == old(tree.m)
      ensures r.NoSpace? ==> UsedBetween(tree.m, base, Lowest(base, start), Last(base, max) + 1)
      ensures Lowest(base, start) > Last(base, max) ==> r.NoSpace?
      ensures r.NoSpace? ==>
        tree.head == old(tree.head) && tree.nodes == old(tree.nodes) && tree.spare == old(tree.spare)
      ensures old(Room(start, Last(base, max))) ==> !r.OutOfMemory?
      ensures old(tree.Enough(Minus(max, base))) ==> !r.OutOfMemory?
      ensures !r.OutOfMemory? && old(Tidy(tree.nodes, None)) ==> Tidy(tree.nodes, None)
      ensures !r.OutOfMemory? && old(tree.Lean()) ==> tree.Lean()
    {
      hide Tree.Valid, Tree.Lean, Tidy;
      var from := if start < base then 0 else start - base;
      var p := tree.AllocIndex(e, from, Minus(max, base));
      given := 0;
      if p.Hit? {
        r, given := Id((p.i + base) % U32), p.i + base;
      } else {
        r := if p.Full? then NoSpace else OutOfMemory;
      }
    }

    /** idr_alloc: IDs from start up to, and not including, end; `given` as in AllocU32 */
    method Alloc(e: Entry, start: int, end: int) returns (r: Result, ghost given: nat)
      requires Valid() && start <= INT_MAX && end <= INT_MAX && !e.Child?
      modifies tree
      ensures Valid() && (r.Invalid? <==> start < 0)
      ensures !r.OutOfMemory? && old(Tidy(tree.nodes, None)) ==> Tidy(tree.nodes, None)
      ensures !r.OutOfMemory? && old(tree.Lean()) ==> tree.Lean()
      ensures !r.Id? ==> tree.m == old(tree.m)
      ensures r.Id? ==> Takes(old(tree.m), tree.m, base, Lowest(base, start), given, e) && r.id == given % U32
      ensures r.Id? ==> given <= Last(base, MaxOf(end)) && (given <= MaxOf(end) <==> base <= MaxOf(end))
      ensures r.Id? && base <= MaxOf(end) ==> r.id == given
      ensures r.NoSpace? ==> UsedBetween(tree.m, base, Lowest(base, start), Last(base, MaxOf(end)) + 1)
      ensures r.Id? && base <= INT_MAX && (end > 0 ==> base < end) ==>
        r.id == given <= INT_MAX && (end > 0 ==> r.id < end)
      ensures r.NoSpace? && end > 0 && base < end ==> UsedBetween(tree.m, base, Lowest(base, start), end)
      ensures r.NoSpace? && end <= 0 && base <= INT_MAX ==>
        UsedBetween(tree.m, base, Lowest(base, start), INT_MAX + 1)
      ensures start >= 0 && old(Room(start, Last(base, MaxOf(end)))) ==>
        && !r.OutOfMemory?
        && (r.NoSpace? <==> UsedBetween(old(tree.m), base, Lowest(base, start), Last(base, MaxOf(end)) + 1))
    {
      hide Tree.Valid, Tree.Lean, Tidy, Room;
      r, given := Invalid, 0;
      if start >= 0 {
        r, given := AllocU32(e, start, if end > 0 then end - 1 else INT_MAX);
      }
    }

    /**
     * idr_alloc_cyclic: the least unused ID from the cursor on, or else the least from
     * start on; the cursor moves past the ID given out.  A negative start is not rejected,
     * and turned unsigned it is above every ID, so that the search does not wrap around.
     */
    method AllocCyclic(e: Entry, start: int, end: int) returns (r: Result, ghost given: nat)
      requires Valid() && INT_MIN <= start <= INT_MAX && end <= INT_MAX && !e.Child?
      modifies this`next, tree
      ensures Valid() && !r.Invalid?
      ensures !r.OutOfMemory? && old(Tidy(tree.nodes, None)) ==> Tidy(tree.nodes, None)
      ensures !r.OutOfMemory? && old(tree.Lean()) ==> tree.Lean()
      ensures if r.Id? then next == (r.id + 1) % U32 else next == old(next) && tree.m == old(tree.m)
      ensures r.Id? ==> r.id == given % U32 && given <= Last(base, MaxOf(end))
      ensures r.Id? ==> (given <= MaxOf(end) <==> base <= MaxOf(end)) && (base <= MaxOf(end) ==> r.id == given)
      ensures r.Id? ==>
        var from := Cursor(base, old(next), start);
        || Takes(old(tree.m), tree.m, base, from, given, e)
        || (&& UsedBetween(old(tree.m), base, from, Last(base, MaxOf(end)) + 1)
            && Takes(old(tree.m), tree.m, base, Lowest(base, Unsigned(start)), given, e))
      ensures r.NoSpace? ==>
        && UsedBetween(tree.m, base, Cursor(base, old(next), start), Last(base, MaxOf(end)) + 1)
        && (start >= 0 ==> UsedBetween(tree.m, base, RangeStart(base, start), Last(base, MaxOf(end)) + 1))
      ensures r.Id? && base <= INT_MAX && (end > 0 ==> base < end) ==>
        r.id == given <= INT_MAX && (end > 0 ==> r.id < end)
      ensures r.NoSpace? && start >= 0 && end > 0 && base < end ==>
        UsedBetween(tree.m, base, Lowest(base, start), end)
      ensures r.NoSpace? && start >= 0 && end <= 0 && base <= INT_MAX ==>
        UsedBetween(tree.m, base, Lowest(base, start), INT_MAX + 1)
      ensures old(tree.Enough(Minus(MaxOf(end), base))) ==> !r.OutOfMemory?
      ensures old(tree.Enough(Minus(MaxOf(end), base))) && base <= MaxOf(end) ==>
        && (r.NoSpace? <==> CyclicFull(old(tree.m), base, old(next), start, MaxOf(end)))
        && (r.NoSpace? && !UsedBetween(old(tree.m), base, RangeStart(base, start), MaxOf(end) + 1) <==>
            && start < 0 && UsedBetween(old(tree.m), base, Cursor(base, old(next), start), MaxOf(end) + 1)
            && !UsedBetween(old(tree.m), base, RangeStart(base, start), MaxOf(end) + 1))
      ensures start < 0 && base <= MaxOf(end) < old(next) ==> r.NoSpace?
      ensures (start >= 0 || old(next) <= base) && r.NoSpace? && base <= MaxOf(end) ==>
        UsedBetween(old(tree.m), base, RangeStart(base, start), MaxOf(end) + 1)
    {
      hide Tree.Valid, Tree.Lean, Tidy, Takes, UsedBetween, Cursor, RangeStart, Lowest, Last, Room;
      var max := if end > 0 then end - 1 else INT_MAX;
      var id := if Signed(next) < start then Unsigned(start) else next;
      ghost var from, low, m := Lowest(base, id), Lowest(base, Unsigned(start)), tree.m;
      CursorIs(base, next, start, max);
      if start >= 0 {
        Narrower(m, base, low, from, Last(base, max) + 1);
      }
      r, given := AllocU32(e, id, max);
      TakesNone(m, tree.m, base, from, given, e, Last(base, max) + 1);
      if r.NoSpace? && id > Unsigned(start) {
        r, given := AllocU32(e, Unsigned(start), max);
        TakesNone(m, tree.m, base, low, given, e, Last(base, max) + 1);
      }
      if r.Id? {
        next := (r.id + 1) % U32;
      }
    }

    /** idr_remove */
    method Remove(id: nat) returns (e: Entry)
      requires Valid() && id < U64
      modifies tree
      ensures Valid() && e == Stored(old(tree.m), Minus(id, base)) && tree.m == old(tree.m) - {Minus(id, base)}
      ensures old(Tidy(tree.nodes, None)) ==> Tidy(tree.nodes, None)
      ensures old(tree.Lean()) ==> tree.Lean()
    {
      hide Tree.Valid, Tree.Lean, Tidy;
      e := tree.DeleteItem(Minus(id, base), None);
    }

    /** idr_find */
    method Find(id: nat) returns (e: Entry)
      requires Valid() && id < U64
      ensures e == Stored(tree.m, Minus(id, base))
    {
      var at;
      e, at := tree.Lookup(Minus(id, base));
    }

    /** idr_replace; None stands for -ENOENT */
    method Replace(id: nat, e: Entry) returns (was: Option<Entry>)
      requires Valid() && id < U64 && !e.Child?
      modifies tree
      ensures Valid() && (old(Tidy(tree.nodes, None)) ==> Tidy(tree.nodes, None))
      ensures old(tree.Lean()) ==> tree.Lean()
      ensures var i := Minus(id, base);
        if i in old(tree.m)
        then was == Some(old(tree.m)[i]) && tree.m == old(tree.m)[i := e]
        else was == None && tree.m == old(tree.m)
    {
      hide Tree.Valid, Tree.Lean, Tidy;
      was := tree.ReplaceIndex(Minus(id, base), e);
    }
  }

  /** A request for an ID up to 0 from an allocator based at 1 is answered with ID 1. */
  method GivesOutAboveMax(e: Entry) returns (r: Result)
    requires !e.Child?
    ensures r == Id(1)
  {
    hide Tree.Valid, Takes, UsedBetween, Tree.Lean;
    var a := new Allocator(1, 1);
    ghost var given;
    FirstFree(e, 1);
    assert !Used(a.tree.m, a.base, 1) && a.tree.Enough(1 - a.base);
    r, given := a.AllocU32(e, 0, 0);
  }

  lemma FirstFree(e: Entry, base: nat)
    ensures !Used(map[], base, base)
    ensures forall to :: to > base ==> !UsedBetween(map[], base, base, to)
    ensures forall m, id :: Takes(map[], m, base, base, id, e) ==> id == base
  {
    assert !Used(map[], base, base);
  }

  /**
   * With a negative start and the cursor past the range, idr_alloc_cyclic reports -ENOSPC although
   * the range has an unused ID.
   */
  method CyclicMissesFree(e: Entry) returns (a: Allocator, r: Result)
    requires !e.Child?
    ensures r == NoSpace && a.Valid() && a.base == 0 && !Used(a.tree.m, 0, 0)
  {
    hide Tree.Valid, Takes, UsedBetween, Tree.Lean;
    a := new Allocator(0, 1);
    FirstFree(e, 0);
    var first, given := a.AllocCyclic(e, 0, 1);
    assert first == Id(0);
    var was := a.Remove(0);
    r, given := a.AllocCyclic(e, -1, 1);
  }
}
