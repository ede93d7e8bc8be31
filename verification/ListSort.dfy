/**
 * The bottom-up mergesort of lib/list_sort.c, in place on the next and prev
 * links of a circular list.  While it runs, prev links a list of the heads of
 * the sorted sublists that wait to be merged.
 */
module ListSort {
  import opened Base

  /** A list_head inside an element; the comparison looks at the element's key. */
  class Node {
    const key: int
    var next: Node?
    var prev: Node?
  }

  /** The client's comparison: at most 0 when the first argument may stay in front of the second. */
  type Compare = (int, int) -> int

  ghost predicate TotalPreorder(cmp: Compare)
  {
    && (forall x, y :: cmp(x, y) <= 0 || cmp(y, x) <= 0)
    && (forall x, y, z :: cmp(x, y) <= 0 && cmp(y, z) <= 0 ==> cmp(x, z) <= 0)
  }

  // ----- what sorting means -----

  /** x goes in front of the first element it need not follow. */
  ghost function Insert(cmp: Compare, x: Node, s: seq<Node>): seq<Node>
  {
    if s == [] || cmp(x.key, s[0].key) <= 0 then [x] + s else [s[0]] + Insert(cmp, x, s[1..])
  }

  /** The reference: insertion sort. */
  ghost function Sort(cmp: Compare, s: seq<Node>): seq<Node>
  {
    if s == [] then [] else Insert(cmp, s[0], Sort(cmp, s[1..]))
  }

  ghost predicate Sorted(cmp: Compare, s: seq<Node>)
  {
    forall i, j :: 0 <= i < j < |s| ==> cmp(s[i].key, s[j].key) <= 0
  }

  /** The elements of s that compare equal to key k, in order. */
  ghost function Class(cmp: Compare, s: seq<Node>, k: int): seq<Node>
  {
    if s == [] then [] else
      (if cmp(s[0].key, k) <= 0 && cmp(k, s[0].key) <= 0 then [s[0]] else []) + Class(cmp, s[1..], k)
  }

  lemma {:induction false} InsertPermutes(cmp: Compare, x: Node, s: seq<Node>)
    ensures multiset(Insert(cmp, x, s)) == multiset(s) + multiset{x}
  {
    if s == [] || cmp(x.key, s[0].key) <= 0 {
    } else {
      InsertPermutes(cmp, x, s[1..]);
      assert s == [s[0]] + s[1..];
    }
  }

  lemma {:induction false} SortPermutes(cmp: Compare, s: seq<Node>)
    ensures multiset(Sort(cmp, s)) == multiset(s)
  {
    if s != [] {
      SortPermutes(cmp, s[1..]);
      InsertPermutes(cmp, s[0], Sort(cmp, s[1..]));
      assert s == [s[0]] + s[1..];
    }
  }

  lemma SortedCons(cmp: Compare, x: Node, s: seq<Node>)
    requires Sorted(cmp, s) && forall j :: 0 <= j < |s| ==> cmp(x.key, s[j].key) <= 0
    ensures Sorted(cmp, [x] + s)
  {
  }

  lemma InsertMembers(cmp: Compare, x: Node, s: seq<Node>, y: Node)
    requires y in Insert(cmp, x, s)
    ensures y == x || y in s
  {
    InsertPermutes(cmp, x, s);
    assert y in multiset(Insert(cmp, x, s));
  }

  lemma {:induction false} InsertSorts(cmp: Compare, x: Node, s: seq<Node>)
    requires TotalPreorder(cmp) && Sorted(cmp, s)
    ensures Sorted(cmp, Insert(cmp, x, s))
  {
    if s == [] {
    } else if cmp(x.key, s[0].key) <= 0 {
      SortedCons(cmp, x, s);
    } else {
      var t := Insert(cmp, x, s[1..]);
      InsertSorts(cmp, x, s[1..]);
      forall j | 0 <= j < |t|
        ensures cmp(s[0].key, t[j].key) <= 0
      {
        InsertMembers(cmp, x, s[1..], t[j]);
      }
      SortedCons(cmp, s[0], t);
    }
  }

  lemma {:induction false} SortSorts(cmp: Compare, s: seq<Node>)
    requires TotalPreorder(cmp)
    ensures Sorted(cmp, Sort(cmp, s))
  {
    if s != [] {
      SortSorts(cmp, s[1..]);
      InsertSorts(cmp, s[0], Sort(cmp, s[1..]));
    }
  }

  lemma {:induction false} InsertStable(cmp: Compare, x: Node, s: seq<Node>, k: int)
    requires TotalPreorder(cmp)
    ensures Class(cmp, Insert(cmp, x, s), k) == Class(cmp, [x] + s, k)
  {
    if s == [] || cmp(x.key, s[0].key) <= 0 {
    } else {
      InsertStable(cmp, x, s[1..], k);
      assert ([x] + s)[1..] == s && ([x] + s[1..])[1..] == s[1..];
      var t := Insert(cmp, x, s[1..]);
      assert ([s[0]] + t)[1..] == t;
    }
  }

  /** Elements that compare equal keep their order. */
  lemma {:induction false} SortStable(cmp: Compare, s: seq<Node>, k: int)
    requires TotalPreorder(cmp)
    ensures Class(cmp, Sort(cmp, s), k) == Class(cmp, s, k)
  {
    if s != [] {
      SortStable(cmp, s[1..], k);
      var t := Sort(cmp, s[1..]);
      InsertStable(cmp, s[0], t, k);
      assert ([s[0]] + t)[1..] == t;
    }
  }

  // ----- merging -----

  ghost function Merge(cmp: Compare, a: seq<Node>, b: seq<Node>): seq<Node>
  {
    if a == [] then b
    else if b == [] then a
    else if cmp(a[0].key, b[0].key) <= 0 then [a[0]] + Merge(cmp, a[1..], b)
    else [b[0]] + Merge(cmp, a, b[1..])
  }

  lemma {:induction false} MergeInsert(cmp: Compare, x: Node, a: seq<Node>, b: seq<Node>)
    requires TotalPreorder(cmp)
    ensures Merge(cmp, Insert(cmp, x, a), b) == Insert(cmp, x, Merge(cmp, a, b))
    decreases |a| + |b|
  {
    var xa := Insert(cmp, x, a);
    if b == [] {
    } else if a == [] || cmp(x.key, a[0].key) <= 0 {
      assert xa == [x] + a && xa[1..] == a;
      if cmp(x.key, b[0].key) > 0 {
        MergeInsert(cmp, x, a, b[1..]);
      }
    } else {
      assert xa == [a[0]] + Insert(cmp, x, a[1..]) && xa[1..] == Insert(cmp, x, a[1..]);
      if cmp(a[0].key, b[0].key) <= 0 {
        MergeInsert(cmp, x, a[1..], b);
      } else {
        MergeInsert(cmp, x, a, b[1..]);
      }
    }
  }

  /** Merging the sorted halves sorts the whole, with the first half winning ties. */
  lemma {:induction false} MergeSorts(cmp: Compare, a: seq<Node>, b: seq<Node>)
    requires TotalPreorder(cmp)
    ensures Merge(cmp, Sort(cmp, a), Sort(cmp, b)) == Sort(cmp, a + b)
  {
    if a == [] {
      assert a + b == b;
    } else {
      hide TotalPreorder, Merge, Insert;
      MergeSorts(cmp, a[1..], b);
      MergeInsert(cmp, a[0], Sort(cmp, a[1..]), Sort(cmp, b));
      assert (a + b)[1..] == a[1..] + b && (a + b)[0] == a[0];
    }
  }

  // ----- lists in memory -----

  ghost function Set(s: seq<Node>): set<Node>
  {
    set n | n in s
  }

  ghost predicate NoDup(s: seq<Node>)
  {
    forall i, j :: 0 <= i < j < |s| ==> s[i] != s[j]
  }

  /** Each node of s leads to the one after it. */
  ghost predicate Links(s: seq<Node>)
    reads Set(s)
  {
    forall i, j :: 0 <= i && j == i + 1 && j < |s| ==> s[i].next == s[j]
  }

  /** x heads the null-terminated list s. */
  ghost predicate Chain(x: Node?, s: seq<Node>)
    reads Set(s)
  {
    NoDup(s) && Links(s) && if s == [] then x == null else x == s[0] && s[|s| - 1].next == null
  }

  /** head leads through out to its last node, tail, whose next link is still to be written. */
  ghost predicate Built(head: Node, out: seq<Node>, tail: Node?)
    reads Set(out)
  {
    if tail == null then out == []
    else out != [] && head == out[0] && tail == out[|out| - 1] && NoDup(out) && Links(out)
  }

  /** *tail = n, where tail is the head variable or the next field of the last node */
  method Attach(head: Node, tail: Node?, n: Node?, ghost out: seq<Node>, ghost s: seq<Node>) returns (newHead: Node)
    requires Built(head, out, tail) && Chain(n, s) && Set(out) !! Set(s) && s != []
    modifies (if tail == null then {} else {tail})`next
    ensures newHead == if tail == null then n else head
    ensures Chain(n, s) && Chain(newHead, out + s)
  {
    assert tail != null ==> tail in Set(out);
    if tail == null {
      assert out + s == s;
      return n;
    }
    tail.next := n;
    forall i, j | 0 <= i < j < |out + s|
      ensures (out + s)[i] != (out + s)[j]
    {
      if i < |out| <= j {
        assert out[i] in Set(out) && s[j - |out|] in Set(s);
      }
    }
    return head;
  }

  /** What a merge works on: the part built so far and the two lists still to be taken from. */
  ghost predicate Parts(head: Node, out: seq<Node>, tail: Node?, a: Node?, sa: seq<Node>, b: Node?, sb: seq<Node>)
    reads Set(out), Set(sa), Set(sb)
  {
    && Built(head, out, tail) && Chain(a, sa) && Chain(b, sb)
    && Set(out) !! Set(sa) && Set(out) !! Set(sb) && Set(sa) !! Set(sb)
  }

  /** *tail = n; tail = &n->next: the first node of the list s moves behind out. */
  method Take(head: Node, tail: Node?, n: Node, m: Node?, ghost out: seq<Node>, ghost s: seq<Node>, ghost t: seq<Node>)
    returns (newHead: Node, rest: Node?)
    requires Fact(Parts(head, out, tail, n, s, m, t))
    modifies (if tail == null then {} else {tail})`next
    ensures s != [] && n == s[0] && Fact(Parts(newHead, out + [n], n, rest, s[1..], m, t))
    ensures Fact(Parts(newHead, out + [n], n, m, t, rest, s[1..]))
    ensures Set(out + [n]) + Set(s[1..]) == Set(out) + Set(s) && n in Set(out + [n])
    ensures if s[1..] == [] then rest == null else rest == s[1]
  {
    assert tail != null ==> tail in Set(out);
    newHead := Attach(head, tail, n, out, s);
    rest := n.next;
    assert out + [n] == (out + s)[..|out| + 1];
    ghost var all := out + s;
    assert forall i, j :: 0 <= i && j == i + 1 && j < |out + [n]| ==>
      (out + [n])[i] == all[i] && (out + [n])[j] == all[j];
    SetTail(s);
    SetSnoc(out, n);
  }

  lemma PartsSwap(head: Node, out: seq<Node>, tail: Node?, a: Node?, sa: seq<Node>, b: Node?, sb: seq<Node>)
    requires Fact(Parts(head, out, tail, a, sa, b, sb))
    ensures Fact(Parts(head, out, tail, b, sb, a, sa))
  {
  }

  /** *tail = m: one list is used up, the rest of the other follows. */
  method Finish(head: Node, tail: Node, m: Node?, ghost out: seq<Node>, ghost t: seq<Node>) returns (newHead: Node)
    requires Fact(Parts(head, out, tail, null, [], m, t)) && t != []
    modifies {tail}`next
    ensures Fact(Chain(newHead, out + t)) && newHead == head
  {
    newHead := Attach(head, tail, m, out, t);
  }

  lemma SetCons(x: Node, s: seq<Node>)
    ensures Set([x] + s) == {x} + Set(s)
  {
  }

  lemma SetSnoc(s: seq<Node>, x: Node)
    ensures Set(s + [x]) == Set(s) + {x}
  {
  }

  lemma SetTail(s: seq<Node>)
    requires s != [] && s[0] !in s[1..]
    ensures Set(s[1..]) == Set(s) - {s[0]} && s[0] in Set(s)
  {
    SetCons(s[0], s[1..]);
    assert s == [s[0]] + s[1..];
  }

  lemma MergeEnds(cmp: Compare, a: seq<Node>, b: seq<Node>)
    ensures a == [] ==> Merge(cmp, a, b) == b
    ensures b == [] ==> Merge(cmp, a, b) == a
  {
  }

  lemma MergeStep(cmp: Compare, out: seq<Node>, a: seq<Node>, b: seq<Node>)
    requires a != [] && b != []
    ensures cmp(a[0].key, b[0].key) <= 0 ==> out + Merge(cmp, a, b) == (out + [a[0]]) + Merge(cmp, a[1..], b)
    ensures cmp(a[0].key, b[0].key) > 0 ==> out + Merge(cmp, a, b) == (out + [b[0]]) + Merge(cmp, a, b[1..])
  {
  }

  lemma {:induction false} MergeMembers(cmp: Compare, a: seq<Node>, b: seq<Node>)
    ensures Set(Merge(cmp, a, b)) == Set(a) + Set(b)
    decreases |a| + |b|
  {
    if a != [] && b != [] {
      if cmp(a[0].key, b[0].key) <= 0 {
        MergeMembers(cmp, a[1..], b);
        SetCons(a[0], Merge(cmp, a[1..], b));
        SetCons(a[0], a[1..]);
        assert a == [a[0]] + a[1..];
      } else {
        MergeMembers(cmp, a, b[1..]);
        SetCons(b[0], Merge(cmp, a, b[1..]));
        SetCons(b[0], b[1..]);
        assert b == [b[0]] + b[1..];
      }
    }
  }

  /**
   * One turn of the loop of merge, on lists that begin with a and b: the lesser head is
   * taken, and when that empties its list the other one is appended and the merge is done.
   */
  method Round(cmp: Compare, head: Node, tail: Node?, a: Node, b: Node, ghost out: seq<Node>, ghost sa: seq<Node>,
               ghost sb: seq<Node>)
    returns (head': Node, tail': Node, a': Node?, b': Node?, ghost out': seq<Node>, ghost sa': seq<Node>,
             ghost sb': seq<Node>)
    requires sa != [] && sb != [] && a == sa[0] && b == sb[0] && Fact(Parts(head, out, tail, a, sa, b, sb))
    requires tail == null || tail in Set(out)
    modifies Set(out)`next, Set(sa)`next, Set(sb)`next
    ensures tail' in Set(out') && Set(out') + Set(sa') + Set(sb') == Set(out) + Set(sa) + Set(sb)
    ensures out' + Merge(cmp, sa', sb') == out + Merge(cmp, sa, sb) && |sa'| + |sb'| < |sa| + |sb|
    ensures a' != null && b' != null ==>
      sa' != [] && sb' != [] && a' == sa'[0] && b' == sb'[0] && Fact(Parts(head', out', tail', a', sa', b', sb'))
    ensures a' == null || b' == null ==> Fact(Chain(head', out' + Merge(cmp, sa', sb')))
  {
    hide Parts, Built, Chain, Set, Merge;
    MergeStep(cmp, out, sa, sb);
    head', tail', a', b', sa', sb' := head, a, a, b, sa, sb;
    if cmp(a.key, b.key) <= 0 {
      head', a' := Take(head, tail, a, b, out, sa, sb);
      out', sa' := out + [a], sa[1..];
      if a' == null {
        MergeEnds(cmp, sa', sb');
        assert sa' == [] && Fact(Parts(head', out', a, null, [], b, sb));
        head' := Finish(head', tail', b, out', sb);
      }
    } else {
      PartsSwap(head, out, tail, a, sa, b, sb);
      head', b' := Take(head, tail, b, a, out, sb, sa);
      tail', out', sb' := b, out + [b], sb[1..];
      if b' == null {
        MergeEnds(cmp, sa', sb');
        assert sb' == [] && Fact(Parts(head', out', b, null, [], a, sa));
        head' := Finish(head', tail', a, out', sa);
      }
    }
  }

  lemma StartParts(a: Node, b: Node, sa: seq<Node>, sb: seq<Node>)
    requires Fact(Chain(a, sa)) && Fact(Chain(b, sb)) && Set(sa) !! Set(sb)
    ensures Fact(Parts(a, [], null, a, sa, b, sb)) && sa != [] && sb != [] && a == sa[0] && b == sb[0]
    ensures Set([]) == {} && a in Set(sa) && b in Set(sb)
  {
  }

  /** merge */
  method MergeLists(cmp: Compare, a0: Node, b0: Node, ghost sa: seq<Node>, ghost sb: seq<Node>)
    returns (head: Node, ghost sizes: (nat, nat))
    requires Fact(Chain(a0, sa)) && Fact(Chain(b0, sb)) && Set(sa) !! Set(sb)
    modifies Set(sa)`next, Set(sb)`next
    ensures Fact(Chain(head, Merge(cmp, sa, sb))) && sizes == (|sa|, |sb|)
  {
    hide Parts, Built, Chain, Merge, Set;
    sizes := (|sa|, |sb|);
    var a: Node?, b: Node?, tail: Node? := a0, b0, null;
    head := a0;
    ghost var out, ra, rb := [], sa, sb;
    StartParts(a0, b0, sa, sb);
    while true
      invariant ra != [] && rb != [] && a == ra[0] && b == rb[0] && Fact(Parts(head, out, tail, a, ra, b, rb))
      invariant Set(out) + Set(ra) + Set(rb) == Set(sa) + Set(sb)
      invariant tail == null || tail in Set(out)
      invariant Merge(cmp, sa, sb) == out + Merge(cmp, ra, rb)
      decreases |ra| + |rb|
    {
      head, tail, a, b, out, ra, rb := Round(cmp, head, tail, a, b, out, ra, rb);
      if a == null || b == null {
        return;
      }
    }
  }

  // ----- the pending lists: their sizes -----

  function Pow2(k: nat): nat
  {
    if k == 0 then 1 else 2 * Pow2(k - 1)
  }

  /** How many lists of size 2^k are pending, when c is count >> k and low is bit k - 1 of count. */
  function Pending2(c: nat, low: nat): nat
  {
    if c == 0 then 0 else 1 - c % 2 + low
  }

  /** The sizes of the lists of at least 2^k elements, newest first, as the bits of count fix them. */
  ghost predicate Shape(ls: seq<seq<Node>>, c: nat, low: nat, k: nat)
    decreases c
  {
    if c == 0 then ls == []
    else
      var n := Pending2(c, low);
      && n <= |ls| && (forall i :: 0 <= i < n ==> |ls[i]| == Pow2(k))
      && Shape(ls[n..], c / 2, c % 2, k + 1)
  }

  /** The number of one bits below the lowest zero bit of count. */
  function Ones(count: nat): nat
  {
    if count % 2 == 1 then 1 + Ones(count / 2) else 0
  }

  /** count shifted right past its trailing one bits */
  function Above(count: nat): nat
  {
    if count % 2 == 1 then Above(count / 2) else count
  }

  /** The two lists that the round merges become one. */
  ghost function Joined(cmp: Compare, ls: seq<seq<Node>>, t: nat): seq<seq<Node>>
    requires t + 1 < |ls|
  {
    ls[..t] + [Merge(cmp, ls[t + 1], ls[t])] + ls[t + 2..]
  }

  ghost function AfterMerge(cmp: Compare, ls: seq<seq<Node>>, c: nat): seq<seq<Node>>
  {
    if Above(c) == 0 || Ones(c) + 1 >= |ls| then ls else Joined(cmp, ls, Ones(c))
  }

  lemma {:induction false} MergeLength(cmp: Compare, a: seq<Node>, b: seq<Node>)
    ensures |Merge(cmp, a, b)| == |a| + |b|
    decreases |a| + |b|
  {
    if a != [] && b != [] {
      if cmp(a[0].key, b[0].key) <= 0 {
        MergeLength(cmp, a[1..], b);
      } else {
        MergeLength(cmp, a, b[1..]);
      }
    }
  }

  /** Where the bits of count send the merge there are two lists of the same size. */
  lemma {:induction false} PairToMerge(ls: seq<seq<Node>>, c: nat, k: nat)
    requires Shape(ls, c, 1, k)
    ensures Ones(c) <= |ls|
    ensures Above(c) != 0 ==>
      Ones(c) + 1 < |ls| && |ls[Ones(c)]| == |ls[Ones(c) + 1]| == Pow2(k + Ones(c))
    decreases c
  {
    if c % 2 == 1 {
      PairToMerge(ls[1..], c / 2, k + 1);
    }
  }

  lemma JoinedBelow(cmp: Compare, ls: seq<seq<Node>>, t: nat)
    requires 0 < t && t + 1 < |ls|
    ensures Joined(cmp, ls, t) == [ls[0]] + Joined(cmp, ls[1..], t - 1)
  {
    assert ls[1..][..t - 1] == ls[1..t] && ls[..t] == [ls[0]] + ls[1..t];
    assert ls[1..][t + 1..] == ls[t + 2..];
  }

  lemma AfterMergeOdd(cmp: Compare, ls: seq<seq<Node>>, c: nat, k: nat)
    requires Shape(ls, c, 1, k) && c % 2 == 1
    ensures AfterMerge(cmp, ls, c) == [ls[0]] + AfterMerge(cmp, ls[1..], c / 2)
  {
    PairToMerge(ls, c, k);
    if Above(c) != 0 {
      JoinedBelow(cmp, ls, Ones(c));
    } else {
      assert ls == [ls[0]] + ls[1..];
    }
  }

  lemma ShapeOdd(ls: seq<seq<Node>>, c: nat, k: nat)
    requires Shape(ls, c, 1, k) && c % 2 == 1
    ensures ls != [] && |ls[0]| == Pow2(k) && Shape(ls[1..], c / 2, 1, k + 1)
  {
  }

  /** The merge makes room for one more list at the bottom. */
  lemma {:induction false} Bump(cmp: Compare, ls: seq<seq<Node>>, c: nat, k: nat)
    requires Shape(ls, c, 1, k)
    ensures Shape(AfterMerge(cmp, ls, c), c + 1, 0, k)
    decreases c
  {
    hide Shape, AfterMerge, Joined, Pow2;
    if c == 0 {
      BumpZero(cmp, ls, k);
    } else if c % 2 == 1 {
      ShapeOdd(ls, c, k);
      AfterMergeOdd(cmp, ls, c, k);
      Bump(cmp, ls[1..], c / 2, k + 1);
      assert (c + 1) / 2 == c / 2 + 1;
      LowerOne(AfterMerge(cmp, ls[1..], c / 2), c + 1, k, ls[0]);
    } else {
      BumpEven(cmp, ls, c, k);
    }
  }

  lemma BumpZero(cmp: Compare, ls: seq<seq<Node>>, k: nat)
    requires Shape(ls, 0, 1, k)
    ensures Shape(AfterMerge(cmp, ls, 0), 1, 0, k)
  {
    SkipLevel(ls, 1, k);
  }

  lemma ShapeEven(ls: seq<seq<Node>>, c: nat, k: nat)
    requires Shape(ls, c, 1, k) && c > 0 && c % 2 == 0
    ensures |ls| >= 2 && |ls[0]| == |ls[1]| == Pow2(k) && Shape(ls[2..], c / 2, 0, k + 1)
  {
    assert Pending2(c, 1) == 2;
  }

  lemma AfterMergeEven(cmp: Compare, ls: seq<seq<Node>>, c: nat)
    requires |ls| >= 2 && c > 0 && c % 2 == 0
    ensures AfterMerge(cmp, ls, c) == [Merge(cmp, ls[1], ls[0])] + ls[2..]
  {
    hide Merge;
    assert Ones(c) == 0 && Above(c) == c;
    assert ls[..0] + [Merge(cmp, ls[1], ls[0])] == [Merge(cmp, ls[1], ls[0])];
  }

  lemma BumpEven(cmp: Compare, ls: seq<seq<Node>>, c: nat, k: nat)
    requires Shape(ls, c, 1, k) && c > 0 && c % 2 == 0
    ensures Shape(AfterMerge(cmp, ls, c), c + 1, 0, k)
  {
    hide Shape, Merge, AfterMerge, Pow2, Joined, Ones, Above, Pending2;
    ShapeEven(ls, c, k);
    var merged := Merge(cmp, ls[1], ls[0]);
    MergeLength(cmp, ls[1], ls[0]);
    NextPow2(k);
    AfterMergeEven(cmp, ls, c);
    RaiseLow(ls[2..], c / 2, k + 1, merged);
    assert (c + 1) / 2 == c / 2;
    SkipLevel([merged] + ls[2..], c + 1, k);
  }

  lemma NextPow2(k: nat)
    ensures Pow2(k + 1) == 2 * Pow2(k)
  {
  }

  lemma SkipLevel(ls: seq<seq<Node>>, c: nat, k: nat)
    requires c % 2 == 1 && Shape(ls, c / 2, 1, k + 1)
    ensures Shape(ls, c, 0, k)
  {
    assert ls[0..] == ls;
  }

  lemma LowerOne(ls: seq<seq<Node>>, c: nat, k: nat, x: seq<Node>)
    requires c > 0 && c % 2 == 0 && Shape(ls, c / 2, 0, k + 1) && |x| == Pow2(k)
    ensures Shape([x] + ls, c, 0, k)
  {
    assert ([x] + ls)[1..] == ls;
  }

  lemma RaiseLow(ls: seq<seq<Node>>, c: nat, k: nat, x: seq<Node>)
    requires Shape(ls, c, 0, k) && c > 0 && |x| == Pow2(k)
    ensures Shape([x] + ls, c, 1, k)
  {
    var n := Pending2(c, 0);
    assert ([x] + ls)[n + 1..] == ls[n..];
  }

  /** One round: merge as the bits say, then add a list of one element. */
  lemma RoundShape(cmp: Compare, ls: seq<seq<Node>>, count: nat, x: Node)
    requires Shape(ls, count, 1, 0)
    ensures Shape([[x]] + AfterMerge(cmp, ls, count), count + 1, 1, 0)
  {
    Bump(cmp, ls, count, 0);
    RaiseLow(AfterMerge(cmp, ls, count), count + 1, 0, [x]);
  }

  /** Neither part is more than twice the other. */
  predicate TwoToOne(x: nat, y: nat)
  {
    x <= 2 * y && y <= 2 * x
  }

  // ----- the merges, as the number of elements fixes them -----

  /** The sizes of the two lists that the round at count merges. */
  function RoundLog(count: nat): seq<(nat, nat)>
  {
    if Above(count) == 0 then [] else [(Pow2(Ones(count)), Pow2(Ones(count)))]
  }

  /** The merges of the first n rounds. */
  ghost function RoundLogs(n: nat): seq<(nat, nat)>
  {
    if n == 0 then [] else RoundLogs(n - 1) + RoundLog(n - 1)
  }

  /** The sizes of the pending lists of at least 2^k elements, newest first. */
  ghost function Sizes(c: nat, low: nat, k: nat): seq<nat>
    decreases c
  {
    if c == 0 then [] else Copies(Pending2(c, low), Pow2(k)) + Sizes(c / 2, c % 2, k + 1)
  }

  ghost function Copies(n: nat, x: nat): (s: seq<nat>)
    ensures |s| == n && forall i :: 0 <= i < n ==> s[i] == x
  {
    if n == 0 then [] else [x] + Copies(n - 1, x)
  }

  /** The merges that take lists of these sizes, one after the other, into a list of acc elements. */
  ghost function EndLog(sizes: seq<nat>, acc: nat): seq<(nat, nat)>
  {
    if sizes == [] then [] else [(sizes[0], acc)] + EndLog(sizes[1..], acc + sizes[0])
  }

  /** The sizes of both sides of every merge that sorting n elements makes. */
  ghost function MergeLog(n: nat): seq<(nat, nat)>
  {
    var sizes := Sizes(n, 1, 0);
    RoundLogs(n) + if sizes == [] then [] else EndLog(sizes[1..], sizes[0])
  }

  ghost function Lengths(ls: seq<seq<Node>>): seq<nat>
  {
    if ls == [] then [] else [|ls[0]|] + Lengths(ls[1..])
  }

  lemma {:induction false} ShapeSizes(ls: seq<seq<Node>>, c: nat, low: nat, k: nat)
    requires Shape(ls, c, low, k) && low < 2
    ensures Lengths(ls) == Sizes(c, low, k)
    decreases c
  {
    if c > 0 {
      var n := Pending2(c, low);
      ShapeSizes(ls[n..], c / 2, c % 2, k + 1);
      FrontLengths(ls, n, Pow2(k));
    }
  }

  lemma {:induction false} FrontLengths(ls: seq<seq<Node>>, n: nat, size: nat)
    requires n <= |ls| && forall i :: 0 <= i < n ==> |ls[i]| == size
    ensures Lengths(ls) == Copies(n, size) + Lengths(ls[n..])
  {
    if n == 0 {
      assert ls[0..] == ls;
      assert Copies(0, size) + Lengths(ls) == Lengths(ls);
    } else {
      FrontLengths(ls[1..], n - 1, size);
      assert ls[1..][n - 1..] == ls[n..];
      var c, l := Copies(n - 1, size), Lengths(ls[n..]);
      assert [size] + (c + l) == ([size] + c) + l;
    }
  }

  lemma EndLogCons(x: nat, rest: seq<nat>, acc: nat)
    ensures EndLog([x] + rest, acc) == [(x, acc)] + EndLog(rest, acc + x)
  {
    assert ([x] + rest)[1..] == rest;
  }

  /** The bounds on the number of elements in lists shorter than 2^k. */
  ghost predicate Smaller(low: nat, k: nat, acc: nat)
    requires k > 0
  {
    if low == 1 then Pow2(k - 1) <= acc < Pow2(k) else Pow2(k) <= acc < Pow2(k) + Pow2(k - 1)
  }

  lemma SmallerNext(c: nat, low: nat, k: nat, acc: nat)
    requires c > 0 && low < 2 && k > 0 && Smaller(low, k, acc)
    ensures Smaller(c % 2, k + 1, acc + Pending2(c, low) * Pow2(k))
    ensures Pending2(c, low) > 0 ==> TwoToOne(Pow2(k), acc)
    ensures Pending2(c, low) > 1 ==> TwoToOne(Pow2(k), acc + Pow2(k))
  {
    var n, half, p := Pending2(c, low), Pow2(k - 1), Pow2(k);
    assert p == 2 * half && Pow2(k + 1) == 2 * p;
    assert n == 0 || n == 1 || n == 2;
    assert n * p == if n == 0 then 0 else if n == 1 then p else p + p;
    hide Pow2;
  }

  lemma {:induction false} SizesBalanced(c: nat, low: nat, k: nat, acc: nat)
    requires low < 2 && k > 0 && Smaller(low, k, acc)
    ensures AllTwoToOne(EndLog(Sizes(c, low, k), acc))
    decreases c
  {
    if c > 0 {
      hide Pow2, Smaller, TwoToOne;
      var n := Pending2(c, low);
      SmallerNext(c, low, k, acc);
      SizesBalanced(c / 2, c % 2, k + 1, acc + n * Pow2(k));
      EndLogFront(n, Pow2(k), Sizes(c / 2, c % 2, k + 1), acc);
    }
  }

  lemma EndLogFront(n: nat, size: nat, rest: seq<nat>, acc: nat)
    requires n <= 2 && AllTwoToOne(EndLog(rest, acc + n * size))
    requires n > 0 ==> TwoToOne(size, acc)
    requires n > 1 ==> TwoToOne(size, acc + size)
    ensures AllTwoToOne(EndLog(Copies(n, size) + rest, acc))
  {
    CopiesAre(size);
    hide EndLog, Copies, TwoToOne;
    if n == 0 {
      assert [] + rest == rest;
    } else if n == 1 {
      EndLogCons(size, rest, acc);
    } else {
      assert [size, size] + rest == [size] + ([size] + rest);
      EndLogCons(size, [size] + rest, acc);
      EndLogCons(size, rest, acc + size);
    }
  }

  lemma CopiesAre(x: nat)
    ensures Copies(0, x) == [] && Copies(1, x) == [x] && Copies(2, x) == [x, x]
  {
  }

  ghost predicate AllTwoToOne(log: seq<(nat, nat)>)
  {
    forall e :: e in log ==> TwoToOne(e.0, e.1)
  }

  lemma {:induction false} RoundLogsBalanced(n: nat)
    ensures AllTwoToOne(RoundLogs(n))
  {
    if n > 0 {
      RoundLogsBalanced(n - 1);
    }
  }

  /** No merge is more lopsided than 2:1, however many elements there are. */
  lemma MergesBalanced(n: nat)
    ensures AllTwoToOne(MergeLog(n))
  {
    RoundLogsBalanced(n);
    var sizes := Sizes(n, 1, 0);
    if n > 0 {
      var one := Copies(Pending2(n, 1), 1);
      if n % 2 == 1 {
        SizesBalanced(n / 2, 1, 1, 1);
        assert sizes[1..] == Sizes(n / 2, 1, 1);
      } else {
        SizesBalanced(n / 2, 0, 1, 2);
        assert sizes[1..][1..] == Sizes(n / 2, 0, 1) && sizes[0] == sizes[1] == 1;
      }
    }
  }

  lemma SomePending(n: nat)
    requires n > 0
    ensures Sizes(n, 1, 0) != []
  {
  }

  /** Each merge leaves one list less, so n elements take n - 1 of them. */
  lemma MergesCounted(n: nat)
    requires n > 0
    ensures |MergeLog(n)| == n - 1
  {
    var sizes := Sizes(n, 1, 0);
    RoundsCounted(n);
    EndLogLength(sizes[1..], sizes[0]);
  }

  lemma {:induction false} EndLogLength(sizes: seq<nat>, acc: nat)
    ensures |EndLog(sizes, acc)| == |sizes|
  {
    if sizes != [] {
      EndLogLength(sizes[1..], acc + sizes[0]);
    }
  }

  lemma {:induction false} RoundsCounted(n: nat)
    ensures |RoundLogs(n)| + |Sizes(n, 1, 0)| == n && (n > 0 ==> |Sizes(n, 1, 0)| > 0)
  {
    if n > 0 {
      RoundsCounted(n - 1);
      BumpCount(n - 1, 0);
    }
  }

  /** How the number of pending lists changes with count. */
  lemma {:induction false} BumpCount(c: nat, k: nat)
    ensures |Sizes(c + 1, 0, k)| == |Sizes(c, 1, k)| - (if Above(c) == 0 then 0 else 1)
    ensures |Sizes(c + 1, 1, k)| == |Sizes(c + 1, 0, k)| + 1
    decreases c
  {
    if c % 2 == 1 {
      BumpCount(c / 2, k + 1);
      assert (c + 1) / 2 == c / 2 + 1 && (c + 1) % 2 == 0;
    } else {
      assert (c + 1) / 2 == c / 2 && (c + 1) % 2 == 1;
      if c > 0 {
        BumpCount(c / 2 - 1, k + 1);
      }
    }
  }

  // ----- the pending lists: what they hold -----

  /** The input the pending lists were made from, oldest list first. */
  ghost function Flat(segs: seq<seq<Node>>): seq<Node>
  {
    if segs == [] then [] else Flat(segs[1..]) + segs[0]
  }

  /** Each pending list is the sorted form of its own stretch of the input. */
  ghost predicate SortedParts(cmp: Compare, ls: seq<seq<Node>>, segs: seq<seq<Node>>)
  {
    |ls| == |segs| && forall i :: 0 <= i < |ls| ==> ls[i] == Sort(cmp, segs[i])
  }

  ghost function JoinedSegs(segs: seq<seq<Node>>, t: nat): seq<seq<Node>>
    requires t + 1 < |segs|
  {
    segs[..t] + [segs[t + 1] + segs[t]] + segs[t + 2..]
  }

  lemma {:induction false} JoinKeepsFlat(segs: seq<seq<Node>>, t: nat)
    requires t + 1 < |segs|
    ensures Flat(JoinedSegs(segs, t)) == Flat(segs)
    decreases t
  {
    var js := JoinedSegs(segs, t);
    if t == 0 {
      assert js[1..] == segs[2..] == segs[1..][1..];
    } else {
      JoinKeepsFlat(segs[1..], t - 1);
      assert js[1..] == JoinedSegs(segs[1..], t - 1) by {
        assert segs[1..][..t - 1] == segs[..t][1..];
      }
    }
  }

  lemma JoinKeepsSorted(cmp: Compare, ls: seq<seq<Node>>, segs: seq<seq<Node>>, t: nat)
    requires TotalPreorder(cmp) && SortedParts(cmp, ls, segs) && t + 1 < |ls|
    ensures SortedParts(cmp, Joined(cmp, ls, t), JoinedSegs(segs, t))
  {
    MergeSorts(cmp, segs[t + 1], segs[t]);
  }

  // ----- the pending lists: in memory -----

  /** p heads a stack of nodes linked by prev. */
  ghost predicate Stack(p: Node?, hs: seq<Node>)
    reads Set(hs)`prev
  {
    && (forall i, j :: 0 <= i && j == i + 1 && j < |hs| ==> hs[i].prev == hs[j])
    && if hs == [] then p == null else p == hs[0] && hs[|hs| - 1].prev == null
  }

  ghost predicate Apart(ls: seq<seq<Node>>)
  {
    forall i, j :: 0 <= i < j < |ls| ==> Set(ls[i]) !! Set(ls[j])
  }

  ghost function All(ls: seq<seq<Node>>): set<Node>
  {
    set i, n | 0 <= i < |ls| && n in ls[i] :: n
  }

  ghost predicate Chains(hs: seq<Node>, ls: seq<seq<Node>>)
    reads All(ls)
  {
    |hs| == |ls| && forall i :: 0 <= i < |ls| ==> Chain(hs[i], ls[i])
  }

  /** The pending lists ls, with heads hs, hang below p. */
  ghost predicate Pend(p: Node?, hs: seq<Node>, ls: seq<seq<Node>>)
    reads All(ls), Set(hs)
  {
    Stack(p, hs) && Apart(ls) && Chains(hs, ls)
  }

  lemma HeadsApart(p: Node?, hs: seq<Node>, ls: seq<seq<Node>>)
    requires Fact(Pend(p, hs, ls))
    ensures forall i :: 0 <= i < |hs| ==> hs[i] in Set(ls[i]) && hs[i] in All(ls)
    ensures NoDup(hs)
  {
    forall i | 0 <= i < |hs|
      ensures hs[i] in Set(ls[i]) && hs[i] in All(ls)
    {
      assert Chain(hs[i], ls[i]);
    }
    forall i, j | 0 <= i < j < |hs|
      ensures hs[i] != hs[j]
    {
      assert Set(ls[i]) !! Set(ls[j]);
    }
  }

  /** A prev link is written; the lists hang on next links only. */
  method SetPrev(n: Node, p: Node?, ghost hs: seq<Node>, ghost ls: seq<seq<Node>>)
    requires Fact(Chains(hs, ls))
    modifies {n}`prev
    ensures n.prev == p && Fact(Chains(hs, ls))
  {
    n.prev := p;
    forall i | 0 <= i < |ls|
      ensures Chain(hs[i], ls[i])
    {
      assert old(Chain(hs[i], ls[i]));
    }
  }

  /** a->prev = b->prev; *tail = a: the merged list, headed by m, takes the place of entries t and t + 1. */
  method Splice(pending: Node, at: Node?, b: Node, m: Node, ghost t: nat, ghost hs: seq<Node>, ghost hs': seq<Node>,
                ghost ls': seq<seq<Node>>)
    returns (pending': Node)
    requires Fact(Stack(pending, hs)) && Fact(NoDup(hs)) && t + 1 < |hs| && at == (if t == 0 then null else hs[t - 1])
    requires b == hs[t + 1] && (m in hs ==> m == hs[t] || m == b) && hs' == hs[..t] + [m] + hs[t + 2..]
    requires Fact(Chains(hs', ls'))
    modifies {m}`prev, (if at == null then {} else {at})`prev
    ensures Fact(Stack(pending', hs')) && Fact(Chains(hs', ls'))
  {
    hide Chains;
    SetPrev(m, b.prev, hs', ls');
    pending' := pending;
    if at == null {
      pending' := m;
    } else {
      SetPrev(at, m, hs', ls');
    }
  }

  /** The heads of the two lists to merge, as the prev links lead to them. */
  lemma PairAt(pending: Node, at: Node?, t: nat, hs: seq<Node>)
    requires Stack(pending, hs) && t + 1 < |hs| && at == (if t == 0 then null else hs[t - 1])
    ensures (if at == null then pending else at.prev) == hs[t] && hs[t].prev == hs[t + 1]
  {
    assert t > 0 ==> hs[t - 1].prev == hs[t];
  }

  lemma JoinedChains(cmp: Compare, hs: seq<Node>, ls: seq<seq<Node>>, t: nat, m: Node)
    requires |hs| == |ls| && t + 1 < |ls| && Chain(m, Merge(cmp, ls[t + 1], ls[t]))
    requires forall i :: 0 <= i < |hs| && i != t && i != t + 1 ==> Chain(hs[i], ls[i])
    ensures Chains(hs[..t] + [m] + hs[t + 2..], Joined(cmp, ls, t))
  {
    hide Chain;
    var hs', ls' := hs[..t] + [m] + hs[t + 2..], Joined(cmp, ls, t);
    forall i | 0 <= i < |ls'|
      ensures Chain(hs'[i], ls'[i])
    {
      if i > t {
        assert hs'[i] == hs[i + 1] && ls'[i] == ls[i + 1];
      }
    }
  }

  lemma JoinedApart(cmp: Compare, ls: seq<seq<Node>>, t: nat)
    requires Apart(ls) && t + 1 < |ls|
    ensures Apart(Joined(cmp, ls, t))
  {
    MergeMembers(cmp, ls[t + 1], ls[t]);
    var js := Joined(cmp, ls, t);
    forall i, j | 0 <= i < j < |js|
      ensures Set(js[i]) !! Set(js[j])
    {
      var i0, j0 := if i <= t then i else i + 1, if j <= t then j else j + 1;
      assert Set(ls[i0]) !! Set(ls[j0]);
      if i == t {
        assert Set(ls[t + 1]) !! Set(ls[j0]);
      }
      if j == t {
        assert Set(ls[i0]) !! Set(ls[t + 1]);
      }
    }
  }

  /** The two lists merged, with the stack of heads not yet brought up to date. */
  method MergeTwo(cmp: Compare, pending: Node, a: Node, b: Node, ghost t: nat, ghost hs: seq<Node>,
                  ghost ls: seq<seq<Node>>)
    returns (m: Node, ghost sizes: (nat, nat))
    requires Fact(Pend(pending, hs, ls)) && t + 1 < |ls| && a == hs[t] && b == hs[t + 1]
    modifies All(ls)`next
    ensures m in All(ls) && (m in hs ==> m == a || m == b) && sizes == (|ls[t + 1]|, |ls[t]|)
    ensures Fact(Chains(hs[..t] + [m] + hs[t + 2..], Joined(cmp, ls, t)))
  {
    HeadsApart(pending, hs, ls);
    assert Chain(a, ls[t]) && Chain(b, ls[t + 1]) && Set(ls[t]) !! Set(ls[t + 1]);
    assert Set(ls[t]) <= All(ls) && Set(ls[t + 1]) <= All(ls);
    m, sizes := MergeLists(cmp, b, a, ls[t + 1], ls[t]);
    MergeMembers(cmp, ls[t + 1], ls[t]);
    assert m in Set(Merge(cmp, ls[t + 1], ls[t]));
    forall i | 0 <= i < |hs| && i != t && i != t + 1
      ensures hs[i] != m && Chain(hs[i], ls[i])
    {
      assert Set(ls[i]) !! Set(ls[t]) && Set(ls[i]) !! Set(ls[t + 1]);
    }
    JoinedChains(cmp, hs, ls, t, m);
  }

  /** The heads hang together as before, since merging leaves their prev links alone. */
  method MergeStacked(cmp: Compare, pending: Node, a: Node, b: Node, ghost t: nat, ghost hs: seq<Node>,
                      ghost ls: seq<seq<Node>>)
    returns (m: Node, ghost sizes: (nat, nat))
    requires Fact(Pend(pending, hs, ls)) && t + 1 < |ls| && a == hs[t] && b == hs[t + 1] && Fact(Stack(pending, hs))
    modifies All(ls)`next
    ensures m in All(ls) && (m in hs ==> m == a || m == b) && sizes == (|ls[t + 1]|, |ls[t]|)
    ensures Fact(Chains(hs[..t] + [m] + hs[t + 2..], Joined(cmp, ls, t))) && Fact(Stack(pending, hs))
  {
    hide Pend, Chains, Apart, All, Joined;
    m, sizes := MergeTwo(cmp, pending, a, b, t, hs, ls);
  }

  /** The merge of a round: lists t and t + 1, below the list headed by `at`, become one. */
  method MergePair(cmp: Compare, pending: Node, at: Node?, ghost t: nat, ghost hs: seq<Node>, ghost ls: seq<seq<Node>>)
    returns (pending': Node, ghost hs': seq<Node>, ghost sizes: (nat, nat))
    requires Fact(Pend(pending, hs, ls)) && t + 1 < |ls| && at == (if t == 0 then null else hs[t - 1])
    modifies All(ls)
    ensures Fact(Pend(pending', hs', Joined(cmp, ls, t))) && sizes == (|ls[t + 1]|, |ls[t]|)
  {
    hide Pend, Stack, Chains, Apart, All, Joined, NoDup;
    PairReady(pending, at, t, hs, ls);
    JoinedApart(cmp, ls, t);
    var a: Node := if at == null then pending else at.prev;
    var b: Node := a.prev;
    var m;
    m, sizes := MergeStacked(cmp, pending, a, b, t, hs, ls);
    hs' := hs[..t] + [m] + hs[t + 2..];
    pending' := Splice(pending, at, b, m, t, hs, hs', Joined(cmp, ls, t));
    MakePend(pending', hs', Joined(cmp, ls, t));
  }

  lemma PairReady(pending: Node, at: Node?, t: nat, hs: seq<Node>, ls: seq<seq<Node>>)
    requires Fact(Pend(pending, hs, ls)) && t + 1 < |ls| && at == (if t == 0 then null else hs[t - 1])
    ensures |hs| == |ls| && Fact(Stack(pending, hs)) && Fact(NoDup(hs)) && Apart(ls)
    ensures (if at == null then pending else at.prev) == hs[t] && hs[t].prev == hs[t + 1]
    ensures hs[t] in All(ls) && hs[t + 1] in All(ls) && (at != null ==> at in All(ls))
  {
    HeadsApart(pending, hs, ls);
    PairAt(pending, at, t, hs);
  }

  lemma MakePend(p: Node?, hs: seq<Node>, ls: seq<seq<Node>>)
    requires Fact(Stack(p, hs)) && Apart(ls) && Fact(Chains(hs, ls))
    ensures Fact(Pend(p, hs, ls))
  {
  }

  /** Steps over one pending list for each trailing one bit of count. */
  method Walk(pending: Node?, count: nat, ghost hs: seq<Node>) returns (at: Node?, bits: nat)
    requires Stack(pending, hs) && Ones(count) <= |hs|
    ensures at == (if Ones(count) == 0 then null else hs[Ones(count) - 1]) && bits == Above(count)
  {
    bits, at := count, null;
    ghost var t := 0;
    while bits % 2 == 1
      invariant t + Ones(bits) == Ones(count) && Above(bits) == Above(count)
      invariant at == if t == 0 then null else hs[t - 1]
      decreases bits
    {
      assert t > 0 ==> hs[t - 1].prev == hs[t];
      at := if at == null then pending else at.prev;
      bits, t := bits / 2, t + 1;
    }
  }

  lemma JoinedAll(cmp: Compare, ls: seq<seq<Node>>, t: nat)
    requires t + 1 < |ls|
    ensures All(Joined(cmp, ls, t)) == All(ls)
  {
    MergeMembers(cmp, ls[t + 1], ls[t]);
    var js := Joined(cmp, ls, t);
    forall n | n in All(ls)
      ensures n in All(js)
    {
      var i :| 0 <= i < |ls| && n in ls[i];
      assert i < t ==> js[i] == ls[i];
      assert i > t + 1 ==> js[i - 1] == ls[i];
      if t <= i <= t + 1 {
        assert n in Set(js[t]);
      }
    }
    forall n | n in All(js)
      ensures n in All(ls)
    {
      var i :| 0 <= i < |js| && n in js[i];
      assert i < t ==> js[i] == ls[i];
      assert i > t ==> js[i] == ls[i + 1];
      if i == t {
        assert n in Set(js[t]);
      }
    }
  }

  /** The first element of the rest of the input becomes a pending list of its own. */
  method Push(x: Node, pending: Node?, ghost hs: seq<Node>, ghost ls: seq<seq<Node>>, ghost rest: seq<Node>)
    returns (list: Node?)
    requires Fact(Pend(pending, hs, ls)) && Fact(Chain(x, rest)) && All(ls) !! Set(rest)
    modifies {x}
    ensures rest != [] && x == rest[0] && Fact(Pend(x, [x] + hs, [[x]] + ls)) && Fact(Chain(list, rest[1..]))
    ensures list == null <==> rest[1..] == []
  {
    HeadsApart(pending, hs, ls);
    assert x in Set(rest) && Set(hs) <= All(ls);
    x.prev := pending;
    list := x.next;
    x.next := null;
    assert Fact(Pend(pending, hs, ls));
    PushPend(x, pending, hs, ls);
  }

  lemma PushPend(x: Node, pending: Node?, hs: seq<Node>, ls: seq<seq<Node>>)
    requires Fact(Pend(pending, hs, ls)) && x.prev == pending && x.next == null && x !in All(ls)
    ensures Fact(Pend(x, [x] + hs, [[x]] + ls))
  {
    var hs', ls' := [x] + hs, [[x]] + ls;
    assert Chain(x, [x]);
    forall i | 0 <= i < |ls'|
      ensures Chain(hs'[i], ls'[i])
    {
      assert i > 0 ==> hs'[i] == hs[i - 1] && ls'[i] == ls[i - 1];
    }
    forall i, j | 0 <= i < j < |ls'|
      ensures Set(ls'[i]) !! Set(ls'[j])
    {
      assert ls'[j] == ls[j - 1];
      assert i > 0 ==> ls'[i] == ls[i - 1];
    }
    forall i, j | 0 <= i && j == i + 1 && j < |hs'|
      ensures hs'[i].prev == hs'[j]
    {
      assert i > 0 ==> hs'[i] == hs[i - 1] && hs'[j] == hs[j - 1];
    }
  }

  // ----- the sort -----

  /** Between rounds: the pending lists hold the first part of the input s, and list is the rest of it. */
  ghost predicate Between(cmp: Compare, s: seq<Node>, pending: Node?, hs: seq<Node>, ls: seq<seq<Node>>,
                          segs: seq<seq<Node>>,
                          list: Node?, rest: seq<Node>, count: nat)
    reads All(ls), Set(hs), Set(rest)
  {
    && Fact(Pend(pending, hs, ls)) && Fact(Chain(list, rest)) && All(ls) !! Set(rest)
    && Shape(ls, count, 1, 0) && SortedParts(cmp, ls, segs) && Flat(segs) + rest == s
  }

  ghost function AfterMergeSegs(segs: seq<seq<Node>>, c: nat): seq<seq<Node>>
  {
    if Above(c) == 0 || Ones(c) + 1 >= |segs| then segs else JoinedSegs(segs, Ones(c))
  }

  lemma RoundMeaning(cmp: Compare, ls: seq<seq<Node>>, segs: seq<seq<Node>>, count: nat, x: Node, rest: seq<Node>)
    requires TotalPreorder(cmp) && Shape(ls, count, 1, 0) && SortedParts(cmp, ls, segs) && rest != [] && x == rest[0]
    ensures SortedParts(cmp, [[x]] + AfterMerge(cmp, ls, count), [[x]] + AfterMergeSegs(segs, count))
    ensures Flat([[x]] + AfterMergeSegs(segs, count)) + rest[1..] == Flat(segs) + rest
  {
    PairToMerge(ls, count, 0);
    hide TotalPreorder, Shape, Sort, Merge, Flat;
    var ls1, segs1 := AfterMerge(cmp, ls, count), AfterMergeSegs(segs, count);
    assert SortedParts(cmp, ls1, segs1) && Flat(segs1) == Flat(segs) by {
      if Above(count) != 0 {
        JoinKeepsSorted(cmp, ls, segs, Ones(count));
        JoinKeepsFlat(segs, Ones(count));
      }
    }
    hide AfterMerge, AfterMergeSegs;
    PushMeaning(cmp, ls1, segs1, x, rest);
  }

  lemma PushMeaning(cmp: Compare, ls: seq<seq<Node>>, segs: seq<seq<Node>>, x: Node, rest: seq<Node>)
    requires SortedParts(cmp, ls, segs) && rest != [] && x == rest[0]
    ensures SortedParts(cmp, [[x]] + ls, [[x]] + segs)
    ensures Flat([[x]] + segs) + rest[1..] == Flat(segs) + rest
  {
    assert Sort(cmp, [x]) == [x] by {
      assert [x][1..] == [];
    }
    assert ([[x]] + segs)[1..] == segs;
    assert rest == [x] + rest[1..];
    hide Sort;
    forall i | 0 <= i < |ls| + 1
      ensures ([[x]] + ls)[i] == Sort(cmp, ([[x]] + segs)[i])
    {
    }
  }

  /** The merge the bits of count ask for, if any. */
  method MergeByBits(cmp: Compare, pending: Node?, count: nat, ghost hs: seq<Node>, ghost ls: seq<seq<Node>>)
    returns (top: Node?, ghost hs': seq<Node>, ghost log: seq<(nat, nat)>)
    requires Fact(Pend(pending, hs, ls)) && Ones(count) <= |ls| && (Above(count) != 0 ==> Ones(count) + 1 < |ls|)
    modifies All(ls)
    ensures Fact(Pend(top, hs', AfterMerge(cmp, ls, count)))
    ensures log == MergedSizes(ls, count)
  {
    assert pending == null ==> hs == [];
    var at, bits := Walk(pending, count, hs);
    hide Pend;
    top, hs', log := pending, hs, [];
    if bits != 0 {
      ghost var sizes;
      top, hs', sizes := MergePair(cmp, pending, at, Ones(count), hs, ls);
      log := [sizes];
    }
  }

  ghost function MergedSizes(ls: seq<seq<Node>>, count: nat): seq<(nat, nat)>
  {
    if Above(count) == 0 || Ones(count) + 1 >= |ls| then [] else [(|ls[Ones(count) + 1]|, |ls[Ones(count)]|)]
  }

  lemma RoundSizes(ls: seq<seq<Node>>, count: nat)
    requires Shape(ls, count, 1, 0)
    ensures Ones(count) <= |ls| && (Above(count) != 0 ==> Ones(count) + 1 < |ls|)
      && MergedSizes(ls, count) == RoundLog(count)
  {
    PairToMerge(ls, count, 0);
  }

  lemma AfterMergeAll(cmp: Compare, ls: seq<seq<Node>>, count: nat)
    ensures All(AfterMerge(cmp, ls, count)) == All(ls)
  {
    if Above(count) != 0 && Ones(count) + 1 < |ls| {
      JoinedAll(cmp, ls, Ones(count));
    }
  }

  /** One turn of the first loop of list_sort. */
  method OneRound(cmp: Compare, pending: Node?, list: Node, count: nat,
                  ghost s: seq<Node>, ghost hs: seq<Node>, ghost ls: seq<seq<Node>>, ghost segs: seq<seq<Node>>,
                    ghost rest: seq<Node>)
    returns (list': Node?, ghost hs': seq<Node>, ghost ls': seq<seq<Node>>, ghost segs': seq<seq<Node>>,
             ghost log: seq<(nat, nat)>)
    requires TotalPreorder(cmp) && Fact(Between(cmp, s, pending, hs, ls, segs, list, rest, count))
    modifies All(ls), Set(rest)
    ensures rest != [] && (list' == null <==> rest[1..] == [])
    ensures Fact(Between(cmp, s, list, hs', ls', segs', list', rest[1..], count + 1))
    ensures All(ls') + Set(rest[1..]) == All(ls) + Set(rest)
    ensures log == RoundLog(count)
  {
    hide TotalPreorder;
    assert rest != [] && list == rest[0] && NoDup(rest);
    RoundSizes(ls, count);
    RoundMeaning(cmp, ls, segs, count, list, rest);
    RoundShape(cmp, ls, count, list);
    AfterMergeAll(cmp, ls, count);
    PushAll(list, AfterMerge(cmp, ls, count), rest);
    ghost var ls1 := AfterMerge(cmp, ls, count);
    ls', segs' := [[list]] + ls1, [[list]] + AfterMergeSegs(segs, count);
    hide Ones, Above, RoundLog, MergedSizes, Shape, SortedParts, Flat, AfterMerge, AfterMergeSegs, All, Pend, Chain,
         Set, NoDup;
    var top;
    top, hs', log := MergeByBits(cmp, pending, count, hs, ls);
    list' := Push(list, top, hs', ls1, rest);
    hs' := [list] + hs';
  }

  lemma PushAll(x: Node, ls: seq<seq<Node>>, rest: seq<Node>)
    requires rest != [] && x == rest[0] && NoDup(rest) && All(ls) !! Set(rest)
    ensures All([[x]] + ls) + Set(rest[1..]) == All(ls) + Set(rest)
    ensures All([[x]] + ls) !! Set(rest[1..])
  {
    assert Set(rest) == {x} + Set(rest[1..]) by {
      SetCons(x, rest[1..]);
      assert rest == [x] + rest[1..];
    }
    AllCons([x], ls);
  }

  lemma AllCons(l: seq<Node>, ls: seq<seq<Node>>)
    ensures All([l] + ls) == Set(l) + All(ls)
  {
    forall n | n in All(ls)
      ensures n in All([l] + ls)
    {
      var i :| 0 <= i < |ls| && n in ls[i];
      assert ([l] + ls)[i + 1] == ls[i];
    }
    forall n | n in Set(l)
      ensures n in All([l] + ls)
    {
      assert ([l] + ls)[0] == l;
    }
  }

  // ----- the final merge, which restores the ring -----

  ghost predicate BackLinks(s: seq<Node>)
    reads Set(s)
  {
    forall i, j :: 0 <= i && j == i + 1 && j < |s| ==> s[j].prev == s[i]
  }

  /** A circular doubly linked list: head, then the elements s. */
  ghost predicate Ring(head: Node, s: seq<Node>)
    reads {head} + Set(s)
  {
    var all := [head] + s;
    NoDup(all) && Links(all) && BackLinks(all) && all[|s|].next == head && head.prev == all[|s|]
  }

  /** The part of the ring built so far, ending in tail, and the two lists still to be taken from. */
  ghost predicate Closing(out: seq<Node>, tail: Node, a: Node?, sa: seq<Node>, b: Node?, sb: seq<Node>)
    reads Set(out), Set(sa), Set(sb)
  {
    && out != [] && tail == out[|out| - 1] && NoDup(out) && Links(out) && BackLinks(out)
    && Chain(a, sa) && Chain(b, sb)
    && Set(out) !! Set(sa) && Set(out) !! Set(sb) && Set(sa) !! Set(sb)
  }

  lemma ClosingSwap(out: seq<Node>, tail: Node, a: Node?, sa: seq<Node>, b: Node?, sb: seq<Node>)
    requires Fact(Closing(out, tail, a, sa, b, sb))
    ensures Fact(Closing(out, tail, b, sb, a, sa))
  {
  }

  /** tail->next = n; n->prev = tail; tail = n */
  method TakeBoth(tail: Node, n: Node, m: Node?, ghost out: seq<Node>, ghost s: seq<Node>, ghost t: seq<Node>)
    returns (rest: Node?)
    requires Fact(Closing(out, tail, n, s, m, t))
    modifies {tail}`next, {n}`prev
    ensures s != [] && n == s[0] && Fact(Closing(out + [n], n, rest, s[1..], m, t))
    ensures Set(out + [n]) + Set(s[1..]) == Set(out) + Set(s) && n in Set(out + [n])
    ensures if s[1..] == [] then rest == null else rest == s[1]
    ensures n.next == rest
  {
    assert tail in Set(out) && n in Set(s);
    tail.next := n;
    n.prev := tail;
    rest := n.next;
    ghost var all := out + [n];
    SetTail(s);
    SetSnoc(out, n);
    assert NoDup(all) && Links(all) && BackLinks(all);
  }

  /** One turn of the first loop of merge_final. */
  method FinalRound(cmp: Compare, tail: Node, a: Node, b: Node, ghost out: seq<Node>, ghost sa: seq<Node>,
                    ghost sb: seq<Node>)
    returns (tail': Node, a': Node?, b': Node?, ghost out': seq<Node>, ghost sa': seq<Node>, ghost sb': seq<Node>)
    requires sa != [] && sb != [] && a == sa[0] && b == sb[0] && Fact(Closing(out, tail, a, sa, b, sb))
      && tail in Set(out)
    modifies {tail}`next, {a, b}`prev
    ensures tail' in Set(out') && Set(out') + Set(sa') + Set(sb') == Set(out) + Set(sa) + Set(sb)
    ensures out' + Merge(cmp, sa', sb') == out + Merge(cmp, sa, sb) && |sa'| + |sb'| < |sa| + |sb|
    ensures Fact(Closing(out', tail', a', sa', b', sb')) && out <= out'
    ensures (if sa' == [] then a' == null else a' == sa'[0]) && (if sb' == [] then b' == null else b' == sb'[0])
    ensures sa' != [] || sb' != []
  {
    hide Closing, Set, Merge;
    MergeStep(cmp, out, sa, sb);
    a', b', sa', sb' := a, b, sa, sb;
    if cmp(a.key, b.key) <= 0 {
      a' := TakeBoth(tail, a, b, out, sa, sb);
      tail', out', sa' := a, out + [a], sa[1..];
    } else {
      ClosingSwap(out, tail, a, sa, b, sb);
      b' := TakeBoth(tail, b, a, out, sb, sa);
      tail', out', sb' := b, out + [b], sb[1..];
      ClosingSwap(out', tail', b', sb', a', sa');
    }
  }

  /** The second loop of merge_final: what is left of one list is linked on behind tail, then the ring is closed. */
  method CloseRing(head: Node, tail0: Node, b0: Node, ghost out0: seq<Node>, ghost sb: seq<Node>)
    requires Fact(Closing(out0, tail0, null, [], b0, sb)) && out0[0] == head && sb != [] && b0 == sb[0]
      && tail0 in Set(out0)
    modifies Set(out0), Set(sb)
    ensures Fact(Ring(head, (out0 + sb)[1..]))
  {
    assert tail0 in Set(out0);
    tail0.next := b0;
    assert Fact(Closing(out0, tail0, null, [], b0, sb));
    hide Closing, Ring;
    var last := LinkRest(tail0, b0, out0, sb);
    CloseEnds(head, last, out0 + sb);
  }

  /** The second loop of merge_final */
  method LinkRest(tail0: Node, b0: Node, ghost out0: seq<Node>, ghost sb: seq<Node>) returns (tail: Node)
    requires Fact(Closing(out0, tail0, null, [], b0, sb)) && sb != [] && b0 == sb[0] && tail0.next == b0
    modifies Set(sb)
    ensures Fact(Closing(out0 + sb, tail, null, [], null, []))
  {
    var b: Node? := b0;
    tail := tail0;
    ghost var out, rb := out0, sb;
    hide Closing;
    while b != null
      invariant Fact(Closing(out, tail, null, [], b, rb)) && out + rb == out0 + sb
      invariant (if rb == [] then b == null else b == rb[0]) && tail.next == b && Set(rb) <= Set(sb)
      decreases |rb|
    {
      b, tail, out, rb := StepBack(tail, b, out, rb);
    }
    assert out == out0 + sb;
  }

  /** tail->next = head; head->prev = tail */
  method CloseEnds(head: Node, tail: Node, ghost out: seq<Node>)
    requires Fact(Closing(out, tail, null, [], null, [])) && out[0] == head
    modifies {tail}`next, {head}`prev
    ensures Fact(Ring(head, out[1..]))
  {
    tail.next := head;
    head.prev := tail;
    assert [head] + out[1..] == out;
  }

  /** b->prev = tail; tail = b; b = b->next */
  method StepBack(tail: Node, b: Node, ghost out: seq<Node>, ghost rb: seq<Node>)
    returns (b': Node?, tail': Node, ghost out': seq<Node>, ghost rb': seq<Node>)
    requires Fact(Closing(out, tail, null, [], b, rb)) && rb != [] && b == rb[0] && tail.next == b
    modifies {b}`prev
    ensures Fact(Closing(out', tail', null, [], b', rb')) && out' + rb' == out + rb && out <= out'
    ensures (if rb' == [] then b' == null else b' == rb'[0]) && tail'.next == b'
    ensures Set(rb') <= Set(rb) && |rb'| < |rb|
  {
    assert b in Set(rb) && tail in Set(out);
    b.prev := tail;
    b', tail', out', rb' := b.next, b, out + [b], rb[1..];
    SetTail(rb);
    SetSnoc(out, b);
    assert NoDup(out') && Links(out') && BackLinks(out');
  }

  /** merge_final */
  method MergeFinal(cmp: Compare, head: Node, a0: Node, b0: Node, ghost sa: seq<Node>, ghost sb: seq<Node>)
    returns (ghost sizes: (nat, nat))
    requires Fact(Chain(a0, sa)) && Fact(Chain(b0, sb)) && Set(sa) !! Set(sb) && head !in Set(sa) + Set(sb)
    modifies {head}, Set(sa), Set(sb)
    ensures Fact(Ring(head, Merge(cmp, sa, sb))) && sizes == (|sa|, |sb|)
  {
    sizes := (|sa|, |sb|);
    var a: Node?, b: Node?, tail := a0, b0, head;
    ghost var out, ra, rb := [head], sa, sb;
    assert Fact(Closing(out, tail, a, ra, b, rb)) && ra != [] && rb != [] && a == ra[0] && b == rb[0];
    assert Set(out) == {head} && Set(out) + Set(ra) + Set(rb) == {head} + Set(sa) + Set(sb);
    hide Closing, Merge, Ring;
    while a != null && b != null
      invariant Fact(Closing(out, tail, a, ra, b, rb)) && (ra != [] || rb != []) && [head] <= out && tail in Set(out)
      invariant (if ra == [] then a == null else a == ra[0]) && (if rb == [] then b == null else b == rb[0])
      invariant Set(out) + Set(ra) + Set(rb) == {head} + Set(sa) + Set(sb)
      invariant [head] + Merge(cmp, sa, sb) == out + Merge(cmp, ra, rb)
      decreases |ra| + |rb|
    {
      tail, a, b, out, ra, rb := FinalRound(cmp, tail, a, b, out, ra, rb);
    }
    MergeEnds(cmp, ra, rb);
    ghost var all := out + ra + rb;
    if a == null {
      CloseRing(head, tail, b, out, rb);
    } else {
      ClosingSwap(out, tail, a, ra, b, rb);
      CloseRing(head, tail, a, out, ra);
    }
    assert ([head] + Merge(cmp, sa, sb))[1..] == Merge(cmp, sa, sb);
  }

  // ----- list_sort -----

  lemma Pop(p: Node?, hs: seq<Node>, ls: seq<seq<Node>>)
    requires Fact(Pend(p, hs, ls)) && ls != []
    ensures |hs| == |ls| && p == hs[0] && Fact(Chain(p, ls[0])) && Fact(Pend(hs[0].prev, hs[1..], ls[1..]))
    ensures hs[0].prev == if |hs| == 1 then null else hs[1]
    ensures All(ls) == Set(ls[0]) + All(ls[1..]) && Set(ls[0]) !! All(ls[1..])
  {
    AllCons(ls[0], ls[1..]);
    assert ls == [ls[0]] + ls[1..];
    forall n | n in All(ls[1..])
      ensures n !in Set(ls[0])
    {
      var i :| 0 <= i < |ls[1..]| && n in ls[1..][i];
      assert Set(ls[0]) !! Set(ls[i + 1]);
    }
    forall i, j | 0 <= i && j == i + 1 && j < |hs[1..]|
      ensures hs[1..][i].prev == hs[1..][j]
    {
      assert hs[1..][i] == hs[i + 1] && hs[1..][j] == hs[j + 1];
    }
    assert |hs| > 1 ==> hs[0].prev == hs[1];
    forall i | 0 <= i < |ls[1..]|
      ensures Chain(hs[1..][i], ls[1..][i])
    {
      assert Chain(hs[i + 1], ls[i + 1]);
    }
  }

  /** In the second phase: the merged list, of the last part of the input, and the lists still pending. */
  ghost predicate Ending(cmp: Compare, s: seq<Node>, pending: Node?, hs: seq<Node>, ls: seq<seq<Node>>,
                         segs: seq<seq<Node>>,
                         list: Node, acc: seq<Node>, seg: seq<Node>)
    reads All(ls), Set(hs), Set(acc)
  {
    && Fact(Pend(pending, hs, ls)) && Fact(Chain(list, acc)) && All(ls) !! Set(acc)
    && SortedParts(cmp, ls, segs) && acc == Sort(cmp, seg) && Flat(segs) + seg == s
  }

  /** The input is used up: the newest list becomes the merged list. */
  lemma BetweenToEnding(cmp: Compare, s: seq<Node>, pending: Node, hs: seq<Node>, ls: seq<seq<Node>>,
                        segs: seq<seq<Node>>, count: nat)
    requires Fact(Between(cmp, s, pending, hs, ls, segs, null, [], count)) && count > 1
    ensures |ls| > 1 && hs != [] && segs != [] && pending == hs[0]
    ensures Sizes(count, 1, 0) == [|ls[0]|] + Lengths(ls[1..])
    ensures Fact(Ending(cmp, s, hs[0].prev, hs[1..], ls[1..], segs[1..], pending, ls[0], segs[0]))
    ensures All(ls[1..]) + Set(ls[0]) == All(ls)
  {
    TwoLists(ls, count);
    ShapeSizes(ls, count, 1, 0);
    hide Shape;
    Pop(pending, hs, ls);
    assert Flat(segs) + [] == Flat(segs);
    assert forall i :: 0 <= i < |ls[1..]| ==> ls[1..][i] == Sort(cmp, segs[1..][i]);
  }

  lemma TwoLists(ls: seq<seq<Node>>, count: nat)
    requires Shape(ls, count, 1, 0) && count > 1
    ensures |ls| > 1
  {
    if count % 2 == 1 {
      ShapeOdd(ls, count, 0);
      assert Pending2(count / 2, 1) > 0;
    }
  }

  lemma EndingMeaning(cmp: Compare, s: seq<Node>, ls: seq<seq<Node>>, segs: seq<seq<Node>>, acc: seq<Node>,
                      seg: seq<Node>)
    requires TotalPreorder(cmp) && ls != []
    requires SortedParts(cmp, ls, segs) && acc == Sort(cmp, seg) && Flat(segs) + seg == s
    ensures segs != [] && SortedParts(cmp, ls[1..], segs[1..]) && Merge(cmp, ls[0], acc) == Sort(cmp, segs[0] + seg)
    ensures Flat(segs[1..]) + (segs[0] + seg) == s
  {
    hide TotalPreorder, Sort, Merge, SortedParts, Flat;
    PopMeaning(cmp, ls, segs);
    MergeSorts(cmp, segs[0], seg);
    assert Flat(segs[1..]) + segs[0] + seg == Flat(segs[1..]) + (segs[0] + seg);
  }

  lemma PopMeaning(cmp: Compare, ls: seq<seq<Node>>, segs: seq<seq<Node>>)
    requires SortedParts(cmp, ls, segs) && ls != []
    ensures segs != [] && ls[0] == Sort(cmp, segs[0]) && SortedParts(cmp, ls[1..], segs[1..])
      && Flat(segs) == Flat(segs[1..]) + segs[0]
  {
    hide Sort;
    assert forall i :: 0 <= i < |ls[1..]| ==> ls[1..][i] == ls[i + 1] && segs[1..][i] == segs[i + 1];
  }

  /** A merge of two lists that are not among the pending ones. */
  method MergeBeside(cmp: Compare, a: Node, b: Node, ghost sa: seq<Node>, ghost sb: seq<Node>,
                     ghost p: Node?, ghost hs: seq<Node>, ghost ls: seq<seq<Node>>)
    returns (head: Node, ghost sizes: (nat, nat))
    requires Fact(Chain(a, sa)) && Fact(Chain(b, sb)) && Set(sa) !! Set(sb)
    requires Fact(Pend(p, hs, ls)) && All(ls) !! Set(sa) && All(ls) !! Set(sb)
    modifies Set(sa)`next, Set(sb)`next
    ensures Fact(Chain(head, Merge(cmp, sa, sb))) && Fact(Pend(p, hs, ls)) && sizes == (|sa|, |sb|)
  {
    HeadsApart(p, hs, ls);
    assert Set(hs) <= All(ls);
    hide Pend, Chain, All, Set;
    head, sizes := MergeLists(cmp, a, b, sa, sb);
  }

  /** One turn of the second loop of list_sort. */
  method MergeDown(cmp: Compare, pending: Node, list: Node, ghost s: seq<Node>, ghost hs: seq<Node>,
                   ghost ls: seq<seq<Node>>, ghost segs: seq<seq<Node>>, ghost acc: seq<Node>, ghost seg: seq<Node>)
    returns (list': Node, ghost sizes: (nat, nat))
    requires TotalPreorder(cmp) && Fact(Ending(cmp, s, pending, hs, ls, segs, list, acc, seg)) && ls != []
    modifies All(ls), Set(acc)
    ensures hs != [] && segs != [] && pending == hs[0] && hs[0].prev == old(hs[0].prev) && sizes == (|ls[0]|, |acc|)
    ensures Fact(Ending(cmp, s, hs[0].prev, hs[1..], ls[1..], segs[1..], list', Merge(cmp, ls[0], acc), segs[0] + seg))
    ensures All(ls[1..]) + Set(Merge(cmp, ls[0], acc)) == All(ls) + Set(acc)
  {
    hide SortedParts, Flat, TotalPreorder, Merge, Sort, Pend, Chain, NoDup, Links;
    EndingMeaning(cmp, s, ls, segs, acc, seg);
    Pop(pending, hs, ls);
    MergeMembers(cmp, ls[0], acc);
    hide All, Set;
    list', sizes := MergeBeside(cmp, pending, list, ls[0], acc, hs[0].prev, hs[1..], ls[1..]);
  }

  /** One turn of the first loop, in terms of the whole input s. */
  method Feed(cmp: Compare, pending: Node?, list: Node, count: nat, ghost s: seq<Node>, ghost hs: seq<Node>,
              ghost ls: seq<seq<Node>>, ghost segs: seq<seq<Node>>, ghost rest: seq<Node>)
    returns (list': Node?, ghost hs': seq<Node>, ghost ls': seq<seq<Node>>, ghost segs': seq<seq<Node>>,
             ghost log: seq<(nat, nat)>)
    requires TotalPreorder(cmp) && Fact(Between(cmp, s, pending, hs, ls, segs, list, rest, count))
    requires All(ls) + Set(rest) == Set(s)
    modifies Set(s)
    ensures rest != [] && (list' == null <==> rest[1..] == [])
    ensures Fact(Between(cmp, s, list, hs', ls', segs', list', rest[1..], count + 1))
    ensures All(ls') + Set(rest[1..]) == Set(s) && log == RoundLog(count)
  {
    hide Between, TotalPreorder, All, Set, RoundLog;
    list', hs', ls', segs', log := OneRound(cmp, pending, list, count, s, hs, ls, segs, rest);
  }

  /** The first loop: every element of the input s goes to the pending lists. */
  method Distribute(cmp: Compare, list0: Node, ghost s: seq<Node>)
    returns (pending: Node, ghost hs: seq<Node>, ghost ls: seq<seq<Node>>, ghost segs: seq<seq<Node>>,
             ghost log: seq<(nat, nat)>)
    requires TotalPreorder(cmp) && Fact(Chain(list0, s))
    modifies Set(s)
    ensures Fact(Between(cmp, s, pending, hs, ls, segs, null, [], |s|)) && All(ls) == Set(s) && log == RoundLogs(|s|)
  {
    hide Between, Chain, TotalPreorder, All, Set;
    var count, list: Node?, top: Node? := 0, list0, null;
    hs, ls, segs, log := [], [], [], [];
    ghost var rest := s;
    StartBetween(cmp, list0, s);
    pending := list0;
    while list != null
      invariant Fact(Between(cmp, s, top, hs, ls, segs, list, rest, count)) && All(ls) + Set(rest) == Set(s)
      invariant count + |rest| == |s| && (count > 0 ==> top != null) && (list == null <==> rest == [])
      invariant log == RoundLogs(count)
      decreases |rest|
    {
      var x: Node := list;
      ghost var more;
      list, hs, ls, segs, more := Feed(cmp, top, x, count, s, hs, ls, segs, rest);
      log := log + more;
      top, rest, count := x, rest[1..], count + 1;
    }
    AllFed(ls, rest);
    pending := top;
  }

  lemma AllFed(ls: seq<seq<Node>>, rest: seq<Node>)
    requires rest == []
    ensures All(ls) + Set(rest) == All(ls)
  {
  }

  lemma StartBetween(cmp: Compare, list: Node, s: seq<Node>)
    requires Fact(Chain(list, s))
    ensures s != [] && All([]) == {} && Fact(Between(cmp, s, null, [], [], [], list, s, 0))
  {
    assert Flat([]) + s == s;
  }

  /** The second loop and the final merge. */
  method Collect(cmp: Compare, head: Node, pending0: Node, ghost s: seq<Node>, ghost hs0: seq<Node>,
                 ghost ls0: seq<seq<Node>>, ghost segs0: seq<seq<Node>>) returns (ghost log: seq<(nat, nat)>)
    requires TotalPreorder(cmp) && Fact(Between(cmp, s, pending0, hs0, ls0, segs0, null, [], |s|)) && |s| > 1
    requires head !in All(ls0)
    modifies {head}, All(ls0)
    ensures Fact(Ring(head, Sort(cmp, s))) && log == EndLog(Sizes(|s|, 1, 0)[1..], Sizes(|s|, 1, 0)[0])
  {
    BetweenToEnding(cmp, s, pending0, hs0, ls0, segs0, |s|);
    ghost var all := EndLog(Lengths(ls0[1..]), |ls0[0]|);
    ghost var hs, ls, segs, acc, seg := hs0[1..], ls0[1..], segs0[1..], ls0[0], segs0[0];
    hide Between, TotalPreorder, Merge, Sort, SortedParts, Flat, All, Set, EndLog, Lengths, Sizes;
    var list := pending0;
    var pending: Node? := pending0.prev;
    log := [];
    while true
      invariant Fact(Ending(cmp, s, pending, hs, ls, segs, list, acc, seg)) && ls != [] && |hs| == |ls|
        && pending == hs[0]
      invariant All(ls) + Set(acc) == All(ls0) && log + EndLog(Lengths(ls), |acc|) == all
      decreases |ls|
    {
      EndingHead(cmp, s, pending, hs, ls, segs, list, acc, seg);
      var next := pending.prev;
      if next == null {
        break;
      }
      ghost var sizes;
      EndLogStep(cmp, ls, acc, log);
      list, sizes := MergeDown(cmp, pending, list, s, hs, ls, segs, acc, seg);
      log := log + [sizes];
      hs, ls, segs, acc, seg, pending := hs[1..], ls[1..], segs[1..], Merge(cmp, ls[0], acc), segs[0] + seg, next;
    }
    LastMerge(cmp, s, pending, hs, ls, segs, list, acc, seg);
    EndLogStep(cmp, ls, acc, log);
    EndLogMore([], 0, [], |Merge(cmp, ls[0], acc)|);
    ghost var sizes := MergeFinal(cmp, head, pending, list, ls[0], acc);
    log := log + [sizes];
  }

  lemma EndLogStep(cmp: Compare, ls: seq<seq<Node>>, acc: seq<Node>, log: seq<(nat, nat)>)
    requires ls != []
    ensures log + EndLog(Lengths(ls), |acc|) == log + [(|ls[0]|, |acc|)] + EndLog(Lengths(ls[1..]),
      |Merge(cmp, ls[0], acc)|)
    ensures |ls| == 1 ==> Lengths(ls[1..]) == []
  {
    hide Merge, Lengths, EndLog;
    MergeLength(cmp, ls[0], acc);
    LengthsCons(ls);
    EndLogMore(log, |ls[0]|, Lengths(ls[1..]), |acc|);
  }

  lemma LengthsCons(ls: seq<seq<Node>>)
    requires ls != []
    ensures Lengths(ls) == [|ls[0]|] + Lengths(ls[1..]) && (|ls| == 1 ==> Lengths(ls[1..]) == [])
  {
  }

  lemma EndLogMore(log: seq<(nat, nat)>, x: nat, rest: seq<nat>, acc: nat)
    ensures log + EndLog([x] + rest, acc) == log + [(x, acc)] + EndLog(rest, acc + x)
    ensures EndLog([], acc) == []
  {
    EndLogCons(x, rest, acc);
  }

  lemma EndingHead(cmp: Compare, s: seq<Node>, pending: Node, hs: seq<Node>, ls: seq<seq<Node>>, segs: seq<seq<Node>>,
                   list: Node, acc: seq<Node>, seg: seq<Node>)
    requires Fact(Ending(cmp, s, pending, hs, ls, segs, list, acc, seg)) && ls != []
    ensures |hs| == |ls| && pending == hs[0] && pending.prev == (if |hs| == 1 then null else hs[1])
  {
    Pop(pending, hs, ls);
  }

  lemma LastMerge(cmp: Compare, s: seq<Node>, pending: Node, hs: seq<Node>, ls: seq<seq<Node>>, segs: seq<seq<Node>>,
                  list: Node, acc: seq<Node>, seg: seq<Node>)
    requires TotalPreorder(cmp) && Fact(Ending(cmp, s, pending, hs, ls, segs, list, acc, seg)) && |ls| == 1
    ensures Fact(Chain(pending, ls[0])) && Fact(Chain(list, acc)) && Set(ls[0]) !! Set(acc) && Set(ls[0]) <= All(ls)
    ensures Merge(cmp, ls[0], acc) == Sort(cmp, s)
  {
    Pop(pending, hs, ls);
    EndingMeaning(cmp, s, ls, segs, acc, seg);
    assert Flat(segs[1..]) == [];
    assert [] + (segs[0] + seg) == segs[0] + seg;
  }

  /**
   * list_sort.  The ring comes back with its elements in stable sorted order, and the
   * merges on the way are those that the number of elements fixes.
   */
  method ListSort(cmp: Compare, head: Node, ghost s: seq<Node>) returns (ghost log: seq<(nat, nat)>)
    requires TotalPreorder(cmp) && Ring(head, s)
    modifies {head}, Set(s)
    ensures Ring(head, Sort(cmp, s)) && log == MergeLog(|s|)
  {
    log := [];
    var list: Node? := head.next;
    ghost var all := [head] + s;
    assert s != [] ==> all[0].next == all[1] && all[|s|] == s[|s| - 1];
    if list == head.prev {
      Short(cmp, head, s);
      return;
    }
    ToChain(head, s);
    head.prev.next := null;
    assert Fact(Chain(list, s));
    var pending;
    ghost var hs, ls, segs, log1, log2;
    hide Ring, Sort, Chain;
    pending, hs, ls, segs, log1 := Distribute(cmp, list, s);
    log2 := Collect(cmp, head, pending, s, hs, ls, segs);
    SomePending(|s|);
    log := log1 + log2;
  }

  lemma Short(cmp: Compare, head: Node, s: seq<Node>)
    requires Ring(head, s) && head.next == head.prev
    ensures Sort(cmp, s) == s && MergeLog(|s|) == []
  {
    var all := [head] + s;
    if s != [] {
      assert all[0].next == all[1];
      assert all[1] == all[|s|];
      assert s[1..] == [];
      MergesCounted(1);
    }
  }

  lemma ToChain(head: Node, s: seq<Node>)
    requires Ring(head, s) && head.next != head.prev
    ensures |s| > 1 && head.prev == s[|s| - 1] && NoDup(s) && Links(s) && head !in s && head.next == s[0]
  {
    var all := [head] + s;
    assert forall i :: 0 <= i < |s| ==> s[i] == all[i + 1];
    assert s != [] ==> all[0].next == all[1];
  }
}
