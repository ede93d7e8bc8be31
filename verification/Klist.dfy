/**
 * The klist of lib/klist.c: a list that may be changed while many iterators walk it.
 * Every operation is one hold of the list lock, so a run of operations is an
 * interleaving of adders, deleters and iterators.
 */
module Klist {
  import opened Base

  type NodeId = nat
  type IterId = nat

  // ----- positions -----

  ghost predicate NoDup(s: seq<NodeId>)
  {
    forall i, j :: 0 <= i < j < |s| ==> s[i] != s[j]
  }

  /** The nodes of s up to and with c. */
  ghost function Upto(s: seq<NodeId>, c: NodeId): set<NodeId>
  {
    if s == [] then {} else {s[0]} + (if s[0] == c then {} else Upto(s[1..], c))
  }

  /** The nodes behind c. */
  function After(s: seq<NodeId>, c: NodeId): seq<NodeId>
  {
    if s == [] then [] else if s[0] == c then s[1..] else After(s[1..], c)
  }

  /** The nodes in front of c. */
  function InFront(s: seq<NodeId>, c: NodeId): seq<NodeId>
  {
    if s == [] || s[0] == c then [] else [s[0]] + InFront(s[1..], c)
  }

  function Reverse(s: seq<NodeId>): seq<NodeId>
  {
    if s == [] then [] else Reverse(s[1..]) + [s[0]]
  }

  lemma {:induction false} ReverseMembers(s: seq<NodeId>)
    ensures forall n :: n in Reverse(s) <==> n in s
  {
    if s != [] {
      ReverseMembers(s[1..]);
    }
  }

  lemma {:induction false} ReverseAt(s: seq<NodeId>, k: nat)
    requires k < |s|
    ensures |Reverse(s)| == |s| && Reverse(s)[k] == s[|s| - 1 - k]
  {
    if |s| > 1 {
      ReverseAt(s[1..], if k < |s| - 1 then k else 0);
    }
  }

  lemma {:induction false} ReverseJoin(a: seq<NodeId>, b: seq<NodeId>)
    ensures Reverse(a + b) == Reverse(b) + Reverse(a)
  {
    if a == [] {
      assert a + b == b;
    } else {
      ReverseJoin(a[1..], b);
      assert (a + b)[1..] == a[1..] + b && (a + b)[0] == a[0];
    }
  }

  lemma {:induction false} ReverseTwice(s: seq<NodeId>)
    ensures Reverse(Reverse(s)) == s && |Reverse(s)| == |s|
  {
    if s != [] {
      ReverseTwice(s[1..]);
      ReverseJoin(Reverse(s[1..]), [s[0]]);
      assert [s[0]][1..] == [] && Reverse([s[0]]) == [s[0]];
    }
  }

  lemma {:induction false} PartsOf(a: seq<NodeId>, c: NodeId, b: seq<NodeId>)
    requires c !in a
    ensures After(a + [c] + b, c) == b && InFront(a + [c] + b, c) == a
  {
    var s := a + [c] + b;
    if a == [] {
      assert s[0] == c && s[1..] == b;
    } else {
      assert s[0] == a[0] && s[1..] == a[1..] + [c] + b;
      PartsOf(a[1..], c, b);
      assert a == [a[0]] + a[1..];
    }
  }

  lemma {:induction false} RestOf(a: seq<NodeId>, c: NodeId, b: seq<NodeId>)
    requires c !in a
    ensures Without(a + [c] + b, c) == a + b
  {
    var s := a + [c] + b;
    if a == [] {
      assert s[0] == c && s[1..] == b == a + b;
    } else {
      assert s[0] == a[0] && s[1..] == a[1..] + [c] + b;
      RestOf(a[1..], c, b);
      assert a + b == [a[0]] + (a[1..] + b);
    }
  }

  /** After, InFront and Without by position. */
  lemma SplitAt(s: seq<NodeId>, k: nat)
    requires k < |s| && NoDup(s)
    ensures After(s, s[k]) == s[k + 1..] && InFront(s, s[k]) == s[..k] && Without(s, s[k]) == s[..k] + s[k + 1..]
  {
    hide After, InFront, Without;
    assert s == s[..k] + [s[k]] + s[k + 1..] && s[k] !in s[..k];
    PartsOf(s[..k], s[k], s[k + 1..]);
    RestOf(s[..k], s[k], s[k + 1..]);
  }

  lemma {:induction false} InFrontIn(s: seq<NodeId>, c: NodeId)
    ensures forall n :: n in InFront(s, c) ==> n in s && n != c
  {
    if s != [] && s[0] != c {
      InFrontIn(s[1..], c);
    }
  }

  /** list_del */
  function Without(s: seq<NodeId>, c: NodeId): seq<NodeId>
  {
    if s == [] then [] else if s[0] == c then s[1..] else [s[0]] + Without(s[1..], c)
  }

  lemma {:induction false} WithoutMembers(s: seq<NodeId>, c: NodeId)
    requires NoDup(s)
    ensures forall n :: n in Without(s, c) <==> n in s && n != c
    ensures NoDup(Without(s, c))
  {
    if s != [] && s[0] != c {
      WithoutMembers(s[1..], c);
      var w := Without(s[1..], c);
      assert s[0] !in w;
      assert forall i, j :: 0 <= i < j < |w| ==> w[i] != w[j];
      NoDupCons(s[0], w);
    }
  }

  lemma NoDupCons(x: NodeId, s: seq<NodeId>)
    requires NoDup(s) && x !in s
    ensures NoDup([x] + s)
  {
  }

  lemma NoDupPart(a: seq<NodeId>, r: NodeId, b: seq<NodeId>)
    requires NoDup(a + [r] + b)
    ensures r !in a
  {
    var s := a + [r] + b;
    assert s[|a|] == r && forall i :: 0 <= i < |a| ==> s[i] == a[i];
  }

  lemma {:induction false} WithoutUpto(s: seq<NodeId>, y: NodeId, c: NodeId)
    requires y != c && NoDup(s)
    ensures Upto(Without(s, y), c) == Upto(s, c) - {y}
  {
    if s != [] {
      var t := Without(s, y);
      if s[0] == y {
        UptoMembers(s[1..], c);
      } else {
        WithoutUpto(s[1..], y, c);
        assert t == [s[0]] + Without(s[1..], y) && t[1..] == Without(s[1..], y);
      }
    }
  }

  lemma {:induction false} UptoMembers(s: seq<NodeId>, c: NodeId)
    ensures forall n :: n in Upto(s, c) ==> n in s
    ensures c in s ==> c in Upto(s, c)
  {
    if s != [] {
      UptoMembers(s[1..], c);
    }
  }

  /** A node put in anywhere leaves the others where they are. */
  lemma {:induction false} InsertUpto(a: seq<NodeId>, x: NodeId, b: seq<NodeId>, c: NodeId)
    requires x != c && c in a + b
    ensures Upto(a + [x] + b, c) - {x} == Upto(a + b, c) - {x}
  {
    if a == [] {
      assert a + [x] + b == [x] + b && a + b == b;
      assert ([x] + b)[1..] == b;
    } else {
      var t := a + [x] + b;
      assert t[1..] == a[1..] + [x] + b && (a + b)[1..] == a[1..] + b && t[0] == (a + b)[0] == a[0];
      if a[0] != c {
        InsertUpto(a[1..], x, b, c);
        assert Upto(t, c) - {x} == ({a[0]} - {x}) + (Upto(t[1..], c) - {x});
        assert Upto(a + b, c) - {x} == ({a[0]} - {x}) + (Upto((a + b)[1..], c) - {x});
      }
    }
  }

  /** What is not at or before c is behind it. */
  lemma {:induction false} UptoOrAfter(s: seq<NodeId>, c: NodeId)
    requires c in s && NoDup(s)
    ensures forall n :: n in s ==> (n in Upto(s, c) <==> n !in After(s, c))
    ensures forall n :: n in After(s, c) ==> n in s
  {
    if s[0] == c {
    } else {
      UptoOrAfter(s[1..], c);
    }
  }

  /** From c on to r, the next node behind c that is not skipped. */
  lemma {:induction false} UptoNext(s: seq<NodeId>, c: NodeId, skipped: seq<NodeId>, r: NodeId, rest: seq<NodeId>)
    requires NoDup(s) && c in s && After(s, c) == skipped + [r] + rest
    ensures r in s && Upto(s, r) == Upto(s, c) + (set n | n in skipped) + {r}
  {
    if s[0] == c {
      assert s[1..] == skipped + [r] + rest && s[1..][|skipped|] == r;
      NoDupPart(skipped, r, rest);
      UptoOf(skipped, r, rest);
    } else {
      UptoNext(s[1..], c, skipped, r, rest);
    }
  }

  lemma {:induction false} UptoOf(skipped: seq<NodeId>, r: NodeId, rest: seq<NodeId>)
    requires r !in skipped
    ensures Upto(skipped + [r] + rest, r) == (set n | n in skipped) + {r}
  {
    var s := skipped + [r] + rest;
    if skipped != [] {
      UptoOf(skipped[1..], r, rest);
      assert s[1..] == skipped[1..] + [r] + rest;
    }
  }

  // ----- counting -----

  /** The iterators that stand on n. */
  ghost function Standers(cursor: map<IterId, Option<NodeId>>, n: NodeId): set<IterId>
  {
    set i | i in cursor && cursor[i] == Some(n)
  }

  ghost function Standing(cursor: map<IterId, Option<NodeId>>, n: NodeId): nat
  {
    |Standers(cursor, n)|
  }

  lemma StandingMoves(cursor: map<IterId, Option<NodeId>>, i: IterId, to: Option<NodeId>, n: NodeId)
    requires i in cursor
    ensures Standing(cursor[i := to], n) == Standing(cursor, n) - One(cursor[i] == Some(n)) + One(to == Some(n))
  {
    var was, now := Standers(cursor, n), Standers(cursor[i := to], n);
    if to == Some(n) {
      assert now == was + {i};
    } else {
      assert now == was - {i};
    }
  }

  lemma StandingNew(cursor: map<IterId, Option<NodeId>>, i: IterId, n: NodeId)
    requires i in cursor ==> cursor[i] == None
    ensures Standing(cursor[i := None], n) == Standing(cursor, n)
  {
    assert Standers(cursor[i := None], n) == Standers(cursor, n);
  }

  lemma StandingHere(cursor: map<IterId, Option<NodeId>>, i: IterId, n: NodeId)
    requires i in cursor && cursor[i] == Some(n)
    ensures Standing(cursor, n) > 0
  {
    assert i in Standers(cursor, n);
  }

  function One(b: bool): int
  {
    if b then 1 else 0
  }

  ghost function Times(s: seq<NodeId>, n: NodeId): nat
  {
    if s == [] then 0 else Times(s[..|s| - 1], n) + (if s[|s| - 1] == n then 1 else 0)
  }

  lemma TimesSnoc(s: seq<NodeId>, x: NodeId, n: NodeId)
    ensures Times(s + [x], n) == Times(s, n) + One(x == n)
  {
    assert (s + [x])[..|s|] == s;
  }

  // ----- the operations -----

  /** k_list, n_ref and the dead bit of every node, and i_cur of every iterator. */
  datatype State = State(
    list: seq<NodeId>,
    count: map<NodeId, int>,
    dead: set<NodeId>,
    cursor: map<IterId, Option<NodeId>>)

  datatype Op =
    | Add(n: NodeId, p: nat)
    | Del(n: NodeId)
    | Init(i: IterId, on: Option<NodeId>)
    | Exit(i: IterId)
    | Next(i: IterId)
    | Prev(i: IterId)

  /**
   * klist_add_head, klist_add_tail, klist_add_behind, klist_add_before: node n goes in at position p.
   * The count is set by klist_node_init before the list lock is taken.  Until then the node has
   * count 1 and is on no list, which only its adder can see.
   */
  function Added(s: State, n: NodeId, p: nat): State
    requires p <= |s.list|
  {
    s.(list := s.list[..p] + [n] + s.list[p..], count := s.count[n := 1])
  }

  /** klist_dec_and_del: the last reference takes the node off the list. */
  function Dec(s: State, n: NodeId): State
    requires n in s.count
  {
    var t := s.(count := s.count[n := s.count[n] - 1]);
    if t.count[n] == 0 then t.(list := Without(s.list, n), dead := s.dead - {n}) else t
  }

  /** klist_put with kill */
  function Killed(s: State, n: NodeId): State
    requires n in s.count
  {
    Dec(s.(dead := s.dead + {n}), n)
  }

  /** Iterator i comes to stand on n, or nowhere. */
  function Placed(s: State, i: IterId, on: Option<NodeId>): State
  {
    match on
    case Some(n) => if n in s.count then s.(count := s.count[n := s.count[n] + 1], cursor := s.cursor[i := on]) else s
    case None => s.(cursor := s.cursor[i := None])
  }

  /** klist_iter_init_node: it stands on the node only while that has references */
  function Initial(s: State, i: IterId, on: Option<NodeId>): State
  {
    var t := Placed(s, i, None);
    if on.Some? && on.value in s.count && s.count[on.value] > 0 then Placed(t, i, on) else t
  }

  /** klist_iter_exit, and the first half of klist_next and klist_prev: iterator i gives up its node */
  function Exited(s: State, i: IterId): State
    requires i in s.cursor && (s.cursor[i].Some? ==> s.cursor[i].value in s.count)
  {
    if s.cursor[i].None? then s else Dec(s.(cursor := s.cursor[i := None]), s.cursor[i].value)
  }

  /** The nodes that klist_next and klist_prev look at, in their order. */
  function Ahead(s: State, i: IterId): seq<NodeId>
    requires i in s.cursor
  {
    if s.cursor[i].None? then s.list else After(s.list, s.cursor[i].value)
  }

  function Back(s: State, i: IterId): seq<NodeId>
    requires i in s.cursor
  {
    Reverse(if s.cursor[i].None? then s.list else InFront(s.list, s.cursor[i].value))
  }

  /** How many dead nodes lead next. */
  function Skipped(next: seq<NodeId>, dead: set<NodeId>): (k: nat)
    ensures k <= |next| && (forall j :: 0 <= j < k ==> next[j] in dead) && (k < |next| ==> next[k] !in dead)
  {
    if next == [] || next[0] !in dead then 0 else 1 + Skipped(next[1..], dead)
  }

  /** klist_next and klist_prev: on to the first node of next that is not dead */
  function Moved(s: State, i: IterId, next: seq<NodeId>): State
    requires i in s.cursor && (s.cursor[i].Some? ==> s.cursor[i].value in s.count)
  {
    var t := Exited(s, i);
    var k := Skipped(next, t.dead);
    if k < |next| then Placed(t, i, Some(next[k])) else t
  }

  /**
   * A node is added while it is on no list, and deleted once; iterators are initialised while they
   * stand nowhere.  That an iterator's node has a count is part of Counts and says nothing more.
   */
  ghost predicate Enabled(s: State, op: Op)
  {
    match op
    case Add(n, p) => p <= |s.list| && (n in s.count ==> s.count[n] == 0)
    case Del(n) => n in s.list && n !in s.dead && n in s.count
    case Init(i, _) => i in s.cursor ==> s.cursor[i].None?
    case Exit(i) => i in s.cursor && (s.cursor[i].Some? ==> s.cursor[i].value in s.count)
    case Next(i) => i in s.cursor && (s.cursor[i].Some? ==> s.cursor[i].value in s.count)
    case Prev(i) => i in s.cursor && (s.cursor[i].Some? ==> s.cursor[i].value in s.count)
  }

  ghost function Apply(s: State, op: Op): State
    requires Enabled(s, op)
  {
    match op
    case Add(n, p) => Added(s, n, p)
    case Del(n) => Killed(s, n)
    case Init(i, on) => Initial(s, i, on)
    case Exit(i) => Exited(s, i)
    case Next(i) => Moved(s, i, Ahead(s, i))
    case Prev(i) => Moved(s, i, Back(s, i))
  }

  // ----- the counts -----

  /**
   * A node's count is one while it is not dead plus the iterators that stand on it, and it is
   * on the list exactly while that is positive.
   */
  ghost predicate Counts(s: State)
  {
    Owes(s, None)
  }

  /** The same, except that the count of node debt is one too high. */
  ghost predicate Owes(s: State, debt: Option<NodeId>)
  {
    && (forall n :: n in s.count ==>
      s.count[n] == One(n in s.list && n !in s.dead) + Standing(s.cursor, n) + One(debt == Some(n)))
    && (forall n :: n in s.list <==> n in s.count && s.count[n] > 0)
    && (forall n :: n in s.dead ==> n in s.list)
    && NoDup(s.list)
    && (forall i :: i in s.cursor && s.cursor[i].Some? ==> s.cursor[i].value in s.count)
  }

  lemma ListNoDup(s: State)
    requires Counts(s)
    ensures NoDup(s.list)
  {
  }

  /** Every iterator that stands somewhere stands on the list. */
  lemma CursorOnList(s: State, i: IterId)
    requires Counts(s) && i in s.cursor && s.cursor[i].Some?
    ensures s.cursor[i].value in s.list
  {
    StandingHere(s.cursor, i, s.cursor[i].value);
  }

  lemma AddKeeps(s: State, n: NodeId, p: nat)
    requires Counts(s) && p <= |s.list| && (n in s.count ==> s.count[n] == 0)
    ensures Counts(Added(s, n, p)) && n !in s.list
  {
    assert n !in s.list && n !in s.dead;
    InsertMembers(s.list, n, p);
    NobodyOnFree(s, n);
    NoDupInsert(s.list, n, p);
    hide NoDup, Standing;
  }

  lemma InsertMembers(list: seq<NodeId>, n: NodeId, p: nat)
    requires p <= |list|
    ensures forall m :: m in list[..p] + [n] + list[p..] <==> m in list || m == n
  {
    assert list == list[..p] + list[p..];
  }

  lemma NoDupInsert(list: seq<NodeId>, n: NodeId, p: nat)
    requires NoDup(list) && p <= |list| && n !in list
    ensures NoDup(list[..p] + [n] + list[p..])
  {
    var l := list[..p] + [n] + list[p..];
    forall i, j | 0 <= i < j < |l|
      ensures l[i] != l[j]
    {
      assert l[i] == if i < p then list[i] else if i == p then n else list[i - 1];
      assert l[j] == if j < p then list[j] else if j == p then n else list[j - 1];
    }
  }

  /** No iterator stands on a node that is not in use. */
  lemma NobodyOnFree(s: State, n: NodeId)
    requires Counts(s) && (n in s.count ==> s.count[n] == 0)
    ensures Standing(s.cursor, n) == 0
  {
    if n !in s.count {
      assert Standers(s.cursor, n) == {};
    }
  }

  /** Giving back the reference that is owed puts the books right; only a dead node leaves the list. */
  lemma DecKeeps(s: State, n: NodeId)
    requires Owes(s, Some(n)) && n in s.list
    ensures Counts(Dec(s, n))
    ensures if Dec(s, n).list == s.list then Dec(s, n).dead == s.dead else
      n in s.dead && n !in Dec(s, n).list && Dec(s, n).list == Without(s.list, n) && Dec(s, n).dead == s.dead - {n}
  {
    WithoutMembers(s.list, n);
    hide NoDup, Standing, Without;
  }

  lemma KillOwes(s: State, n: NodeId)
    requires Counts(s) && n in s.list && n !in s.dead
    ensures Owes(s.(dead := s.dead + {n}), Some(n))
  {
    hide Standing, NoDup;
  }

  lemma ExitOwes(s: State, i: IterId)
    requires Counts(s) && i in s.cursor && s.cursor[i].Some?
    ensures Owes(s.(cursor := s.cursor[i := None]), s.cursor[i])
  {
    forall n: NodeId
      ensures Standing(s.cursor[i := None], n) == Standing(s.cursor, n) - One(s.cursor[i] == Some(n))
    {
      StandingMoves(s.cursor, i, None, n);
    }
    hide Standing, NoDup;
  }

  lemma ExitKeeps(s: State, i: IterId)
    requires Counts(s) && i in s.cursor
    ensures s.cursor[i].Some? ==> s.cursor[i].value in s.list && s.cursor[i].value in s.count
    ensures var t := Exited(s, i);
      && Counts(t) && t.cursor == s.cursor[i := None]
      && if t.list == s.list then t.dead == s.dead else
         && s.cursor[i].Some? && s.cursor[i].value in s.dead && s.cursor[i].value !in t.list
         && t.list == Without(s.list, s.cursor[i].value) && t.dead == s.dead - {s.cursor[i].value}
  {
    if s.cursor[i].Some? {
      CursorOnList(s, i);
      ExitOwes(s, i);
      DecKeeps(s.(cursor := s.cursor[i := None]), s.cursor[i].value);
      hide Owes;
    } else {
      assert s.cursor[i := None] == s.cursor;
    }
  }

  lemma PlaceKeeps(s: State, i: IterId, r: NodeId)
    requires Counts(s) && i in s.cursor && s.cursor[i].None? && r in s.list
    ensures Counts(Placed(s, i, Some(r))) && r in s.count
  {
    forall n: NodeId
      ensures Standing(s.cursor[i := Some(r)], n) == Standing(s.cursor, n) + One(r == n)
    {
      StandingMoves(s.cursor, i, Some(r), n);
    }
    hide Standing, NoDup;
  }

  lemma InitKeeps(s: State, i: IterId, on: Option<NodeId>)
    requires Counts(s) && (i in s.cursor ==> s.cursor[i].None?)
    ensures Counts(Initial(s, i, on))
  {
    forall n: NodeId
      ensures Standing(s.cursor[i := None], n) == Standing(s.cursor, n)
    {
      StandingNew(s.cursor, i, n);
    }
    var t := Placed(s, i, None);
    hide Standing, NoDup;
    assert Counts(t);
    if on.Some? && on.value in s.count && s.count[on.value] > 0 {
      PlaceKeeps(t, i, on.value);
    }
    hide Owes;
  }

  /** r is the first node of next that is not dead. */
  ghost predicate FirstLive(next: seq<NodeId>, dead: set<NodeId>, r: Option<NodeId>)
  {
    match r
    case None => forall n :: n in next ==> n in dead
    case Some(n) => exists k :: 0 <= k < |next| && next[k] == n && n !in dead && forall j :: 0 <= j < k ==>
      next[j] in dead
  }

  lemma ExitMembers(s: State, i: IterId)
    requires Counts(s) && i in s.cursor
    ensures s.cursor[i].Some? ==> s.cursor[i].value in s.count
    ensures var t := Exited(s, i);
      forall n :: n in s.list && Some(n) != s.cursor[i] ==> n in t.list && (n in t.dead <==> n in s.dead)
  {
    ExitKeeps(s, i);
    if s.cursor[i].Some? {
      WithoutMembers(s.list, s.cursor[i].value);
    }
    hide Owes, Without, Exited;
  }

  /** Going on to a node ahead or back keeps the books, and the iterator then stands on the first live one. */
  lemma MoveKeeps(s: State, i: IterId, next: seq<NodeId>)
    requires Counts(s) && i in s.cursor && forall n :: n in next ==> n in s.list && Some(n) != s.cursor[i]
    ensures s.cursor[i].Some? ==> s.cursor[i].value in s.count
    ensures Counts(Moved(s, i, next)) && Went(s, Exited(s, i), Moved(s, i, next), i, next)
  {
    ExitKeeps(s, i);
    ExitMembers(s, i);
    var t := Exited(s, i);
    SkippedIsFirst(next, s.dead, t.dead);
    hide Counts, Exited, Skipped, FirstLive, Went, Placed;
    PlaceFirst(s, t, i, next, Skipped(next, t.dead));
  }

  lemma PlaceFirst(s: State, t: State, i: IterId, next: seq<NodeId>, k: nat)
    requires Counts(t) && i in s.cursor && t.cursor == s.cursor[i := None] && k <= |next|
    requires forall n :: n in next ==> n in t.list
    requires FirstLive(next, s.dead, if k < |next| then Some(next[k]) else None)
    ensures var t' := if k < |next| then Placed(t, i, Some(next[k])) else t; Counts(t') && Went(s, t, t', i, next)
  {
    if k < |next| {
      var r := next[k];
      PlaceKeeps(t, i, r);
      assert s.cursor[i := None][i := Some(r)] == s.cursor[i := Some(r)];
    }
    hide Counts, FirstLive;
  }

  ghost predicate Went(s: State, t: State, t': State, i: IterId, next: seq<NodeId>)
  {
    && t'.list == t.list && t'.dead == t.dead && i in t'.cursor && t'.cursor == s.cursor[i := t'.cursor[i]]
    && (t'.cursor[i].Some? ==> t'.cursor[i].value in t.list)
    && FirstLive(next, s.dead, t'.cursor[i])
  }

  lemma SkippedIsFirst(next: seq<NodeId>, dead: set<NodeId>, dead': set<NodeId>)
    requires forall n :: n in next ==> (n in dead <==> n in dead')
    ensures var k := Skipped(next, dead'); FirstLive(next, dead, if k < |next| then Some(next[k]) else None)
  {
  }

  lemma AheadOnList(s: State, i: IterId)
    requires Counts(s) && i in s.cursor
    ensures forall n :: n in Ahead(s, i) ==> n in s.list && Some(n) != s.cursor[i]
    ensures forall n :: n in Back(s, i) ==> n in s.list && Some(n) != s.cursor[i]
  {
    if s.cursor[i].Some? {
      CursorOnList(s, i);
      UptoOrAfter(s.list, s.cursor[i].value);
      UptoMembers(s.list, s.cursor[i].value);
      InFrontIn(s.list, s.cursor[i].value);
      ReverseMembers(InFront(s.list, s.cursor[i].value));
    } else {
      ReverseMembers(s.list);
    }
    hide NoDup, Standing;
  }

  lemma ApplyKeepsCounts(s: State, op: Op)
    requires Counts(s) && Enabled(s, op)
    ensures Counts(Apply(s, op))
  {
    hide Counts, Moved, Exited, Initial, Added, Ahead, Back;
    match op
    case Add(n, p) => AddKeeps(s, n, p);
    case Del(n) =>
      KillOwes(s, n);
      DecKeeps(s.(dead := s.dead + {n}), n);
    case Init(i, on) => InitKeeps(s, i, on);
    case Exit(i) => ExitKeeps(s, i);
    case Next(i) =>
      AheadOnList(s, i);
      MoveKeeps(s, i, Ahead(s, i));
    case Prev(i) =>
      AheadOnList(s, i);
      MoveKeeps(s, i, Back(s, i));
  }

  // ----- what the operations mean -----

  ghost predicate Alive(s: State, n: NodeId)
  {
    n in s.list && n !in s.dead
  }

  /** An added node is alive at its place, and the others keep their order. */
  lemma AddMeans(s: State, n: NodeId, p: nat)
    requires Counts(s) && Enabled(s, Add(n, p))
    ensures
      var t := Apply(s, Add(n, p));
      && Alive(t, n) && |t.list| == |s.list| + 1 && t.list[p] == n && t.dead == s.dead && t.cursor == s.cursor
      && (forall q :: 0 <= q < p ==> t.list[q] == s.list[q])
      && (forall q :: p <= q < |s.list| ==> t.list[q + 1] == s.list[q])
  {
    AddKeeps(s, n, p);
    hide Standing, NoDup;
  }

  /** A deleted node is not alive, and stays on the list exactly while an iterator stands on it. */
  lemma DelMeans(s: State, n: NodeId)
    requires Counts(s) && Enabled(s, Del(n))
    ensures
      var t := Apply(s, Del(n));
      && !Alive(t, n) && t.cursor == s.cursor && (n in t.list <==> exists i :: i in s.cursor && s.cursor[i] == Some(n))
      && forall m :: m != n ==> (m in t.list <==> m in s.list) && (m in t.dead <==> m in s.dead)
  {
    KillOwes(s, n);
    DecKeeps(s.(dead := s.dead + {n}), n);
    WithoutMembers(s.list, n);
    NobodyThere(s.cursor, n);
    hide NoDup, Standing, Without;
  }

  lemma NobodyThere(cursor: map<IterId, Option<NodeId>>, n: NodeId)
    ensures Standing(cursor, n) > 0 <==> exists i :: i in cursor && cursor[i] == Some(n)
  {
    if i :| i in cursor && cursor[i] == Some(n) {
      StandingHere(cursor, i, n);
    }
    if Standing(cursor, n) > 0 {
      var i :| i in Standers(cursor, n);
    }
  }

  /** An iterator starts on the node asked for if that is on the list, and nowhere otherwise. */
  lemma InitMeans(s: State, i: IterId, on: Option<NodeId>)
    requires Counts(s) && Enabled(s, Init(i, on))
    ensures
      var t := Apply(s, Init(i, on));
      && t.list == s.list && t.dead == s.dead
      && t.cursor == s.cursor[i := if on.Some? && on.value in s.list then on else None]
  {
    assert s.cursor[i := None][i := on] == s.cursor[i := on];
    hide Standing, NoDup;
  }

  /** The place of an iterator in the list as klist_next sees it, -1 when it stands nowhere. */
  ghost predicate StandsAt(s: State, i: IterId, c: int)
  {
    && i in s.cursor
    && match s.cursor[i]
       case None => c == -1
       case Some(n) => 0 <= c < |s.list| && s.list[c] == n
  }

  /** r is the nearest live node of the list behind position c, if there is one. */
  ghost predicate NearestBehind(list: seq<NodeId>, dead: set<NodeId>, c: int, r: Option<NodeId>)
    requires -1 <= c
  {
    match r
    case None => forall p :: c < p < |list| ==> list[p] in dead
    case Some(n) =>
      exists q :: c < q < |list| && list[q] == n && n !in dead && forall p :: c < p < q ==> list[p] in dead
  }

  /** r is the nearest live node of the list in front of position c, if there is one. */
  ghost predicate NearestInFront(list: seq<NodeId>, dead: set<NodeId>, c: nat, r: Option<NodeId>)
    requires c <= |list|
  {
    match r
    case None => forall p :: 0 <= p < c ==> list[p] in dead
    case Some(n) =>
      exists q :: 0 <= q < c && list[q] == n && n !in dead && forall p :: q < p < c ==> list[p] in dead
  }

  lemma FirstBehind(list: seq<NodeId>, dead: set<NodeId>, c: int, r: Option<NodeId>)
    requires -1 <= c < |list| && FirstLive(list[c + 1..], dead, r)
    ensures NearestBehind(list, dead, c, r)
  {
    var next := list[c + 1..];
    assert forall p :: c < p < |list| ==> list[p] == next[p - c - 1];
    if r.Some? {
      var k :| 0 <= k < |next| && next[k] == r.value && r.value !in dead && forall j :: 0 <= j < k ==> next[j] in dead;
      assert list[c + 1 + k] == r.value;
    }
  }

  lemma FirstInFront(list: seq<NodeId>, dead: set<NodeId>, c: nat, r: Option<NodeId>)
    requires c <= |list| && FirstLive(Reverse(list[..c]), dead, r)
    ensures NearestInFront(list, dead, c, r)
  {
    var next := Reverse(list[..c]);
    ReverseTwice(list[..c]);
    forall p | 0 <= p < c
      ensures list[p] == next[c - 1 - p]
    {
      ReverseAt(list[..c], c - 1 - p);
    }
    hide Reverse;
    if r.Some? {
      var k :| 0 <= k < |next| && next[k] == r.value && r.value !in dead && forall j :: 0 <= j < k ==> next[j] in dead;
      assert list[c - 1 - k] == r.value;
    }
  }

  /** klist_next goes to the nearest live node behind the place of the iterator, or nowhere if there is none. */
  lemma NextMeans(s: State, i: IterId, c: int)
    requires Counts(s) && Enabled(s, Next(i)) && StandsAt(s, i, c)
    ensures var t := Apply(s, Next(i)); i in t.cursor && NearestBehind(s.list, s.dead, c, t.cursor[i])
  {
    hide Counts, After, Moved, Exited, FirstLive, NearestBehind;
    ListNoDup(s);
    AheadOnList(s, i);
    MoveKeeps(s, i, Ahead(s, i));
    if c >= 0 {
      SplitAt(s.list, c);
    }
    assert s.list[0..] == s.list;
    FirstBehind(s.list, s.dead, c, Apply(s, Next(i)).cursor[i]);
  }

  /** klist_prev goes to the nearest live node in front of it, or of the end of the list when it stands nowhere. */
  lemma PrevMeans(s: State, i: IterId, c: nat)
    requires Counts(s) && Enabled(s, Prev(i)) && (if s.cursor[i].None? then c == |s.list| else StandsAt(s, i, c))
    ensures var t := Apply(s, Prev(i)); i in t.cursor && NearestInFront(s.list, s.dead, c, t.cursor[i])
  {
    hide Counts, InFront, Reverse, Moved, Exited, FirstLive, NearestInFront;
    ListNoDup(s);
    AheadOnList(s, i);
    MoveKeeps(s, i, Back(s, i));
    if c < |s.list| {
      SplitAt(s.list, c);
    }
    assert s.list[..|s.list|] == s.list;
    FirstInFront(s.list, s.dead, c, Apply(s, Prev(i)).cursor[i]);
  }

  // ----- the list in place -----

  class List {
    /** k_list */
    var list: seq<NodeId>
    var count: map<NodeId, int>
    var dead: set<NodeId>
    var cursor: map<IterId, Option<NodeId>>

    ghost function Now(): State
      reads this
    {
      State(list, count, dead, cursor)
    }

    ghost predicate Valid()
      reads this
    {
      Fact(Counts(Now()))
    }

    constructor ()
      ensures Valid() && Now() == State([], map[], {}, map[])
    {
      list, count, dead, cursor := [], map[], {}, map[];
    }

    method Add(n: NodeId, p: nat)
      requires Valid() && Enabled(Now(), Op.Add(n, p))
      modifies this
      ensures Valid() && Now() == Apply(old(Now()), Op.Add(n, p))
    {
      AddKeeps(Now(), n, p);
      hide Counts;
      list := list[..p] + [n] + list[p..];
      count := count[n := 1];
    }

    /** klist_dec_and_del; the node that goes is dead */
    method DecAndDel(n: NodeId) returns (released: bool)
      requires n in list && Fact(Owes(Now(), Some(n))) && n in count
      modifies this
      ensures Valid() && Now() == Dec(old(Now()), n) && released == (old(count)[n] == 1)
      ensures released ==> n in old(dead) && n !in list
    {
      DecKeeps(Now(), n);
      WithoutMembers(list, n);
      hide Counts, Owes;
      count := count[n := count[n] - 1];
      released := count[n] == 0;
      if released {
        list := Without(list, n);
        dead := dead - {n};
      }
    }

    /** klist_del */
    method Del(n: NodeId)
      requires Valid() && Enabled(Now(), Op.Del(n))
      modifies this
      ensures Valid() && Now() == Apply(old(Now()), Op.Del(n))
    {
      KillOwes(Now(), n);
      hide Counts, Owes;
      dead := dead + {n};
      var released := DecAndDel(n);
    }

    /** klist_iter_init_node, and klist_iter_init with no node */
    method Init(i: IterId, on: Option<NodeId>)
      requires Valid() && Enabled(Now(), Op.Init(i, on))
      modifies this
      ensures Valid() && Now() == Apply(old(Now()), Op.Init(i, on))
    {
      hide Counts;
      InitKeeps(Now(), i, on);
      cursor := cursor[i := None];
      if on.Some? && on.value in count && count[on.value] > 0 {
        count := count[on.value := count[on.value] + 1];
        cursor := cursor[i := on];
      }
    }

    /** klist_iter_exit */
    method Exit(i: IterId)
      requires Valid() && Enabled(Now(), Op.Exit(i))
      modifies this
      ensures Valid() && Now() == Apply(old(Now()), Op.Exit(i))
    {
      hide Counts, Owes;
      ExitKeeps(Now(), i);
      if cursor[i].Some? {
        var n := cursor[i].value;
        ExitOwes(Now(), i);
        cursor := cursor[i := None];
        var released := DecAndDel(n);
      }
    }

    /** The scan of klist_next and klist_prev for a node that is not dead. */
    method FirstAlive(next: seq<NodeId>) returns (k: nat)
      ensures k == Skipped(next, dead)
    {
      k := 0;
      while k < |next| && next[k] in dead
        invariant k <= |next| && Skipped(next, dead) == k + Skipped(next[k..], dead)
      {
        k := k + 1;
      }
    }

    /** klist_next */
    method Next(i: IterId) returns (r: Option<NodeId>)
      requires Valid() && Enabled(Now(), Op.Next(i))
      modifies this
      ensures Valid() && Now() == Apply(old(Now()), Op.Next(i)) && r == cursor[i]
    {
      hide Counts;
      AheadOnList(Now(), i);
      r := MoveOn(i, if cursor[i].None? then list else After(list, cursor[i].value));
    }

    /** klist_prev */
    method Prev(i: IterId) returns (r: Option<NodeId>)
      requires Valid() && Enabled(Now(), Op.Prev(i))
      modifies this
      ensures Valid() && Now() == Apply(old(Now()), Op.Prev(i)) && r == cursor[i]
    {
      hide Counts;
      AheadOnList(Now(), i);
      r := MoveOn(i, Reverse(if cursor[i].None? then list else InFront(list, cursor[i].value)));
    }

    method MoveOn(i: IterId, next: seq<NodeId>) returns (r: Option<NodeId>)
      requires Valid() && Enabled(Now(), Op.Exit(i)) && forall n :: n in next ==> n in list && Some(n) != cursor[i]
      modifies this
      ensures Valid() && i in cursor && Now() == Moved(old(Now()), i, next) && r == cursor[i]
    {
      hide Counts;
      MoveKeeps(Now(), i, next);
      ExitKeeps(Now(), i);
      Exit(i);
      var k := FirstAlive(next);
      r := None;
      if k < |next| {
        r := Some(next[k]);
        count := count[next[k] := count[next[k]] + 1];
        cursor := cursor[i := r];
      }
    }
  }

  // ----- walks -----

  /** What an iterator has come past when it stands at cur. */
  ghost function Behind(list: seq<NodeId>, cur: Option<NodeId>): set<NodeId>
  {
    match cur
    case None => {}
    case Some(c) => Upto(list, c)
  }

  /** Up to the node at position k of what lies ahead. */
  lemma NextSplit(s: State, i: IterId, k: nat)
    requires Counts(s) && i in s.cursor && k < |Ahead(s, i)|
    ensures var next := Ahead(s, i);
      next[k] in s.list && Upto(s.list, next[k]) == Behind(s.list, s.cursor[i]) + (set n | n in next[..k]) + {next[k]}
  {
    var next := Ahead(s, i);
    assert next == next[..k] + [next[k]] + next[k + 1..];
    if s.cursor[i].Some? {
      CursorOnList(s, i);
      UptoNext(s.list, s.cursor[i].value, next[..k], next[k], next[k + 1..]);
    } else {
      NoDupPart(next[..k], next[k], next[k + 1..]);
      UptoOf(next[..k], next[k], next[k + 1..]);
    }
  }

  /** A dead node that leaves the list leaves the others on their side of c. */
  lemma ExitUpto(s: State, j: IterId, c: NodeId, n: NodeId)
    requires Counts(s) && Enabled(s, Exit(j)) && Alive(s, n) && c in Exited(s, j).list
    ensures n in Upto(Exited(s, j).list, c) <==> n in Upto(s.list, c)
    ensures Alive(Exited(s, j), n)
  {
    ExitKeeps(s, j);
    var t := Exited(s, j);
    if t.list != s.list {
      WithoutUpto(s.list, s.cursor[j].value, c);
      WithoutMembers(s.list, s.cursor[j].value);
    }
    hide Upto, Without, Exited;
  }

  /** One call of klist_next: it comes past a live node exactly when it returns it, and returns none only past them
      all. */
  lemma NextPasses(s: State, i: IterId, n: NodeId)
    requires Counts(s) && Enabled(s, Next(i)) && Alive(s, n)
    ensures var t := Apply(s, Next(i));
      && i in t.cursor
      && match t.cursor[i]
         case None => n in Behind(s.list, s.cursor[i])
         case Some(r) => One(n in Upto(t.list, r)) == One(n in Behind(s.list, s.cursor[i])) + One(n == r)
  {
    var next := Ahead(s, i);
    AheadOnList(s, i);
    MoveKeeps(s, i, next);
    var t := Apply(s, Next(i));
    if t.cursor[i].None? {
      LiveIsBehind(s, i, n);
    } else {
      var r := t.cursor[i].value;
      ExitUpto(s, i, r, n);
      LivePassed(s, i, r, n);
    }
    hide Counts, Upto, Moved, Exited, Ahead;
  }

  lemma LiveIsBehind(s: State, i: IterId, n: NodeId)
    requires Counts(s) && i in s.cursor && Alive(s, n) && FirstLive(Ahead(s, i), s.dead, None)
    ensures n in Behind(s.list, s.cursor[i])
  {
    if s.cursor[i].Some? {
      CursorOnList(s, i);
      UptoOrAfter(s.list, s.cursor[i].value);
    }
  }

  lemma LivePassed(s: State, i: IterId, r: NodeId, n: NodeId)
    requires Counts(s) && i in s.cursor && Alive(s, n) && FirstLive(Ahead(s, i), s.dead, Some(r))
    ensures One(n in Upto(s.list, r)) == One(n in Behind(s.list, s.cursor[i])) + One(n == r)
  {
    var next := Ahead(s, i);
    var k :| 0 <= k < |next| && next[k] == r && r !in s.dead && forall j :: 0 <= j < k ==> next[j] in s.dead;
    NextSplit(s, i, k);
    AheadNotBehind(s, i);
    assert n !in next[..k];
  }

  lemma AheadNotBehind(s: State, i: IterId)
    requires Counts(s) && i in s.cursor
    ensures forall m :: m in Ahead(s, i) ==> m !in Behind(s.list, s.cursor[i])
  {
    if s.cursor[i].Some? {
      CursorOnList(s, i);
      UptoOrAfter(s.list, s.cursor[i].value);
    }
  }

  /** The iterator that an operation is about. */
  function About(op: Op): Option<IterId>
  {
    match op
    case Add(_, _) => None
    case Del(_) => None
    case Init(i, _) => Some(i)
    case Exit(i) => Some(i)
    case Next(i) => Some(i)
    case Prev(i) => Some(i)
  }

  /** Cursor i stays, and n stays on the same side of it. */
  ghost predicate KeepsBehind(s: State, t: State, i: IterId, n: NodeId)
  {
    && i in s.cursor && i in t.cursor && t.cursor[i] == s.cursor[i]
    && (n in Behind(t.list, t.cursor[i]) <==> n in Behind(s.list, s.cursor[i]))
  }

  lemma OthersAdd(s: State, m: NodeId, p: nat, i: IterId, n: NodeId)
    requires Counts(s) && Enabled(s, Add(m, p)) && i in s.cursor && s.cursor[i].Some?
    requires Alive(s, n) && Alive(Apply(s, Add(m, p)), n)
    ensures KeepsBehind(s, Apply(s, Add(m, p)), i, n)
  {
    hide Counts, Upto;
    var t, c := Apply(s, Add(m, p)), s.cursor[i].value;
    CursorOnList(s, i);
    AddKeeps(s, m, p);
    assert s.list == s.list[..p] + s.list[p..];
    InsertUpto(s.list[..p], m, s.list[p..], c);
    assert n in Upto(t.list, c) <==> n in Upto(t.list, c) - {m};
  }

  lemma OthersDel(s: State, m: NodeId, i: IterId, n: NodeId)
    requires Counts(s) && Enabled(s, Del(m)) && i in s.cursor && s.cursor[i].Some?
    requires Alive(s, n) && Alive(Apply(s, Del(m)), n)
    ensures KeepsBehind(s, Apply(s, Del(m)), i, n)
  {
    hide Counts, Owes, Upto, Without;
    var t, c := Apply(s, Del(m)), s.cursor[i].value;
    CursorOnList(s, i);
    ApplyKeepsCounts(s, Del(m));
    CursorOnList(t, i);
    KillOwes(s, m);
    DecKeeps(s.(dead := s.dead + {m}), m);
    ListNoDup(s);
    if t.list != s.list {
      WithoutUpto(s.list, m, c);
    }
  }

  lemma OthersExit(s: State, j: IterId, i: IterId, n: NodeId)
    requires Counts(s) && Enabled(s, Exit(j)) && j != i && i in s.cursor && s.cursor[i].Some?
    requires Alive(s, n) && Alive(Apply(s, Exit(j)), n)
    ensures KeepsBehind(s, Apply(s, Exit(j)), i, n)
  {
    hide Counts, Owes, Upto, Without;
    var t, c := Apply(s, Exit(j)), s.cursor[i].value;
    CursorOnList(s, i);
    ApplyKeepsCounts(s, Exit(j));
    ExitKeeps(s, j);
    CursorOnList(t, i);
    ExitUpto(s, j, c, n);
  }

  /** Whatever the others do, an iterator stays where it is and has come past the same live nodes. */
  lemma OthersKeep(s: State, op: Op, i: IterId, n: NodeId)
    requires Counts(s) && Enabled(s, op) && About(op) != Some(i) && i in s.cursor && s.cursor[i].Some?
    requires Alive(s, n) && Alive(Apply(s, op), n)
    ensures KeepsBehind(s, Apply(s, op), i, n)
  {
    match op
    case Add(m, p) => OthersAdd(s, m, p, i, n);
    case Del(m) => OthersDel(s, m, i, n);
    case Init(_, _) =>
    case Exit(j) => OthersExit(s, j, i, n);
    case Next(j) =>
      AheadOnList(s, j);
      OthersMove(s, j, Ahead(s, j), i, n);
    case Prev(j) =>
      AheadOnList(s, j);
      OthersMove(s, j, Back(s, j), i, n);
  }

  lemma OthersMove(s: State, j: IterId, next: seq<NodeId>, i: IterId, n: NodeId)
    requires Counts(s) && Enabled(s, Exit(j)) && i != j && i in s.cursor && s.cursor[i].Some? && Alive(s, n)
    requires forall m :: m in next ==> m in s.list && Some(m) != s.cursor[j]
    ensures var t := Moved(s, j, next);
      i in t.cursor && t.cursor[i] == s.cursor[i]
        && (n in Behind(t.list, t.cursor[i]) <==> n in Behind(s.list, s.cursor[i]))
  {
    ExitKeeps(s, j);
    MoveKeeps(s, j, next);
    CursorOnList(Exited(s, j), i);
    ExitUpto(s, j, s.cursor[i].value, n);
    hide Counts, Exited, Moved, Upto;
  }

  // ----- runs -----

  ghost predicate Step(s: State, op: Op, t: State)
  {
    Enabled(s, op) && t == Apply(s, op)
  }

  /** An interleaving of operations on a fresh klist. */
  ghost predicate IsRun(run: seq<State>, ops: seq<Op>)
  {
    && |run| == |ops| + 1 && run[0] == State([], map[], {}, map[])
    && forall k, k' :: 0 <= k < |ops| && k' == k + 1 ==> Step(run[k], ops[k], run[k'])
  }

  /** A run goes on with any operation that is possible. */
  lemma RunExtends(run: seq<State>, ops: seq<Op>, op: Op)
    requires IsRun(run, ops) && Enabled(run[|run| - 1], op)
    ensures IsRun(run + [Apply(run[|run| - 1], op)], ops + [op])
  {
    hide Enabled, Apply;
    var run', ops' := run + [Apply(run[|run| - 1], op)], ops + [op];
    forall k, k' | 0 <= k < |ops'| && k' == k + 1
      ensures Step(run'[k], ops'[k], run'[k'])
    {
      assert k < |ops| ==> Step(run[k], ops[k], run[k']);
    }
  }

  /** The counts are right at every lock release of every run. */
  lemma {:induction false} RunCounts(run: seq<State>, ops: seq<Op>, k: nat)
    requires IsRun(run, ops) && k < |run|
    ensures Counts(run[k])
  {
    if k > 0 {
      RunCounts(run, ops, k - 1);
      assert Step(run[k - 1], ops[k - 1], run[k]);
      ApplyKeepsCounts(run[k - 1], ops[k - 1]);
    } else {
      assert forall n :: n !in run[0].count;
    }
  }

  lemma StepAt(run: seq<State>, ops: seq<Op>, k: nat)
    requires IsRun(run, ops) && k < |ops|
    ensures |run| == |ops| + 1 && Counts(run[k]) && Step(run[k], ops[k], run[k + 1])
  {
    RunCounts(run, ops, k);
  }

  /** A step of a walk: klist_next, or klist_prev on the way back. */
  function Move(i: IterId, back: bool): Op
  {
    if back then Prev(i) else Next(i)
  }

  /** What the steps of iterator i in one direction returned in the operations from a to b. */
  ghost function Returned(run: seq<State>, ops: seq<Op>, i: IterId, back: bool, a: nat, b: nat): seq<NodeId>
    requires a <= b <= |ops| < |run|
    decreases b
  {
    if a == b then [] else Returned(run, ops, i, back, a, b - 1) + ReturnedBy(ops[b - 1], i, back, run[b])
  }

  ghost function ReturnedBy(op: Op, i: IterId, back: bool, t: State): seq<NodeId>
  {
    if op == Move(i, back) && i in t.cursor && t.cursor[i].Some? then [t.cursor[i].value] else []
  }

  /** From operation a to operation b iterator i walks: it starts from nowhere, and only such steps move it on. */
  ghost predicate Walking(run: seq<State>, ops: seq<Op>, i: IterId, back: bool, a: nat, b: nat)
    requires a <= b < |ops| < |run|
  {
    && ops[a] == Move(i, back) && i in run[a].cursor && run[a].cursor[i].None?
    && forall k :: a < k <= b ==>
      (About(ops[k]) == Some(i) ==> ops[k] == Move(i, back)) && i in run[k].cursor && run[k].cursor[i].Some?
  }

  /** Node n is on the list and not deleted from state a to state b. */
  ghost predicate Throughout(run: seq<State>, n: NodeId, a: nat, b: nat)
    requires a <= b < |run|
  {
    forall k :: a <= k <= b ==> Alive(run[k], n)
  }

  /** One operation of a run, for a walk that has returned so. */
  lemma WalkStep(s: State, op: Op, t: State, i: IterId, n: NodeId, so: seq<NodeId>)
    requires Counts(s) && Step(s, op, t) && Alive(s, n) && Alive(t, n) && i in s.cursor && i in t.cursor
      && t.cursor[i].Some?
    requires (About(op) == Some(i) ==> op == Next(i)) && (s.cursor[i].None? ==> op == Next(i))
    requires Times(so, n) == One(n in Behind(s.list, s.cursor[i]))
    ensures Times(so + ReturnedBy(op, i, false, t), n) == One(n in Behind(t.list, t.cursor[i]))
  {
    if op == Next(i) {
      NextPasses(s, i, n);
      TimesSnoc(so, t.cursor[i].value, n);
    } else {
      OthersKeep(s, op, i, n);
      assert so + [] == so;
    }
    hide Counts, Apply, Upto, Times;
  }

  /** Of the nodes that stay, those up to the iterator have been returned, each once, and no others. */
  lemma {:induction false} WalkSoFar(run: seq<State>, ops: seq<Op>, i: IterId, a: nat, b: nat, n: NodeId)
    requires IsRun(run, ops) && a < b < |ops| && Walking(run, ops, i, false, a, b) && Throughout(run, n, a, b)
    ensures Times(Returned(run, ops, i, false, a, b), n) == One(n in Behind(run[b].list, run[b].cursor[i]))
    decreases b
  {
    hide IsRun, Counts, Step, Alive, ReturnedBy;
    var k := b - 1;
    StepAt(run, ops, k);
    assert Alive(run[k], n) && Alive(run[b], n);
    if k > a {
      assert Throughout(run, n, a, k) && Walking(run, ops, i, false, a, k);
      WalkSoFar(run, ops, i, a, k, n);
    }
    WalkStep(run[k], ops[k], run[b], i, n, Returned(run, ops, i, false, a, k));
  }

  lemma FullForwardWalk(run: seq<State>, ops: seq<Op>, i: IterId, a: nat, b: nat, n: NodeId)
    requires IsRun(run, ops) && a <= b < |ops| && Walking(run, ops, i, false, a, b) && Throughout(run, n, a, b)
    requires ops[b] == Next(i) && i in run[b + 1].cursor && run[b + 1].cursor[i].None?
    ensures Times(Returned(run, ops, i, false, a, b + 1), n) == 1
  {
    RunCounts(run, ops, b);
    assert Step(run[b], ops[b], run[b + 1]) && Alive(run[b], n);
    NextPasses(run[b], i, n);
    var so := Returned(run, ops, i, false, a, b);
    assert so + [] == so;
    if a < b {
      WalkSoFar(run, ops, i, a, b, n);
    }
  }

  /**
   * A full walk in either direction, from the call that starts it to the call that returns NULL,
   * returns every node that was on the list and not deleted all that time exactly once, whatever
   * others add, delete and walk meanwhile.
   */
  lemma FullWalk(run: seq<State>, ops: seq<Op>, i: IterId, back: bool, a: nat, b: nat, n: NodeId)
    requires IsRun(run, ops) && a <= b < |ops| && Walking(run, ops, i, back, a, b) && Throughout(run, n, a, b)
    requires ops[b] == Move(i, back) && i in run[b + 1].cursor && run[b + 1].cursor[i].None?
    ensures Times(Returned(run, ops, i, back, a, b + 1), n) == 1
  {
    hide IsRun, Returned, Times;
    if back {
      RunLength(run, ops);
      var run', ops' := MirrorRun(run), MirrorOps(run, ops);
      MirrorIsRun(run, ops);
      MirrorReturned(run, ops, i, a, b + 1);
      forall k | a <= k <= b
        ensures Alive(run'[k], n)
      {
        assert Alive(run[k], n);
        ReverseMembers(run[k].list);
      }
      FullForwardWalk(run', ops', i, a, b, n);
    } else {
      FullForwardWalk(run, ops, i, a, b, n);
    }
  }

  // ----- the way back is the way there on the mirrored list -----

  ghost function Mirror(s: State): State
  {
    s.(list := Reverse(s.list))
  }

  ghost function MirrorOp(s: State, op: Op): Op
  {
    match op
    case Add(n, p) => if p <= |s.list| then Add(n, |s.list| - p) else op
    case Next(i) => Prev(i)
    case Prev(i) => Next(i)
    case _ => op
  }

  ghost function MirrorRun(run: seq<State>): (r: seq<State>)
    ensures |r| == |run| && forall k :: 0 <= k < |r| ==> r[k] == Mirror(run[k])
  {
    if run == [] then [] else MirrorRun(run[..|run| - 1]) + [Mirror(run[|run| - 1])]
  }

  ghost function MirrorOps(run: seq<State>, ops: seq<Op>): (r: seq<Op>)
    requires |run| > |ops|
    ensures |r| == |ops| && forall k :: 0 <= k < |r| ==> r[k] == MirrorOp(run[k], ops[k])
    decreases |ops|
  {
    if ops == [] then []
    else MirrorOps(run, ops[..|ops| - 1]) + [MirrorOp(run[|ops| - 1], ops[|ops| - 1])]
  }

  lemma MirrorParts(s: seq<NodeId>, c: NodeId)
    requires NoDup(s) && c in s
    ensures After(Reverse(s), c) == Reverse(InFront(s, c)) && Reverse(InFront(Reverse(s), c)) == After(s, c)
    ensures Without(Reverse(s), c) == Reverse(Without(s, c))
  {
    hide After, InFront, Without, Reverse;
    var k :| 0 <= k < |s| && s[k] == c;
    var a, b := s[..k], s[k + 1..];
    assert s == a + ([c] + b) == a + [c] + b && c !in a && c !in b;
    ReverseJoin(a, [c] + b);
    ReverseJoin([c], b);
    ReverseJoin(a, b);
    ReverseOne(c);
    ReverseTwice(b);
    ReverseMembers(b);
    assert Reverse(s) == Reverse(b) + [c] + Reverse(a);
    PartsOf(a, c, b);
    RestOf(a, c, b);
    PartsOf(Reverse(b), c, Reverse(a));
    RestOf(Reverse(b), c, Reverse(a));
  }

  lemma ReverseOne(n: NodeId)
    ensures Reverse([n]) == [n]
  {
    assert [n][1..] == [];
  }

  lemma MirrorDec(s: State, n: NodeId)
    requires NoDup(s.list) && n in s.count && n in s.list
    ensures Dec(Mirror(s), n) == Mirror(Dec(s, n))
  {
    MirrorParts(s.list, n);
  }

  lemma MirrorMoved(s: State, i: IterId, next: seq<NodeId>)
    requires Counts(s) && i in s.cursor && (s.cursor[i].Some? ==> s.cursor[i].value in s.count)
    ensures Exited(Mirror(s), i) == Mirror(Exited(s, i)) && Moved(Mirror(s), i, next) == Mirror(Moved(s, i, next))
  {
    hide Counts, Dec, Skipped, Reverse;
    ListNoDup(s);
    if s.cursor[i].Some? {
      CursorOnList(s, i);
      MirrorDec(s.(cursor := s.cursor[i := None]), s.cursor[i].value);
    }
  }

  lemma MirrorSides(s: State, i: IterId)
    requires Counts(s) && i in s.cursor
    ensures Ahead(Mirror(s), i) == Back(s, i) && Back(Mirror(s), i) == Ahead(s, i)
  {
    hide Counts, Reverse, After, InFront;
    ListNoDup(s);
    if s.cursor[i].Some? {
      CursorOnList(s, i);
      MirrorParts(s.list, s.cursor[i].value);
    } else {
      ReverseTwice(s.list);
    }
  }

  lemma MirrorAdded(list: seq<NodeId>, n: NodeId, p: nat)
    requires p <= |list|
    ensures
      var r, q := Reverse(list), |list| - p;
      |r| == |list| && r[..q] + [n] + r[q..] == Reverse(list[..p] + [n] + list[p..])
  {
    var a, b := list[..p], list[p..];
    assert list == a + b;
    ReverseJoin(a, b);
    ReverseJoin(a + [n], b);
    ReverseJoin(a, [n]);
    ReverseOne(n);
    ReverseTwice(a);
    ReverseTwice(b);
  }

  lemma MirrorStep(s: State, op: Op)
    requires Counts(s) && Enabled(s, op)
    ensures Enabled(Mirror(s), MirrorOp(s, op)) && Apply(Mirror(s), MirrorOp(s, op)) == Mirror(Apply(s, op))
  {
    hide Counts, Reverse, Moved, Exited, Dec, Ahead, Back;
    ReverseTwice(s.list);
    match op
    case Add(n, p) => MirrorAdded(s.list, n, p);
    case Del(n) =>
      ListNoDup(s);
      ReverseMembers(s.list);
      MirrorDec(s.(dead := s.dead + {n}), n);
    case Init(_, _) =>
    case Exit(i) => MirrorMoved(s, i, []);
    case Next(i) =>
      MirrorSides(s, i);
      MirrorMoved(s, i, Ahead(s, i));
    case Prev(i) =>
      MirrorSides(s, i);
      MirrorMoved(s, i, Back(s, i));
  }

  lemma RunLength(run: seq<State>, ops: seq<Op>)
    requires IsRun(run, ops)
    ensures |run| == |ops| + 1
  {
  }

  lemma MirrorIsRun(run: seq<State>, ops: seq<Op>)
    requires IsRun(run, ops) && |run| > |ops|
    ensures IsRun(MirrorRun(run), MirrorOps(run, ops))
  {
    var run', ops' := MirrorRun(run), MirrorOps(run, ops);
    hide Counts, Enabled, Apply, MirrorOp, MirrorRun, MirrorOps;
    forall k, k' | 0 <= k < |ops| && k' == k + 1
      ensures Step(run'[k], ops'[k], run'[k'])
    {
      StepAt(run, ops, k);
      MirrorStep(run[k], ops[k]);
    }
  }

  lemma {:induction false} MirrorReturned(run: seq<State>, ops: seq<Op>, i: IterId, a: nat, b: nat)
    requires a <= b <= |ops| < |run|
    ensures Returned(MirrorRun(run), MirrorOps(run, ops), i, false, a, b) == Returned(run, ops, i, true, a, b)
    decreases b
  {
    hide MirrorRun, MirrorOps;
    if a < b {
      MirrorReturned(run, ops, i, a, b - 1);
    }
  }

  /** What a walk returns was on the list and alive at that moment. */
  lemma ReturnsLive(run: seq<State>, ops: seq<Op>, i: IterId, k: nat)
    requires IsRun(run, ops) && k < |ops| && (ops[k] == Next(i) || ops[k] == Prev(i))
    ensures i in run[k + 1].cursor && (run[k + 1].cursor[i].Some? ==> Alive(run[k], run[k + 1].cursor[i].value))
  {
    hide IsRun, Counts, Ahead, Back, Exited, Moved;
    StepAt(run, ops, k);
    var s := run[k];
    AheadOnList(s, i);
    MoveKeeps(s, i, if ops[k] == Next(i) then Ahead(s, i) else Back(s, i));
  }
}
