/**
 * Activation accounting of one pool_workqueue, kernel/workqueue.c.  Every operation
 * is one hold of the pool lock.
 */
module WorkqueueActivation {
  import opened Base

  /** A queued work item or barrier: its place in queueing order and its INACTIVE and LINKED bits. */
  datatype Item = Item(ticket: nat, barrier: bool, inactive: bool, linked: bool)

  /** The items without the INACTIVE bit. */
  ghost function Active(s: seq<Item>): nat
  {
    if s == [] then 0 else (if s[0].inactive then 0 else 1) + Active(s[1..])
  }

  lemma {:induction false} ActiveConcat(a: seq<Item>, b: seq<Item>)
    ensures Active(a + b) == Active(a) + Active(b)
  {
    if a == [] {
      assert a + b == b;
    } else {
      ActiveConcat(a[1..], b);
      assert (a + b)[1..] == a[1..] + b;
    }
  }

  lemma ActiveSplit(s: seq<Item>, i: nat)
    requires i < |s|
    ensures Active(s) == Active(s[..i]) + (if s[i].inactive then 0 else 1) + Active(s[i + 1..])
    ensures Active(Without(s, i)) == Active(s[..i]) + Active(s[i + 1..])
  {
    assert s == s[..i] + s[i..];
    ActiveConcat(s[..i], s[i..]);
    ActiveConcat(s[..i], s[i + 1..]);
  }

  ghost predicate NoneActive(s: seq<Item>)
  {
    forall x :: x in s ==> x.inactive
  }

  lemma {:induction false} NoneCounted(s: seq<Item>)
    requires NoneActive(s)
    ensures Active(s) == 0
  {
    if s != [] {
      NoneCounted(s[1..]);
    }
  }

  function Without(s: seq<Item>, i: nat): seq<Item>
    requires i < |s|
  {
    s[..i] + s[i + 1..]
  }

  /** A barrier follows exactly where the LINKED bit says so, and never comes first. */
  ghost predicate Grouped(s: seq<Item>)
  {
    s != [] ==>
      && !s[0].barrier && !s[|s| - 1].linked
      && forall i, j :: 0 <= i && j == i + 1 && j < |s| ==> (s[j].barrier <==> s[i].linked)
  }

  /** Work items are in queueing order. */
  ghost predicate Ascending(s: seq<Item>)
  {
    forall i, j :: 0 <= i < j < |s| && !s[i].barrier && !s[j].barrier ==> s[i].ticket < s[j].ticket
  }

  /** Every work item of a was queued before every one of b. */
  ghost predicate Before(a: seq<Item>, b: seq<Item>)
  {
    forall x, y :: x in a && y in b && !x.barrier && !y.barrier ==> x.ticket < y.ticket
  }

  ghost predicate Older(s: seq<Item>, t: nat)
  {
    forall x :: x in s && !x.barrier ==> x.ticket < t
  }

  /** On the pool's side only barriers carry the INACTIVE bit. */
  ghost predicate Clear(s: seq<Item>)
  {
    forall x :: x in s ==> (x.inactive <==> x.barrier)
  }

  /** s without the stretch from i to e. */
  function Cut(s: seq<Item>, i: nat, e: nat): seq<Item>
    requires i <= e <= |s|
  {
    s[..i] + s[e..]
  }

  /** The end of the run of linked items that starts at i. */
  ghost function LinkedEnd(s: seq<Item>, i: nat): (e: nat)
    requires i < |s| && Grouped(s)
    ensures i < e <= |s| && !s[e - 1].linked
    ensures forall k :: i < k < e ==> s[k].barrier
    decreases |s| - i
  {
    if s[i].linked then LinkedEnd(s, i + 1) else i + 1
  }

  lemma CutMore(s: seq<Item>, i: nat, k: nat)
    requires i <= k < |s|
    ensures i < |Cut(s, i, k)| && Cut(s, i, k)[i] == s[k] && Without(Cut(s, i, k), i) == Cut(s, i, k + 1)
      && s[i..k + 1] == s[i..k] + [s[k]]
  {
  }

  /** The items of s from i to k have moved behind q. */
  ghost predicate Halfway(inactive: seq<Item>, queued: seq<Item>, s: seq<Item>, q: seq<Item>, i: nat, k: nat)
  {
    i <= k <= |s| && inactive == Cut(s, i, k) && queued == q + s[i..k]
  }

  lemma WholeWay(inactive: seq<Item>, queued: seq<Item>, s: seq<Item>, q: seq<Item>, i: nat, k: nat)
    requires Halfway(inactive, queued, s, q, i, k)
    ensures i <= k <= |s| && inactive == Cut(s, i, k) && queued == q + s[i..k]
  {
  }

  lemma LinkedStep(s: seq<Item>, k: nat)
    requires k < |s| && Grouped(s)
    ensures if s[k].linked then k + 1 < |s| && LinkedEnd(s, k) == LinkedEnd(s, k + 1) else LinkedEnd(s, k) == k + 1
  {
  }

  /** q with the activated item i of s and the barriers behind it. */
  function Handed(q: seq<Item>, s: seq<Item>, i: nat, e: nat): seq<Item>
    requires i < e <= |s|
  {
    q + [s[i].(inactive := false)] + s[i + 1..e]
  }

  lemma HandedWithout(q: seq<Item>, s: seq<Item>, i: nat, e: nat)
    requires i < e <= |s|
    ensures var h := Handed(q, s, i, e);
      |q| < |h| && h[|q|] == s[i].(inactive := false) && Without(h, |q|) == q + s[i + 1..e]
  {
  }

  lemma HandedActive(q: seq<Item>, s: seq<Item>, i: nat, e: nat)
    requires i < e <= |s| && NoneActive(s)
    ensures Active(Handed(q, s, i, e)) == Active(q) + 1
  {
    var x := s[i].(inactive := false);
    ActiveConcat(q + [x], s[i + 1..e]);
    ActiveConcat(q, [x]);
    NoneCounted(s[i + 1..e]);
    assert [x][1..] == [];
  }

  /** The books of a pwq: nr of the items are active, s wait, q are with the pool, r are being executed. */
  ghost predicate Books(nr: int, s: seq<Item>, q: seq<Item>, r: seq<Item>, next: nat)
  {
    && nr == Active(q) + Active(r)
    && NoneActive(s) && Grouped(s) && Clear(q) && Clear(r)
    && Ascending(s) && Before(q, s) && Before(r, s)
    && Older(q, next) && Older(r, next) && Older(s, next)
  }

  lemma QueueActive(nr: int, q: seq<Item>, r: seq<Item>, next: nat)
    requires Fact(Books(nr, [], q, r, next))
    ensures Fact(Books(nr + 1, [], q + [Item(next, false, false, false)], r, next + 1))
  {
    var x := Item(next, false, false, false);
    ActiveConcat(q, [x]);
    assert [x][1..] == [];
  }

  lemma QueueInactive(nr: int, s: seq<Item>, q: seq<Item>, r: seq<Item>, next: nat)
    requires Fact(Books(nr, s, q, r, next))
    ensures Fact(Books(nr, s + [Item(next, false, true, false)], q, r, next + 1))
  {
  }

  lemma HandedClear(q: seq<Item>, s: seq<Item>, e: nat, next: nat)
    requires 0 < e <= |s| && Clear(q) && NoneActive(s) && !s[0].barrier && Older(q, next) && Older(s, next)
    requires forall k :: 0 < k < e ==> s[k].barrier
    ensures Clear(Handed(q, s, 0, e)) && Older(Handed(q, s, 0, e), next)
  {
    Barriers(s, 1, e);
  }

  lemma Barriers(s: seq<Item>, i: nat, e: nat)
    requires i <= e <= |s| && NoneActive(s) && forall k :: i <= k < e ==> s[k].barrier
    ensures forall x :: x in s[i..e] ==> x.inactive && x.barrier
  {
    forall x | x in s[i..e]
      ensures x.inactive && x.barrier
    {
      var k :| 0 <= k < e - i && s[i..e][k] == x;
      assert x == s[k + i];
    }
  }

  lemma HandedBefore(q: seq<Item>, s: seq<Item>, e: nat)
    requires 0 < e <= |s| && Before(q, s) && Ascending(s) && NoneActive(s) && forall k :: 0 < k < e ==> s[k].barrier
    ensures Before(Handed(q, s, 0, e), Cut(s, 0, e))
  {
    Barriers(s, 1, e);
    TailOfOrder(q, s, e);
    var x := s[0].(inactive := false);
    assert Cut(s, 0, e) == s[e..];
    hide Cut, Ascending, NoneActive;
    assert Before([x], s[e..]) && Before(s[1..e], s[e..]);
    BeforeConcat(q, [x], s[e..]);
    BeforeConcat(q + [x], s[1..e], s[e..]);
  }

  lemma TailOfOrder(q: seq<Item>, s: seq<Item>, e: nat)
    requires 0 < e <= |s| && Before(q, s) && Ascending(s)
    ensures Before(q, s[e..]) && Before([s[0]], s[e..])
  {
    forall y | y in s[e..]
      ensures y in s && (!s[0].barrier && !y.barrier ==> s[0].ticket < y.ticket)
    {
      var k :| 0 <= k < |s| - e && s[e..][k] == y;
      assert s[k + e] == y;
    }
  }

  lemma BeforeConcat(a: seq<Item>, b: seq<Item>, c: seq<Item>)
    requires Before(a, c) && Before(b, c)
    ensures Before(a + b, c)
  {
  }

  /** Activating the first waiting item takes the oldest one. */
  lemma ActivateFirstKeeps(nr: int, s: seq<Item>, q: seq<Item>, r: seq<Item>, next: nat)
    requires Fact(Books(nr, s, q, r, next)) && s != []
    ensures Fact(Books(nr + 1, Cut(s, 0, LinkedEnd(s, 0)), Handed(q, s, 0, LinkedEnd(s, 0)), r, next))
  {
    hide Active, LinkedEnd, Handed, Cut, Before, Older, Clear, NoneActive, Ascending;
    var e := LinkedEnd(s, 0);
    HandedActive(q, s, 0, e);
    CutKeeps(s, 0, e);
    HandedClear(q, s, e, next);
    HandedBefore(q, s, e);
    CutBefore(r, s, 0, e, next);
  }

  /** Taking item j from the pool's side; x counts unless it is a barrier. */
  lemma TakeKeeps(nr: int, s: seq<Item>, q: seq<Item>, r: seq<Item>, next: nat, j: nat)
    requires Fact(Books(nr, s, q, r, next)) && j < |q|
    ensures Fact(Books(nr - Weight(q[j]), s, Without(q, j), r, next))
  {
    ActiveSplit(q, j);
  }

  function Weight(x: Item): int
  {
    if x.inactive then 0 else 1
  }

  lemma SwapSides(nr: int, s: seq<Item>, q: seq<Item>, r: seq<Item>, next: nat)
    requires Fact(Books(nr, s, q, r, next))
    ensures Fact(Books(nr, s, r, q, next))
  {
  }

  lemma GiveKeeps(nr: int, s: seq<Item>, q: seq<Item>, r: seq<Item>, next: nat, x: Item)
    requires Fact(Books(nr, s, q, r, next)) && Clear([x]) && Before([x], s) && Older([x], next)
    ensures Fact(Books(nr + Weight(x), s, q, r + [x], next))
  {
    ActiveConcat(r, [x]);
    assert [x][1..] == [];
    assert forall i :: 0 <= i < |r + [x]| ==> (r + [x])[i] == (if i < |r| then r[i] else [x][0]);
  }

  /** The waiting item i leaves; the barriers behind it go to the pool. */
  lemma StealKeeps(nr: int, s: seq<Item>, q: seq<Item>, r: seq<Item>, next: nat, i: nat)
    requires Fact(Books(nr, s, q, r, next)) && i < |s| && !s[i].barrier
    ensures Fact(Books(nr, Cut(s, i, LinkedEnd(s, i)), q + s[i + 1..LinkedEnd(s, i)], r, next))
  {
    hide Active, LinkedEnd, Cut, Ascending, Before, Older, Clear;
    var e := LinkedEnd(s, i);
    var t := s[i + 1..e];
    ActiveConcat(q, t);
    Barriers(s, i + 1, e);
    NoneCounted(t);
    CutKeeps(s, i, e);
    CutBefore(q, s, i, e, next);
    CutBefore(r, s, i, e, next);
    BarriersJoin(q, t, Cut(s, i, e), next);
    hide Grouped, NoneActive;
  }

  /** Barriers put behind q change nothing about its order. */
  lemma BarriersJoin(q: seq<Item>, t: seq<Item>, c: seq<Item>, next: nat)
    requires Clear(q) && Older(q, next) && Before(q, c) && forall x :: x in t ==> x.inactive && x.barrier
    ensures Clear(q + t) && Older(q + t, next) && Before(q + t, c)
  {
  }

  lemma CutBefore(r: seq<Item>, s: seq<Item>, i: nat, e: nat, next: nat)
    requires i <= e <= |s| && Before(r, s) && Older(s, next)
    ensures Before(r, Cut(s, i, e)) && Older(Cut(s, i, e), next)
  {
    CutMembers(s, i, e);
    hide Cut;
  }

  lemma CutMembers(s: seq<Item>, i: nat, e: nat)
    requires i <= e <= |s|
    ensures forall x :: x in Cut(s, i, e) ==> x in s
  {
  }

  lemma CutKeeps(s: seq<Item>, i: nat, e: nat)
    requires NoneActive(s) && Grouped(s) && Ascending(s) && i < e <= |s| && !s[i].barrier && !s[e - 1].linked
    ensures NoneActive(Cut(s, i, e)) && Grouped(Cut(s, i, e)) && Ascending(Cut(s, i, e))
  {
    CutMembers(s, i, e);
    CutGrouped(s, i, e);
    CutAscending(s, i, e);
    hide Cut, Grouped, Ascending;
  }

  lemma CutGrouped(s: seq<Item>, i: nat, e: nat)
    requires Grouped(s) && i < e <= |s| && !s[i].barrier && !s[e - 1].linked
    ensures Grouped(Cut(s, i, e))
  {
    assert i > 0 ==> !s[i - 1].linked;
    assert e < |s| ==> !s[e].barrier;
  }

  lemma CutAscending(s: seq<Item>, i: nat, e: nat)
    requires Ascending(s) && i < e <= |s|
    ensures Ascending(Cut(s, i, e))
  {
    var t := Cut(s, i, e);
    forall j, k | 0 <= j < k < |t| && !t[j].barrier && !t[k].barrier
      ensures t[j].ticket < t[k].ticket
    {
      var j', k' := if j < i then j else j + e - i, if k < i then k else k + e - i;
      assert t[j] == s[j'] && t[k] == s[k'];
    }
  }

  /** A barrier right behind item i, taking over its LINKED bit; item i gets the bit set. */
  function WithBarrier(s: seq<Item>, i: nat): seq<Item>
    requires i < |s|
  {
    s[..i] + [s[i].(linked := true), Item(0, true, true, s[i].linked)] + s[i + 1..]
  }

  lemma BarrierKeeps(nr: int, s: seq<Item>, q: seq<Item>, r: seq<Item>, next: nat, i: nat)
    requires Fact(Books(nr, s, q, r, next)) && i < |s|
    ensures Fact(Books(nr, WithBarrier(s, i), q, r, next))
  {
    BarrierGrouped(s, i);
    BarrierAscending(s, i);
    BarrierMembers(s, i);
    hide WithBarrier, Grouped, Ascending, Active;
  }

  lemma BarrierMembers(s: seq<Item>, i: nat)
    requires i < |s|
    ensures forall x :: x in WithBarrier(s, i) ==>
      (x.barrier && x.inactive) || exists y ::
        y in s && y.ticket == x.ticket && y.barrier == x.barrier && y.inactive == x.inactive
  {
    forall x | x in WithBarrier(s, i)
      ensures (x.barrier && x.inactive) || exists y ::
        y in s && y.ticket == x.ticket && y.barrier == x.barrier && y.inactive == x.inactive
    {
      if x == s[i].(linked := true) {
        assert s[i] in s;
      }
    }
  }

  lemma BarrierGrouped(s: seq<Item>, i: nat)
    requires Grouped(s) && i < |s|
    ensures Grouped(WithBarrier(s, i))
  {
    var t := WithBarrier(s, i);
    forall j, k | 0 <= j && k == j + 1 && k < |t|
      ensures t[k].barrier <==> t[j].linked
    {
      if j > i + 1 {
        assert t[j] == s[j - 1] && t[k] == s[k - 1];
      }
    }
  }

  lemma BarrierAscending(s: seq<Item>, i: nat)
    requires Ascending(s) && i < |s|
    ensures Ascending(WithBarrier(s, i))
  {
    var t := WithBarrier(s, i);
    forall j, k | 0 <= j < k < |t| && !t[j].barrier && !t[k].barrier
      ensures t[j].ticket < t[k].ticket
    {
      var j', k' := if j <= i then j else j - 1, if k <= i then k else k - 1;
      assert t[j].ticket == s[j'].ticket && t[k].ticket == s[k'].ticket;
    }
  }

  lemma QueuedBarrierKeeps(nr: int, s: seq<Item>, q: seq<Item>, r: seq<Item>, next: nat, j: nat)
    requires Fact(Books(nr, s, q, r, next)) && j < |q|
    ensures Fact(Books(nr, s, WithBarrier(q, j), r, next))
  {
    BarrierMembers(q, j);
    BarrierActive(q, j);
    hide WithBarrier, Grouped, Ascending, Active;
  }

  lemma BarrierActive(q: seq<Item>, j: nat)
    requires j < |q|
    ensures Active(WithBarrier(q, j)) == Active(q)
  {
    var x, b := q[j].(linked := true), Item(0, true, true, q[j].linked);
    ActivePair(x, b);
    hide Active;
    ActiveSplit(q, j);
    ActiveConcat(q[..j] + [x, b], q[j + 1..]);
    ActiveConcat(q[..j], [x, b]);
  }

  lemma ActivePair(x: Item, b: Item)
    ensures Active([x, b]) == Weight(x) + Weight(b)
  {
    assert [x, b][1..] == [b] && [b][1..] == [];
    assert Active([b]) == Weight(b);
  }

  // ----- the operations -----

  /**
   * nr_active, max_active, inactive_works, the items with the pool (its worklist and the
   * scheduled lists of its workers), the items being executed, and the ticket of the next
   * work item, which no code reads.
   */
  datatype State = State(nr: int, max: nat, inactive: seq<Item>, queued: seq<Item>, running: seq<Item>, next: nat)

  datatype Op =
    | Queue
    | Begin(j: nat)
    | End(j: nat)
    | StealQueued(j: nat)
    | StealInactive(i: nat)
    | Adjust(saved: nat, freezable: bool, freezing: bool)
    | BarrierInactive(i: nat)
    | BarrierQueued(j: nat)
    | BarrierRunning

  /** Held at every release of the pool lock: the books are right, and nothing waits while there is room. */
  ghost predicate Good(s: State)
  {
    Sums(s, 0) && (s.inactive != [] ==> s.nr >= s.max)
  }

  /** The books are right but for nr_active, which is off by d. */
  ghost predicate Sums(s: State, d: int)
  {
    Fact(Books(s.nr - d, s.inactive, s.queued, s.running, s.next))
  }

  /** __queue_work */
  function QueueWork(s: State): State
  {
    if s.nr < s.max
    then s.(nr := s.nr + 1, queued := s.queued + [Item(s.next, false, false, false)], next := s.next + 1)
    else s.(inactive := s.inactive + [Item(s.next, false, true, false)], next := s.next + 1)
  }

  /** pwq_activate_inactive_work on the waiting item i */
  ghost function Activated(s: State, i: nat): State
    requires i < |s.inactive| && Grouped(s.inactive)
  {
    var e := LinkedEnd(s.inactive, i);
    s.(nr := s.nr + 1, inactive := Cut(s.inactive, i, e), queued := Handed(s.queued, s.inactive, i, e))
  }

  /** The activation part of pwq_dec_nr_in_flight for an item with data word x */
  ghost function Left(s: State, x: Item): State
  {
    var t := s.(nr := s.nr - 1);
    if x.inactive then s
    else if t.inactive != [] && Grouped(t.inactive) && t.nr < t.max then Activated(t, 0)
    else t
  }

  /** Waiting items are activated from the front while there is room. */
  ghost function Refill(s: State): State
    decreases |s.inactive|
  {
    if s.inactive != [] && Grouped(s.inactive) && s.nr < s.max then Refill(Activated(s, 0)) else s
  }

  /** pwq_adjust_max_active */
  ghost function Adjusted(s: State, saved: nat, freezable: bool, freezing: bool): State
  {
    if !freezable && s.max == saved then s
    else if !freezable || !freezing then Refill(s.(max := saved))
    else s.(max := 0)
  }

  /** try_to_grab_pending on a waiting item: it is activated first, so that its barriers go to the pool */
  ghost function Grabbed(s: State, i: nat): State
    requires i < |s.inactive| && Grouped(s.inactive)
  {
    var t, at := Activated(s, i), |s.queued|;
    Left(t.(queued := Without(t.queued, at)), t.queued[at])
  }

  ghost predicate Enabled(s: State, op: Op)
  {
    match op
    case Queue => true
    case Begin(j) => j < |s.queued|
    case End(j) => j < |s.running|
    case StealQueued(j) => j < |s.queued| && !s.queued[j].barrier
    case StealInactive(i) => i < |s.inactive| && !s.inactive[i].barrier && Grouped(s.inactive)
    case Adjust(_, _, _) => true
    case BarrierInactive(i) => i < |s.inactive|
    case BarrierQueued(j) => j < |s.queued|
    case BarrierRunning => true
  }

  ghost function Apply(s: State, op: Op): State
    requires Enabled(s, op)
  {
    match op
    case Queue => QueueWork(s)
    case Begin(j) => s.(queued := Without(s.queued, j), running := s.running + [s.queued[j]])
    case End(j) => Left(s.(running := Without(s.running, j)), s.running[j])
    case StealQueued(j) => Left(s.(queued := Without(s.queued, j)), s.queued[j])
    case StealInactive(i) => Grabbed(s, i)
    case Adjust(saved, freezable, freezing) => Adjusted(s, saved, freezable, freezing)
    case BarrierInactive(i) => s.(inactive := WithBarrier(s.inactive, i))
    case BarrierQueued(j) => s.(queued := WithBarrier(s.queued, j))
    case BarrierRunning => s.(queued := s.queued + [Item(0, true, true, false)])
  }

  lemma SumsGrouped(s: State, d: int)
    requires Sums(s, d)
    ensures Grouped(s.inactive)
  {
  }

  lemma QueueKeeps(s: State)
    requires Good(s)
    ensures Good(QueueWork(s))
  {
    hide Books;
    if s.nr < s.max {
      QueueActive(s.nr, s.queued, s.running, s.next);
    } else {
      QueueInactive(s.nr, s.inactive, s.queued, s.running, s.next);
    }
  }

  lemma ActivatedKeeps(s: State)
    requires Sums(s, 0) && s.inactive != []
    ensures Grouped(s.inactive) && Sums(Activated(s, 0), 0)
  {
    SumsGrouped(s, 0);
    ActivateFirstKeeps(s.nr, s.inactive, s.queued, s.running, s.next);
    hide Books, Grouped, Cut, Handed;
  }

  lemma LeftKeeps(s: State, x: Item)
    requires Sums(s, Weight(x)) && (s.inactive != [] ==> s.nr >= s.max)
    ensures Good(Left(s, x))
  {
    SumsGrouped(s, Weight(x));
    hide Books, Grouped, Activated;
    if !x.inactive && s.inactive != [] {
      ActivatedKeeps(s.(nr := s.nr - 1));
      ActivatedRoom(s.(nr := s.nr - 1));
    }
  }

  lemma ActivatedRoom(s: State)
    requires s.inactive != [] && Grouped(s.inactive)
    ensures var t := Activated(s, 0); t.nr == s.nr + 1 && t.max == s.max && |t.inactive| < |s.inactive|
  {
  }

  lemma {:induction false} RefillKeeps(s: State)
    requires Sums(s, 0)
    ensures Good(Refill(s)) && Refill(s).max == s.max
    ensures Refill(s).nr == s.nr || s.nr <= Refill(s).nr <= s.max
    decreases |s.inactive|
  {
    SumsGrouped(s, 0);
    hide Books, Grouped, Activated, Sums;
    if s.inactive != [] && s.nr < s.max {
      ActivatedKeeps(s);
      ActivatedRoom(s);
      RefillKeeps(Activated(s, 0));
    }
  }

  /** A grabbed item leaves nothing behind but its barriers. */
  lemma GrabbedIs(s: State, i: nat)
    requires Good(s) && i < |s.inactive| && !s.inactive[i].barrier && Grouped(s.inactive)
    ensures var e := LinkedEnd(s.inactive, i);
      Grabbed(s, i) == s.(inactive := Cut(s.inactive, i, e), queued := s.queued + s.inactive[i + 1..e])
    ensures Good(Grabbed(s, i))
  {
    HandedWithout(s.queued, s.inactive, i, LinkedEnd(s.inactive, i));
    StealKeeps(s.nr, s.inactive, s.queued, s.running, s.next, i);
    hide Books, Grouped, Cut, Handed, LinkedEnd, Without;
  }

  lemma GrabReady(s: State, i: nat)
    requires Good(s) && i < |s.inactive| && !s.inactive[i].barrier && Grouped(s.inactive)
    ensures var t, at := Activated(s, i), |s.queued|;
      && at < |t.queued| && t.max == s.max && t.running == s.running && t.next == s.next
      && var u := t.(queued := Without(t.queued, at));
        Sums(u, Weight(t.queued[at])) && (u.inactive != [] ==> u.nr >= u.max)
  {
    HandedWithout(s.queued, s.inactive, i, LinkedEnd(s.inactive, i));
    StealKeeps(s.nr, s.inactive, s.queued, s.running, s.next, i);
    hide Books, Grouped, Cut, Handed, LinkedEnd, Without;
  }

  /** Every operation keeps the books, and leaves nothing waiting while there is room. */
  lemma ApplyKeeps(s: State, op: Op)
    requires Good(s) && Enabled(s, op)
    ensures Good(Apply(s, op))
  {
    hide Books, Grouped, Left, Refill, Grabbed, QueueWork, WithBarrier, Without;
    match op
    case Queue => QueueKeeps(s);
    case Begin(j) => BeginKeeps(s, j);
    case End(j) => EndKeeps(s, j);
    case StealQueued(j) =>
      TakeKeeps(s.nr, s.inactive, s.queued, s.running, s.next, j);
      LeftKeeps(s.(queued := Without(s.queued, j)), s.queued[j]);
    case StealInactive(i) => GrabbedIs(s, i);
    case Adjust(saved, freezable, freezing) => RefillKeeps(s.(max := saved));
    case BarrierInactive(i) => BarrierKeeps(s.nr, s.inactive, s.queued, s.running, s.next, i);
    case BarrierQueued(j) => QueuedBarrierKeeps(s.nr, s.inactive, s.queued, s.running, s.next, j);
    case BarrierRunning => RunningBarrierKeeps(s);
  }

  lemma BeginKeeps(s: State, j: nat)
    requires Good(s) && j < |s.queued|
    ensures Good(s.(queued := Without(s.queued, j), running := s.running + [s.queued[j]]))
  {
    var x := s.queued[j];
    TakeKeeps(s.nr, s.inactive, s.queued, s.running, s.next, j);
    GiveKeeps(s.nr - Weight(x), s.inactive, Without(s.queued, j), s.running, s.next, x);
    hide Books, Without;
  }

  lemma EndKeeps(s: State, j: nat)
    requires Good(s) && j < |s.running|
    ensures Good(Left(s.(running := Without(s.running, j)), s.running[j]))
    ensures Sums(s.(running := Without(s.running, j)), Weight(s.running[j]))
  {
    var x := s.running[j];
    hide Books, Without, Left;
    SwapSides(s.nr, s.inactive, s.queued, s.running, s.next);
    TakeKeeps(s.nr, s.inactive, s.running, s.queued, s.next, j);
    SwapSides(s.nr - Weight(x), s.inactive, Without(s.running, j), s.queued, s.next);
    LeftKeeps(s.(running := Without(s.running, j)), x);
  }

  lemma RunningBarrierKeeps(s: State)
    requires Good(s)
    ensures Good(s.(queued := s.queued + [Item(0, true, true, false)]))
  {
    var b := Item(0, true, true, false);
    SwapSides(s.nr, s.inactive, s.queued, s.running, s.next);
    GiveKeeps(s.nr, s.inactive, s.running, s.queued, s.next, b);
    SwapSides(s.nr, s.inactive, s.running, s.queued + [b], s.next);
    hide Books;
  }

  // ----- the pool_workqueue in place -----

  class PoolWorkqueue {
    var nrActive: int
    var maxActive: nat
    var inactive: seq<Item>
    var queued: seq<Item>
    var running: seq<Item>
    var next: nat

    ghost function Now(): State
      reads this
    {
      State(nrActive, maxActive, inactive, queued, running, next)
    }

    ghost predicate Valid()
      reads this
    {
      Good(Now())
    }

    constructor (max: nat)
      ensures Valid() && Now() == State(0, max, [], [], [], 0)
    {
      nrActive, maxActive, inactive, queued, running, next := 0, max, [], [], [], 0;
    }

    /** __queue_work, once the pwq is determined and locked */
    method Queue()
      requires Valid()
      modifies this
      ensures Valid() && Now() == Apply(old(Now()), Op.Queue)
    {
      QueueKeeps(Now());
      hide Good;
      var t := next;
      next := next + 1;
      if nrActive < maxActive {
        nrActive := nrActive + 1;
        queued := queued + [Item(t, false, false, false)];
      } else {
        inactive := inactive + [Item(t, false, true, false)];
      }
    }

    /** move_linked_works: the item at i and the barriers linked behind it go to the end of queued. */
    method MoveLinked(i: nat)
      requires i < |inactive| && Grouped(inactive)
      modifies this`inactive, this`queued
      ensures var e := LinkedEnd(old(inactive), i);
        inactive == Cut(old(inactive), i, e) && queued == old(queued) + old(inactive)[i..e]
    {
      ghost var s, q := inactive, queued;
      ghost var k: nat := i;
      assert Halfway(inactive, queued, s, q, i, k);
      var more := true;
      hide LinkedEnd, Grouped, Halfway;
      while more
        invariant k <= |s| && Halfway(inactive, queued, s, q, i, k)
        invariant if more then k < |s| && LinkedEnd(s, k) == LinkedEnd(s, i) else k == LinkedEnd(s, i)
        decreases |s| - k
      {
        more := MoveOne(i, s, q, k);
        LinkedStep(s, k);
        k := k + 1;
      }
      WholeWay(inactive, queued, s, q, i, k);
    }

    /** list_move_tail of the item at i, item k of the list as it was; true when LINKED says to go on */
    method MoveOne(i: nat, ghost s: seq<Item>, ghost q: seq<Item>, ghost k: nat) returns (linked: bool)
      requires k < |s| && Halfway(inactive, queued, s, q, i, k)
      modifies this`inactive, this`queued
      ensures Halfway(inactive, queued, s, q, i, k + 1) && linked == s[k].linked
    {
      CutMore(s, i, k);
      hide Cut, Without;
      var x := inactive[i];
      assert q + s[i..k] + [x] == q + (s[i..k] + [x]);
      queued := queued + [x];
      inactive := Without(inactive, i);
      return x.linked;
    }

    /** pwq_activate_inactive_work on the work item at i */
    method Activate(i: nat)
      requires Fact(Grouped(inactive)) && i < |inactive|
      modifies this`inactive, this`queued, this`nrActive
      ensures Now() == Activated(old(Now()), i)
    {
      var at := |queued|;
      MoveLinked(i);
      queued := queued[at := queued[at].(inactive := false)];
      nrActive := nrActive + 1;
    }

    /** pwq_dec_nr_in_flight for an item with data word x, which has just left the queue */
    method DecNrInFlight(x: Item)
      requires Sums(Now(), Weight(x)) && (inactive != [] ==> nrActive >= maxActive)
      modifies this`inactive, this`queued, this`nrActive
      ensures Valid() && Now() == Left(old(Now()), x)
    {
      hide Good, Sums, Grouped, Activated;
      LeftKeeps(Now(), x);
      SumsGrouped(Now(), Weight(x));
      if !x.inactive {
        nrActive := nrActive - 1;
        if inactive != [] {
          if nrActive < maxActive {
            Activate(0);
          }
        }
      }
    }

    /** process_one_work takes item j from a list of the pool and starts it. */
    method Begin(j: nat)
      requires Valid() && j < |queued|
      modifies this
      ensures Valid() && Now() == Apply(old(Now()), Op.Begin(j))
    {
      BeginKeeps(Now(), j);
      hide Good;
      var x := queued[j];
      queued := Without(queued, j);
      running := running + [x];
    }

    /** process_one_work is done with the item in slot j. */
    method End(j: nat)
      requires Valid() && j < |running|
      modifies this
      ensures Valid() && Now() == Apply(old(Now()), Op.End(j))
    {
      EndKeeps(Now(), j);
      hide Sums, Left;
      var x := running[j];
      running := Without(running, j);
      DecNrInFlight(x);
    }

    /** try_to_grab_pending on a work item that is with the pool */
    method StealQueued(j: nat)
      requires Valid() && j < |queued| && !queued[j].barrier
      modifies this
      ensures Valid() && Now() == Apply(old(Now()), Op.StealQueued(j))
    {
      TakeKeeps(nrActive, inactive, queued, running, next, j);
      hide Books, Left;
      var x := queued[j];
      queued := Without(queued, j);
      DecNrInFlight(x);
    }

    /** try_to_grab_pending on a waiting work item */
    method StealInactive(i: nat)
      requires Valid() && Enabled(Now(), Op.StealInactive(i))
      modifies this
      ensures Valid() && Now() == Apply(old(Now()), Op.StealInactive(i))
    {
      var at := |queued|;
      GrabReady(Now(), i);
      hide Sums, Activated, Without, Grouped, Left;
      Activate(i);
      var x := queued[at];
      queued := Without(queued, at);
      DecNrInFlight(x);
    }

    /** pwq_adjust_max_active: freezing sets the limit to 0, else it becomes the saved one */
    method AdjustMaxActive(saved: nat, freezable: bool, freezing: bool)
      requires Valid()
      modifies this
      ensures Valid() && Now() == Apply(old(Now()), Op.Adjust(saved, freezable, freezing))
    {
      hide Books, Activated;
      if !freezable && maxActive == saved {
        return;
      }
      if !freezable || !freezing {
        maxActive := saved;
        ghost var s := Now();
        RefillKeeps(s);
        while inactive != [] && nrActive < maxActive
          invariant Sums(Now(), 0) && Refill(Now()) == Refill(s)
          decreases |inactive|
        {
          SumsGrouped(Now(), 0);
          ActivatedKeeps(Now());
          ActivatedRoom(Now());
          Activate(0);
        }
      } else {
        maxActive := 0;
      }
    }

    /** insert_wq_barrier behind a waiting work item */
    method BarrierBehindInactive(i: nat)
      requires Valid() && i < |inactive|
      modifies this
      ensures Valid() && Now() == Apply(old(Now()), Op.BarrierInactive(i))
    {
      BarrierKeeps(nrActive, inactive, queued, running, next, i);
      hide Books;
      inactive := WithBarrier(inactive, i);
    }

    /** insert_wq_barrier behind an item that is with the pool */
    method BarrierBehindQueued(j: nat)
      requires Valid() && j < |queued|
      modifies this
      ensures Valid() && Now() == Apply(old(Now()), Op.BarrierQueued(j))
    {
      QueuedBarrierKeeps(nrActive, inactive, queued, running, next, j);
      hide Books;
      queued := WithBarrier(queued, j);
    }

    /** insert_wq_barrier for an item that is being executed: the barrier goes to that worker's list */
    method BarrierBehindRunning()
      requires Valid()
      modifies this
      ensures Valid() && Now() == Apply(old(Now()), Op.BarrierRunning)
    {
      RunningBarrierKeeps(Now());
      hide Good;
      queued := queued + [Item(0, true, true, false)];
    }
  }

  // ----- runs -----

  ghost predicate Step(s: State, op: Op, t: State)
  {
    Enabled(s, op) && t == Apply(s, op)
  }

  ghost predicate IsRun(run: seq<State>, ops: seq<Op>)
  {
    && |run| == |ops| + 1 && (exists max: nat :: run[0] == State(0, max, [], [], [], 0))
    && forall k, k' :: 0 <= k < |ops| && k' == k + 1 ==> Step(run[k], ops[k], run[k'])
  }

  /** A run goes on with any operation that is possible. */
  lemma RunExtends(run: seq<State>, ops: seq<Op>, op: Op)
    requires IsRun(run, ops) && Enabled(run[|run| - 1], op)
    ensures IsRun(run + [Apply(run[|run| - 1], op)], ops + [op])
  {
    hide Enabled, Apply;
    var run', ops' := run + [Apply(run[|run| - 1], op)], ops + [op];
    forall k, k' | 0 <= k < |ops'| && k' == k + 1
      ensures Step(run'[k], ops'[k], run'[k'])
    {
      assert k < |ops| ==> Step(run[k], ops[k], run[k']);
    }
  }

  lemma {:induction false} RunGood(run: seq<State>, ops: seq<Op>, k: nat)
    requires IsRun(run, ops) && k < |run|
    ensures Good(run[k])
  {
    if k > 0 {
      RunGood(run, ops, k - 1);
      assert Step(run[k - 1], ops[k - 1], run[k]);
      ApplyKeeps(run[k - 1], ops[k - 1]);
    }
  }

  lemma RunLength(run: seq<State>, ops: seq<Op>)
    requires IsRun(run, ops)
    ensures |run| == |ops| + 1
  {
  }

  lemma StepAt(run: seq<State>, ops: seq<Op>, k: nat)
    requires IsRun(run, ops) && k < |ops|
    ensures |run| == |ops| + 1 && Good(run[k]) && Good(run[k + 1]) && Step(run[k], ops[k], run[k + 1])
  {
    RunGood(run, ops, k);
    RunGood(run, ops, k + 1);
  }

  /** What the accounting promises at every lock release of every run. */
  lemma Accounting(run: seq<State>, ops: seq<Op>, k: nat)
    requires IsRun(run, ops) && k < |run|
    ensures var s := run[k];
      && s.nr == Active(s.queued) + Active(s.running) && Active(s.inactive) == 0
      && (s.inactive != [] ==> s.nr >= s.max && !s.inactive[0].barrier)
  {
    RunGood(run, ops, k);
    NoneCounted(run[k].inactive);
  }

  /** nr_active never passes the largest limit there has been. */
  lemma {:induction false} NeverAbove(run: seq<State>, ops: seq<Op>, k: nat, most: nat)
    requires IsRun(run, ops) && k < |run| && forall j :: 0 <= j <= k ==> run[j].max <= most
    ensures run[k].nr <= most
  {
    if k > 0 {
      hide IsRun, Good, Apply, Enabled;
      RunLength(run, ops);
      NeverAbove(run, ops, k - 1, most);
      StepAt(run, ops, k - 1);
      StepRoom(run[k - 1], ops[k - 1]);
    }
  }

  /** An operation raises nr_active only up to the limit it leaves. */
  lemma StepRoom(s: State, op: Op)
    requires Good(s) && Enabled(s, op)
    ensures Apply(s, op).nr <= s.nr || Apply(s, op).nr <= Apply(s, op).max
  {
    match op
    case StealInactive(i) => GrabbedIs(s, i);
    case Adjust(saved, _, _) => RefillKeeps(s.(max := saved));
    case _ =>
    hide Refill, Grabbed, Books;
  }

  /** The tickets of the active items. */
  ghost predicate IsActive(s: State, ticket: nat)
  {
    exists x :: (x in s.queued || x in s.running) && !x.inactive && x.ticket == ticket
  }

  ghost predicate Waits(s: State, ticket: nat)
  {
    exists x :: x in s.inactive && !x.barrier && x.ticket == ticket
  }

  ghost predicate BecomesActive(s: State, t: State, ticket: nat)
  {
    IsActive(t, ticket) && !IsActive(s, ticket)
  }

  /** What is active is older than all that waits and all that comes. */
  lemma ActiveOlder(s: State, x: nat)
    requires Good(s) && IsActive(s, x)
    ensures x < s.next && forall y :: Waits(s, y) ==> x < y
  {
  }

  /** Whatever waits after an operation waited before it or has just been queued. */
  lemma WaitedBefore(s: State, op: Op, y: nat)
    requires Good(s) && Enabled(s, op) && Waits(Apply(s, op), y)
    ensures Waits(s, y) || y == s.next
  {
    hide Books, Grouped, Refill, Left, Grabbed;
    match op
    case Queue =>
    case Begin(_) =>
    case End(j) => LeftWaits(s.(running := Without(s.running, j)), s.running[j], y);
    case StealQueued(j) => LeftWaits(s.(queued := Without(s.queued, j)), s.queued[j], y);
    case StealInactive(i) =>
      GrabbedIs(s, i);
      CutMembers(s.inactive, i, LinkedEnd(s.inactive, i));
    case Adjust(saved, freezable, freezing) =>
      if (freezable || s.max != saved) && (!freezable || !freezing) {
        RefillWaits(s.(max := saved), y);
      }
    case BarrierInactive(i) => BarrierMembers(s.inactive, i);
    case BarrierQueued(_) =>
    case BarrierRunning =>
  }

  lemma LeftWaits(s: State, x: Item, y: nat)
    requires Waits(Left(s, x), y)
    ensures Waits(s, y)
  {
    if s.inactive != [] && Grouped(s.inactive) {
      CutMembers(s.inactive, 0, LinkedEnd(s.inactive, 0));
    }
    hide Cut, Grouped;
  }

  lemma {:induction false} RefillWaits(s: State, y: nat)
    requires Waits(Refill(s), y)
    ensures Waits(s, y)
    decreases |s.inactive|
  {
    if s.inactive != [] && Grouped(s.inactive) && s.nr < s.max {
      RefillWaits(Activated(s, 0), y);
      CutMembers(s.inactive, 0, LinkedEnd(s.inactive, 0));
    }
  }

  /** Tickets only grow. */
  lemma NextGrows(s: State, op: Op)
    requires Good(s) && Enabled(s, op)
    ensures Apply(s, op).next >= s.next
  {
    match op
    case Adjust(saved, _, _) => RefillNext(s.(max := saved));
    case _ =>
    hide Refill, Books;
  }

  lemma {:induction false} RefillNext(s: State)
    ensures Refill(s).next == s.next
    decreases |s.inactive|
  {
    if s.inactive != [] && Grouped(s.inactive) && s.nr < s.max {
      RefillNext(Activated(s, 0));
    }
  }

  /** Whatever becomes active was waiting, or has just been queued. */
  lemma FromWaiting(s: State, op: Op, y: nat)
    requires Good(s) && Enabled(s, op) && BecomesActive(s, Apply(s, op), y)
    ensures Waits(s, y) || (op.Queue? && y == s.next)
  {
    hide Books, Grouped, Refill, Left, Grabbed, LinkedEnd;
    match op
    case Queue => NewActivates(s, y);
    case Begin(j) => BeginActivates(s, j, y);
    case End(j) =>
      EndKeeps(s, j);
      LeftActivates(s.(running := Without(s.running, j)), s.running[j], y);
    case StealQueued(j) =>
      TakeKeeps(s.nr, s.inactive, s.queued, s.running, s.next, j);
      LeftActivates(s.(queued := Without(s.queued, j)), s.queued[j], y);
    case StealInactive(i) => StealActivates(s, i, y);
    case Adjust(saved, freezable, freezing) =>
      if (freezable || s.max != saved) && (!freezable || !freezing) {
        RefillActivates(s.(max := saved), y);
      }
    case BarrierInactive(_) =>
    case BarrierQueued(j) => BarrierMembers(s.queued, j);
    case BarrierRunning =>
  }

  lemma NewActivates(s: State, y: nat)
    requires Good(s) && BecomesActive(s, Apply(s, Op.Queue), y)
    ensures y == s.next
  {
    hide Good;
  }

  lemma BeginActivates(s: State, j: nat, y: nat)
    requires Good(s) && Enabled(s, Op.Begin(j))
    ensures !BecomesActive(s, Apply(s, Op.Begin(j)), y)
  {
    hide Good;
  }

  lemma StealActivates(s: State, i: nat, y: nat)
    requires Good(s) && Enabled(s, Op.StealInactive(i))
    ensures !BecomesActive(s, Apply(s, Op.StealInactive(i)), y)
  {
    hide Books, Grouped, Grabbed;
    GrabbedIs(s, i);
    SumsNone(s);
    Barriers(s.inactive, i + 1, LinkedEnd(s.inactive, i));
  }

  lemma SumsNone(s: State)
    requires Sums(s, 0)
    ensures NoneActive(s.inactive)
  {
  }

  lemma FirstActivates(s: State, y: nat)
    requires Sums(s, 0) && s.inactive != [] && Grouped(s.inactive) && IsActive(Activated(s, 0), y)
    ensures IsActive(s, y) || Waits(s, y)
  {
    var e := LinkedEnd(s.inactive, 0);
    Barriers(s.inactive, 1, e);
    assert s.inactive[0] in s.inactive;
    hide Cut, LinkedEnd;
  }

  lemma LeftActivates(s: State, x: Item, y: nat)
    requires Sums(s, Weight(x)) && IsActive(Left(s, x), y)
    ensures IsActive(s, y) || Waits(s, y)
  {
    var t := s.(nr := s.nr - 1);
    hide Books, Activated, Grouped;
    if !x.inactive && t.inactive != [] && Grouped(t.inactive) && t.nr < t.max {
      FirstActivates(t, y);
    }
  }

  lemma {:induction false} RefillActivates(s: State, y: nat)
    requires Sums(s, 0) && IsActive(Refill(s), y)
    ensures IsActive(s, y) || Waits(s, y)
    decreases |s.inactive|
  {
    if s.inactive != [] && Grouped(s.inactive) && s.nr < s.max {
      ActivatedKeeps(s);
      RefillActivates(Activated(s, 0), y);
      if IsActive(Activated(s, 0), y) {
        FirstActivates(s, y);
      } else {
        CutMembers(s.inactive, 0, LinkedEnd(s.inactive, 0));
      }
    }
  }

  lemma StepOlder(s: State, op: Op, t: State, x: nat)
    requires Good(s) && Step(s, op, t) && x < s.next && forall y :: Waits(s, y) ==> x < y
    ensures x < t.next && forall y :: Waits(t, y) ==> x < y
  {
    hide Good, Waits, Apply, Enabled;
    NextGrows(s, op);
    forall y | Waits(t, y)
      ensures x < y
    {
      WaitedBefore(s, op, y);
    }
  }

  /** Once active, an item is older for good than all that waits and all that comes. */
  lemma {:induction false} StaysOlder(run: seq<State>, ops: seq<Op>, j: nat, k: nat, x: nat)
    requires IsRun(run, ops) && j <= k < |run| && IsActive(run[j], x)
    ensures x < run[k].next && forall y :: Waits(run[k], y) ==> x < y
    decreases k
  {
    hide IsRun, Good, IsActive, Waits, Apply, Enabled, Step;
    RunLength(run, ops);
    if j == k {
      RunGood(run, ops, j);
      ActiveOlder(run[j], x);
    } else {
      StaysOlder(run, ops, j, k - 1, x);
      StepAt(run, ops, k - 1);
      StepOlder(run[k - 1], ops[k - 1], run[k], x);
    }
  }

  /** Items become active in queueing order: what has been active is older than what becomes active later. */
  lemma ActivatesInOrder(run: seq<State>, ops: seq<Op>, j: nat, k: nat, x: nat, y: nat)
    requires IsRun(run, ops) && j <= k < |ops| && IsActive(run[j], x) && BecomesActive(run[k], run[k + 1], y)
    ensures x < y
  {
    StaysOlder(run, ops, j, k, x);
    StepAt(run, ops, k);
    FromWaiting(run[k], ops[k], y);
  }

  /** With max_active fixed at 1, items are active one at a time, in queueing order. */
  lemma OneAtATime(run: seq<State>, ops: seq<Op>, k: nat, x: nat, y: nat)
    requires IsRun(run, ops) && k < |run| && (forall j :: 0 <= j <= k ==> run[j].max <= 1)
    ensures Active(run[k].queued) + Active(run[k].running) <= 1
    ensures IsActive(run[k], x) && IsActive(run[k], y) ==> x == y
  {
    Accounting(run, ops, k);
    NeverAbove(run, ops, k, 1);
    if IsActive(run[k], x) && IsActive(run[k], y) {
      OnlyOne(run[k].queued, run[k].running, x, y);
    }
  }

  lemma OnlyOne(q: seq<Item>, r: seq<Item>, x: nat, y: nat)
    requires Active(q) + Active(r) <= 1
    requires exists a :: (a in q || a in r) && !a.inactive && a.ticket == x
    requires exists b :: (b in q || b in r) && !b.inactive && b.ticket == y
    ensures x == y
  {
    ActiveConcat(q, r);
    var a :| (a in q || a in r) && !a.inactive && a.ticket == x;
    var b :| (b in q || b in r) && !b.inactive && b.ticket == y;
    var s := q + r;
    assert a in s && b in s;
    AtMostOne(s, a, b);
  }

  lemma {:induction false} AtMostOne(s: seq<Item>, a: Item, b: Item)
    requires Active(s) <= 1 && a in s && b in s && !a.inactive && !b.inactive
    ensures a == b
  {
    if a == s[0] || b == s[0] {
      if a != b {
        var c := if a == s[0] then b else a;
        SomeActive(s[1..], c);
      }
    } else {
      AtMostOne(s[1..], a, b);
    }
  }

  lemma {:induction false} SomeActive(s: seq<Item>, a: Item)
    requires a in s && !a.inactive
    ensures Active(s) >= 1
  {
    if a != s[0] {
      SomeActive(s[1..], a);
    }
  }

  // ----- nothing is lost -----

  /** What an item is to the pool_workqueue's users: a work item, by its ticket, or a barrier. */
  datatype Name = Work(ticket: nat) | Barrier

  ghost function NameOf(x: Item): Name
  {
    if x.barrier then Barrier else Work(x.ticket)
  }

  ghost function One(b: bool): nat
  {
    if b then 1 else 0
  }

  ghost function Count(s: seq<Item>, n: Name): nat
  {
    if s == [] then 0 else One(NameOf(s[0]) == n) + Count(s[1..], n)
  }

  lemma {:induction false} CountJoin(a: seq<Item>, b: seq<Item>, n: Name)
    ensures Count(a + b, n) == Count(a, n) + Count(b, n)
  {
    if a == [] {
      assert a + b == b;
    } else {
      CountJoin(a[1..], b, n);
      assert (a + b)[1..] == a[1..] + b;
    }
  }

  lemma CountPair(x: Item, y: Item, n: Name)
    ensures Count([x], n) == One(NameOf(x) == n) && Count([x, y], n) == One(NameOf(x) == n) + One(NameOf(y) == n)
  {
    assert [x, y][1..] == [y] && [y][1..] == [] && [x][1..] == [];
  }

  lemma CountCut(s: seq<Item>, i: nat, e: nat, n: Name)
    requires i <= e <= |s|
    ensures Count(Cut(s, i, e), n) + Count(s[i..e], n) == Count(s, n)
  {
    hide Count;
    assert s == s[..i] + (s[i..e] + s[e..]);
    CountJoin(s[..i], s[i..e] + s[e..], n);
    CountJoin(s[i..e], s[e..], n);
    CountJoin(s[..i], s[e..], n);
  }

  lemma CountWithout(s: seq<Item>, i: nat, n: Name)
    requires i < |s|
    ensures Count(Without(s, i), n) + One(NameOf(s[i]) == n) == Count(s, n)
  {
    CountCut(s, i, i + 1, n);
    CountPair(s[i], s[i], n);
    assert s[i..i + 1] == [s[i]];
    hide Count;
  }

  lemma CountHanded(q: seq<Item>, s: seq<Item>, i: nat, e: nat, n: Name)
    requires i < e <= |s|
    ensures Count(Handed(q, s, i, e), n) == Count(q, n) + Count(s[i..e], n)
  {
    hide Count;
    var x := s[i].(inactive := false);
    CountJoin(q + [x], s[i + 1..e], n);
    CountJoin(q, [x], n);
    assert s[i..e] == [s[i]] + s[i + 1..e];
    CountJoin([s[i]], s[i + 1..e], n);
    CountPair(x, x, n);
    CountPair(s[i], s[i], n);
  }

  lemma CountWithBarrier(s: seq<Item>, i: nat, n: Name)
    requires i < |s|
    ensures Count(WithBarrier(s, i), n) == Count(s, n) + One(n == Barrier)
  {
    hide Count;
    var x, b := s[i].(linked := true), Item(0, true, true, s[i].linked);
    CountWithout(s, i, n);
    CountJoin(s[..i], s[i + 1..], n);
    CountJoin(s[..i] + [x, b], s[i + 1..], n);
    CountJoin(s[..i], [x, b], n);
    CountPair(x, b, n);
  }

  /** How often n is waiting, with the pool or being executed. */
  ghost function Total(s: State, n: Name): nat
  {
    Count(s.inactive, n) + Count(s.queued, n) + Count(s.running, n)
  }

  lemma ActivatedCounts(s: State, i: nat, n: Name)
    requires i < |s.inactive| && Grouped(s.inactive)
    ensures Total(Activated(s, i), n) == Total(s, n)
  {
    var e := LinkedEnd(s.inactive, i);
    hide Count, Grouped, LinkedEnd, Cut, Handed;
    CountCut(s.inactive, i, e, n);
    CountHanded(s.queued, s.inactive, i, e, n);
  }

  lemma LeftCounts(s: State, x: Item, n: Name)
    ensures Total(Left(s, x), n) == Total(s, n)
  {
    hide Count, Activated;
    if s.inactive != [] && Grouped(s.inactive) {
      ActivatedCounts(s.(nr := s.nr - 1), 0, n);
    }
  }

  lemma {:induction false} RefillCounts(s: State, n: Name)
    ensures Total(Refill(s), n) == Total(s, n)
    decreases |s.inactive|
  {
    if s.inactive != [] && Grouped(s.inactive) && s.nr < s.max {
      ActivatedRoom(s);
      ActivatedCounts(s, 0, n);
      RefillCounts(Activated(s, 0), n);
    }
    hide Count, Grouped, Activated;
  }

  lemma GrabbedCounts(s: State, i: nat, n: Name)
    requires i < |s.inactive| && Grouped(s.inactive)
    ensures Total(Grabbed(s, i), n) + One(NameOf(s.inactive[i]) == n) == Total(s, n)
  {
    var t, at := Activated(s, i), |s.queued|;
    HandedWithout(s.queued, s.inactive, i, LinkedEnd(s.inactive, i));
    ActivatedCounts(s, i, n);
    hide Count, Grouped, Handed, Cut, Left;
    CountWithout(t.queued, at, n);
    LeftCounts(t.(queued := Without(t.queued, at)), t.queued[at], n);
  }

  /** What an operation takes out: the item that is finished or stolen. */
  ghost function Takes(s: State, op: Op): Option<Name>
    requires Enabled(s, op)
  {
    match op
    case End(j) => Some(NameOf(s.running[j]))
    case StealQueued(j) => Some(NameOf(s.queued[j]))
    case StealInactive(i) => Some(NameOf(s.inactive[i]))
    case _ => None
  }

  /** What an operation brings in. */
  ghost function Brings(s: State, op: Op): Option<Name>
  {
    match op
    case Queue => Some(Work(s.next))
    case BarrierInactive(_) => Some(Barrier)
    case BarrierQueued(_) => Some(Barrier)
    case BarrierRunning => Some(Barrier)
    case _ => None
  }

  /** Every operation keeps every item and every barrier but the one it takes out or brings in. */
  lemma ApplyConserves(s: State, op: Op, n: Name)
    requires Enabled(s, op)
    ensures Total(Apply(s, op), n) + One(Takes(s, op) == Some(n)) == Total(s, n) + One(Brings(s, op) == Some(n))
  {
    hide Count, Grouped, Left, Refill, Grabbed, WithBarrier, Without;
    match op
    case Queue =>
      var x := Item(s.next, false, s.nr >= s.max, false);
      CountPair(x, x, n);
      CountJoin(s.queued, [x], n);
      CountJoin(s.inactive, [x], n);
    case Begin(j) =>
      CountWithout(s.queued, j, n);
      CountPair(s.queued[j], s.queued[j], n);
      CountJoin(s.running, [s.queued[j]], n);
    case End(j) =>
      CountWithout(s.running, j, n);
      LeftCounts(s.(running := Without(s.running, j)), s.running[j], n);
    case StealQueued(j) =>
      CountWithout(s.queued, j, n);
      LeftCounts(s.(queued := Without(s.queued, j)), s.queued[j], n);
    case StealInactive(i) => GrabbedCounts(s, i, n);
    case Adjust(saved, _, _) => RefillCounts(s.(max := saved), n);
    case BarrierInactive(i) => CountWithBarrier(s.inactive, i, n);
    case BarrierQueued(j) => CountWithBarrier(s.queued, j, n);
    case BarrierRunning =>
      var b := Item(0, true, true, false);
      CountPair(b, b, n);
      CountJoin(s.queued, [b], n);
  }

  lemma {:induction false} CountMember(s: seq<Item>, n: Name)
    ensures Count(s, n) > 0 <==> exists x :: x in s && NameOf(x) == n
  {
    if s != [] {
      CountMember(s[1..], n);
      assert forall x :: x in s <==> x == s[0] || x in s[1..];
    }
  }

  /** A work item is there exactly when it is active or waits. */
  lemma ThereMeans(s: State, x: nat)
    requires Good(s)
    ensures Total(s, Work(x)) > 0 <==> IsActive(s, x) || Waits(s, x)
  {
    CountMember(s.inactive, Work(x));
    CountMember(s.queued, Work(x));
    CountMember(s.running, Work(x));
    hide Count, Grouped, Ascending, Before, Older, Active;
  }

  /** A queued work item is active when there is room, and waits otherwise. */
  lemma QueueMeans(s: State)
    requires Good(s)
    ensures
      var t := Apply(s, Op.Queue);
      && t.next == s.next + 1
      && if s.nr < s.max then IsActive(t, s.next) && !Waits(t, s.next) else Waits(t, s.next) && !IsActive(t, s.next)
  {
    var t := Apply(s, Op.Queue);
    assert s.nr < s.max ==> Item(s.next, false, false, false) in t.queued;
    assert s.nr >= s.max ==> Item(s.next, false, true, false) in t.inactive;
    hide Grouped, Ascending, Before, Active;
  }

  /** The limit after it is adjusted. */
  lemma AdjustMeans(s: State, saved: nat, freezable: bool, freezing: bool)
    requires Good(s)
    ensures Apply(s, Op.Adjust(saved, freezable, freezing)).max == if freezable && freezing then 0 else saved
  {
    hide Books, Refill;
    RefillKeeps(s.(max := saved));
  }

  /** A barrier comes right behind its item and in front of the barriers already there, and moves with the item. */
  lemma BarrierMeans(s: seq<Item>, i: nat)
    requires Grouped(s) && i < |s|
    ensures
      var t := WithBarrier(s, i);
      && |t| == |s| + 1 && t[i + 1].barrier && Grouped(t) && LinkedEnd(t, i) == LinkedEnd(s, i) + 1
      && (forall k :: 0 <= k <= i ==> NameOf(t[k]) == NameOf(s[k]))
      && (forall k :: i < k < |s| ==> t[k + 1] == s[k])
  {
    hide Grouped, LinkedEnd, WithBarrier;
    var t := WithBarrier(s, i);
    BarrierGrouped(s, i);
    BarrierAt(s, i);
    LinkedStep(s, i);
    LinkedStep(t, i);
    LinkedStep(t, i + 1);
    if s[i].linked {
      LinkedShift(s, t, i + 1);
    }
  }

  lemma BarrierAt(s: seq<Item>, i: nat)
    requires i < |s|
    ensures
      var t := WithBarrier(s, i);
      && |t| == |s| + 1 && t[i].linked && t[i + 1].barrier && t[i + 1].linked == s[i].linked
      && (forall k :: 0 <= k <= i ==> NameOf(t[k]) == NameOf(s[k]))
      && (forall k :: i < k < |s| ==> t[k + 1] == s[k])
  {
  }

  lemma {:induction false} LinkedShift(s: seq<Item>, t: seq<Item>, k: nat)
    requires Grouped(s) && Grouped(t) && k < |s| && |t| == |s| + 1
    requires forall m :: k <= m < |s| ==> t[m + 1] == s[m]
    ensures LinkedEnd(t, k + 1) == LinkedEnd(s, k) + 1
    decreases |s| - k
  {
    if s[k].linked {
      LinkedShift(s, t, k + 1);
    }
  }

  /** Each work item is there at most once, and one that is still to come not at all. */
  lemma {:induction false} ThereOnce(run: seq<State>, ops: seq<Op>, k: nat, x: nat)
    requires IsRun(run, ops) && k < |run|
    ensures Total(run[k], Work(x)) <= One(x < run[k].next)
  {
    hide IsRun, Good, Count, Apply, Enabled;
    RunLength(run, ops);
    if k == 0 {
      StartsEmpty(run, ops, Work(x));
    } else {
      StepAt(run, ops, k - 1);
      ThereOnce(run, ops, k - 1, x);
      ApplyConserves(run[k - 1], ops[k - 1], Work(x));
      NextIs(run[k - 1], ops[k - 1]);
    }
  }

  lemma StartsEmpty(run: seq<State>, ops: seq<Op>, n: Name)
    requires IsRun(run, ops)
    ensures run != [] && Total(run[0], n) == 0
  {
  }

  lemma NextIs(s: State, op: Op)
    requires Good(s) && Enabled(s, op)
    ensures Apply(s, op).next == s.next + One(op.Queue?)
  {
    hide Books, Refill;
    match op
    case Adjust(saved, _, _) => RefillNext(s.(max := saved));
    case _ =>
  }

  /** A work item that is active or waits stays so until that very item is finished or stolen. */
  lemma {:induction false} StaysUntilTaken(run: seq<State>, ops: seq<Op>, j: nat, k: nat, x: nat)
    requires IsRun(run, ops) && j <= k < |run| && (IsActive(run[j], x) || Waits(run[j], x))
    requires forall i :: j <= i < k ==> i < |ops| && Enabled(run[i], ops[i]) && Takes(run[i], ops[i]) != Some(Work(x))
    ensures IsActive(run[k], x) || Waits(run[k], x)
    decreases k
  {
    hide IsRun, Good, Count, Apply, Enabled, IsActive, Waits, Takes;
    RunLength(run, ops);
    if j < k {
      StaysUntilTaken(run, ops, j, k - 1, x);
      StepAt(run, ops, k - 1);
      ThereMeans(run[k - 1], x);
      ThereMeans(run[k], x);
      ApplyConserves(run[k - 1], ops[k - 1], Work(x));
    }
  }

  /** Once it is finished or stolen it is gone for good. */
  lemma {:induction false} TakenIsGone(run: seq<State>, ops: seq<Op>, j: nat, k: nat, x: nat)
    requires IsRun(run, ops) && j < k < |run| && Enabled(run[j], ops[j]) && Takes(run[j], ops[j]) == Some(Work(x))
    ensures x < run[k].next && !IsActive(run[k], x) && !Waits(run[k], x)
    decreases k
  {
    hide IsRun, Good, Count, Apply, Enabled, IsActive, Waits, Takes;
    RunLength(run, ops);
    StepAt(run, ops, k - 1);
    ThereOnce(run, ops, k - 1, x);
    ThereMeans(run[k - 1], x);
    ThereMeans(run[k], x);
    ApplyConserves(run[k - 1], ops[k - 1], Work(x));
    NextIs(run[k - 1], ops[k - 1]);
    if j < k - 1 {
      TakenIsGone(run, ops, j, k - 1, x);
    }
  }
}
