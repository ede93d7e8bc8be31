/**
 * The hotplug state machine of an application processor, kernel/cpu.c: one request
 * walks the states towards its target, and a failure walks them back.
 */
module CpuHotplug {
  import opened Base

  const EAGAIN: int := -11
  const INVALID: int := -1

  /** A state of the table: whether it is multi-instance, which callbacks it has, and its instances. */
  datatype Step = Step(multi: bool, startup: bool, teardown: bool, instances: seq<nat>)

  /** One callback invocation: the state, the instance of a multi-instance state, the direction. */
  datatype Call = Call(state: int, node: Option<nat>, up: bool)

  /** The table of states, and what each callback will return. */
  datatype Table = Table(step: int -> Step, answer: Call -> int)

  ghost predicate Has(t: Table, v: int, up: bool)
  {
    if up then t.step(v).startup else t.step(v).teardown
  }

  /** Every callback a state has in one direction, in the order of its instance list. */
  ghost function Calls(t: Table, v: int, up: bool): seq<Call>
  {
    if !Has(t, v, up) then []
    else if !t.step(v).multi then [Call(v, None, up)]
    else
      var ns := t.step(v).instances;
      seq(|ns|, j requires 0 <= j < |ns| => Call(v, Some(ns[j]), up))
  }

  /** No instance is registered twice: an hlist_node is on one list, once. */
  ghost predicate InstancesOnce(t: Table)
  {
    && (forall v, i, j :: 0 <= i < j < |t.step(v).instances| ==> t.step(v).instances[i] != t.step(v).instances[j])
    && (forall v, w, i, j :: v != w && 0 <= i < |t.step(v).instances| && 0 <= j < |t.step(w).instances| ==>
          t.step(v).instances[i] != t.step(w).instances[j])
  }

  // ----- the states between two points -----

  ghost function Visit(s: int, up: bool): int
  {
    if up then s + 1 else s
  }

  ghost function Next(s: int, up: bool): int
  {
    if up then s + 1 else s - 1
  }

  /** Going from s to e in the direction up. */
  ghost predicate Towards(s: int, e: int, up: bool)
  {
    if up then s <= e else e <= s
  }

  /** e is still ahead of s. */
  ghost predicate Short(s: int, e: int, up: bool)
  {
    if up then s < e else e < s
  }

  ghost function Distance(s: int, e: int): nat
  {
    if s <= e then e - s else s - e
  }

  /** The states whose callbacks run on the way from s to e. */
  ghost function Path(s: int, e: int, up: bool): (r: seq<int>)
    requires Towards(s, e, up)
    ensures |r| == Distance(s, e)
    decreases Distance(s, e)
  {
    if s == e then [] else [Visit(s, up)] + Path(Next(s, up), e, up)
  }

  ghost function AllCalls(t: Table, vs: seq<int>, up: bool): seq<Call>
  {
    if vs == [] then [] else Calls(t, vs[0], up) + AllCalls(t, vs[1..], up)
  }

  ghost function Reverse(vs: seq<int>): seq<int>
  {
    if vs == [] then [] else Reverse(vs[1..]) + [vs[0]]
  }

  lemma {:induction false} PathSnoc(s: int, e: int, up: bool)
    requires Towards(s, e, up)
    ensures Towards(s, Next(e, up), up) && Path(s, Next(e, up), up) == Path(s, e, up) + [Visit(e, up)]
    decreases Distance(s, e)
  {
    if s != e {
      PathSnoc(Next(s, up), e, up);
    }
  }

  /** The way back runs through the same states in reverse order. */
  lemma {:induction false} PathBack(s: int, e: int, up: bool)
    requires Towards(s, e, up)
    ensures Towards(e, s, !up) && Path(e, s, !up) == Reverse(Path(s, e, up))
    decreases Distance(s, e)
  {
    if s != e {
      PathBack(Next(s, up), e, up);
      PathSnoc(e, Next(s, up), !up);
      assert Path(s, e, up)[1..] == Path(Next(s, up), e, up);
    }
  }

  lemma {:induction false} AllCallsSnoc(t: Table, vs: seq<int>, v: int, up: bool)
    ensures AllCalls(t, vs + [v], up) == AllCalls(t, vs, up) + Calls(t, v, up)
  {
    if vs == [] {
      assert vs + [v] == [v] && [v][1..] == [];
    } else {
      AllCallsSnoc(t, vs[1..], v, up);
      assert (vs + [v])[1..] == vs[1..] + [v];
    }
  }

  class Ap {
    const table: Table
    var state: int
    var target: int
    var last: Option<nat>
    var bringup: bool
    var rollback: bool
    var shouldRun: bool
    var result: int
    var fail: int
    /** The callbacks invoked so far. */
    ghost var trace: seq<Call>

    constructor (table: Table, state: int)
      ensures this.table == table && this.state == state && trace == [] && result == 0 && fail == INVALID
    {
      this.table, this.state, target, last := table, state, state, None;
      bringup, rollback, shouldRun, result, fail := false, false, false, 0, INVALID;
      trace := [];
    }

    /** The loop of cpuhp_invoke_callback over the instances of a state; k callbacks returned 0. */
    method InvokeAll(v: int, up: bool) returns (ret: int, ghost k: nat)
      requires Has(table, v, up) && table.step(v).multi
      modifies this`last, this`trace
      ensures ret == 0 ==> k == |Due(table, v, up, old(last))| && last == None
      ensures ret != 0 ==> k < |Due(table, v, up, old(last))| && last == Due(table, v, up, old(last))[k].node
      ensures Ran(table, Due(table, v, up, old(last)), k, ret)
        && trace == old(trace) + Due(table, v, up, old(last))[..Made(k, ret)]
    {
      var nodes := table.step(v).instances;
      var i := 0;
      ghost var due := Due(table, v, up, last);
      UntilStops(Calls(table, v, up), last);
      k := 0;
      while i < |nodes|
        invariant 0 <= i <= |due| && k == i && last == old(last)
        invariant trace == old(trace) + due[..i]
        invariant forall j :: 0 <= j < i ==> table.answer(due[j]) == 0
      {
        if last == Some(nodes[i]) {
          break;
        }
        var c := Call(v, Some(nodes[i]), up);
        assert due[i] == c && due[..i + 1] == due[..i] + [c];
        trace := trace + [c];
        ret := table.answer(c);
        if ret != 0 {
          last := Some(nodes[i]);
          return;
        }
        i, k := i + 1, k + 1;
      }
      last, ret := None, 0;
    }

    /** cpuhp_invoke_callback on a state transition, with lastp pointing to last. */
    method Invoke(v: int, up: bool) returns (ret: int, ghost k: nat)
      requires fail != v
      modifies this`last, this`trace
      ensures ret == 0 ==> k == |Due(table, v, up, old(last))|
      ensures ret == 0 ==> last == if Has(table, v, up) && table.step(v).multi then None else old(last)
      ensures ret != 0 ==> k < |Due(table, v, up, old(last))|
      ensures ret != 0 ==> last == if table.step(v).multi then Due(table, v, up, old(last))[k].node else old(last)
      ensures Ran(table, Due(table, v, up, old(last)), k, ret)
        && trace == old(trace) + Due(table, v, up, old(last))[..Made(k, ret)]
    {
      k := 0;
      if !(if up then table.step(v).startup else table.step(v).teardown) {
        return 0, 0;
      }
      if !table.step(v).multi {
        var c := Call(v, None, up);
        trace := trace + [c];
        ret := table.answer(c);
        k := if ret == 0 then 1 else 0;
        assert Due(table, v, up, old(last)) == [c] && [c][..1] == [c];
        return;
      }
      ret, k := InvokeAll(v, up);
    }

    /** cpuhp_invoke_callback with the failure injection of st->fail in front */
    method InvokeOrFail(v: int, up: bool) returns (ret: int, ghost k: nat, ghost injected: bool)
      modifies this`last, this`trace, this`fail
      ensures injected <==> old(fail) == v
      ensures fail == if injected then INVALID else old(fail)
      ensures injected ==>
        k == 0 && trace == old(trace) && last == old(last) && ret == if Has(table, v, up) then EAGAIN else 0
      ensures !injected ==> (ret == 0 ==> k == |Due(table, v, up, old(last))|)
      ensures !injected ==> (ret == 0 ==> last == if Has(table, v, up) && table.step(v).multi then None else old(last))
      ensures !injected ==> (ret != 0 ==> k < |Due(table, v, up, old(last))|)
      ensures !injected ==> (ret != 0 ==>
        last == if table.step(v).multi then Due(table, v, up, old(last))[k].node else old(last))
      ensures !injected ==> Ran(table, Due(table, v, up, old(last)), k, ret)
      ensures !injected ==> trace == old(trace) + Due(table, v, up, old(last))[..Made(k, ret)]
    {
      if fail == v {
        fail := INVALID;
        return if (if up then table.step(v).startup else table.step(v).teardown) then EAGAIN else 0, 0, true;
      }
      ret, k := Invoke(v, up);
      injected := false;
    }

    /** cpuhp_thread_fun in its up and down modes */
    method ThreadFun() returns (ghost k: nat, ghost injected: bool)
      requires shouldRun
      modifies this`state, this`shouldRun, this`result, this`last, this`trace, this`fail
      ensures state == Next(old(state), bringup)
      ensures shouldRun <==> result == 0 && Short(state, target, bringup)
      ensures var v := Visit(old(state), bringup);
        && (injected <==> old(fail) == v)
        && fail == (if injected then INVALID else old(fail))
        && Outcome(table, v, bringup, old(last), result, k, injected, last)
        && trace == old(trace) + Part(table, v, bringup, old(last), result, k, injected)
    {
      var v := state;
      if bringup {
        state := state + 1;
        v := state;
        shouldRun := state < target;
      } else {
        state := state - 1;
        shouldRun := state > target;
      }
      result, k, injected := InvokeOrFail(v, bringup);
      if result != 0 {
        shouldRun := false;
      }
    }

    /** cpuhp_thread_fun, seen as a step of a request and as a step of a rollback that began with r */
    method Turn(ghost r: Begin) returns (ghost k: nat, ghost injected: bool)
      requires shouldRun && r.up == bringup && (r.forward || r.back ==> Short(state, target, bringup))
      requires r.forward ==>
        state >= 0 && target >= 0 && Reached(table, r.s, state, bringup, r.trace, trace, last, fail)
      requires r.back ==> BackReady(table, r.s, target, bringup, r.last, fail) && BackAt(table, r, state, trace, last)
      modifies this`state, this`shouldRun, this`result, this`last, this`trace, this`fail
      ensures state == Next(old(state), bringup)
      ensures shouldRun <==> result == 0 && Short(state, target, bringup)
      ensures r.forward ==> if result == 0 then Reached(table, r.s, state, bringup, r.trace, trace, last, fail)
        else Stopped(table, r.s, old(state), bringup, r.trace, trace, last, fail, result, k, injected)
      ensures r.back ==> result == 0 && fail == old(fail) && BackAt(table, r, state, trace, last)
      ensures (fail == old(fail) || fail == INVALID) && (injected ==> old(fail) == Visit(old(state), bringup))
    {
      ghost var at, tr, f, l := state, trace, fail, last;
      hide Reached, Stopped, Outcome, Part, BackAt, BackReady;
      k, injected := ThreadFun();
      if r.forward {
        if result == 0 {
          Passes(table, r.s, at, bringup, r.trace, tr, l, f, k, injected, last);
        } else {
          Stops(table, r.s, at, bringup, r.trace, tr, l, f, result, k, injected, last);
        }
      }
      if r.back {
        GoesBack(table, r, at, target, tr, l, f, result, k, injected, last);
      }
    }

    /**
     * __cpuhp_kick_ap, with the hotplug thread run until it stops.  On an error, at is the state
     * before the visit that failed, of which k callbacks succeeded.
     */
    method Kick() returns (ghost at: int, ghost k: nat, ghost injected: bool)
      modifies this`state, this`shouldRun, this`result, this`last, this`trace, this`fail
      ensures old(state) == target ==>
        result == old(result) && state == old(state) && trace == old(trace) && last == old(last) && fail == old(fail)
      ensures old(state) != target && !Short(old(state), target, bringup) ==> state == Next(old(state), bringup)
      ensures Short(old(state), target, bringup) && old(last) == None && old(state) >= 0 && target >= 0 ==>
        if result == 0 then state == target && Reached(table, old(state), state, bringup, old(trace), trace, last, fail)
        else
          && state == Next(at, bringup) && Short(at, target, bringup) && (injected ==> old(fail) == Visit(at, bringup))
          && Stopped(table, old(state), at, bringup, old(trace), trace, last, fail, result, k, injected)
      ensures Short(old(state), target, bringup) ==>
        BackReady(table, old(state), target, bringup, old(last), old(fail)) ==>
        && state == target
        && BackAt(table, Begin(old(state), bringup, old(trace), old(last), false, true), state, trace, last)
    {
      at, k, injected := state, 0, false;
      if state == target {
        return;
      }
      ghost var ahead := Short(state, target, bringup);
      ghost var r := Begin(state, bringup, trace, last, ahead && last == None && state >= 0 && target >= 0,
                           ahead && BackReady(table, state, target, bringup, last, fail));
      result := 0;
      shouldRun := true;
      assert r.forward ==> Reached(table, r.s, state, bringup, r.trace, trace, last, fail);
      assert r.back ==> BackAt(table, r, state, trace, last);
      hide Reached, Stopped, BackReady, BackAt;
      at, k, injected := Run(r, ahead);
    }

    /** The thread function is called until it is not to run again. */
    method Run(ghost r: Begin, ghost ahead: bool) returns (ghost at: int, ghost k: nat, ghost injected: bool)
      requires shouldRun && result == 0 && state == r.s && r.up == bringup && state != target
      requires ahead == Short(state, target, bringup) && (r.forward || r.back ==> ahead)
      requires r.forward ==>
        state >= 0 && target >= 0 && Reached(table, r.s, state, bringup, r.trace, trace, last, fail)
      requires r.back ==> BackReady(table, r.s, target, bringup, r.last, fail) && BackAt(table, r, state, trace, last)
      modifies this`state, this`shouldRun, this`result, this`last, this`trace, this`fail
      ensures if ahead then result == 0 ==> state == target else state == Next(r.s, bringup)
      ensures r.forward ==>
        if result == 0 then Reached(table, r.s, state, bringup, r.trace, trace, last, fail)
        else
          && state == Next(at, bringup) && Short(at, target, bringup) && (injected ==> old(fail) == Visit(at, bringup))
          && Stopped(table, r.s, at, bringup, r.trace, trace, last, fail, result, k, injected)
      ensures r.back ==> result == 0 && BackAt(table, r, state, trace, last)
    {
      hide Reached, Stopped, BackReady, BackAt;
      at, k, injected := state, 0, false;
      while shouldRun
        invariant ahead ==> Towards(state, target, bringup) && (shouldRun <==> result == 0 && state != target)
        invariant !ahead ==> if shouldRun then state == r.s && result == 0 else state == Next(r.s, bringup)
        invariant r.forward ==> if result == 0 then state >= 0
          && Reached(table, r.s, state, bringup, r.trace, trace, last, fail)
          else
            && state == Next(at, bringup) && Short(at, target, bringup)
              && (injected ==> old(fail) == Visit(at, bringup))
            && Stopped(table, r.s, at, bringup, r.trace, trace, last, fail, result, k, injected)
        invariant r.back ==> result == 0 && fail == old(fail) && BackAt(table, r, state, trace, last)
        invariant fail == old(fail) || fail == INVALID
        decreases Distance(state, target) + (if !ahead && shouldRun then 2 else 0), shouldRun
      {
        at := state;
        k, injected := Turn(r);
      }
    }

    /** cpuhp_set_state */
    method SetState(t: int) returns (prev: int)
      modifies this`rollback, this`last, this`target, this`bringup
      ensures prev == state && last == None && target == t && bringup == (state < t) && !rollback
    {
      rollback, last, target, bringup := false, None, t, state < t;
      return state;
    }

    /** cpuhp_reset_state */
    method ResetState(prev: int)
      modifies this`rollback, this`state, this`target, this`bringup
      ensures state == (if last == None then Next(old(state), !old(bringup)) else old(state))
      ensures target == prev && bringup == !old(bringup) && rollback
    {
      rollback := true;
      if last == None {
        state := if bringup then state - 1 else state + 1;
      }
      target, bringup := prev, !bringup;
    }

    /**
     * cpuhp_kick_ap.  A request either runs every callback of every state on its way, or
     * returns the error of the first that fails with the state back where it was.  Then the
     * opposite callbacks have run on the instances that succeeded in the failing state, and
     * on the completed states in reverse order.  A request for the current state returns
     * whatever result is left from before, and on an error leaves the state two further up.
     */
    method KickAp(t: int) returns (ret: int, ghost at: int, ghost k: nat, ghost injected: bool)
      requires state >= 0 && t >= 0 && InstancesOnce(table) && (state != t ==> Reliable(table, !(state < t)))
      modifies this
      ensures old(state) != t || old(result) == 0 ==>
        Exact(table, old(state), t, old(trace), ret, at, k, injected, state, trace)
      ensures old(state) != t && ret != 0 && injected ==> old(fail) == Visit(at, old(state) < t)
      ensures old(state) == t && old(result) != 0 ==> ret == old(result) && state == t + 2
      ensures old(state) != t && ret != 0 && at == old(state) && !table.step(Visit(at, old(state) < t)).multi ==>
        result == ret
    {
      hide Stopped, Reached, BackReady, BackAt, Exact, InstancesOnce, Reliable;
      ghost var s0, tr0, up := state, trace, state < t;
      var prev := SetState(t);
      at, k, injected := Kick();
      ret := result;
      if ret != 0 {
        ghost var tr, f, l, stale := trace, fail, last, s0 == t;
        if !stale {
          WayBack(table, s0, at, up, tr0, tr, l, f, ret, k, injected);
        }
        ResetState(prev);
        ghost var at', k', injected' := Kick();
        if !stale {
          BackExact(table, s0, t, at, up, tr0, tr, l, f, ret, k, injected, trace, last);
        }
      } else {
        PassedExact(table, s0, t, tr0, trace, last, fail, at, k, injected);
      }
    }
  }

  /** What a request from s0 to e is to do. */
  ghost predicate Exact(t: Table, s0: int, e: int, tr0: seq<Call>, ret: int, at: int, k: nat, injected: bool, s: int,
                        tr: seq<Call>)
  {
    var up := s0 < e;
    if ret == 0 then s == e && tr == tr0 + AllCalls(t, Path(s0, e, up), up)
      && Quiet(t, AllCalls(t, Path(s0, e, up), up))
    else
      var v := Visit(at, up);
      && s == s0 && Towards(s0, at, up) && Short(at, e, up) && Quiet(t, AllCalls(t, Path(s0, at, up), up))
      && (if injected then ret == EAGAIN && k == 0 else Ran(t, Calls(t, v, up), k, ret))
      && tr == tr0 + AllCalls(t, Path(s0, at, up), up) + Part(t, v, up, None, ret, k, injected)
             + Undo(t, v, up, k) + AllCalls(t, Reverse(Path(s0, at, up)), !up)
  }

  lemma PassedExact(t: Table, s0: int, e: int, tr0: seq<Call>, tr: seq<Call>, last: Option<nat>, fail: int, at: int,
                    k: nat, injected: bool)
    requires if s0 == e then tr == tr0 else Reached(t, s0, e, s0 < e, tr0, tr, last, fail)
    ensures Exact(t, s0, e, tr0, 0, at, k, injected, e, tr)
  {
  }

  /** The opposite callbacks for the first k instances of state v. */
  ghost function Undo(t: Table, v: int, up: bool, k: nat): seq<Call>
  {
    var cs := Calls(t, v, !up);
    if t.step(v).multi && k <= |cs| then cs[..k] else []
  }

  lemma {:induction false} ReverseMembers(vs: seq<int>, v: int)
    ensures v in Reverse(vs) <==> v in vs
  {
    if vs != [] {
      ReverseMembers(vs[1..], v);
    }
  }

  /** After a failure the rollback can go through. */
  lemma WayBack(t: Table, s0: int, at: int, up: bool, tr0: seq<Call>, tr: seq<Call>, last: Option<nat>, fail: int,
                ret: int, k: nat, injected: bool)
    requires Stopped(t, s0, at, up, tr0, tr, last, fail, ret, k, injected) && InstancesOnce(t) && Reliable(t, !up)
    ensures var s1 := if last == None then at else Next(at, up);
      BackReady(t, s1, s0, !up, last, fail) && (s1 == s0 || Short(s1, s0, !up))
    ensures !t.step(Visit(at, up)).multi ==> last == None
  {
    PathBack(s0, at, up);
    ReverseMembers(Path(s0, at, up), fail);
    if last.Some? {
      assert Path(Next(at, up), s0, !up) == [Visit(at, up)] + Path(at, s0, !up);
      assert Calls(t, Visit(at, up), up)[k].node == last;
    }
  }

  /** The calls before the k-th instance are the first k. */
  lemma DueIsUndo(t: Table, v: int, up: bool, k: nat)
    requires InstancesOnce(t) && t.step(v).multi && k < |Calls(t, v, up)|
    ensures Due(t, v, !up, Calls(t, v, up)[k].node) == Undo(t, v, up, k)
  {
    var cs, back := Calls(t, v, up), Calls(t, v, !up);
    var node := cs[k].node;
    UntilStops(back, node);
    if back != [] {
      assert back[k].node == node;
      assert forall j :: 0 <= j < |back| && back[j].node == node ==> j == k;
    }
  }

  lemma BackExact(t: Table, s0: int, e: int, at: int, up: bool, tr0: seq<Call>, tr: seq<Call>, last: Option<nat>,
                  fail: int,
                  ret: int, k: nat, injected: bool, tr': seq<Call>, last': Option<nat>)
    requires Stopped(t, s0, at, up, tr0, tr, last, fail, ret, k, injected) && InstancesOnce(t)
    requires up == (s0 < e) && Short(at, e, up)
    requires var s1 := if last == None then at else Next(at, up);
      if s1 == s0 then tr' == tr else BackAt(t, Begin(s1, !up, tr, last, false, true), s0, tr', last')
    ensures Exact(t, s0, e, tr0, ret, at, k, injected, s0, tr')
  {
    hide Path, AllCalls, Calls, Undo, Due, Reverse, Part, InstancesOnce;
    PathBack(s0, at, up);
    if last == None {
      BackWhole(t, s0, at, up, tr, tr', last');
      NothingPartial(t, Visit(at, up), up, ret, k, injected);
    } else {
      DueIsUndo(t, Visit(at, up), up, k);
    }
  }

  /** Without a remembered node the way back undoes whole states only. */
  lemma BackWhole(t: Table, s0: int, at: int, up: bool, tr: seq<Call>, tr': seq<Call>, last': Option<nat>)
    requires Towards(s0, at, up)
    requires if at == s0 then tr' == tr else BackAt(t, Begin(at, !up, tr, None, false, true), s0, tr', last')
    ensures tr' == tr + AllCalls(t, Reverse(Path(s0, at, up)), !up)
  {
    PathBack(s0, at, up);
    var back := Path(at, s0, !up);
    if at != s0 {
      assert back[0] == Visit(at, !up) && back[1..] == Path(Next(at, !up), s0, !up);
    }
  }

  lemma NothingPartial(t: Table, v: int, up: bool, ret: int, k: nat, injected: bool)
    requires Failed(t, v, up, ret, k, injected, None)
    ensures Undo(t, v, up, k) == []
  {
  }

  /** Where a run of the hotplug thread began, and what is to be shown of it: a request, a rollback. */
  datatype Begin = Begin(s: int, up: bool, trace: seq<Call>, last: Option<nat>, forward: bool, back: bool)

  /** A rollback from s to e can go through: its callbacks do not fail, and the node in last is one of the first
      state. */
  ghost predicate BackReady(t: Table, s: int, e: int, up: bool, last: Option<nat>, fail: int)
  {
    && Towards(s, e, up) && InstancesOnce(t) && Reliable(t, up) && fail !in Path(s, e, up)
    && (last.Some? ==> t.step(Visit(s, up)).multi && last.value in t.step(Visit(s, up)).instances)
  }

  /** The rollback r has come to state s: its first state was undone up to the node in last, the others in full. */
  ghost predicate BackAt(t: Table, r: Begin, s: int, tr: seq<Call>, last: Option<nat>)
  {
    if s == r.s then tr == r.trace && last == r.last
    else
      && Towards(Next(r.s, r.up), s, r.up) && (last == None || last == r.last)
      && tr == r.trace + Due(t, Visit(r.s, r.up), r.up, r.last) + AllCalls(t, Path(Next(r.s, r.up), s, r.up), r.up)
  }

  lemma GoesBack(t: Table, r: Begin, s: int, e: int, tr: seq<Call>, l: Option<nat>, fail: int,
                 ret: int, k: nat, injected: bool, last: Option<nat>)
    requires BackReady(t, r.s, e, r.up, r.last, fail) && BackAt(t, r, s, tr, l) && Short(s, e, r.up)
    requires (injected <==> fail == Visit(s, r.up)) && Outcome(t, Visit(s, r.up), r.up, l, ret, k, injected, last)
    ensures ret == 0 && !injected
    ensures BackAt(t, r, Next(s, r.up), tr + Part(t, Visit(s, r.up), r.up, l, ret, k, injected), last)
  {
    hide Path, AllCalls, Calls, Due, Part, InstancesOnce, Reliable, Outcome;
    var v, up := Visit(s, r.up), r.up;
    OnPath(r.s, s, e, up);
    NoError(t, v, up, l, ret, k, injected, last);
    WholePart(t, v, up, l, k);
    if s == r.s {
      NoCalls(t, Next(s, up), up);
    } else {
      LaterIsAlien(t, r.s, s, e, up, r.last);
      AlienDue(t, v, up, l);
      PathSnoc(Next(r.s, up), s, up);
      AllCallsSnoc(t, Path(Next(r.s, up), s, up), v, up);
    }
  }

  lemma NoCalls(t: Table, s: int, up: bool)
    ensures AllCalls(t, Path(s, s, up), up) == []
  {
  }

  lemma WholePart(t: Table, v: int, up: bool, l: Option<nat>, k: nat)
    requires k == |Due(t, v, up, l)|
    ensures Part(t, v, up, l, 0, k, false) == Due(t, v, up, l)
  {
  }

  lemma LaterIsAlien(t: Table, s0: int, s: int, e: int, up: bool, last: Option<nat>)
    requires Towards(Next(s0, up), s, up) && Short(s, e, up) && InstancesOnce(t)
    requires last.Some? ==> last.value in t.step(Visit(s0, up)).instances
    ensures Alien(t, last, Visit(s, up))
  {
    FirstOnly(t, s0, e, up, last);
    OnPath(Next(s0, up), s, e, up);
  }

  /** No callback in this direction fails. */
  ghost predicate Reliable(t: Table, up: bool)
  {
    forall c: Call :: c.up == up ==> t.answer(c) == 0
  }

  /** The remembered node is not one of state v. */
  ghost predicate Alien(t: Table, last: Option<nat>, v: int)
  {
    last.Some? ==> last.value !in t.step(v).instances
  }

  lemma AlienDue(t: Table, v: int, up: bool, last: Option<nat>)
    requires Alien(t, last, v)
    ensures Due(t, v, up, last) == Calls(t, v, up)
  {
    UntilStops(Calls(t, v, up), last);
  }

  lemma NoError(t: Table, v: int, up: bool, l: Option<nat>, ret: int, k: nat, injected: bool, last: Option<nat>)
    requires Reliable(t, up) && !injected && Outcome(t, v, up, l, ret, k, injected, last)
    ensures ret == 0 && k == |Due(t, v, up, l)|
    ensures last == l || last == None
    ensures Has(t, v, up) && t.step(v).multi ==> last == None
  {
    UntilStops(Calls(t, v, up), l);
  }

  /** A node of the first state is alien to all later ones. */
  lemma FirstOnly(t: Table, s: int, e: int, up: bool, last: Option<nat>)
    requires Towards(s, e, up) && s != e && InstancesOnce(t)
    requires last.Some? ==> last.value in t.step(Visit(s, up)).instances
    ensures Visit(s, up) in Path(s, e, up)
    ensures forall v :: v in Path(Next(s, up), e, up) ==> v in Path(s, e, up) && Alien(t, last, v)
  {
    PathBeyond(Next(s, up), e, up);
  }

  lemma {:induction false} PathBeyond(s: int, e: int, up: bool)
    requires Towards(s, e, up)
    ensures forall v :: v in Path(s, e, up) ==> if up then s < v else v <= s
    decreases Distance(s, e)
  {
    if s != e {
      PathBeyond(Next(s, up), e, up);
    }
  }

  lemma {:induction false} OnPath(s: int, x: int, e: int, up: bool)
    requires Towards(s, x, up) && Towards(x, e, up) && x != e
    ensures Towards(s, e, up) && Visit(x, up) in Path(s, e, up)
    decreases Distance(s, x)
  {
    if s != x {
      OnPath(Next(s, up), x, e, up);
    }
  }

  lemma Passes(t: Table, s0: int, s: int, up: bool, tr0: seq<Call>, tr: seq<Call>, l: Option<nat>, fail: int,
               k: nat, injected: bool, last: Option<nat>)
    requires Reached(t, s0, s, up, tr0, tr, l, fail) && s >= 0 && Visit(s, up) > 0
      && (injected <==> fail == Visit(s, up))
    requires Outcome(t, Visit(s, up), up, l, 0, k, injected, last)
    ensures Reached(t, s0, Next(s, up), up, tr0, tr + Part(t, Visit(s, up), up, l, 0, k, injected), last,
      if injected then INVALID else fail)
  {
    var v := Visit(s, up);
    var cs := Calls(t, v, up);
    PathSnoc(s0, s, up);
    AllCallsSnoc(t, Path(s0, s, up), v, up);
    PathPositive(s0, s, up);
    assert Part(t, v, up, l, 0, k, injected) == cs && Quiet(t, cs) by {
      assert cs[..|cs|] == cs;
    }
    hide Calls, AllCalls, Path;
  }

  lemma Stops(t: Table, s0: int, s: int, up: bool, tr0: seq<Call>, tr: seq<Call>, l: Option<nat>, fail: int,
              ret: int, k: nat, injected: bool, last: Option<nat>)
    requires Reached(t, s0, s, up, tr0, tr, l, fail) && s >= 0 && Visit(s, up) > 0
      && (injected <==> fail == Visit(s, up)) && ret != 0
    requires Outcome(t, Visit(s, up), up, l, ret, k, injected, last)
    ensures Stopped(t, s0, s, up, tr0, tr + Part(t, Visit(s, up), up, l, ret, k, injected), last,
      if injected then INVALID else fail, ret, k, injected)
  {
    PathPositive(s0, s, up);
    hide Calls, AllCalls, Path;
  }

  lemma {:induction false} PathPositive(s: int, e: int, up: bool)
    requires Towards(s, e, up) && s >= 0 && e >= 0
    ensures INVALID !in Path(s, e, up)
    decreases Distance(s, e)
  {
    if s != e {
      PathPositive(Next(s, up), e, up);
    }
  }

  /** From s0 every state up to s was passed without an error. */
  ghost predicate Reached(t: Table, s0: int, s: int, up: bool, tr0: seq<Call>, tr: seq<Call>, last: Option<nat>,
                          fail: int)
  {
    && Towards(s0, s, up) && s0 >= 0 && last == None && fail !in Path(s0, s, up)
    && tr == tr0 + AllCalls(t, Path(s0, s, up), up) && Quiet(t, AllCalls(t, Path(s0, s, up), up))
  }

  /** All of these calls return 0. */
  ghost predicate Quiet(t: Table, cs: seq<Call>)
  {
    forall c :: c in cs ==> t.answer(c) == 0
  }

  /** From s0 every state up to s was passed, and then the visit of the next one failed. */
  ghost predicate Stopped(t: Table, s0: int, s: int, up: bool, tr0: seq<Call>, tr: seq<Call>, last: Option<nat>,
                          fail: int,
                          ret: int, k: nat, injected: bool)
  {
    var v := Visit(s, up);
    && Towards(s0, s, up) && s0 >= 0 && fail !in Path(s0, s, up) && fail != v
    && Failed(t, v, up, ret, k, injected, last)
    && tr == tr0 + AllCalls(t, Path(s0, s, up), up) + Part(t, v, up, None, ret, k, injected)
    && Quiet(t, AllCalls(t, Path(s0, s, up), up))
  }

  /** A visit of state v that began with nothing remembered ended in an error. */
  ghost predicate Failed(t: Table, v: int, up: bool, ret: int, k: nat, injected: bool, last: Option<nat>)
  {
    var cs := Calls(t, v, up);
    && ret != 0
    && if injected then ret == EAGAIN && last == None && k == 0
       else Ran(t, cs, k, ret) && last == if t.step(v).multi then cs[k].node else None
  }

  /** How one visit of state v ended. */
  ghost predicate Outcome(t: Table, v: int, up: bool, last: Option<nat>, ret: int, k: nat, injected: bool,
                          last': Option<nat>)
  {
    if injected then k == 0 && last' == last && ret == (if Has(t, v, up) then EAGAIN else 0)
    else
      var due := Due(t, v, up, last);
      && Ran(t, due, k, ret)
      && if ret == 0
         then k == |due| && last' == (if Has(t, v, up) && t.step(v).multi then None else last)
         else last' == if t.step(v).multi then due[k].node else last
  }

  /** The calls that one visit of state v made. */
  ghost function Part(t: Table, v: int, up: bool, last: Option<nat>, ret: int, k: nat, injected: bool): seq<Call>
  {
    var due := Due(t, v, up, last);
    if injected || Made(k, ret) > |due| then [] else due[..Made(k, ret)]
  }

  /** The calls a state makes when nothing fails: those before the node remembered in last. */
  ghost function Due(t: Table, v: int, up: bool, last: Option<nat>): seq<Call>
  {
    var cs := Calls(t, v, up);
    if last.None? || !t.step(v).multi then cs else Until(cs, last.value)
  }

  /** How many calls were made when k of them returned 0 and the last one ret. */
  ghost function Made(k: nat, ret: int): nat
  {
    if ret == 0 then k else k + 1
  }

  /** The first k of the calls returned 0, and if ret is an error the next one returned it. */
  ghost predicate Ran(t: Table, cs: seq<Call>, k: nat, ret: int)
  {
    && Made(k, ret) <= |cs|
    && (forall j :: 0 <= j < k ==> t.answer(cs[j]) == 0)
    && (ret != 0 ==> t.answer(cs[k]) == ret)
  }

  /** The calls before the one on node n. */
  ghost function Until(cs: seq<Call>, n: nat): seq<Call>
  {
    if cs == [] || cs[0].node == Some(n) then [] else [cs[0]] + Until(cs[1..], n)
  }

  lemma {:induction false} UntilStops(cs: seq<Call>, last: Option<nat>)
    ensures last.Some? ==>
      var u := Until(cs, last.value);
      && |u| <= |cs| && u == cs[..|u|] && (forall j :: 0 <= j < |u| ==> cs[j].node != last)
      && (|u| < |cs| ==> cs[|u|].node == last)
  {
    if last.Some? && cs != [] && cs[0].node != last {
      UntilStops(cs[1..], last);
    }
  }

  /** A table whose only callback, the startup of state 1, fails. */
  const Faulty := Table((v: int) => Step(false, v == 1, false, []), (c: Call) => if c.up then -5 else 0)

  lemma FaultyFails(ret: int, at: int, k: nat, injected: bool, s: int, tr: seq<Call>)
    requires Exact(Faulty, 0, 1, [], ret, at, k, injected, s, tr)
    requires ret != 0 && injected ==> INVALID == Visit(at, true)
    ensures ret == -5 && at == 0 && s == 0
  {
    assert Path(0, 1, true) == [1] + Path(1, 1, true) == [1];
    var cs := AllCalls(Faulty, [1], true);
    assert [1][1..] == [] && cs == Calls(Faulty, 1, true) + [];
    assert Call(1, None, true) in cs;
  }

  lemma FaultyReliable()
    ensures InstancesOnce(Faulty) && Reliable(Faulty, false)
  {
  }

  /**
   * The result left behind by a request whose first state failed is taken for the result of
   * the next request, if that one asks for the state the processor is in already.
   */
  method StaleResult() returns (state: int, ret: int)
    ensures ret == -5 && state == 2
  {
    hide Exact, InstancesOnce, Reliable;
    FaultyReliable();
    var ap := new Ap(Faulty, 0);
    ghost var at, k, injected;
    ret, at, k, injected := ap.KickAp(1);
    FaultyFails(ret, at, k, injected, ap.state, ap.trace);
    ret, at, k, injected := ap.KickAp(0);
    state := ap.state;
  }
}
