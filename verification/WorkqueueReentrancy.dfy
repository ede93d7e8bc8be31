/**
 * Non-reentrancy of a work item, kernel/workqueue.c.
 *
 * One work item is followed through every interleaving of queueing, stealing,
 * starting and finishing.  A step is what happens under one hold of a pool lock,
 * or between two of them.
 */
module WorkqueueReentrancy {
  import opened Base

  /** A worker: its pool and its number in the pool. */
  type Worker = (nat, nat)

  /** A pool_workqueue: the workqueue it belongs to and the pool that serves it. */
  datatype Pwq = Pwq(wq: nat, pool: nat)

  /** work->data: the pwq while the item is queued, else the pool it last ran on. */
  datatype Data = OnQueue(pwq: Pwq) | OffQueue(pool: Option<nat>)

  /** The list the item is linked on. */
  datatype Place = Unlinked | Worklist | Scheduled(w: Worker)

  /** How far the owner of the PENDING bit has come with __queue_work. */
  datatype Queuer = NoQueuer | Start(wq: nat) | Chosen(pwq: Pwq, last: Option<nat>) | Unlocked(pwq: Pwq) | Stolen

  /** What a busy worker records about the item it executes. */
  datatype Run = Run(pwq: Pwq, func: nat)

  datatype State = State(pending: bool, data: Data, place: Place, queuer: Queuer, func: nat, busy: map<Worker, Run>)

  datatype Step =
    | Queue(wq: nat)                          // queue_work wins the PENDING bit
    | Pick(pwq: Pwq)                          // __queue_work chooses a pwq and reads the last pool
    | Settle(found: Option<Worker>)           // under the lock of the last pool, or of the chosen one
    | Insert                                  // after the change from one pool lock to the other
    | Retry                                   // the chosen pwq is dead
    | Take(w: Worker, onto: Option<Worker>)   // process_one_work up to the release of the lock
    | Finish(w: Worker)                       // process_one_work after the lock is taken again
    | Steal                                   // try_to_grab_pending
    | Requeue(wq: nat)                        // the thief queues the item again
    | Release                                 // the thief clears PENDING
    | SetFunc(func: nat)                      // the user gives the item another function

  /** get_work_pool */
  function LastPool(d: Data): Option<nat>
  {
    match d
    case OnQueue(pwq) => Some(pwq.pool)
    case OffQueue(pool) => pool
  }

  /** find_worker_executing_work may return w. */
  predicate Executes(s: State, w: Worker, pool: nat)
  {
    w in s.busy && w.0 == pool && s.busy[w].func == s.func
  }

  /** The answers find_worker_executing_work can give. */
  ghost predicate Finds(s: State, pool: nat, found: Option<Worker>)
  {
    match found
    case Some(w) => Executes(s, w, pool)
    case None => forall w :: !Executes(s, w, pool)
  }

  /** Another pool than the chosen one must be asked first. */
  predicate AskFirst(pwq: Pwq, last: Option<nat>)
  {
    last.Some? && last.value != pwq.pool
  }

  ghost predicate Enabled(s: State, step: Step)
  {
    match step
    case Queue(_) => !s.pending
    case Pick(pwq) => s.queuer.Start? && pwq.wq == s.queuer.wq
    case Settle(found) => s.queuer.Chosen? &&
      (if AskFirst(s.queuer.pwq, s.queuer.last) then Finds(s, s.queuer.last.value, found) else found.None?)
    case Insert => s.queuer.Unlocked?
    case Retry => s.queuer.Chosen? || s.queuer.Unlocked?
    case Take(w, onto) =>
      && s.data.OnQueue? && w.0 == s.data.pwq.pool && w !in s.busy
      && (s.place.Worklist? || s.place == Scheduled(w))
      && Finds(s, w.0, onto)
    case Finish(w) => w in s.busy
    case Steal => s.data.OnQueue? && !s.place.Unlinked?
    case Requeue(_) => s.queuer.Stolen?
    case Release => s.queuer.Stolen?
    case SetFunc(_) => true
  }

  function Queued(s: State, pwq: Pwq): State
  {
    s.(data := OnQueue(pwq), place := Worklist, queuer := NoQueuer)
  }

  function Apply(s: State, step: Step): State
    requires Enabled(s, step)
  {
    match step
    case Queue(wq) => s.(pending := true, queuer := Start(wq))
    case Pick(pwq) => s.(queuer := Chosen(pwq, LastPool(s.data)))
    case Settle(found) =>
      var q := s.queuer;
      if !AskFirst(q.pwq, q.last) then Queued(s, q.pwq)
      else if found.Some? && s.busy[found.value].pwq.wq == q.pwq.wq then Queued(s, s.busy[found.value].pwq)
      else s.(queuer := Unlocked(q.pwq))
    case Insert => Queued(s, s.queuer.pwq)
    case Retry => s.(queuer := Start(s.queuer.pwq.wq))
    case Take(w, onto) =>
      if onto.Some? then s.(place := Scheduled(onto.value))
      else State(false, OffQueue(Some(w.0)), Unlinked, NoQueuer, s.func, s.busy[w := Run(s.data.pwq, s.func)])
    case Finish(w) => s.(busy := s.busy - {w})
    case Steal => s.(data := OffQueue(Some(s.data.pwq.pool)), place := Unlinked, queuer := Stolen)
    case Requeue(wq) => s.(queuer := Start(wq))
    case Release => s.(pending := false, queuer := NoQueuer)
    case SetFunc(f) => s.(func := f)
  }

  /** What the users of the item do: the workqueues they queue it on, whether they change its function, and the pwqs
      there are. */
  datatype Use = Use(wqs: set<nat>, newFuncs: bool, pwqs: set<Pwq>)

  predicate Allowed(u: Use, step: Step)
  {
    match step
    case Queue(wq) => wq in u.wqs
    case Requeue(wq) => wq in u.wqs
    case Pick(pwq) => pwq in u.pwqs
    case SetFunc(_) => u.newFuncs
    case _ => true
  }

  const Fresh := State(false, OffQueue(None), Unlinked, NoQueuer, 0, map[])

  /** The state after the steps, if each of them is possible and allowed. */
  ghost function After(u: Use, steps: seq<Step>): Option<State>
  {
    if steps == [] then Some(Fresh)
    else
      var last := steps[|steps| - 1];
      match After(u, steps[..|steps| - 1])
      case None => None
      case Some(s) => if Allowed(u, last) && Enabled(s, last) then Some(Apply(s, last)) else None
  }

  ghost predicate AtMostOne(s: State)
  {
    forall v, w :: v in s.busy && w in s.busy ==> v == w
  }

  /** In no run do two workers execute the item at once. */
  ghost predicate NeverReentered(u: Use)
  {
    forall steps :: After(u, steps).Some? ==> AtMostOne(After(u, steps).value)
  }

  /** The pwqs through which the item can be queued. */
  predicate Usable(u: Use, pwq: Pwq)
  {
    pwq in u.pwqs && pwq.wq in u.wqs
  }

  /**
   * The condition a user can check: the function stays, and wherever the item can be
   * queued on two workqueues they are served by the same pool.
   */
  ghost predicate Disciplined(u: Use)
  {
    && (u.newFuncs ==> forall a :: !Usable(u, a))
    && forall a, b :: Usable(u, a) && Usable(u, b) ==> a.wq == b.wq || a.pool == b.pool
  }

  // ----- what every step keeps -----

  ghost predicate Inv(u: Use, s: State)
  {
    && AtMostOne(s)
    && (forall w :: w in s.busy ==>
          w.0 == s.busy[w].pwq.pool && Usable(u, s.busy[w].pwq) && s.busy[w].func == s.func
            && LastPool(s.data) == Some(w.0))
    && (s.data.OnQueue? <==> !s.place.Unlinked?)
    && (s.data.OnQueue? ==> s.queuer.NoQueuer? && Usable(u, s.data.pwq))
    && (s.place.Scheduled? ==> s.data.OnQueue? && s.place.w.0 == s.data.pwq.pool)
    && (s.pending <==> s.data.OnQueue? || !s.queuer.NoQueuer?)
    && match s.queuer
       case NoQueuer => true
       case Stolen => true
       case Start(wq) => wq in u.wqs
       case Chosen(pwq, last) => Usable(u, pwq) && last == LastPool(s.data)
       case Unlocked(pwq) => Usable(u, pwq) && s.busy == map[]
  }

  /** The pool that last had the item knows of every execution of it. */
  lemma NobodyBusy(u: Use, s: State, pool: nat)
    requires Inv(u, s) && LastPool(s.data) == Some(pool) && Finds(s, pool, None)
    ensures s.busy == map[]
  {
    if w :| w in s.busy {
      BusyExecutes(u, s, w, pool);
    }
  }

  lemma BusyExecutes(u: Use, s: State, w: Worker, pool: nat)
    requires Inv(u, s) && LastPool(s.data) == Some(pool) && w in s.busy
    ensures Executes(s, w, pool)
  {
  }

  lemma StepKeepsInv(u: Use, s: State, step: Step)
    requires Disciplined(u) && Inv(u, s) && Allowed(u, step) && Enabled(s, step)
    ensures Inv(u, Apply(s, step))
  {
    match step
    case Settle(found) =>
      if AskFirst(s.queuer.pwq, s.queuer.last) && found.None? {
        NobodyBusy(u, s, s.queuer.last.value);
      }
    case Take(w, onto) =>
      if onto.None? {
        NobodyBusy(u, s, w.0);
      }
    case SetFunc(_) =>
      assert s.busy == map[];
    case _ =>
  }

  /** While a worker executes the item, whoever takes it up leaves it, still pending, to that worker. */
  lemma CollisionDefers(u: Use, s: State, w: Worker, onto: Option<Worker>, v: Worker)
    requires Inv(u, s) && Enabled(s, Take(w, onto)) && v in s.busy
    ensures
      var t := Apply(s, Take(w, onto));
      t.busy == s.busy && t.place == Scheduled(v) && t.pending && t.data == s.data && v.0 == s.data.pwq.pool
  {
    BusyExecutes(u, s, v, w.0);
  }

  /**
   * A queued item is never lost: it can be stolen, and once nobody executes it a worker can start it,
   * the one it was left to if it was left to one, and then no other.
   */
  lemma QueuedMoves(u: Use, s: State)
    requires Inv(u, s) && s.data.OnQueue?
    ensures Enabled(s, Steal)
    ensures s.busy == map[] ==> exists w :: Enabled(s, Take(w, None)) && Apply(s, Take(w, None)).busy.Keys == {w}
    ensures s.place.Scheduled? ==> forall w, onto :: Enabled(s, Take(w, onto)) ==> w == s.place.w
  {
    if s.busy == map[] {
      var w: Worker := if s.place.Scheduled? then s.place.w else (s.data.pwq.pool, 0);
      assert Enabled(s, Take(w, None));
      assert Apply(s, Take(w, None)).busy.Keys == {w};
    }
  }

  lemma {:induction false} RunInv(u: Use, steps: seq<Step>)
    requires Disciplined(u) && After(u, steps).Some?
    ensures Inv(u, After(u, steps).value)
  {
    if steps != [] {
      RunInv(u, steps[..|steps| - 1]);
      StepKeepsInv(u, After(u, steps[..|steps| - 1]).value, steps[|steps| - 1]);
    }
  }

  // ----- the runs that break it -----

  lemma Do(u: Use, steps: seq<Step>, s: State, step: Step)
    requires After(u, steps) == Some(s) && Allowed(u, step) && Enabled(s, step)
    ensures After(u, steps + [step]) == Some(Apply(s, step))
  {
    assert (steps + [step])[..|steps|] == steps;
  }

  /** A fresh item queued through a is being executed by the first worker of its pool. */
  lemma Started(u: Use, a: Pwq) returns (steps: seq<Step>)
    requires Usable(u, a)
    ensures After(u, steps) ==
      Some(State(false, OffQueue(Some(a.pool)), Unlinked, NoQueuer, 0, map[(a.pool, 0) := Run(a, 0)]))
  {
    var s1 := Apply(Fresh, Queue(a.wq));
    Do(u, [], Fresh, Queue(a.wq));
    var s2 := Apply(s1, Pick(a));
    Do(u, [] + [Queue(a.wq)], s1, Pick(a));
    var s3 := Apply(s2, Settle(None));
    Do(u, [] + [Queue(a.wq)] + [Pick(a)], s2, Settle(None));
    steps := [] + [Queue(a.wq)] + [Pick(a)] + [Settle(None)];
    Do(u, steps, s3, Take((a.pool, 0), None));
    steps := steps + [Take((a.pool, 0), None)];
    assert Apply(s3, Take((a.pool, 0), None)).busy == map[(a.pool, 0) := Run(a, 0)];
  }

  /** Two workqueues on two pools: the second queueing does not see the execution on the first. */
  lemma OtherWorkqueue(u: Use, a: Pwq, b: Pwq) returns (steps: seq<Step>)
    requires Usable(u, a) && Usable(u, b) && a.wq != b.wq && a.pool != b.pool
    ensures After(u, steps).Some? && !AtMostOne(After(u, steps).value)
  {
    var w: Worker, v: Worker := (a.pool, 0), (b.pool, 0);
    steps := Started(u, a);
    var s0 := After(u, steps).value;
    var s1 := Apply(s0, Queue(b.wq));
    Do(u, steps, s0, Queue(b.wq));
    var s2 := Apply(s1, Pick(b));
    Do(u, steps + [Queue(b.wq)], s1, Pick(b));
    assert Executes(s2, w, a.pool);
    var s3 := Apply(s2, Settle(Some(w)));
    Do(u, steps + [Queue(b.wq)] + [Pick(b)], s2, Settle(Some(w)));
    steps := steps + [Queue(b.wq)] + [Pick(b)] + [Settle(Some(w))];
    var s4 := Apply(s3, Insert);
    Do(u, steps, s3, Insert);
    steps := steps + [Insert];
    Do(u, steps, s4, Take(v, None));
    steps := steps + [Take(v, None)];
    var s5 := Apply(s4, Take(v, None));
    assert w in s5.busy && v in s5.busy;
  }

  /** A new function: the worker that still runs the old one no longer counts as executing the item. */
  lemma OtherFunction(u: Use, a: Pwq) returns (steps: seq<Step>)
    requires Usable(u, a) && u.newFuncs
    ensures After(u, steps).Some? && !AtMostOne(After(u, steps).value)
  {
    var w: Worker, v: Worker := (a.pool, 0), (a.pool, 1);
    steps := Started(u, a);
    var s0 := After(u, steps).value;
    var s1 := Apply(s0, SetFunc(1));
    Do(u, steps, s0, SetFunc(1));
    steps := steps + [SetFunc(1)];
    var s2 := Apply(s1, Queue(a.wq));
    Do(u, steps, s1, Queue(a.wq));
    steps := steps + [Queue(a.wq)];
    var s3 := Apply(s2, Pick(a));
    Do(u, steps, s2, Pick(a));
    steps := steps + [Pick(a)];
    var s4 := Apply(s3, Settle(None));
    Do(u, steps, s3, Settle(None));
    steps := steps + [Settle(None)];
    Do(u, steps, s4, Take(v, None));
    steps := steps + [Take(v, None)];
    var s5 := Apply(s4, Take(v, None));
    assert w in s5.busy && v in s5.busy;
  }

  /** No run executes the item twice at once, exactly when its use is disciplined. */
  lemma NonReentrancy(u: Use)
    ensures NeverReentered(u) <==> Disciplined(u)
  {
    if Disciplined(u) {
      forall steps | After(u, steps).Some?
        ensures AtMostOne(After(u, steps).value)
      {
        RunInv(u, steps);
      }
    } else if a, b :| Usable(u, a) && Usable(u, b) && a.wq != b.wq && a.pool != b.pool {
      var _ := OtherWorkqueue(u, a, b);
    } else {
      var a :| Usable(u, a) && u.newFuncs;
      var _ := OtherFunction(u, a);
    }
  }
}
