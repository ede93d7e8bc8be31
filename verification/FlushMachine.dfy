/** The workqueue flush protocol of kernel/workqueue.c as a step machine.

A step is one critical section: one `pool->lock` section of a queueing, finishing or
barrier-inserting task, or one stretch of a `wq->mutex` section that takes no pool lock.
`flush_workqueue_prep_pwqs` takes one pool lock per pool_workqueue, so it is one step per
pool_workqueue and pool-lock steps of other tasks interleave with it freely. */
module FlushMachine {
  import opened Base

  type PwqId = nat
  type ItemId = nat
  type FlusherId = nat

  /** struct pool_workqueue, the fields that take part in flushing. `flushColor` is None for -1. */
  datatype Pwq = Pwq(workColor: nat, flushColor: Option<nat>, inFlight: seq<nat>)

  /** An in-flight work item or barrier: the pwq and color kept in `work->data`. */
  datatype Item = Item(pwq: PwqId, color: nat)

  /** struct wq_flusher. `snapshot` is a history variable no step reads: the items the flusher has to
      outlast, which are those in flight when it called __flush_workqueue and the barriers put behind
      any of them since. */
  datatype Flusher = Flusher(color: Option<nat>, started: bool, done: bool, snapshot: set<ItemId>)

  /** Where flush_workqueue_prep_pwqs returns to. */
  datatype Caller =
    | FirstFlusher(nextColor: nat)         // became first flusher, line 3052
    | QueuedFlusher                        // queued behind others, line 3063
    | Overflow(next: Option<FlusherId>)    // cascade, colors given to overflowed flushers, line 3132
    | Promoted                             // cascade, arming for the next flusher, line 3150

  /** What the holder of wq->mutex is about to do; Free when nobody holds it. */
  datatype Pc =
    | Free
    | Prep(todo: set<PwqId>, flushing: bool, advancing: bool, wait: bool, caller: Caller)
    | CascadeTop
    | CascadePick(next: Option<FlusherId>)
    | Lost                                 // it took something for a flusher that is none

  /** struct workqueue_struct with everything reachable from it; `colors` is WORK_NR_COLORS. */
  datatype State = State(
    colors: nat,
    pwqs: map<PwqId, Pwq>,
    items: map<ItemId, Item>,
    used: set<ItemId>,
    workColor: nat,
    flushColor: nat,
    nrPwqsToFlush: int,
    first: Option<FlusherId>,
    queue: seq<FlusherId>,
    overflow: seq<FlusherId>,
    flushers: map<FlusherId, Flusher>,
    pc: Pc)

  datatype Step =
    | EnterFlush(f: FlusherId)
    | StartFlush(f: FlusherId)
    | PrepPwq(p: PwqId)
    | PrepDone
    | Wake(f: FlusherId)
    | Cascade
    | Pick
    | QueueWork(i: ItemId, p: PwqId)
    | InsertBarrier(i: ItemId, target: ItemId)
    | LeaveInFlight(i: ItemId)
    | LinkPwq(p: PwqId)
    | UnlinkPwq(p: PwqId)

  // ---------- the steps ----------

  /** work_next_color. */
  function NextColor(c: nat, n: nat): (next: nat)
    requires n > 0
    ensures c < n ==> next == if c + 1 == n then 0 else c + 1
  {
    (c + 1) % n
  }

  /** list_for_each_entry_safe over flusher_queue stops at the first flusher of another color. */
  function SameColorPrefix(queue: seq<FlusherId>, flushers: map<FlusherId, Flusher>, color: nat): (k: nat)
    ensures k <= |queue|
    ensures forall j :: 0 <= j < k ==> queue[j] in flushers && flushers[queue[j]].color == Some(color)
    ensures k < |queue| ==> queue[k] !in flushers || flushers[queue[k]].color != Some(color)
  {
    if queue != [] && queue[0] in flushers && flushers[queue[0]].color == Some(color) then
      1 + SameColorPrefix(queue[1..], flushers, color)
    else 0
  }

  function Members(fs: seq<FlusherId>): set<FlusherId> {
    set f | f in fs
  }

  /** complete(&f->done) for every flusher in fs. */
  function CompleteAll(flushers: map<FlusherId, Flusher>, fs: set<FlusherId>): map<FlusherId, Flusher> {
    map f | f in flushers :: if f in fs then flushers[f].(done := true) else flushers[f]
  }

  /** complete(&wq->first_flusher->done). */
  function CompleteFirst(flushers: map<FlusherId, Flusher>, first: Option<FlusherId>): map<FlusherId, Flusher> {
    CompleteAll(flushers, if first.Some? then {first.value} else {})
  }

  function AssignColor(flushers: map<FlusherId, Flusher>, fs: set<FlusherId>, color: nat): map<FlusherId, Flusher> {
    map f | f in flushers :: if f in fs then flushers[f].(color := Some(color)) else flushers[f]
  }

  function Remove(queue: seq<FlusherId>, f: FlusherId): seq<FlusherId> {
    if queue == [] then []
    else if queue[0] == f then queue[1..]
    else [queue[0]] + Remove(queue[1..], f)
  }

  ghost predicate Init(s: State) {
    && s.colors > 0
    && (forall p :: p in s.pwqs ==> s.pwqs[p] == NewPwq(0, s.colors))
    && s.items == map[] && s.used == {}
    && s.workColor == 0 && s.flushColor == 0 && s.nrPwqsToFlush == 0
    && s.first == None && s.queue == [] && s.overflow == [] && s.flushers == map[]
    && s.pc == Free
  }

  function NewPwq(workColor: nat, colors: nat): Pwq {
    Pwq(workColor, None, seq(colors, _ => 0))
  }

  /** Memory shape: colors index the counters. Kept by every step as part of the invariant. */
  ghost predicate Shaped(s: State) {
    && s.colors > 0 && s.flushColor < s.colors && s.workColor < s.colors
    && (forall p :: p in s.pwqs ==> |s.pwqs[p].inFlight| == s.colors)
    && (forall i :: i in s.items ==> s.items[i].pwq in s.pwqs && s.items[i].color < s.colors)
  }

  /** When a task can take the step: it holds the lock, and its wait is over. */
  ghost predicate Enabled(s: State, step: Step) {
    Shaped(s) &&
    match step
    case EnterFlush(f) => f !in s.flushers
    case StartFlush(f) => s.pc.Free? && f in s.flushers && !s.flushers[f].started
    case PrepPwq(p) => s.pc.Prep? && p in s.pc.todo && p in s.pwqs
    case PrepDone => s.pc.Prep? && s.pc.todo == {}
    case Wake(f) => s.pc.Free? && f in s.flushers && s.flushers[f].done && s.first == Some(f)
    case Cascade => s.pc.CascadeTop?
    case Pick => s.pc.CascadePick?
    case QueueWork(i, p) => i !in s.used && p in s.pwqs
    case InsertBarrier(i, target) => i !in s.used && target in s.items
    case LeaveInFlight(i) => i in s.items
    case LinkPwq(p) => s.pc.Free? && p !in s.pwqs
    case UnlinkPwq(p) => s.pc.Free? && p in s.pwqs && forall i :: i in s.items ==> s.items[i].pwq != p
  }

  /** __flush_workqueue, start-to-wait phase, lines 3029-3076. */
  ghost function ApplyStart(s: State, f: FlusherId): State
    requires Enabled(s, StartFlush(f))
  {
    var next := NextColor(s.workColor, s.colors);
    if next != s.flushColor then
      var s1 := s.(flushers := s.flushers[f := s.flushers[f].(color := Some(s.workColor), started := true)],
                   workColor := next);
      if s.first.None? then
        s1.(first := Some(f), nrPwqsToFlush := 1,
            pc := Prep(s.pwqs.Keys, true, true, false, FirstFlusher(next)))
      else
        s1.(queue := s.queue + [f],
            pc := Prep(s.pwqs.Keys, false, true, false, QueuedFlusher))
    else
      s.(flushers := s.flushers[f := s.flushers[f].(started := true)], overflow := s.overflow + [f])
  }

  /** One round of the loop of flush_workqueue_prep_pwqs, lines 2978-2999. */
  ghost function ApplyPrepPwq(s: State, p: PwqId): State
    requires Enabled(s, PrepPwq(p))
  {
    var q := s.pwqs[p];
    var arm := s.pc.flushing && q.inFlight[s.flushColor] > 0;
    var q' := q.(flushColor := if arm then Some(s.flushColor) else q.flushColor,
                 workColor := if s.pc.advancing then s.workColor else q.workColor);
    s.(pwqs := s.pwqs[p := q'],
       nrPwqsToFlush := if arm then s.nrPwqsToFlush + 1 else s.nrPwqsToFlush,
       pc := s.pc.(todo := s.pc.todo - {p}, wait := s.pc.wait || arm))
  }

  /** The end of flush_workqueue_prep_pwqs and the return to its caller. */
  ghost function ApplyPrepDone(s: State): State
    requires Enabled(s, PrepDone)
  {
    var nr := if s.pc.flushing then s.nrPwqsToFlush - 1 else s.nrPwqsToFlush;
    var fl := if s.pc.flushing && nr == 0 then CompleteFirst(s.flushers, s.first) else s.flushers;
    var s1 := s.(nrPwqsToFlush := nr, flushers := fl);
    match s.pc.caller
    case FirstFlusher(next) =>
      if s.pc.wait then s1.(pc := Free) else s1.(flushColor := next, first := None, pc := Free)
    case QueuedFlusher => s1.(pc := Free)
    case Overflow(next) => s1.(pc := CascadePick(next))
    case Promoted => if s.pc.wait then s1.(pc := Free) else s1.(first := None, pc := CascadeTop)
  }

  /** The cascade loop from its top to the handling of the overflow list, lines 3100-3133. */
  ghost function ApplyCascade(s: State): State
    requires Enabled(s, Cascade)
  {
    var k := SameColorPrefix(s.queue, s.flushers, s.flushColor);
    var fl := CompleteAll(s.flushers, Members(s.queue[..k]));
    var rest := s.queue[k..];
    var next := if rest == [] then None else Some(rest[0]);
    var s1 := s.(flushers := fl, queue := rest, flushColor := NextColor(s.flushColor, s.colors));
    if s.overflow != [] then
      s1.(flushers := AssignColor(fl, Members(s.overflow), s.workColor),
          workColor := NextColor(s.workColor, s.colors),
          queue := rest + s.overflow, overflow := [],
          pc := Prep(s.pwqs.Keys, false, true, false, Overflow(next)))
    else
      s1.(pc := CascadePick(next))
  }

  /** The rest of the cascade loop up to arming for the next flusher, lines 3135-3150. */
  ghost function ApplyPick(s: State): State
    requires Enabled(s, Pick)
  {
    if s.queue == [] then s.(pc := Free)
    else if s.pc.next.None? then s.(pc := Lost)
    else
      s.(queue := Remove(s.queue, s.pc.next.value), first := s.pc.next, nrPwqsToFlush := 1,
         pc := Prep(s.pwqs.Keys, true, false, false, Promoted))
  }

  /** __queue_work once its pwq is locked, lines 1601-1605. */
  ghost function ApplyQueue(s: State, i: ItemId, p: PwqId): State
    requires Enabled(s, QueueWork(i, p))
  {
    var q := if s.pwqs[p].workColor >= s.colors then s.pwqs[p].(workColor := 0) else s.pwqs[p];
    AddItem(s.(pwqs := s.pwqs[p := q]), i, p, q.workColor)
  }

  ghost function AddItem(s: State, i: ItemId, p: PwqId, c: nat): State
    requires p in s.pwqs && c < |s.pwqs[p].inFlight|
  {
    var q := s.pwqs[p];
    s.(pwqs := s.pwqs[p := q.(inFlight := q.inFlight[c := q.inFlight[c] + 1])],
       items := s.items[i := Item(p, c)], used := s.used + {i})
  }

  /** insert_wq_barrier, lines 2911-2929: the barrier takes the color of the item it is put behind. */
  ghost function ApplyBarrier(s: State, i: ItemId, target: ItemId): State
    requires Enabled(s, InsertBarrier(i, target))
  {
    AddItem(s, i, s.items[target].pwq, s.items[target].color).(flushers := Joined(s.flushers, target, i))
  }

  /** Who has to outlast target has to outlast i too. */
  ghost function Joined(flushers: map<FlusherId, Flusher>, target: ItemId, i: ItemId): map<FlusherId, Flusher> {
    map f | f in flushers ::
      if target in flushers[f].snapshot then flushers[f].(snapshot := flushers[f].snapshot + {i}) else flushers[f]
  }

  /** pwq_dec_nr_in_flight, the flush part, lines 1267-1285. */
  ghost function ApplyLeave(s: State, i: ItemId): State
    requires Enabled(s, LeaveInFlight(i))
  {
    var p, c := s.items[i].pwq, s.items[i].color;
    var q := s.pwqs[p];
    var left := if q.inFlight[c] == 0 then 0 else q.inFlight[c] - 1;
    var tip := q.flushColor == Some(c) && left == 0;
    var q' := Pwq(q.workColor, if tip then None else q.flushColor, q.inFlight[c := left]);
    var nr := if tip then s.nrPwqsToFlush - 1 else s.nrPwqsToFlush;
    s.(pwqs := s.pwqs[p := q'], items := s.items - {i}, nrPwqsToFlush := nr,
       flushers := if tip && nr == 0 then CompleteFirst(s.flushers, s.first) else s.flushers)
  }

  ghost function Apply(s: State, step: Step): State
    requires Enabled(s, step)
  {
    match step
    case EnterFlush(f) => s.(flushers := s.flushers[f := Flusher(None, false, false, s.items.Keys)])
    case StartFlush(f) => ApplyStart(s, f)
    case PrepPwq(p) => ApplyPrepPwq(s, p)
    case PrepDone => ApplyPrepDone(s)
    case Wake(f) => s.(first := None, pc := CascadeTop)
    case Cascade => ApplyCascade(s)
    case Pick => ApplyPick(s)
    case QueueWork(i, p) => ApplyQueue(s, i, p)
    case InsertBarrier(i, target) => ApplyBarrier(s, i, target)
    case LeaveInFlight(i) => ApplyLeave(s, i)
    case LinkPwq(p) => s.(pwqs := s.pwqs[p := NewPwq(s.workColor, s.colors)])
    case UnlinkPwq(p) => s.(pwqs := s.pwqs - {p})
  }

  ghost predicate Next(s: State, s': State) {
    exists step :: Enabled(s, step) && s' == Apply(s, step)
  }

  ghost predicate IsRun(run: seq<State>) {
    && |run| > 0 && Init(run[0])
    && forall k :: 0 <= k < |run| - 1 ==> Next(run[k], run[k + 1])
  }

  // ---------- the invariant ----------

  /** How many colors `to` lies ahead of `from` around the wheel of n colors. */
  function Ahead(from: nat, to: nat, n: nat): int {
    if to >= from then to - from else to + n - from
  }

  /** The number of colors closed but not yet flushed. */
  function Width(s: State): int {
    Ahead(s.flushColor, s.workColor, s.colors)
  }

  ghost function ItemsAt(items: map<ItemId, Item>, p: PwqId, c: nat): set<ItemId> {
    set i | i in items && items[i] == Item(p, c)
  }

  /** nr_in_flight counts exactly the items in flight. */
  ghost predicate CountersAgree(pwqs: map<PwqId, Pwq>, items: map<ItemId, Item>) {
    forall p, c :: p in pwqs && 0 <= c < |pwqs[p].inFlight| ==> pwqs[p].inFlight[c] == |ItemsAt(items, p, c)|
  }

  /** A pwq lags one color behind the workqueue exactly while a prep loop has still to visit it. */
  ghost predicate PwqColors(pwqs: map<PwqId, Pwq>, pc: Pc, workColor: nat, n: nat)
    requires n > 0
  {
    && (pc.Prep? ==> pc.todo <= pwqs.Keys)
    && forall p :: p in pwqs ==>
         && pwqs[p].workColor < n
         && if pc.Prep? && pc.advancing && p in pc.todo
            then NextColor(pwqs[p].workColor, n) == workColor
            else pwqs[p].workColor == workColor
  }

  ghost predicate ItemsInWindow(items: map<ItemId, Item>, used: set<ItemId>, flush: nat, work: nat, n: nat) {
    && items.Keys <= used
    && forall i :: i in items ==> Ahead(flush, items[i].color, n) <= Ahead(flush, work, n)
  }

  ghost predicate Window(s: State) {
    && Shaped(s)
    && CountersAgree(s.pwqs, s.items)
    && PwqColors(s.pwqs, s.pc, s.workColor, s.colors)
    && ItemsInWindow(s.items, s.used, s.flushColor, s.workColor, s.colors)
  }

  ghost predicate Waits(flushers: map<FlusherId, Flusher>, f: FlusherId) {
    f in flushers && flushers[f].started && !flushers[f].done
  }

  ghost predicate WaitsForColor(flushers: map<FlusherId, Flusher>, f: FlusherId, n: nat) {
    Waits(flushers, f) && flushers[f].color.Some? && flushers[f].color.value < n
  }

  /** How far ahead of the flush color the color lies that flusher f waits for. */
  ghost function Rank(flushers: map<FlusherId, Flusher>, f: FlusherId, flush: nat, n: nat): int
    requires WaitsForColor(flushers, f, n)
  {
    Ahead(flush, flushers[f].color.value, n)
  }

  ghost predicate Distinct(fs: seq<FlusherId>) {
    forall j, k :: 0 <= j < k < |fs| ==> fs[j] != fs[k]
  }

  /** The places j and k of the queue are in color order, and no color is skipped between neighbours. */
  ghost predicate RanksFollow(queue: seq<FlusherId>, fl: map<FlusherId, Flusher>, flush: nat, n: nat, j: nat, k: nat)
    requires j < k < |queue| && WaitsForColor(fl, queue[j], n) && WaitsForColor(fl, queue[k], n)
  {
    && Rank(fl, queue[j], flush, n) <= Rank(fl, queue[k], flush, n)
    && (k == j + 1 ==> Rank(fl, queue[k], flush, n) <= Rank(fl, queue[j], flush, n) + 1)
  }

  /** Queued flushers stand in color order without skipping a color: they start at rank `lo` or
      below and end just under the current work color. */
  ghost predicate QueueOk(queue: seq<FlusherId>, flushers: map<FlusherId, Flusher>,
                          flush: nat, work: nat, n: nat, lo: nat)
  {
    && Distinct(queue)
    && (forall k :: 0 <= k < |queue| ==> WaitsForColor(flushers, queue[k], n))
    && (forall j, k :: 0 <= j < k < |queue| ==> RanksFollow(queue, flushers, flush, n, j, k))
    && (if queue == [] then Ahead(flush, work, n) <= lo
        else && Rank(flushers, queue[0], flush, n) <= lo
             && Rank(flushers, queue[|queue| - 1], flush, n) == Ahead(flush, work, n) - 1)
  }

  ghost predicate OverflowOk(overflow: seq<FlusherId>, flushers: map<FlusherId, Flusher>,
                             flush: nat, work: nat, n: nat)
    requires n > 0
  {
    && Distinct(overflow)
    && (forall k :: 0 <= k < |overflow| ==>
          Waits(flushers, overflow[k]) && flushers[overflow[k]].color == None)
    && (overflow != [] ==> NextColor(work, n) == flush)
  }

  ghost predicate FirstOk(first: Option<FlusherId>, queue: seq<FlusherId>, overflow: seq<FlusherId>,
                          flushers: map<FlusherId, Flusher>, flush: nat)
  {
    first.Some? ==>
      && first.value in flushers && flushers[first.value].started
      && flushers[first.value].color == Some(flush)
      && first.value !in queue && first.value !in overflow
  }

  /** Nobody waits without a place from which it will be completed. */
  ghost predicate NobodyLost(first: Option<FlusherId>, queue: seq<FlusherId>, overflow: seq<FlusherId>,
                             flushers: map<FlusherId, Flusher>)
  {
    forall f :: f in flushers ==>
      if flushers[f].started
      then flushers[f].done || f in queue || f in overflow || first == Some(f)
      else flushers[f].color == None && !flushers[f].done
  }

  /** The flush color has just been advanced and its new value has no first flusher yet. */
  predicate Advanced(pc: Pc) {
    pc.CascadePick? || pc.Lost? || (pc.Prep? && pc.caller.Overflow?)
  }

  ghost predicate ColorsInRange(flushers: map<FlusherId, Flusher>, n: nat) {
    forall f :: f in flushers && flushers[f].color.Some? ==> flushers[f].color.value < n
  }

  ghost predicate FlushersOk(s: State) {
    && s.colors > 0
    && ColorsInRange(s.flushers, s.colors)
    && QueueOk(s.queue, s.flushers, s.flushColor, s.workColor, s.colors, if Advanced(s.pc) then 0 else 1)
    && OverflowOk(s.overflow, s.flushers, s.flushColor, s.workColor, s.colors)
    && FirstOk(s.first, s.queue, s.overflow, s.flushers, s.flushColor)
    && NobodyLost(s.first, s.queue, s.overflow, s.flushers)
  }

  ghost predicate ControlOk(s: State) {
    match s.pc
    case Free => s.first.None? ==> Width(s) == 0
    case CascadeTop => s.first.None? && Width(s) > 0
    case CascadePick(next) => s.first.None? && NextOk(s, next) && s.overflow == []
    case Lost => s.first.None? && s.overflow == []
    case Prep(todo, flushing, advancing, wait, caller) =>
      && (wait ==> flushing)
      && (advancing ==> Width(s) > 0)
      && match caller
         case FirstFlusher(c) => flushing && advancing && s.first.Some? && s.queue == [] && s.overflow == []
                                 && c == s.workColor && Width(s) == 1
         case QueuedFlusher => !flushing && advancing && s.first.Some? && s.overflow == [] && Width(s) > 1
         case Overflow(next) => !flushing && advancing && s.first.None? && NextOk(s, next) && s.overflow == []
         case Promoted => flushing && !advancing && s.first.Some? && s.overflow == [] && Width(s) > 0
  }

  /** `next` left behind by list_for_each_entry_safe is the head of the queue; with two colors only,
      the queue can be refilled from the overflow list after the scan ran off its end. */
  ghost predicate NextOk(s: State, next: Option<FlusherId>) {
    && (next.Some? ==> s.queue != [] && s.queue[0] == next.value)
    && (next.None? ==> s.queue == [] || s.colors == 2)
  }

  ghost function Armed(pwqs: map<PwqId, Pwq>): set<PwqId> {
    set p | p in pwqs && pwqs[p].flushColor.Some?
  }

  predicate Arming(pc: Pc) {
    pc.Prep? && pc.flushing
  }

  ghost predicate NoneArmed(pwqs: map<PwqId, Pwq>) {
    forall p :: p in pwqs ==> pwqs[p].flushColor.None?
  }

  /** nr_pwqs_to_flush counts the armed pwqs, plus one while the prep loop arms them. */
  ghost predicate ArmedCounted(pwqs: map<PwqId, Pwq>, nr: int, first: Option<FlusherId>, pc: Pc) {
    && nr == |Armed(pwqs)| + (if Arming(pc) then 1 else 0)
    && (first.None? || (Arming(pc) && !pc.wait) ==> NoneArmed(pwqs))
  }

  /** Once visited, a pwq is armed exactly while it has items of the flush color in flight. */
  ghost predicate ArmedRight(pwqs: map<PwqId, Pwq>, flush: nat, first: Option<FlusherId>, pc: Pc)
    requires forall p :: p in pwqs ==> flush < |pwqs[p].inFlight|
  {
    && (forall p :: p in pwqs ==>
          if Arming(pc) && p in pc.todo then pwqs[p].flushColor.None?
          else if first.Some? then
            pwqs[p].flushColor == if pwqs[p].inFlight[flush] > 0 then Some(flush) else None
          else pwqs[p].flushColor.None?)
    && (pc.CascadeTop? ==> forall p :: p in pwqs ==> pwqs[p].inFlight[flush] == 0)
  }

  ghost predicate DrainOk(s: State)
    requires Shaped(s)
  {
    && ArmedCounted(s.pwqs, s.nrPwqsToFlush, s.first, s.pc)
    && ArmedRight(s.pwqs, s.flushColor, s.first, s.pc)
    && (s.first.Some? ==> Width(s) > 0)
    && (s.first.Some? && s.first.value in s.flushers ==>
          (s.flushers[s.first.value].done <==> s.nrPwqsToFlush == 0))
  }

  lemma NoneArmedIffZero(pwqs: map<PwqId, Pwq>)
    ensures NoneArmed(pwqs) <==> |Armed(pwqs)| == 0
  {
    if |Armed(pwqs)| == 0 {
      forall p | p in pwqs ensures pwqs[p].flushColor.None? { assert p !in Armed(pwqs); }
    } else {
      var p :| p in Armed(pwqs);
    }
  }

  /** What a waiting flusher still has to see leave never lies beyond the color it waits for. */
  ghost predicate SnapshotsCovered(flushers: map<FlusherId, Flusher>, items: map<ItemId, Item>,
                                   used: set<ItemId>, flush: nat, n: nat)
  {
    && (forall f :: f in flushers ==> flushers[f].snapshot <= used)
    && (forall f, i :: f in flushers && i in flushers[f].snapshot && i in items ==>
          !flushers[f].done
          && (flushers[f].color.Some? ==>
                Ahead(flush, items[i].color, n) <= Ahead(flush, flushers[f].color.value, n)))
  }

  ghost predicate Inv(s: State) {
    && Window(s) && FlushersOk(s) && ControlOk(s) && DrainOk(s)
    && SnapshotsCovered(s.flushers, s.items, s.used, s.flushColor, s.colors)
  }
}
