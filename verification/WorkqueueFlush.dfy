/** What the flush protocol promises in every run. */
module WorkqueueFlush {
  import opened Base
  import opened FlushMachine
  import opened FlushSteps

  lemma {:induction false} RunInv(run: seq<State>, k: nat)
    requires IsRun(run) && k < |run|
    ensures Inv(run[k])
  {
    hide Inv, Enabled, Apply, Init;
    if k == 0 {
      InitInv(run[0]);
    } else {
      RunInv(run, k - 1);
      assert Next(run[k - 1], run[k - 1 + 1]);
      var step :| Enabled(run[k - 1], step) && run[k] == Apply(run[k - 1], step);
      StepKeepsInv(run[k - 1], step);
    }
  }

  /** A run goes on with any step that is possible. */
  lemma RunExtends(run: seq<State>, step: Step)
    requires IsRun(run) && Enabled(run[|run| - 1], step)
    ensures IsRun(run + [Apply(run[|run| - 1], step)])
  {
    hide Enabled, Apply, Init;
    var run' := run + [Apply(run[|run| - 1], step)];
    forall k | 0 <= k < |run'| - 1
      ensures Next(run'[k], run'[k + 1])
    {
      assert k < |run| - 1 ==> Next(run[k], run[k + 1]);
    }
  }

  /** An item that has left never comes back, and a flusher's snapshot holds what it found in flight. */
  lemma {:induction false} ItemGoneOrAwaited(run: seq<State>, j: nat, k: nat, i: ItemId, f: FlusherId)
    requires IsRun(run) && j <= k < |run|
    requires i in run[j].items && f !in run[j].flushers
    ensures i in run[k].used
    ensures f in run[k].flushers && i in run[k].items ==> i in run[k].flushers[f].snapshot
  {
    hide Inv, Enabled, Apply, Init;
    RunInv(run, k);
    InvItemsUsed(run[k]);
    if k > j {
      ItemGoneOrAwaited(run, j, k - 1, i, f);
      var s := run[k - 1];
      assert Next(s, run[k - 1 + 1]);
      var step :| Enabled(s, step) && run[k] == Apply(s, step);
      StepKeepsItem(s, step, i, f);
    }
  }

  lemma InvItemsUsed(s: State)
    requires Inv(s)
    ensures s.items.Keys <= s.used
  {
  }

  lemma StepKeepsItem(s: State, step: Step, i: ItemId, f: FlusherId)
    requires Enabled(s, step) && i in s.used
    requires f in s.flushers && i in s.items ==> i in s.flushers[f].snapshot
    ensures i in Apply(s, step).used
    ensures var s' := Apply(s, step);
            f in s'.flushers && i in s'.items ==> i in s'.flushers[f].snapshot
  {
    hide Shaped, SameColorPrefix, NextColor, Remove, Members, CompleteAll, AssignColor, ApplyPrepPwq;
    match step
    case PrepPwq(p) => PrepPwqKeepsItems(s, p);
    case PrepDone => SameSnapshots(s.flushers, if s.first.Some? then {s.first.value} else {}, 0, f);
    case Cascade =>
      var fs := Members(s.queue[..SameColorPrefix(s.queue, s.flushers, s.flushColor)]);
      SameSnapshots(s.flushers, fs, 0, f);
      SameSnapshots(CompleteAll(s.flushers, fs), Members(s.overflow), s.workColor, f);
    case LeaveInFlight(_) => SameSnapshots(s.flushers, if s.first.Some? then {s.first.value} else {}, 0, f);
    case _ =>
  }

  lemma PrepPwqKeepsItems(s: State, p: PwqId)
    requires Enabled(s, PrepPwq(p))
    ensures var s' := ApplyPrepPwq(s, p); s'.items == s.items && s'.used == s.used && s'.flushers == s.flushers
  {
  }

  lemma SameSnapshots(fl: map<FlusherId, Flusher>, fs: set<FlusherId>, color: nat, f: FlusherId)
    ensures f in CompleteAll(fl, fs) <==> f in fl
    ensures f in AssignColor(fl, fs, color) <==> f in fl
    ensures f in fl ==>
      CompleteAll(fl, fs)[f].snapshot == fl[f].snapshot == AssignColor(fl, fs, color)[f].snapshot
  {
  }

  /** Flush safety: when a flusher's `done` is completed, every item that was in flight on any pwq
      before that flusher entered __flush_workqueue has left. It holds for first, queued and
      overflowed flushers alike, in every interleaving and for any number of colors; with two colors a
      run ends for the holder of wq->mutex where it takes something for a flusher that is none. */
  lemma FlushSafety(run: seq<State>, j: nat, k: nat, i: ItemId, f: FlusherId)
    requires IsRun(run) && j <= k < |run|
    requires i in run[j].items && f !in run[j].flushers
    requires f in run[k].flushers && run[k].flushers[f].done
    ensures i !in run[k].items
  {
    ItemGoneOrAwaited(run, j, k, i, f);
    RunInv(run, k);
  }

  /** What a flusher has to outlast it has to outlast for good. */
  lemma {:induction false} StaysAwaited(run: seq<State>, j: nat, k: nat, i: ItemId, f: FlusherId)
    requires IsRun(run) && j <= k < |run|
    requires f in run[j].flushers && i in run[j].flushers[f].snapshot
    ensures f in run[k].flushers && i in run[k].flushers[f].snapshot
    decreases k
  {
    hide Inv, Enabled, Apply, Init;
    if k > j {
      StaysAwaited(run, j, k - 1, i, f);
      var s := run[k - 1];
      assert Next(s, run[k - 1 + 1]);
      var step :| Enabled(s, step) && run[k] == Apply(s, step);
      StepKeepsAwaited(s, step, i, f);
    }
  }

  lemma StepKeepsAwaited(s: State, step: Step, i: ItemId, f: FlusherId)
    requires Enabled(s, step) && f in s.flushers && i in s.flushers[f].snapshot
    ensures var s' := Apply(s, step); f in s'.flushers && i in s'.flushers[f].snapshot
  {
    hide Shaped, SameColorPrefix, NextColor, Remove, Members, CompleteAll, AssignColor, ApplyPrepPwq;
    match step
    case PrepPwq(p) => PrepPwqKeepsItems(s, p);
    case PrepDone => SameSnapshots(s.flushers, if s.first.Some? then {s.first.value} else {}, 0, f);
    case Cascade =>
      var fs := Members(s.queue[..SameColorPrefix(s.queue, s.flushers, s.flushColor)]);
      SameSnapshots(s.flushers, fs, 0, f);
      SameSnapshots(CompleteAll(s.flushers, fs), Members(s.overflow), s.workColor, f);
    case LeaveInFlight(_) => SameSnapshots(s.flushers, if s.first.Some? then {s.first.value} else {}, 0, f);
    case _ =>
  }

  /** A barrier put behind something a flusher has to outlast has left, too, when the flusher's `done` is completed. */
  lemma BarrierSafety(run: seq<State>, m: nat, k: nat, b: ItemId, t: ItemId, f: FlusherId)
    requires IsRun(run) && m < k < |run|
    requires Enabled(run[m], InsertBarrier(b, t)) && run[m + 1] == Apply(run[m], InsertBarrier(b, t))
    requires f in run[m].flushers && t in run[m].flushers[f].snapshot
    requires f in run[k].flushers && run[k].flushers[f].done
    ensures b !in run[k].items
  {
    StaysAwaited(run, m + 1, k, b, f);
    RunInv(run, k);
    hide IsRun;
  }

  /** In particular one behind an item that was in flight before the flusher entered. */
  lemma BarrierBehindOlder(run: seq<State>, j: nat, m: nat, k: nat, b: ItemId, t: ItemId, f: FlusherId)
    requires IsRun(run) && j <= m < k < |run|
    requires t in run[j].items && f !in run[j].flushers
    requires Enabled(run[m], InsertBarrier(b, t)) && run[m + 1] == Apply(run[m], InsertBarrier(b, t))
    requires f in run[m].flushers && f in run[k].flushers && run[k].flushers[f].done
    ensures b !in run[k].items
  {
    ItemGoneOrAwaited(run, j, m, t, f);
    BarrierSafety(run, m, k, b, t, f);
    hide IsRun, Apply;
  }

  /** A new item takes the work color, or the color just closed on a pwq that the prep loop has still to visit. */
  lemma QueuedColor(run: seq<State>, k: nat, i: ItemId, p: PwqId)
    requires IsRun(run) && k < |run| && Enabled(run[k], QueueWork(i, p))
    ensures var s, t := run[k], Apply(run[k], QueueWork(i, p));
      && t.items.Keys == s.items.Keys + {i} && t.items[i].pwq == p
      && (forall j :: j in s.items ==> t.items[j] == s.items[j])
      && if s.pc.Prep? && s.pc.advancing && p in s.pc.todo
         then NextColor(t.items[i].color, s.colors) == s.workColor
         else t.items[i].color == s.workColor
  {
    hide IsRun, NextColor, FlushersOk, ControlOk, DrainOk, SnapshotsCovered, CountersAgree;
    RunInv(run, k);
  }

  /** A consistency warning of the C code, or a dereference of a NULL or bogus pointer. */
  ghost predicate Warns(s: State, step: Step)
    requires Enabled(s, step)
  {
    match step
    case StartFlush(f) =>
      NextColor(s.workColor, s.colors) != s.flushColor &&
      (|| s.overflow != []                                                    // line 3042
       || (s.first.None? && s.flushColor != s.workColor)                      // line 3048
       || (s.first.None? && s.nrPwqsToFlush != 0)                             // line 2974
       || (s.first.Some? && s.flushColor == s.workColor))                     // line 3061
    case PrepPwq(p) =>
      || (s.pc.flushing && s.pwqs[p].flushColor != None)                      // line 2984
      || (s.pc.advancing && s.workColor != NextColor(s.pwqs[p].workColor, s.colors)) // line 2994
    case PrepDone => s.pc.flushing && (s.nrPwqsToFlush <= 0 || s.first.None?) // line 3002
    case Wake(f) =>
      || f in s.queue || f in s.overflow                                      // line 3097
      || s.flushers[f].color != Some(s.flushColor)                            // line 3098
    case Cascade => s.overflow != [] && s.flushColor != NextColor(s.workColor, s.colors) // line 3111
    case Pick =>
      if s.queue == [] then s.flushColor != s.workColor                       // line 3136
      else if s.pc.next.None? then true                                       // line 3145, not a flusher
      else || s.flushColor == s.workColor                                     // line 3144
           || s.pc.next.value !in s.flushers
           || s.flushers[s.pc.next.value].color != Some(s.flushColor)         // line 3145
           || s.nrPwqsToFlush != 0                                            // line 2974
    case QueueWork(i, p) => s.pwqs[p].workColor >= s.colors                   // line 1601
    case LeaveInFlight(i) =>
      var q, c := s.pwqs[s.items[i].pwq], s.items[i].color;
      || q.inFlight[c] == 0                                                   // counter underflow
      || (q.flushColor == Some(c) && (s.first.None? || s.nrPwqsToFlush <= 0)) // line 1285
    case _ => false
  }

  lemma InvMeansNoWarning(s: State, step: Step)
    requires Inv(s) && Enabled(s, step)
    ensures Warns(s, step) <==> step.Pick? && PromotesBogus(s)
  {
    match step
    case StartFlush(f) => StartDoesNotWarn(s, f);
    case Pick => PickWarns(s);
    case LeaveInFlight(i) => LeaveDoesNotWarn(s, i);
    case _ => hide QueueOk, CountersAgree, SnapshotsCovered, NobodyLost, NextColor;
  }

  lemma StartDoesNotWarn(s: State, f: FlusherId)
    requires Inv(s) && Enabled(s, StartFlush(f))
    ensures !Warns(s, StartFlush(f))
  {
    hide QueueOk, CountersAgree, SnapshotsCovered, NobodyLost, NextColor;
    NoneArmedIffZero(s.pwqs);
  }

  lemma PickWarns(s: State)
    requires Inv(s) && Enabled(s, Pick)
    ensures Warns(s, Pick) <==> PromotesBogus(s)
  {
    hide QueueOk, CountersAgree, SnapshotsCovered, NobodyLost, NextColor;
    NoneArmedIffZero(s.pwqs);
    if s.queue != [] {
      QueuePop(s.queue, s.flushers, s.flushColor, s.workColor, s.colors);
      QueueHasColors(s.queue, s.flushers, s.flushColor, s.workColor, s.colors, 0);
    } else {
      QueueCovers(s.flushers, s.flushColor, s.workColor, s.colors);
    }
  }

  /** Without a queue there is no closed color once the flush color has been advanced. */
  lemma QueueCovers(fl: map<FlusherId, Flusher>, flush: nat, work: nat, n: nat)
    requires QueueOk([], fl, flush, work, n, 0) && flush < n && work < n
    ensures flush == work
  {
  }

  lemma LeaveDoesNotWarn(s: State, i: ItemId)
    requires Inv(s) && Enabled(s, LeaveInFlight(i))
    ensures !Warns(s, LeaveInFlight(i))
  {
    hide QueueOk, SnapshotsCovered, NobodyLost, NextColor, Armed;
    var p, c := s.items[i].pwq, s.items[i].color;
    assert i in ItemsAt(s.items, p, c);
    hide CountersAgree;
    if s.pwqs[p].flushColor.Some? {
      ArmedIsMember(s.pwqs, p);
    }
  }

  lemma ArmedIsMember(pwqs: map<PwqId, Pwq>, p: PwqId)
    requires p in pwqs && pwqs[p].flushColor.Some?
    ensures |Armed(pwqs)| > 0
  {
    assert p in Armed(pwqs);
  }

  /** The one thing that can go wrong is the promotion of something that is no flusher, with two colors. */
  lemma NoWarning(run: seq<State>, k: nat, step: Step)
    requires IsRun(run) && k < |run| && Enabled(run[k], step)
    ensures Warns(run[k], step) <==> step.Pick? && PromotesBogus(run[k])
    ensures run[k].colors != 2 ==> !Warns(run[k], step)
  {
    RunInv(run, k);
    InvMeansNoWarning(run[k], step);
  }

  /** Queued flushers wait for colors, in the order in which those come up for flushing. */
  ghost predicate InColorOrder(s: State) {
    && (forall j :: 0 <= j < |s.queue| ==> s.queue[j] in s.flushers && s.flushers[s.queue[j]].color.Some?)
    && forall i, j :: 0 <= i < j < |s.queue| ==>
         Ahead(s.flushColor, s.flushers[s.queue[i]].color.value, s.colors)
           <= Ahead(s.flushColor, s.flushers[s.queue[j]].color.value, s.colors)
  }

  /** The color window: every color strictly between the flush and the work color has a queued flusher
      waiting for it, and flushers are queued in cyclic color order. */
  lemma EveryClosedColorHasFlusher(run: seq<State>, k: nat, c: nat)
    requires IsRun(run) && k < |run|
    requires var s := run[k]; c < s.colors && 0 < Ahead(s.flushColor, c, s.colors) < Width(s)
    ensures var s := run[k];
            exists j :: 0 <= j < |s.queue| && s.queue[j] in s.flushers && s.flushers[s.queue[j]].color == Some(c)
    ensures InColorOrder(run[k])
  {
    RunInv(run, k);
    var s := run[k];
    QueueInColorOrder(s, if Advanced(s.pc) then 0 else 1);
    var j := RankReached(s.queue, s.flushers, s.flushColor, s.workColor, s.colors,
                         if Advanced(s.pc) then 0 else 1, Ahead(s.flushColor, c, s.colors));
    assert WaitsForColor(s.flushers, s.queue[j], s.colors);
  }

  lemma QueueInColorOrder(s: State, lo: nat)
    requires QueueOk(s.queue, s.flushers, s.flushColor, s.workColor, s.colors, lo)
    ensures InColorOrder(s)
  {
    assert forall j :: 0 <= j < |s.queue| ==> WaitsForColor(s.flushers, s.queue[j], s.colors);
    forall i, j | 0 <= i < j < |s.queue|
      ensures Ahead(s.flushColor, s.flushers[s.queue[i]].color.value, s.colors)
           <= Ahead(s.flushColor, s.flushers[s.queue[j]].color.value, s.colors)
    {
      assert RanksFollow(s.queue, s.flushers, s.flushColor, s.colors, i, j);
    }
  }

  lemma {:induction false} RankReached(queue: seq<FlusherId>, fl: map<FlusherId, Flusher>,
                                       flush: nat, work: nat, n: nat, lo: nat, d: int) returns (j: nat)
    requires QueueOk(queue, fl, flush, work, n, lo) && lo <= d < Ahead(flush, work, n)
    ensures j < |queue| && Rank(fl, queue[j], flush, n) == d
  {
    j := 0;
    while Rank(fl, queue[j], flush, n) < d
      invariant 0 <= j < |queue| && Rank(fl, queue[j], flush, n) <= d
      decreases |queue| - j
    {
      assert j + 1 < |queue| ==> RanksFollow(queue, fl, flush, n, j, j + 1);
      j := j + 1;
    }
  }

  /** Flushers overflow only when the color space is full. */
  lemma OverflowOnlyWhenFull(run: seq<State>, k: nat)
    requires IsRun(run) && k < |run| && run[k].overflow != []
    ensures Width(run[k]) == run[k].colors - 1
  {
    RunInv(run, k);
  }

  /** The cascade is about to promote `next` although the scan of the queue left no real flusher in it. */
  ghost predicate PromotesBogus(s: State) {
    s.pc.CascadePick? && s.queue != [] && s.pc.next.None?
  }

  lemma PromotesRealFlusher(run: seq<State>, k: nat)
    requires IsRun(run) && k < |run| && run[k].colors != 2
    ensures !PromotesBogus(run[k])
  {
    RunInv(run, k);
  }

  // With two colors: one item, a first flusher 10 and, the color space being full, an overflowed
  // flusher 11. The first flusher's cascade finds the queue empty, then refills it.

  function Waiting(color: Option<nat>, started: bool, done: bool): Flusher {
    Flusher(color, started, done, {0})
  }

  /** The states of the example in which both flushers have entered. */
  function Example(pwq: Pwq, items: map<ItemId, Item>, work: nat, flush: nat, nr: int, first: Option<FlusherId>,
                   queue: seq<FlusherId>, overflow: seq<FlusherId>, f: Flusher, g: Flusher, pc: Pc): State {
    State(2, map[0 := pwq], items, {0}, work, flush, nr, first, queue, overflow, map[10 := f, 11 := g], pc)
  }

  function ExampleState(k: nat): State {
    var one, none := map[0 := Item(0, 0)], map[];
    var w := Waiting(None, false, false);
    var f, f' := Waiting(Some(0), true, false), Waiting(Some(0), true, true);
    var g, g' := Waiting(None, true, false), Waiting(Some(1), true, false);
    var s0 := State(2, map[0 := Pwq(0, None, [0, 0])], map[], {}, 0, 0, 0, None, [], [], map[], Free);
    var s1 := s0.(pwqs := map[0 := Pwq(0, None, [1, 0])], items := one, used := {0});
    match k
    case 0 => s0
    case 1 => s1
    case 2 => s1.(flushers := map[10 := w])
    case 3 => Example(Pwq(0, None, [1, 0]), one, 0, 0, 0, None, [], [], w, w, Free)
    case 4 => Example(Pwq(0, None, [1, 0]), one, 1, 0, 1, Some(10), [], [], f, w,
      Prep({0}, true, true, false, FirstFlusher(1)))
    case 5 => Example(Pwq(1, Some(0), [1, 0]), one, 1, 0, 2, Some(10), [], [], f, w,
      Prep({}, true, true, true, FirstFlusher(1)))
    case 6 => Example(Pwq(1, Some(0), [1, 0]), one, 1, 0, 1, Some(10), [], [], f, w, Free)
    case 7 => Example(Pwq(1, Some(0), [1, 0]), one, 1, 0, 1, Some(10), [], [11], f, g, Free)
    case 8 => Example(Pwq(1, None, [0, 0]), none, 1, 0, 0, Some(10), [], [11], f', g, Free)
    case 9 => Example(Pwq(1, None, [0, 0]), none, 1, 0, 0, None, [], [11], f', g, CascadeTop)
    case 10 => Example(Pwq(1, None, [0, 0]), none, 0, 1, 0, None, [11], [], f', g',
      Prep({0}, false, true, false, Overflow(None)))
    case 11 => Example(Pwq(0, None, [0, 0]), none, 0, 1, 0, None, [11], [], f', g',
      Prep({}, false, true, false, Overflow(None)))
    case _ => Example(Pwq(0, None, [0, 0]), none, 0, 1, 0, None, [11], [], f', g', CascadePick(None))
  }

  function ExampleStep(k: nat): Step {
    match k
    case 0 => QueueWork(0, 0)
    case 1 => EnterFlush(10)
    case 2 => EnterFlush(11)
    case 3 => StartFlush(10)
    case 4 => PrepPwq(0)
    case 5 => PrepDone
    case 6 => StartFlush(11)
    case 7 => LeaveInFlight(0)
    case 8 => Wake(10)
    case 9 => Cascade
    case 10 => PrepPwq(0)
    case _ => PrepDone
  }

  ghost predicate ExampleStepOk(k: nat) {
    var s := ExampleState(k);
    Enabled(s, ExampleStep(k)) && Apply(s, ExampleStep(k)) == ExampleState(k + 1)
  }

  lemma ExampleFacts(k: nat)
    ensures var s := ExampleState(k);
            s.pwqs.Keys == {0} && (0 < k < 8 ==> s.items.Keys == {0})
            && (k >= 3 ==> s.flushers.Keys == {10, 11})
    ensures var z: set<nat> := {0}; z - {0} == {}
    ensures [0, 0][0 := 1] == [1, 0] && [1, 0][0 := 0] == [0, 0]
  {
  }

  lemma ExampleStep0(k: nat)
    requires 0 <= k <= 1
    ensures ExampleStepOk(k)
  {
    ExampleFacts(k);
    assert Apply(ExampleState(k), ExampleStep(k)).flushers == ExampleState(k + 1).flushers;
  }

  lemma ExampleStep2(k: nat)
    requires 2 <= k <= 3
    ensures ExampleStepOk(k)
  {
    ExampleFacts(k);
    assert Apply(ExampleState(k), ExampleStep(k)).flushers == ExampleState(k + 1).flushers;
  }

  lemma ExampleStep4(k: nat)
    requires 4 <= k <= 5
    ensures ExampleStepOk(k)
  {
    ExampleFacts(k);
    assert Apply(ExampleState(k), ExampleStep(k)).flushers == ExampleState(k + 1).flushers;
  }

  lemma ExampleStep6(k: nat)
    requires 6 <= k <= 7
    ensures ExampleStepOk(k)
  {
    ExampleFacts(k);
    assert Apply(ExampleState(k), ExampleStep(k)).flushers == ExampleState(k + 1).flushers;
  }

  lemma ExampleStep8(k: nat)
    requires 8 <= k <= 9
    ensures ExampleStepOk(k)
  {
    ExampleFacts(k);
    assert Apply(ExampleState(k), ExampleStep(k)).flushers == ExampleState(k + 1).flushers;
  }

  lemma ExampleStep10(k: nat)
    requires 10 <= k <= 11
    ensures ExampleStepOk(k)
  {
    ExampleFacts(k);
    assert Apply(ExampleState(k), ExampleStep(k)).flushers == ExampleState(k + 1).flushers;
  }

  lemma ExampleNext(k: nat)
    requires k < 12
    ensures Next(ExampleState(k), ExampleState(k + 1))
  {
    hide Enabled, Apply, ExampleState, ExampleStep;
    if k <= 1 { ExampleStep0(k); }
    else if k <= 3 { ExampleStep2(k); }
    else if k <= 5 { ExampleStep4(k); }
    else if k <= 7 { ExampleStep6(k); }
    else if k <= 9 { ExampleStep8(k); }
    else { ExampleStep10(k); }
  }

  lemma ExampleEnds()
    ensures Init(ExampleState(0)) && PromotesBogus(ExampleState(12)) && ExampleState(12).colors == 2
  {
  }

  function ExampleRun(n: nat): (run: seq<State>)
    ensures |run| == n && forall k :: 0 <= k < n ==> run[k] == ExampleState(k)
  {
    if n == 0 then [] else ExampleRun(n - 1) + [ExampleState(n - 1)]
  }

  lemma ExampleIsRun()
    ensures var run := ExampleRun(13); IsRun(run) && PromotesBogus(run[12]) && run[12].colors == 2
  {
    hide Enabled, Apply, Init, ExampleState, PromotesBogus, ExampleRun;
    var run := ExampleRun(13);
    ExampleEnds();
    forall k | 0 <= k < 12 ensures Next(run[k], run[k + 1]) {
      ExampleNext(k);
    }
  }

  /** `next` is a real queued flusher whenever the cascade promotes it, except with exactly two colors. */
  lemma PromotesBogusIffTwoColors(n: nat)
    ensures (exists run: seq<State>, k: nat ::
      IsRun(run) && 0 <= k < |run| && run[k].colors == n && PromotesBogus(run[k]))
              <==> n == 2
  {
    hide IsRun, PromotesBogus, ExampleRun;
    if n == 2 {
      ExampleIsRun();
    } else {
      forall run: seq<State>, k: nat | IsRun(run) && 0 <= k < |run| && run[k].colors == n
        ensures !PromotesBogus(run[k])
      {
        PromotesRealFlusher(run, k);
      }
    }
  }

  // ---------- a waiting flusher is never stuck ----------

  /** A step by which flushing gets on: the holder of wq->mutex goes on, the first flusher wakes up, or an
      item of the flush color leaves. */
  ghost predicate Helps(s: State, step: Step) {
    match step
    case PrepPwq(_) => true
    case PrepDone => true
    case Wake(_) => true
    case Cascade => true
    case Pick => true
    case LeaveInFlight(i) => i in s.items && s.items[i].color == s.flushColor
    case _ => false
  }

  ghost predicate Stuck(s: State) {
    && !s.pc.Lost? && (exists f :: Waits(s.flushers, f))
    && forall step :: Enabled(s, step) ==> !Helps(s, step)
  }

  /** While anybody waits there is a step that helps, unless there is one color only. */
  lemma NeverStuck(run: seq<State>, k: nat)
    requires IsRun(run) && k < |run| && run[k].colors != 1
    ensures !Stuck(run[k])
  {
    hide IsRun, Inv;
    var s := run[k];
    RunInv(run, k);
    if !s.pc.Lost? && exists f :: Waits(s.flushers, f) {
      var f :| Waits(s.flushers, f);
      var step := Helper(s, f);
    }
  }

  lemma Helper(s: State, f: FlusherId) returns (step: Step)
    requires Inv(s) && s.colors != 1 && !s.pc.Lost? && Waits(s.flushers, f)
    ensures Enabled(s, step) && Helps(s, step)
  {
    hide QueueOk, SnapshotsCovered, CountersAgree, ItemsInWindow, ArmedRight, ArmedCounted;
    match s.pc
    case Prep(todo, _, _, _, _) =>
      if todo == {} {
        step := PrepDone;
      } else {
        var p :| p in todo;
        step := PrepPwq(p);
      }
    case CascadeTop => step := Cascade;
    case CascadePick(_) => step := Pick;
    case Free =>
      FirstIsThere(s, f);
      if s.flushers[s.first.value].done {
        step := Wake(s.first.value);
      } else {
        var i := ItemLeft(s);
        step := LeaveInFlight(i);
      }
  }

  /** Whoever waits while nobody holds wq->mutex waits behind a first flusher. */
  lemma FirstIsThere(s: State, f: FlusherId)
    requires Inv(s) && s.colors != 1 && s.pc.Free? && Waits(s.flushers, f)
    ensures s.first.Some? && s.first.value in s.flushers
  {
    hide QueueOk, SnapshotsCovered, CountersAgree, ItemsInWindow, PwqColors, ArmedRight, ArmedCounted;
    QueueShort(s.queue, s.flushers, s.flushColor, s.workColor, s.colors);
  }

  /** A first flusher that is not done waits for an item of its color. */
  lemma ItemLeft(s: State) returns (i: ItemId)
    requires Inv(s) && s.pc.Free? && s.first.Some? && s.first.value in s.flushers && !s.flushers[s.first.value].done
    ensures i in s.items && s.items[i].color == s.flushColor
  {
    hide QueueOk, SnapshotsCovered, ItemsInWindow, PwqColors, NobodyLost, NextColor;
    var p :| p in Armed(s.pwqs);
    assert |ItemsAt(s.items, p, s.flushColor)| > 0;
    i :| i in ItemsAt(s.items, p, s.flushColor);
  }

  /** With one color a flusher overflows at once, and there is nobody to flush that color. */
  lemma OneColorStuck() returns (run: seq<State>)
    ensures IsRun(run) && |run| == 3 && run[2].colors == 1 && Stuck(run[2])
  {
    var s0 := State(1, map[], map[], {}, 0, 0, 0, None, [], [], map[], Free);
    var s1 := s0.(flushers := map[0 := Flusher(None, false, false, {})]);
    var s2 := s1.(flushers := map[0 := Flusher(None, true, false, {})], overflow := [0]);
    run := [s0, s1, s2];
    assert s0.items.Keys == {} && s0.flushers[0 := s1.flushers[0]] == s1.flushers;
    assert Enabled(s0, EnterFlush(0)) && s1 == Apply(s0, EnterFlush(0));
    assert s1.flushers[0 := s2.flushers[0]] == s2.flushers;
    assert Enabled(s1, StartFlush(0)) && s2 == Apply(s1, StartFlush(0));
    assert Waits(s2.flushers, 0);
  }

  lemma StuckIffOneColor(n: nat)
    ensures (exists run: seq<State>, k: nat :: IsRun(run) && 0 <= k < |run| && run[k].colors == n && Stuck(run[k]))
              <==> n == 1
  {
    hide IsRun, Stuck;
    if n == 1 {
      var run := OneColorStuck();
    } else {
      forall run: seq<State>, k: nat | IsRun(run) && 0 <= k < |run| && run[k].colors == n
        ensures !Stuck(run[k])
      {
        NeverStuck(run, k);
      }
    }
  }
}
