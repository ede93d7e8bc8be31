/** Every step of the flush protocol keeps the invariant. */
module FlushSteps {
  import opened Base
  import opened FlushMachine

  lemma InitInv(s: State)
    requires Init(s)
    ensures Inv(s)
  {
    forall p, c | p in s.pwqs && 0 <= c < s.colors ensures ItemsAt(s.items, p, c) == {} {}
    NoneArmedIffZero(s.pwqs);
  }

  /** The same but for the history variable. */
  ghost predicate SameStanding(f: Flusher, g: Flusher) {
    f.color == g.color && f.started == g.started && f.done == g.done
  }

  /** Queue invariants speak of flushers only through the members of the queue. */
  lemma QueueFrame(queue: seq<FlusherId>, fl: map<FlusherId, Flusher>, fl': map<FlusherId, Flusher>,
                   flush: nat, work: nat, n: nat, lo: nat)
    requires QueueOk(queue, fl, flush, work, n, lo)
    requires forall k :: 0 <= k < |queue| ==>
      queue[k] in fl && queue[k] in fl' && SameStanding(fl[queue[k]], fl'[queue[k]])
    ensures QueueOk(queue, fl', flush, work, n, lo)
  {
    forall k | 0 <= k < |queue| ensures WaitsForColor(fl', queue[k], n) {
      assert WaitsForColor(fl, queue[k], n);
    }
    forall j, k | 0 <= j < k < |queue| ensures RanksFollow(queue, fl', flush, n, j, k) {
      assert RanksFollow(queue, fl, flush, n, j, k);
    }
  }

  /** Closing the current work color: flushers fs that wait for it join the end of the queue. */
  lemma QueueAppend(queue: seq<FlusherId>, fs: seq<FlusherId>, fl: map<FlusherId, Flusher>,
                    flush: nat, work: nat, n: nat, lo: nat)
    requires n > 0 && flush < n && work < n && NextColor(work, n) != flush
    requires QueueOk(queue, fl, flush, work, n, lo)
    requires queue == [] ==> Ahead(flush, work, n) == lo
    requires fs != [] && Distinct(fs) && forall f :: f in fs ==> f !in queue
    requires forall k :: 0 <= k < |fs| ==> WaitsForColor(fl, fs[k], n) && fl[fs[k]].color == Some(work)
    ensures QueueOk(queue + fs, fl, flush, NextColor(work, n), n, lo)
  {
    var q := queue + fs;
    forall k | 0 <= k < |q| ensures WaitsForColor(fl, q[k], n) {
      if k < |queue| { assert WaitsForColor(fl, queue[k], n); }
    }
    forall k | 0 <= k < |fs| ensures Rank(fl, fs[k], flush, n) == Ahead(flush, work, n) {}
    forall k | 0 <= k < |queue|
      ensures Rank(fl, queue[k], flush, n) <= Ahead(flush, work, n) - 1
    {
      assert k < |queue| - 1 ==> RanksFollow(queue, fl, flush, n, k, |queue| - 1);
    }
    forall j, k | 0 <= j < k < |q| ensures RanksFollow(q, fl, flush, n, j, k) {
      if k < |queue| {
        assert RanksFollow(queue, fl, flush, n, j, k);
      }
    }
  }

  lemma AheadStep(flush: nat, c: nat, n: nat)
    requires flush < n && c < n && c != flush
    ensures Ahead(NextColor(flush, n), c, n) == Ahead(flush, c, n) - 1 >= 0
  {
  }

  lemma RankStep(queue: seq<FlusherId>, k: nat, j: nat, fl: map<FlusherId, Flusher>, fl': map<FlusherId, Flusher>,
                 flush: nat, work: nat, n: nat)
    requires flush < n && QueueOk(queue, fl, flush, work, n, 1)
    requires k == SameColorPrefix(queue, fl, flush) && k <= j < |queue|
    requires queue[j] in fl' && fl'[queue[j]] == fl[queue[j]]
    ensures WaitsForColor(fl', queue[j], n)
    ensures Rank(fl', queue[j], NextColor(flush, n), n) == Rank(fl, queue[j], flush, n) - 1 >= 0
  {
    assert WaitsForColor(fl, queue[j], n) && WaitsForColor(fl, queue[k], n);
    assert k < j ==> RanksFollow(queue, fl, flush, n, k, j);
    AheadStep(flush, fl[queue[j]].color.value, n);
  }

  /** The flush color moves on once no queued flusher waits for it any more. */
  lemma QueueAdvance(queue: seq<FlusherId>, k: nat, fl: map<FlusherId, Flusher>, fl': map<FlusherId, Flusher>,
                     flush: nat, work: nat, n: nat)
    requires n > 0 && flush < n && work < n && Ahead(flush, work, n) > 0
    requires QueueOk(queue, fl, flush, work, n, 1)
    requires k == SameColorPrefix(queue, fl, flush)
    requires forall j :: k <= j < |queue| ==> queue[j] in fl' && fl'[queue[j]] == fl[queue[j]]
    ensures QueueOk(queue[k..], fl', NextColor(flush, n), work, n, 0)
  {
    hide QueueOk, Rank, Ahead, NextColor, SameColorPrefix, WaitsForColor;
    var q, flush' := queue[k..], NextColor(flush, n);
    AheadDiffers(flush, work, n);
    AheadStep(flush, work, n);
    EdgeRank(queue, k, fl, flush, work, n);
    QueueHasColors(queue, fl, flush, work, n, 1);
    forall j | 0 <= j < |q|
      ensures WaitsForColor(fl', q[j], n)
    {
      RankStep(queue, k, k + j, fl, fl', flush, work, n);
    }
    forall i, j | 0 <= i < j < |q|
      ensures RanksFollow(q, fl', flush', n, i, j)
    {
      PairStep(queue, k, k + i, k + j, fl, fl', flush, work, n);
    }
    if q != [] {
      RankStep(queue, k, k, fl, fl', flush, work, n);
      RankStep(queue, k, |queue| - 1, fl, fl', flush, work, n);
    }
    MakeQueue(q, fl', flush', work, n, 0);
  }

  lemma MakeQueue(queue: seq<FlusherId>, fl: map<FlusherId, Flusher>, flush: nat, work: nat, n: nat, lo: nat)
    requires Distinct(queue) && forall k :: 0 <= k < |queue| ==> WaitsForColor(fl, queue[k], n)
    requires forall j, k :: 0 <= j < k < |queue| ==> RanksFollow(queue, fl, flush, n, j, k)
    requires if queue == [] then Ahead(flush, work, n) <= lo
      else && Rank(fl, queue[0], flush, n) <= lo
           && Rank(fl, queue[|queue| - 1], flush, n) == Ahead(flush, work, n) - 1
    ensures QueueOk(queue, fl, flush, work, n, lo)
  {
  }

  lemma PairStep(queue: seq<FlusherId>, k: nat, i: nat, j: nat, fl: map<FlusherId, Flusher>,
                 fl': map<FlusherId, Flusher>, flush: nat, work: nat, n: nat)
    requires flush < n && QueueOk(queue, fl, flush, work, n, 1)
    requires k == SameColorPrefix(queue, fl, flush) && k <= i < j < |queue|
    requires queue[i] in fl' && fl'[queue[i]] == fl[queue[i]] && queue[j] in fl' && fl'[queue[j]] == fl[queue[j]]
    ensures WaitsForColor(fl', queue[i], n) && WaitsForColor(fl', queue[j], n)
    ensures RanksFollow(queue[k..], fl', NextColor(flush, n), n, i - k, j - k)
  {
    hide Rank, Ahead, NextColor, SameColorPrefix, WaitsForColor;
    RankStep(queue, k, i, fl, fl', flush, work, n);
    RankStep(queue, k, j, fl, fl', flush, work, n);
    var q := queue[k..];
    assert q[i - k] == queue[i] && q[j - k] == queue[j];
    assert RanksFollow(queue, fl, flush, n, i, j);
  }

  lemma AheadDiffers(flush: nat, work: nat, n: nat)
    requires flush < n && work < n
    ensures Ahead(flush, work, n) > 0 <==> work != flush
    ensures Ahead(flush, work, n) == 1 ==> work == NextColor(flush, n) && n > 1
  {
  }

  /** Behind the flushers of the flush color comes one of the next color, or the work color. */
  lemma EdgeRank(queue: seq<FlusherId>, k: nat, fl: map<FlusherId, Flusher>, flush: nat, work: nat, n: nat)
    requires flush < n && QueueOk(queue, fl, flush, work, n, 1) && k == SameColorPrefix(queue, fl, flush)
    ensures if k < |queue| then WaitsForColor(fl, queue[k], n) && Rank(fl, queue[k], flush, n) <= 1
      else Ahead(flush, work, n) <= 1
    ensures queue != [] ==>
      WaitsForColor(fl, queue[|queue| - 1], n)
        && Rank(fl, queue[|queue| - 1], flush, n) == Ahead(flush, work, n) - 1
  {
    hide SameColorPrefix;
    if k > 0 {
      assert WaitsForColor(fl, queue[k - 1], n) && Rank(fl, queue[k - 1], flush, n) == 0;
    }
    if k < |queue| {
      assert WaitsForColor(fl, queue[k], n);
      assert k > 0 ==> RanksFollow(queue, fl, flush, n, k - 1, k);
    }
  }

  /** The head of a queue that covers the whole window waits for the flush color itself. */
  lemma QueuePop(queue: seq<FlusherId>, fl: map<FlusherId, Flusher>, flush: nat, work: nat, n: nat)
    requires n > 0 && flush < n && work < n
    requires QueueOk(queue, fl, flush, work, n, 0) && queue != []
    ensures QueueOk(queue[1..], fl, flush, work, n, 1)
    ensures fl[queue[0]].color == Some(flush) && Ahead(flush, work, n) > 0
  {
    assert WaitsForColor(fl, queue[0], n);
    var q := queue[1..];
    forall j | 0 <= j < |q| ensures WaitsForColor(fl, q[j], n) {
      assert WaitsForColor(fl, queue[j + 1], n);
    }
    forall j, k | 0 <= j < k < |q| ensures RanksFollow(q, fl, flush, n, j, k) {
      assert RanksFollow(queue, fl, flush, n, j + 1, k + 1);
    }
    assert q != [] ==> RanksFollow(queue, fl, flush, n, 0, 1);
  }

  // StartFlush

  /** What an empty queue says about the window. */
  lemma QueueShort(queue: seq<FlusherId>, fl: map<FlusherId, Flusher>, flush: nat, work: nat, n: nat)
    requires QueueOk(queue, fl, flush, work, n, 1) && flush < n && work < n
    ensures queue == [] ==> Ahead(flush, work, n) <= 1
    ensures Ahead(flush, work, n) <= 0 ==> queue == [] && work == flush
  {
    if queue != [] {
      assert WaitsForColor(fl, queue[|queue| - 1], n);
    }
  }

  lemma EmptyQueue(fl: map<FlusherId, Flusher>, flush: nat, n: nat)
    requires flush < n
    ensures QueueOk([], fl, flush, flush, n, 1) && QueueOk([], fl, flush, NextColor(flush, n), n, 1)
  {
  }

  lemma StartKeepsQueue(s: State, f: FlusherId)
    requires Shaped(s) && s.colors > 0 && (s.first.Some? <==> Width(s) > 0)
    requires QueueOk(s.queue, s.flushers, s.flushColor, s.workColor, s.colors, 1) && f !in s.queue
    requires Enabled(s, StartFlush(f)) && !s.flushers[f].done
    ensures var s' := ApplyStart(s, f);
            QueueOk(s'.queue, s'.flushers, s'.flushColor, s'.workColor, s'.colors, 1)
  {
    hide QueueOk, NextColor, Ahead;
    var s' := ApplyStart(s, f);
    QueueShort(s.queue, s.flushers, s.flushColor, s.workColor, s.colors);
    EmptyQueue(s'.flushers, s.flushColor, s.colors);
    QueueHasColors(s.queue, s.flushers, s.flushColor, s.workColor, s.colors, 1);
    QueueFrame(s.queue, s.flushers, s'.flushers, s.flushColor, s.workColor, s.colors, 1);
    if NextColor(s.workColor, s.colors) != s.flushColor && s.first.Some? {
      QueueAppend(s.queue, [f], s'.flushers, s.flushColor, s.workColor, s.colors, 1);
    }
  }

  lemma StartKeepsPlaces(s: State, f: FlusherId)
    requires Enabled(s, StartFlush(f))
    requires OverflowOk(s.overflow, s.flushers, s.flushColor, s.workColor, s.colors)
    requires FirstOk(s.first, s.queue, s.overflow, s.flushers, s.flushColor)
    requires NobodyLost(s.first, s.queue, s.overflow, s.flushers)
    requires forall k :: 0 <= k < |s.queue| ==> Waits(s.flushers, s.queue[k])
    requires s.first.None? ==> s.workColor == s.flushColor
    ensures var s' := ApplyStart(s, f);
            && OverflowOk(s'.overflow, s'.flushers, s'.flushColor, s'.workColor, s'.colors)
            && FirstOk(s'.first, s'.queue, s'.overflow, s'.flushers, s'.flushColor)
            && NobodyLost(s'.first, s'.queue, s'.overflow, s'.flushers)
  {
    hide NextColor, NobodyLost;
    StartLosesNobody(s.first, s.queue, s.overflow, s.flushers, f, Some(s.workColor));
    StartLosesNobody(s.first, s.queue, s.overflow, s.flushers, f, s.flushers[f].color);
  }

  /** A flusher that has started stands in the first place, in the queue or on the overflow list. */
  lemma StartLosesNobody(first: Option<FlusherId>, queue: seq<FlusherId>, overflow: seq<FlusherId>,
                         fl: map<FlusherId, Flusher>, f: FlusherId, color: Option<nat>)
    requires f in fl && NobodyLost(first, queue, overflow, fl)
    ensures !fl[f].started ==> fl[f].color == None && !fl[f].done
    ensures var fl' := fl[f := fl[f].(color := color, started := true)];
      && (first.None? ==> NobodyLost(Some(f), queue, overflow, fl'))
      && NobodyLost(first, queue + [f], overflow, fl') && NobodyLost(first, queue, overflow + [f], fl')
  {
  }

  lemma StartKeepsWindow(s: State, f: FlusherId)
    requires Window(s) && Enabled(s, StartFlush(f))
    ensures Window(ApplyStart(s, f))
  {
    hide CountersAgree;
  }

  lemma StartKeepsDrain(s: State, f: FlusherId)
    requires Shaped(s) && ControlOk(s) && DrainOk(s) && Enabled(s, StartFlush(f))
    requires s.first.None? ==> s.queue == []
    requires s.overflow != [] ==> NextColor(s.workColor, s.colors) == s.flushColor
    requires s.first != Some(f) && !s.flushers[f].done
    ensures var s' := ApplyStart(s, f); ControlOk(s') && Shaped(s') && DrainOk(s')
  {
    NoneArmedIffZero(s.pwqs);
  }

  lemma StartKeepsSnapshots(s: State, f: FlusherId)
    requires ItemsInWindow(s.items, s.used, s.flushColor, s.workColor, s.colors)
    requires SnapshotsCovered(s.flushers, s.items, s.used, s.flushColor, s.colors)
    requires Enabled(s, StartFlush(f)) && !s.flushers[f].done
    ensures var s' := ApplyStart(s, f);
            SnapshotsCovered(s'.flushers, s'.items, s'.used, s'.flushColor, s'.colors)
  {
  }

  // PrepPwq

  lemma PrepPwqKeepsWindow(s: State, p: PwqId)
    requires Window(s) && Enabled(s, PrepPwq(p))
    ensures Window(ApplyPrepPwq(s, p))
  {
  }

  lemma PrepPwqKeepsDrain(s: State, p: PwqId)
    requires Shaped(s) && ControlOk(s) && DrainOk(s) && Enabled(s, PrepPwq(p))
    ensures var s' := ApplyPrepPwq(s, p); Shaped(s') && ControlOk(s') && DrainOk(s')
  {
    PrepPwqCounts(s, p);
    PrepPwqArms(s, p);
    hide ArmedRight, ArmedCounted;
  }

  lemma PrepPwqCounts(s: State, p: PwqId)
    requires Enabled(s, PrepPwq(p)) && DrainOk(s) && (s.pc.flushing ==> s.first.Some?)
    ensures var s' := ApplyPrepPwq(s, p); ArmedCounted(s'.pwqs, s'.nrPwqsToFlush, s'.first, s'.pc)
  {
    PrepPwqArmed(s, p);
    assert s.pc.flushing ==> p !in Armed(s.pwqs);
    hide Armed;
  }

  lemma PrepPwqArms(s: State, p: PwqId)
    requires Enabled(s, PrepPwq(p)) && DrainOk(s) && (s.pc.flushing ==> s.first.Some?)
    ensures var s' := ApplyPrepPwq(s, p); Shaped(s') && ArmedRight(s'.pwqs, s'.flushColor, s'.first, s'.pc)
  {
    hide ArmedCounted;
  }

  lemma PrepPwqArmed(s: State, p: PwqId)
    requires Enabled(s, PrepPwq(p))
    ensures var arm := s.pc.flushing && s.pwqs[p].inFlight[s.flushColor] > 0;
      Armed(ApplyPrepPwq(s, p).pwqs) == if arm then Armed(s.pwqs) + {p} else Armed(s.pwqs)
  {
  }

  // PrepDone

  lemma PrepDoneKeepsDrain(s: State)
    requires Shaped(s) && ControlOk(s) && DrainOk(s) && Enabled(s, PrepDone)
    ensures var s' := ApplyPrepDone(s); Shaped(s') && ControlOk(s') && DrainOk(s')
  {
    hide NextColor, CompleteFirst, Armed, ArmedRight, NoneArmed;
    NoneArmedIffZero(s.pwqs);
    CompleteFirstDone(s.flushers, s.first);
    PrepDoneKeepsArmed(s);
  }

  lemma PrepDoneKeepsArmed(s: State)
    requires Shaped(s) && ControlOk(s) && DrainOk(s) && Enabled(s, PrepDone)
    ensures var s' := ApplyPrepDone(s);
      && Shaped(s') && ArmedCounted(s'.pwqs, s'.nrPwqsToFlush, s'.first, s'.pc)
      && ArmedRight(s'.pwqs, s'.flushColor, s'.first, s'.pc)
  {
    hide NextColor, CompleteFirst, Armed, ArmedRight;
    PrepDoneKeepsRight(s);
  }

  lemma PrepDoneKeepsRight(s: State)
    requires Shaped(s) && ControlOk(s) && DrainOk(s) && Enabled(s, PrepDone)
    ensures var s' := ApplyPrepDone(s); Shaped(s') && ArmedRight(s'.pwqs, s'.flushColor, s'.first, s'.pc)
  {
    hide NextColor, CompleteFirst, Armed, ArmedRight, Ahead, NoneArmed;
    var s' := ApplyPrepDone(s);
    if s'.first == s.first && s'.flushColor == s.flushColor {
      RightAfterLoop(s.pwqs, s.flushColor, s.first, s.pc, s'.pc);
    } else {
      LastArmed(s);
      RightWithoutFirst(s.pwqs, s.flushColor, s'.flushColor, s'.pc);
    }
  }

  /** When the prep loop is done, every pwq is visited. */
  lemma RightAfterLoop(pwqs: map<PwqId, Pwq>, flush: nat, first: Option<FlusherId>, pc: Pc, pc': Pc)
    requires forall p :: p in pwqs ==> flush < |pwqs[p].inFlight|
    requires ArmedRight(pwqs, flush, first, pc) && pc.Prep? && pc.todo == {} && !pc'.CascadeTop? && !Arming(pc')
    ensures ArmedRight(pwqs, flush, first, pc')
  {
  }

  lemma RightWithoutFirst(pwqs: map<PwqId, Pwq>, flush: nat, flush': nat, pc: Pc)
    requires forall p :: p in pwqs ==> flush < |pwqs[p].inFlight| && flush' < |pwqs[p].inFlight|
    requires NoneArmed(pwqs) && forall p :: p in pwqs ==> pwqs[p].inFlight[flush] == 0
    requires pc.CascadeTop? ==> flush' == flush
    ensures ArmedRight(pwqs, flush', None, pc)
  {
  }

  lemma PrepDoneKeepsWindow(s: State)
    requires Window(s) && ControlOk(s) && DrainOk(s) && Enabled(s, PrepDone)
    ensures Window(ApplyPrepDone(s))
  {
    var s' := ApplyPrepDone(s);
    if s'.flushColor != s.flushColor {
      NoItemsOfColor(s);
      forall i | i in s.items
        ensures Ahead(s'.flushColor, s.items[i].color, s.colors) <= Ahead(s'.flushColor, s.workColor, s.colors)
      {
      }
    }
  }

  /** No pwq has a counter of the flush color left, so no item of that color is in flight. */
  lemma NoItemsOfColor(s: State)
    requires Shaped(s) && CountersAgree(s.pwqs, s.items)
    requires forall p :: p in s.pwqs ==> s.pwqs[p].inFlight[s.flushColor] == 0
    ensures forall i :: i in s.items ==> s.items[i].color != s.flushColor
  {
    forall i | i in s.items ensures s.items[i].color != s.flushColor {
      assert i in ItemsAt(s.items, s.items[i].pwq, s.items[i].color);
    }
  }

  lemma PrepDoneKeepsPlaces(s: State)
    requires Shaped(s) && ControlOk(s) && DrainOk(s) && Enabled(s, PrepDone)
    requires OverflowOk(s.overflow, s.flushers, s.flushColor, s.workColor, s.colors)
    requires FirstOk(s.first, s.queue, s.overflow, s.flushers, s.flushColor)
    requires NobodyLost(s.first, s.queue, s.overflow, s.flushers)
    ensures var s' := ApplyPrepDone(s);
            && OverflowOk(s'.overflow, s'.flushers, s'.flushColor, s'.workColor, s'.colors)
            && FirstOk(s'.first, s'.queue, s'.overflow, s'.flushers, s'.flushColor)
            && NobodyLost(s'.first, s'.queue, s'.overflow, s'.flushers)
  {
    NoneArmedIffZero(s.pwqs);
  }

  lemma PrepDoneKeepsQueue(s: State)
    requires Shaped(s) && ControlOk(s) && Enabled(s, PrepDone)
    requires QueueOk(s.queue, s.flushers, s.flushColor, s.workColor, s.colors, if Advanced(s.pc) then 0 else 1)
    requires FirstOk(s.first, s.queue, s.overflow, s.flushers, s.flushColor)
    ensures var s' := ApplyPrepDone(s);
            QueueOk(s'.queue, s'.flushers, s'.flushColor, s'.workColor, s'.colors, if Advanced(s'.pc) then 0 else 1)
  {
    hide QueueOk, NextColor, Ahead;
    EmptyQueue(ApplyPrepDone(s).flushers, s.workColor, s.colors);
    QueueHasColors(s.queue, s.flushers, s.flushColor, s.workColor, s.colors, if Advanced(s.pc) then 0 else 1);
    QueueFrame(s.queue, s.flushers, ApplyPrepDone(s).flushers, s.flushColor, s.workColor, s.colors,
               if Advanced(s.pc) then 0 else 1);
  }

  lemma PrepDoneKeepsSnapshots(s: State)
    requires Shaped(s) && CountersAgree(s.pwqs, s.items) && ControlOk(s) && DrainOk(s) && Enabled(s, PrepDone)
    requires ItemsInWindow(s.items, s.used, s.flushColor, s.workColor, s.colors)
    requires FirstOk(s.first, s.queue, s.overflow, s.flushers, s.flushColor)
    requires ColorsInRange(s.flushers, s.colors)
    requires SnapshotsCovered(s.flushers, s.items, s.used, s.flushColor, s.colors)
    ensures var s' := ApplyPrepDone(s);
            SnapshotsCovered(s'.flushers, s'.items, s'.used, s'.flushColor, s'.colors)
  {
    hide SnapshotsCovered, CountersAgree, Ahead, NextColor, Armed, NoneArmed, CompleteAll;
    NoneArmedIffZero(s.pwqs);
    if s.pc.flushing && s.nrPwqsToFlush == 1 {
      LastArmed(s);
      NoItemsOfColor(s);
      var fs := if s.first.Some? then {s.first.value} else {};
      CompleteKeepsCovered(s.flushers, fs, s.items, s.used, s.flushColor, s.colors);
      CompleteKeepsRange(s.flushers, fs, s.colors);
      AdvanceKeepsCovered(CompleteAll(s.flushers, fs), s.items, s.used, s.flushColor, s.colors);
      AheadDiffers(s.flushColor, s.workColor, s.colors);
    }
  }

  lemma CompleteKeepsRange(fl: map<FlusherId, Flusher>, fs: set<FlusherId>, n: nat)
    requires ColorsInRange(fl, n)
    ensures ColorsInRange(CompleteAll(fl, fs), n)
  {
  }

  /** When the prep loop has armed nothing, no pwq has a counter of the flush color left. */
  lemma LastArmed(s: State)
    requires Shaped(s) && DrainOk(s) && Enabled(s, PrepDone) && s.pc.flushing && s.first.Some?
    requires NoneArmed(s.pwqs)
    ensures forall p :: p in s.pwqs ==> s.pwqs[p].inFlight[s.flushColor] == 0
  {
  }

  // Cascade

  /** Completing a prefix of the queue touches neither the rest of it nor the overflow list. */
  lemma CompletePrefixFrame(queue: seq<FlusherId>, k: nat, fl: map<FlusherId, Flusher>)
    requires Distinct(queue) && k <= |queue|
    requires forall j :: 0 <= j < |queue| ==> queue[j] in fl && fl[queue[j]].color.Some?
    ensures var fl' := CompleteAll(fl, Members(queue[..k]));
            && (forall j :: k <= j < |queue| ==> queue[j] in fl' && fl'[queue[j]] == fl[queue[j]])
            && (forall f :: f in fl && fl[f].color.None? ==> f in fl' && fl'[f] == fl[f])
  {
    forall j | k <= j < |queue| ensures queue[j] !in queue[..k] {}
  }

  lemma QueueHasColors(queue: seq<FlusherId>, fl: map<FlusherId, Flusher>, flush: nat, work: nat, n: nat, lo: nat)
    requires QueueOk(queue, fl, flush, work, n, lo)
    ensures Distinct(queue) && forall j :: 0 <= j < |queue| ==> queue[j] in fl && fl[queue[j]].color.Some?
  {
    assert forall j :: 0 <= j < |queue| ==> WaitsForColor(fl, queue[j], n);
  }

  lemma CascadeKeepsQueue(s: State)
    requires Enabled(s, Cascade) && ControlOk(s)
    requires QueueOk(s.queue, s.flushers, s.flushColor, s.workColor, s.colors, 1)
    requires OverflowOk(s.overflow, s.flushers, s.flushColor, s.workColor, s.colors)
    ensures var s' := ApplyCascade(s);
            QueueOk(s'.queue, s'.flushers, s'.flushColor, s'.workColor, s'.colors, 0)
    ensures SameColorPrefix(s.queue, s.flushers, s.flushColor) == |s.queue| ==>
              s.workColor == NextColor(s.flushColor, s.colors)
  {
    hide QueueOk, OverflowOk, SameColorPrefix, NextColor, Ahead, CompleteAll, AssignColor, Members;
    var k := SameColorPrefix(s.queue, s.flushers, s.flushColor);
    CascadeQueue(s.queue, s.overflow, s.flushers, s.flushColor, s.workColor, s.colors, k);
  }

  lemma CascadeQueue(queue: seq<FlusherId>, overflow: seq<FlusherId>, fl: map<FlusherId, Flusher>, flush: nat,
                     work: nat, n: nat, k: nat)
    requires flush < n && work < n && Ahead(flush, work, n) > 0 && k == SameColorPrefix(queue, fl, flush)
    requires QueueOk(queue, fl, flush, work, n, 1) && OverflowOk(overflow, fl, flush, work, n)
    ensures k == |queue| ==> work == NextColor(flush, n)
    ensures var fl1, flush1 := CompleteAll(fl, Members(queue[..k])), NextColor(flush, n);
      if overflow == [] then QueueOk(queue[k..], fl1, flush1, work, n, 0)
      else QueueOk(queue[k..] + overflow, AssignColor(fl1, Members(overflow), work), flush1, NextColor(work, n), n, 0)
  {
    hide QueueOk, SameColorPrefix, NextColor, Ahead, Rank, WaitsForColor, CompleteAll, AssignColor, Members;
    var fl1 := CompleteAll(fl, Members(queue[..k]));
    QueueHasColors(queue, fl, flush, work, n, 1);
    EdgeRank(queue, k, fl, flush, work, n);
    AheadDiffers(flush, work, n);
    CompletePrefixFrame(queue, k, fl);
    QueueAdvance(queue, k, fl, fl1, flush, work, n);
    if overflow != [] {
      CascadeAppendsOverflow(queue[k..], overflow, fl1, NextColor(flush, n), work, n);
    }
  }

  lemma CascadeAppendsOverflow(queue: seq<FlusherId>, overflow: seq<FlusherId>, fl: map<FlusherId, Flusher>,
                               flush: nat, work: nat, n: nat)
    requires n > 0 && flush < n && work < n && NextColor(work, n) != flush
    requires QueueOk(queue, fl, flush, work, n, 0)
    requires overflow != [] && Distinct(overflow)
    requires forall k :: 0 <= k < |overflow| ==> Waits(fl, overflow[k]) && fl[overflow[k]].color == None
    ensures QueueOk(queue + overflow, AssignColor(fl, Members(overflow), work), flush, NextColor(work, n), n, 0)
  {
    var fl' := AssignColor(fl, Members(overflow), work);
    forall f | f in overflow ensures f !in queue {
      assert forall k :: 0 <= k < |queue| ==> WaitsForColor(fl, queue[k], n);
    }
    QueueFrame(queue, fl, fl', flush, work, n, 0);
    QueueAppend(queue, overflow, fl', flush, work, n, 0);
  }

  lemma CascadeKeepsPlaces(s: State)
    requires Enabled(s, Cascade) && s.first.None? && ColorsInRange(s.flushers, s.colors)
    requires OverflowOk(s.overflow, s.flushers, s.flushColor, s.workColor, s.colors)
    requires NobodyLost(s.first, s.queue, s.overflow, s.flushers)
    requires forall k :: 0 <= k < |s.queue| ==> Waits(s.flushers, s.queue[k])
    ensures var s' := ApplyCascade(s);
            && OverflowOk(s'.overflow, s'.flushers, s'.flushColor, s'.workColor, s'.colors)
            && FirstOk(s'.first, s'.queue, s'.overflow, s'.flushers, s'.flushColor)
            && NobodyLost(s'.first, s'.queue, s'.overflow, s'.flushers)
            && ColorsInRange(s'.flushers, s'.colors)
  {
    hide SameColorPrefix, NextColor, NobodyLost, Members;
    var k := SameColorPrefix(s.queue, s.flushers, s.flushColor);
    CascadeLosesNobody(s.queue, s.overflow, s.flushers, k, s.workColor);
    assert s.overflow == [] ==> s.queue[k..] + s.overflow == s.queue[k..];
  }

  /** Completing the first k in the queue and moving the overflow list behind the rest leaves nobody without a place. */
  lemma CascadeLosesNobody(queue: seq<FlusherId>, overflow: seq<FlusherId>, fl: map<FlusherId, Flusher>, k: nat,
                           work: nat)
    requires k <= |queue| && NobodyLost(None, queue, overflow, fl)
    requires forall j :: 0 <= j < |queue| ==> Waits(fl, queue[j])
    requires forall j :: 0 <= j < |overflow| ==> Waits(fl, overflow[j])
    ensures var fl1 := CompleteAll(fl, Members(queue[..k]));
      NobodyLost(None, queue[k..], overflow, fl1)
        && NobodyLost(None, queue[k..] + overflow, [], AssignColor(fl1, Members(overflow), work))
  {
    var head, rest := queue[..k], queue[k..];
    forall f | f in queue
      ensures f in head || f in rest
    {
      var j :| 0 <= j < |queue| && queue[j] == f;
      assert if j < k then head[j] == f else rest[j - k] == f;
    }
    assert forall f :: f in head ==> f in queue;
  }

  lemma CascadeKeepsDrain(s: State)
    requires Enabled(s, Cascade) && ControlOk(s) && DrainOk(s)
    requires SameColorPrefix(s.queue, s.flushers, s.flushColor) == |s.queue| ==>
               s.workColor == NextColor(s.flushColor, s.colors)
    requires s.overflow != [] ==> NextColor(s.workColor, s.colors) == s.flushColor
    ensures var s' := ApplyCascade(s); Shaped(s') && ControlOk(s') && DrainOk(s')
  {
    NoneArmedIffZero(s.pwqs);
  }

  lemma CascadeKeepsWindow(s: State)
    requires Window(s) && Enabled(s, Cascade) && ControlOk(s) && DrainOk(s)
    requires s.overflow != [] ==> NextColor(s.workColor, s.colors) == s.flushColor
    ensures Window(ApplyCascade(s))
  {
    hide CountersAgree, Ahead, NextColor, SameColorPrefix, Armed;
    NoItemsOfColor(s);
    AheadDiffers(s.flushColor, s.workColor, s.colors);
    OpenWindow(s.items, s.used, s.flushColor, s.workColor, s.colors);
    if s.overflow != [] {
      WidenWindow(s.items, s.used, NextColor(s.flushColor, s.colors), s.workColor, s.colors);
    }
  }

  lemma WidenWindow(items: map<ItemId, Item>, used: set<ItemId>, flush: nat, work: nat, n: nat)
    requires ItemsInWindow(items, used, flush, work, n) && flush < n && work < n && NextColor(work, n) != flush
    ensures ItemsInWindow(items, used, flush, NextColor(work, n), n)
  {
    hide NextColor;
  }

  /** Completing flushers of the flush color, once no item of it is left, uncovers nobody. */
  lemma CompleteKeepsCovered(fl: map<FlusherId, Flusher>, fs: set<FlusherId>, items: map<ItemId, Item>,
                             used: set<ItemId>, flush: nat, n: nat)
    requires SnapshotsCovered(fl, items, used, flush, n) && flush < n
    requires forall i :: i in items ==> items[i].color < n && items[i].color != flush
    requires forall f :: f in fs && f in fl ==> fl[f].color == Some(flush)
    ensures SnapshotsCovered(CompleteAll(fl, fs), items, used, flush, n)
  {
  }

  lemma AdvanceKeepsCovered(fl: map<FlusherId, Flusher>, items: map<ItemId, Item>, used: set<ItemId>, flush: nat,
                            n: nat)
    requires SnapshotsCovered(fl, items, used, flush, n) && flush < n && ColorsInRange(fl, n)
    requires forall i :: i in items ==> items[i].color < n && items[i].color != flush
    ensures SnapshotsCovered(fl, items, used, NextColor(flush, n), n)
  {
    forall f, i | f in fl && i in fl[f].snapshot && i in items && fl[f].color.Some?
      ensures Ahead(NextColor(flush, n), items[i].color, n) <= Ahead(NextColor(flush, n), fl[f].color.value, n)
    {
      AheadStep(flush, items[i].color, n);
      AheadStep(flush, fl[f].color.value, n);
    }
    hide Ahead, NextColor;
  }

  /** Flushers that had no color yet wait for the work color, which is behind every item. */
  lemma AssignKeepsCovered(fl: map<FlusherId, Flusher>, fs: set<FlusherId>, items: map<ItemId, Item>, used: set<ItemId>,
                           flush: nat, work: nat, n: nat)
    requires SnapshotsCovered(fl, items, used, flush, n) && ItemsInWindow(items, used, flush, work, n)
    ensures SnapshotsCovered(AssignColor(fl, fs, work), items, used, flush, n)
  {
    hide Ahead;
  }

  lemma CascadeKeepsSnapshots(s: State)
    requires Window(s) && Enabled(s, Cascade) && ControlOk(s) && DrainOk(s) && ColorsInRange(s.flushers, s.colors)
    requires s.overflow != [] ==> NextColor(s.workColor, s.colors) == s.flushColor
    requires SnapshotsCovered(s.flushers, s.items, s.used, s.flushColor, s.colors)
    ensures var s' := ApplyCascade(s);
            SnapshotsCovered(s'.flushers, s'.items, s'.used, s'.flushColor, s'.colors)
  {
    CascadeKeepsWindow(s);
    NoItemsOfColor(s);
    hide SnapshotsCovered, SameColorPrefix, Ahead, NextColor, CountersAgree, PwqColors, ArmedCounted, ArmedRight;
    var k := SameColorPrefix(s.queue, s.flushers, s.flushColor);
    var fl := CompleteAll(s.flushers, Members(s.queue[..k]));
    CompleteKeepsCovered(s.flushers, Members(s.queue[..k]), s.items, s.used, s.flushColor, s.colors);
    AdvanceKeepsCovered(fl, s.items, s.used, s.flushColor, s.colors);
    var flush := NextColor(s.flushColor, s.colors);
    OpenWindow(s.items, s.used, s.flushColor, s.workColor, s.colors);
    AssignKeepsCovered(fl, Members(s.overflow), s.items, s.used, flush, s.workColor, s.colors);
  }

  /** With no item of the flush color, the window still holds every item after its lower edge moves up. */
  lemma OpenWindow(items: map<ItemId, Item>, used: set<ItemId>, flush: nat, work: nat, n: nat)
    requires ItemsInWindow(items, used, flush, work, n) && flush < n && work < n && work != flush
    requires forall i :: i in items ==> items[i].color < n && items[i].color != flush
    ensures ItemsInWindow(items, used, NextColor(flush, n), work, n)
  {
    AheadStep(flush, work, n);
    forall i | i in items
      ensures Ahead(NextColor(flush, n), items[i].color, n) <= Ahead(NextColor(flush, n), work, n)
    {
      AheadStep(flush, items[i].color, n);
    }
    hide Ahead, NextColor;
  }

  // Pick

  lemma PickKeepsFlushers(s: State)
    requires Shaped(s) && FlushersOk(s) && ControlOk(s) && Enabled(s, Pick)
    ensures FlushersOk(ApplyPick(s))
  {
    hide Rank, NobodyLost, QueueOk, NextColor, Ahead, ColorsInRange;
    QueueLoosens(s.queue, s.flushers, s.flushColor, s.workColor, s.colors);
    if s.queue != [] {
      QueuePop(s.queue, s.flushers, s.flushColor, s.workColor, s.colors);
      PickPlaces(s.queue, s.flushers, s.flushColor, s.workColor, s.colors);
    }
  }

  lemma QueueLoosens(queue: seq<FlusherId>, fl: map<FlusherId, Flusher>, flush: nat, work: nat, n: nat)
    requires QueueOk(queue, fl, flush, work, n, 0)
    ensures QueueOk(queue, fl, flush, work, n, 1)
  {
    hide Rank;
  }

  /** The head of the queue becomes the first flusher. */
  lemma PickPlaces(queue: seq<FlusherId>, fl: map<FlusherId, Flusher>, flush: nat, work: nat, n: nat)
    requires queue != [] && QueueOk(queue, fl, flush, work, n, 0) && NobodyLost(None, queue, [], fl)
    requires fl[queue[0]].color == Some(flush)
    ensures FirstOk(Some(queue[0]), queue[1..], [], fl, flush) && NobodyLost(Some(queue[0]), queue[1..], [], fl)
  {
    assert WaitsForColor(fl, queue[0], n);
    forall f | f in queue && f != queue[0]
      ensures f in queue[1..]
    {
      var k :| 0 <= k < |queue| && queue[k] == f;
      assert queue[1..][k - 1] == f;
    }
    hide QueueOk;
  }

  lemma PickKeepsDrain(s: State)
    requires Shaped(s) && ControlOk(s) && DrainOk(s) && Enabled(s, Pick)
    requires (s.queue == [] <==> Width(s) == 0)
    requires s.queue != [] ==> Waits(s.flushers, s.queue[0])
    ensures var s' := ApplyPick(s); Shaped(s') && ControlOk(s') && DrainOk(s')
  {
    NoneArmedIffZero(s.pwqs);
  }

  // QueueWork and InsertBarrier

  lemma AddItemCounts(pwqs: map<PwqId, Pwq>, items: map<ItemId, Item>, i: ItemId, p: PwqId, c: nat)
    requires CountersAgree(pwqs, items) && i !in items && p in pwqs && c < |pwqs[p].inFlight|
    ensures var n := pwqs[p].inFlight;
            CountersAgree(pwqs[p := pwqs[p].(inFlight := n[c := n[c] + 1])], items[i := Item(p, c)])
  {
    var items' := items[i := Item(p, c)];
    forall p', c'
      ensures |ItemsAt(items', p', c')| == |ItemsAt(items, p', c')| + (if p' == p && c' == c then 1 else 0)
    {
      ItemAdded(items, i, p, c, p', c');
    }
    hide ItemsAt;
  }

  lemma ItemAdded(items: map<ItemId, Item>, i: ItemId, p: PwqId, c: nat, p': PwqId, c': nat)
    requires i !in items
    ensures |ItemsAt(items[i := Item(p, c)], p', c')| ==
      |ItemsAt(items, p', c')| + (if p' == p && c' == c then 1 else 0)
  {
    assert ItemsAt(items[i := Item(p, c)], p', c') ==
      ItemsAt(items, p', c') + (if p' == p && c' == c then {i} else {});
  }

  /** A pwq's color lies in the window, also while a prep loop has still to visit it. */
  lemma ColorInWindow(s: State, p: PwqId, c: nat)
    requires Window(s) && ControlOk(s) && p in s.pwqs && c < s.colors
    requires c == s.pwqs[p].workColor || exists t :: t in s.items && s.items[t].color == c
    ensures Ahead(s.flushColor, c, s.colors) <= Ahead(s.flushColor, s.workColor, s.colors)
  {
    hide CountersAgree, NextColor;
  }

  lemma SamePwqColors(pwqs: map<PwqId, Pwq>, pwqs': map<PwqId, Pwq>, pc: Pc, work: nat, n: nat)
    requires n > 0 && PwqColors(pwqs, pc, work, n) && pwqs'.Keys == pwqs.Keys
    requires forall p :: p in pwqs ==> pwqs'[p].workColor == pwqs[p].workColor
    ensures PwqColors(pwqs', pc, work, n)
  {
    hide NextColor;
  }

  lemma AddToWindow(items: map<ItemId, Item>, used: set<ItemId>, i: ItemId, item: Item, flush: nat, work: nat, n: nat)
    requires ItemsInWindow(items, used, flush, work, n) && Ahead(flush, item.color, n) <= Ahead(flush, work, n)
    ensures ItemsInWindow(items[i := item], used + {i}, flush, work, n)
  {
  }

  lemma AddItemKeepsWindow(s: State, i: ItemId, p: PwqId, c: nat)
    requires Window(s) && ControlOk(s) && i !in s.used && p in s.pwqs && c < s.colors
    requires c == s.pwqs[p].workColor || exists t :: t in s.items && s.items[t].color == c
    ensures Window(AddItem(s, i, p, c))
  {
    assert i !in s.items;
    hide CountersAgree, PwqColors, ItemsInWindow, Ahead;
    ColorInWindow(s, p, c);
    AddItemCounts(s.pwqs, s.items, i, p, c);
    SamePwqColors(s.pwqs, AddItem(s, i, p, c).pwqs, s.pc, s.workColor, s.colors);
    AddToWindow(s.items, s.used, i, Item(p, c), s.flushColor, s.workColor, s.colors);
  }

  lemma AddItemKeepsDrain(s: State, i: ItemId, p: PwqId, c: nat)
    requires Shaped(s) && PwqColors(s.pwqs, s.pc, s.workColor, s.colors) && ControlOk(s) && DrainOk(s)
    requires p in s.pwqs && c < s.colors
    requires c == s.pwqs[p].workColor || s.pwqs[p].inFlight[c] > 0
    ensures var s' := AddItem(s, i, p, c); Shaped(s') && ControlOk(s') && DrainOk(s')
  {
    var s' := AddItem(s, i, p, c);
    assert Armed(s'.pwqs) == Armed(s.pwqs);
  }

  lemma AddItemKeepsInv(s: State, i: ItemId, p: PwqId, c: nat)
    requires Inv(s) && i !in s.used && p in s.pwqs && c < s.colors
    requires c == s.pwqs[p].workColor || exists t :: t in s.items && s.items[t] == Item(p, c)
    ensures Inv(AddItem(s, i, p, c))
  {
    hide CountersAgree, QueueOk, OverflowOk, NobodyLost, SnapshotsCovered, Armed, ArmedRight, NextColor;
    if c != s.pwqs[p].workColor {
      var t :| t in s.items && s.items[t] == Item(p, c);
      ItemCounted(s, t);
    }
    AddItemKeepsWindow(s, i, p, c);
    AddItemKeepsDrain(s, i, p, c);
    AddItemKeepsCovered(s.flushers, s.items, s.used, i, Item(p, c), s.flushColor, s.colors);
  }

  lemma ItemCounted(s: State, t: ItemId)
    requires Window(s) && t in s.items
    ensures s.pwqs[s.items[t].pwq].inFlight[s.items[t].color] > 0
  {
    assert t in ItemsAt(s.items, s.items[t].pwq, s.items[t].color);
  }

  lemma AddItemKeepsCovered(fl: map<FlusherId, Flusher>, items: map<ItemId, Item>, used: set<ItemId>, i: ItemId,
                            item: Item, flush: nat, n: nat)
    requires SnapshotsCovered(fl, items, used, flush, n) && i !in used
    ensures SnapshotsCovered(fl, items[i := item], used + {i}, flush, n)
  {
  }

  // LeaveInFlight

  lemma LeaveCounts(pwqs: map<PwqId, Pwq>, items: map<ItemId, Item>, i: ItemId, flushColor: Option<nat>)
    requires CountersAgree(pwqs, items) && i in items
    requires items[i].pwq in pwqs && items[i].color < |pwqs[items[i].pwq].inFlight|
    ensures var q, c := pwqs[items[i].pwq], items[i].color;
            && q.inFlight[c] > 0
            && CountersAgree(pwqs[items[i].pwq := Pwq(q.workColor, flushColor, q.inFlight[c := q.inFlight[c] - 1])],
                             items - {i})
  {
    var p, c := items[i].pwq, items[i].color;
    assert i in ItemsAt(items, p, c);
    forall p', c' ensures ItemsAt(items - {i}, p', c') ==
      ItemsAt(items, p', c') - (if p' == p && c' == c then {i} else {}) {}
  }

  lemma LeaveKeepsWindow(s: State, i: ItemId)
    requires Window(s) && Enabled(s, LeaveInFlight(i))
    ensures Window(ApplyLeave(s, i))
    ensures s.pwqs[s.items[i].pwq].inFlight[s.items[i].color] > 0
  {
    LeaveCounts(s.pwqs, s.items, i, ApplyLeave(s, i).pwqs[s.items[i].pwq].flushColor);
  }

  lemma LeaveKeepsDrain(s: State, i: ItemId)
    requires Shaped(s) && ControlOk(s) && DrainOk(s) && Enabled(s, LeaveInFlight(i))
    requires s.pwqs[s.items[i].pwq].inFlight[s.items[i].color] > 0
    ensures var s' := ApplyLeave(s, i); Shaped(s') && ControlOk(s') && DrainOk(s')
  {
    LeaveKeepsArmed(s, i);
    CompleteFirstDone(s.flushers, s.first);
    hide ArmedRight, CompleteFirst, Armed;
  }

  lemma LeaveKeepsArmed(s: State, i: ItemId)
    requires Enabled(s, LeaveInFlight(i)) && DrainOk(s)
    requires s.pwqs[s.items[i].pwq].inFlight[s.items[i].color] > 0
    ensures var s' := ApplyLeave(s, i);
      && Shaped(s') && ArmedCounted(s'.pwqs, s'.nrPwqsToFlush, s'.first, s'.pc)
      && ArmedRight(s'.pwqs, s'.flushColor, s'.first, s'.pc)
  {
    hide Armed, CompleteAll, ArmedRight, ArmedCounted;
    LeaveKeepsCount(s, i);
    LeaveKeepsRight(s, i);
  }

  lemma LeaveKeepsCount(s: State, i: ItemId)
    requires Enabled(s, LeaveInFlight(i)) && DrainOk(s)
    ensures var s' := ApplyLeave(s, i); ArmedCounted(s'.pwqs, s'.nrPwqsToFlush, s'.first, s'.pc)
  {
    hide ArmedRight, CompleteAll;
    LeaveArmed(s, i);
    assert s.items[i].pwq in Armed(s.pwqs) <==> s.pwqs[s.items[i].pwq].flushColor.Some?;
    hide Armed;
  }

  lemma LeaveKeepsRight(s: State, i: ItemId)
    requires Enabled(s, LeaveInFlight(i)) && DrainOk(s)
    requires s.pwqs[s.items[i].pwq].inFlight[s.items[i].color] > 0
    ensures var s' := ApplyLeave(s, i); Shaped(s') && ArmedRight(s'.pwqs, s'.flushColor, s'.first, s'.pc)
  {
    hide ArmedCounted, CompleteAll;
  }

  lemma LeaveArmed(s: State, i: ItemId)
    requires Enabled(s, LeaveInFlight(i))
    ensures var s', p := ApplyLeave(s, i), s.items[i].pwq;
      Armed(s'.pwqs) == if s'.pwqs[p].flushColor.None? then Armed(s.pwqs) - {p} else Armed(s.pwqs)
  {
  }

  lemma CompleteFirstDone(flushers: map<FlusherId, Flusher>, first: Option<FlusherId>)
    ensures var fl := CompleteFirst(flushers, first);
      && fl.Keys == flushers.Keys
      && (first.Some? && first.value in flushers ==> fl[first.value].done)
  {
  }

  lemma LeaveKeepsPlaces(s: State, i: ItemId)
    requires Enabled(s, LeaveInFlight(i)) && FlushersOk(s)
    ensures FlushersOk(ApplyLeave(s, i))
  {
    QueueFrame(s.queue, s.flushers, ApplyLeave(s, i).flushers, s.flushColor, s.workColor, s.colors,
               if Advanced(s.pc) then 0 else 1);
  }

  lemma LeaveKeepsSnapshots(s: State, i: ItemId)
    requires Window(s) && ControlOk(s) && DrainOk(s) && Enabled(s, LeaveInFlight(i))
    requires FirstOk(s.first, s.queue, s.overflow, s.flushers, s.flushColor)
    requires SnapshotsCovered(s.flushers, s.items, s.used, s.flushColor, s.colors)
    ensures var s' := ApplyLeave(s, i);
            SnapshotsCovered(s'.flushers, s'.items, s'.used, s'.flushColor, s'.colors)
  {
    hide CountersAgree, PwqColors, ArmedRight, ArmedCounted, ControlOk, NextColor;
    var s' := ApplyLeave(s, i);
    if s'.flushers != s.flushers {
      LeaveEmptiesColor(s, i);
    }
  }

  /** The item whose leaving completes the first flusher is the last one of the flush color. */
  lemma LeaveEmptiesColor(s: State, i: ItemId)
    requires Window(s) && ControlOk(s) && DrainOk(s) && Enabled(s, LeaveInFlight(i))
    requires ApplyLeave(s, i).flushers != s.flushers
    ensures var s' := ApplyLeave(s, i); forall j :: j in s'.items ==> s'.items[j].color != s'.flushColor
  {
    var s' := ApplyLeave(s, i);
    LeaveKeepsWindow(s, i);
    LeaveKeepsDrain(s, i);
    NoneArmedIffZero(s'.pwqs);
    hide CountersAgree, PwqColors, ItemsInWindow, ItemsAt;
    NoItemsOfColor(s');
  }

  // all steps

  lemma NotYetPlaced(s: State, f: FlusherId)
    requires FlushersOk(s) && Enabled(s, StartFlush(f)) && (s.first.None? ==> Width(s) == 0)
    ensures f !in s.queue && f !in s.overflow && !s.flushers[f].done && s.first != Some(f)
    ensures s.first.None? ==> s.queue == []
    ensures forall k :: 0 <= k < |s.queue| ==> Waits(s.flushers, s.queue[k])
  {
    assert forall k :: 0 <= k < |s.queue| ==> WaitsForColor(s.flushers, s.queue[k], s.colors);
  }

  lemma StartKeepsFlushers(s: State, f: FlusherId)
    requires Shaped(s) && FlushersOk(s) && ControlOk(s) && (s.first.Some? ==> Width(s) > 0)
    requires Enabled(s, StartFlush(f))
    ensures FlushersOk(ApplyStart(s, f))
  {
    hide QueueOk, OverflowOk, FirstOk, NobodyLost;
    NotYetPlaced(s, f);
    StartKeepsQueue(s, f);
    StartKeepsPlaces(s, f);
  }

  lemma StartKeepsInv(s: State, f: FlusherId)
    requires Inv(s) && Enabled(s, StartFlush(f))
    ensures Inv(ApplyStart(s, f))
  {
    StartKeepsFlushers(s, f);
    NotYetPlaced(s, f);
    StartKeepsWindow(s, f);
    StartKeepsDrain(s, f);
    StartKeepsSnapshots(s, f);
    hide Window, FlushersOk, ControlOk, DrainOk, SnapshotsCovered, ApplyStart;
  }

  lemma PrepDoneKeepsFlushers(s: State)
    requires Inv(s) && Enabled(s, PrepDone)
    ensures FlushersOk(ApplyPrepDone(s))
  {
    hide CountersAgree, PwqColors, ItemsInWindow, ArmedCounted, ArmedRight, SnapshotsCovered, QueueOk, NobodyLost;
    PrepDoneKeepsQueue(s);
    PrepDoneKeepsPlaces(s);
  }

  lemma PrepDoneKeepsInv(s: State)
    requires Inv(s) && Enabled(s, PrepDone)
    ensures Inv(ApplyPrepDone(s))
  {
    PrepDoneKeepsFlushers(s);
    PrepDoneKeepsWindow(s);
    PrepDoneKeepsDrain(s);
    PrepDoneKeepsSnapshots(s);
    hide Window, FlushersOk, ControlOk, DrainOk, SnapshotsCovered, ApplyPrepDone;
  }

  lemma CascadeKeepsFlushers(s: State)
    requires FlushersOk(s) && ControlOk(s) && Enabled(s, Cascade)
    ensures FlushersOk(ApplyCascade(s))
    ensures SameColorPrefix(s.queue, s.flushers, s.flushColor) == |s.queue| ==>
              s.workColor == NextColor(s.flushColor, s.colors)
    ensures s.overflow != [] ==> NextColor(s.workColor, s.colors) == s.flushColor
  {
    hide FirstOk, NobodyLost, ColorsInRange, SameColorPrefix, Shaped, QueueOk;
    CascadeKeepsQueue(s);
    QueueWaits(s.queue, s.flushers, s.flushColor, s.workColor, s.colors, 1);
    CascadeKeepsPlaces(s);
  }

  lemma QueueWaits(queue: seq<FlusherId>, flushers: map<FlusherId, Flusher>, flush: nat, work: nat, n: nat, lo: nat)
    requires QueueOk(queue, flushers, flush, work, n, lo)
    ensures forall k :: 0 <= k < |queue| ==> Waits(flushers, queue[k])
  {
    assert forall k :: 0 <= k < |queue| ==> WaitsForColor(flushers, queue[k], n);
  }

  lemma CascadeKeepsInv(s: State)
    requires Inv(s) && Enabled(s, Cascade)
    ensures Inv(ApplyCascade(s))
  {
    hide SnapshotsCovered, SameColorPrefix, FlushersOk, CountersAgree, PwqColors, ItemsInWindow, ArmedCounted,
         ArmedRight;
    CascadeKeepsFlushers(s);
    CascadeKeepsDrain(s);
    CascadeKeepsWindow(s);
    RangeOf(s);
    CascadeKeepsSnapshots(s);
  }

  lemma RangeOf(s: State)
    requires FlushersOk(s)
    ensures ColorsInRange(s.flushers, s.colors)
  {
  }

  lemma PickKeepsInv(s: State)
    requires Inv(s) && Enabled(s, Pick)
    ensures Inv(ApplyPick(s))
  {
    if s.queue != [] {
      QueuePop(s.queue, s.flushers, s.flushColor, s.workColor, s.colors);
      assert WaitsForColor(s.flushers, s.queue[0], s.colors);
    }
    PickKeepsFlushers(s);
    PickKeepsDrain(s);
  }

  lemma LinkKeepsWindow(s: State, p: PwqId)
    requires Window(s) && Enabled(s, LinkPwq(p))
    ensures Window(Apply(s, LinkPwq(p)))
  {
    forall c ensures ItemsAt(s.items, p, c) == {} {}
  }

  lemma LinkKeepsDrain(s: State, p: PwqId)
    requires Shaped(s) && ControlOk(s) && DrainOk(s) && Enabled(s, LinkPwq(p))
    ensures var s' := Apply(s, LinkPwq(p)); Shaped(s') && ControlOk(s') && DrainOk(s')
  {
    assert Armed(Apply(s, LinkPwq(p)).pwqs) == Armed(s.pwqs);
  }

  lemma LinkKeepsInv(s: State, p: PwqId)
    requires Inv(s) && Enabled(s, LinkPwq(p))
    ensures Inv(Apply(s, LinkPwq(p)))
  {
    hide Window, DrainOk, SnapshotsCovered, QueueOk, OverflowOk, FirstOk, NobodyLost;
    WindowShaped(s);
    LinkKeepsWindow(s, p);
    LinkKeepsDrain(s, p);
  }

  lemma UnlinkKeepsInv(s: State, p: PwqId)
    requires Inv(s) && Enabled(s, UnlinkPwq(p))
    ensures Inv(Apply(s, UnlinkPwq(p)))
  {
    hide Window, DrainOk, SnapshotsCovered, QueueOk, OverflowOk, FirstOk, NobodyLost;
    WindowShaped(s);
    UnlinkKeepsWindow(s, p);
    UnlinkKeepsDrain(s, p);
  }

  lemma WindowShaped(s: State)
    requires Window(s)
    ensures Shaped(s) && CountersAgree(s.pwqs, s.items)
  {
  }

  lemma UnlinkKeepsWindow(s: State, p: PwqId)
    requires Window(s) && Enabled(s, UnlinkPwq(p))
    ensures Window(Apply(s, UnlinkPwq(p)))
  {
    hide ItemsAt, NextColor;
  }

  lemma UnlinkKeepsDrain(s: State, p: PwqId)
    requires Shaped(s) && CountersAgree(s.pwqs, s.items) && ControlOk(s) && DrainOk(s) && Enabled(s, UnlinkPwq(p))
    ensures var s' := Apply(s, UnlinkPwq(p)); Shaped(s') && ControlOk(s') && DrainOk(s')
  {
    assert ItemsAt(s.items, p, s.flushColor) == {};
    assert Armed(s.pwqs - {p}) == Armed(s.pwqs);
  }

  lemma EnterKeepsFlushers(s: State, f: FlusherId)
    requires FlushersOk(s) && f !in s.flushers
    ensures FlushersOk(s.(flushers := s.flushers[f := Flusher(None, false, false, s.items.Keys)]))
  {
    var fl := s.flushers[f := Flusher(None, false, false, s.items.Keys)];
    QueueFrame(s.queue, s.flushers, fl, s.flushColor, s.workColor, s.colors, if Advanced(s.pc) then 0 else 1);
  }

  lemma EnterKeepsInv(s: State, f: FlusherId)
    requires Inv(s) && Enabled(s, EnterFlush(f))
    ensures Inv(Apply(s, EnterFlush(f)))
  {
    hide CountersAgree, PwqColors, QueueOk, OverflowOk, NobodyLost, ArmedCounted, ArmedRight, SnapshotsCovered;
    EnterKeepsFlushers(s, f);
    EnterKeepsCovered(s, f);
    assert FirstOk(s.first, s.queue, s.overflow, s.flushers, s.flushColor);
  }

  lemma EnterKeepsCovered(s: State, f: FlusherId)
    requires SnapshotsCovered(s.flushers, s.items, s.used, s.flushColor, s.colors) && s.items.Keys <= s.used
    ensures SnapshotsCovered(s.flushers[f := Flusher(None, false, false, s.items.Keys)], s.items, s.used, s.flushColor,
      s.colors)
  {
  }

  lemma PrepPwqKeepsInv(s: State, p: PwqId)
    requires Inv(s) && Enabled(s, PrepPwq(p))
    ensures Inv(ApplyPrepPwq(s, p))
  {
    PrepPwqKeepsWindow(s, p);
    PrepPwqKeepsDrain(s, p);
    hide Window, DrainOk, SnapshotsCovered, QueueOk, OverflowOk, FirstOk, NobodyLost;
  }

  lemma WakeKeepsInv(s: State, f: FlusherId)
    requires Inv(s) && Enabled(s, Wake(f))
    ensures Inv(Apply(s, Wake(f)))
  {
    NoneArmedIffZero(s.pwqs);
    hide QueueOk, OverflowOk;
  }

  lemma LeaveKeepsInv(s: State, i: ItemId)
    requires Inv(s) && Enabled(s, LeaveInFlight(i))
    ensures Inv(ApplyLeave(s, i))
  {
    LeaveKeepsWindow(s, i);
    LeaveKeepsDrain(s, i);
    LeaveKeepsPlaces(s, i);
    LeaveKeepsSnapshots(s, i);
    hide Window, FlushersOk, ControlOk, DrainOk, SnapshotsCovered, ApplyLeave;
  }

  lemma QueueIsAddItem(s: State, i: ItemId, p: PwqId)
    requires Enabled(s, QueueWork(i, p)) && s.pwqs[p].workColor < s.colors
    ensures ApplyQueue(s, i, p) == AddItem(s, i, p, s.pwqs[p].workColor)
  {
    assert s.pwqs == s.pwqs[p := s.pwqs[p]];
  }

  lemma QueueWorkKeepsInv(s: State, i: ItemId, p: PwqId)
    requires Inv(s) && Enabled(s, QueueWork(i, p))
    ensures Inv(ApplyQueue(s, i, p))
  {
    assert s.pwqs[p].workColor < s.colors;
    hide Inv;
    QueueIsAddItem(s, i, p);
    AddItemKeepsInv(s, i, p, s.pwqs[p].workColor);
    hide AddItem, ApplyQueue;
  }

  lemma StepKeepsInv(s: State, step: Step)
    requires Inv(s) && Enabled(s, step)
    ensures Inv(Apply(s, step))
  {
    hide Inv, ApplyStart, ApplyPrepPwq, ApplyPrepDone, ApplyCascade, ApplyPick, ApplyQueue, ApplyBarrier, ApplyLeave;
    match step
    case EnterFlush(f) => EnterKeepsInv(s, f);
    case StartFlush(f) => StartKeepsInv(s, f);
    case PrepPwq(p) => PrepPwqKeepsInv(s, p);
    case PrepDone => PrepDoneKeepsInv(s);
    case Wake(f) => WakeKeepsInv(s, f);
    case Cascade => CascadeKeepsInv(s);
    case Pick => PickKeepsInv(s);
    case QueueWork(i, p) => QueueWorkKeepsInv(s, i, p);
    case InsertBarrier(i, t) => BarrierKeepsInv(s, i, t);
    case LeaveInFlight(i) => LeaveKeepsInv(s, i);
    case LinkPwq(p) => LinkKeepsInv(s, p);
    case UnlinkPwq(p) => UnlinkKeepsInv(s, p);
  }

  lemma BarrierKeepsInv(s: State, i: ItemId, t: ItemId)
    requires Inv(s) && Enabled(s, InsertBarrier(i, t))
    ensures Inv(ApplyBarrier(s, i, t))
  {
    var p, c := s.items[t].pwq, s.items[t].color;
    hide Window, FlushersOk, ControlOk, DrainOk, SnapshotsCovered, Joined;
    AddItemKeepsInv(s, i, p, c);
    JoinedKeepsFlushers(AddItem(s, i, p, c), t, i);
    JoinedKeepsRest(AddItem(s, i, p, c), t, i);
    JoinedKeepsCovered(s.flushers, s.items, s.used, i, t, p, s.flushColor, s.colors);
  }

  lemma JoinedStanding(fl: map<FlusherId, Flusher>, t: ItemId, i: ItemId)
    ensures Joined(fl, t, i).Keys == fl.Keys && forall f :: f in fl ==> SameStanding(fl[f], Joined(fl, t, i)[f])
  {
  }

  lemma JoinedKeepsFlushers(s: State, t: ItemId, i: ItemId)
    requires FlushersOk(s)
    ensures FlushersOk(s.(flushers := Joined(s.flushers, t, i)))
  {
    hide QueueOk, Joined;
    JoinedStanding(s.flushers, t, i);
    var lo := if Advanced(s.pc) then 0 else 1;
    QueueHasColors(s.queue, s.flushers, s.flushColor, s.workColor, s.colors, lo);
    QueueFrame(s.queue, s.flushers, Joined(s.flushers, t, i), s.flushColor, s.workColor, s.colors, lo);
  }

  lemma JoinedKeepsRest(s: State, t: ItemId, i: ItemId)
    requires Window(s) && ControlOk(s) && DrainOk(s)
    ensures var s' := s.(flushers := Joined(s.flushers, t, i)); Window(s') && ControlOk(s') && DrainOk(s')
  {
    hide Joined, CountersAgree, PwqColors, ItemsInWindow, ArmedCounted, ArmedRight;
    JoinedStanding(s.flushers, t, i);
  }

  /** The barrier has the color of its item, so whoever waits for that color outlasts the barrier too. */
  lemma JoinedKeepsCovered(fl: map<FlusherId, Flusher>, items: map<ItemId, Item>, used: set<ItemId>, i: ItemId,
                           t: ItemId, p: PwqId, flush: nat, n: nat)
    requires SnapshotsCovered(fl, items, used, flush, n) && i !in used && t in items
    ensures SnapshotsCovered(Joined(fl, t, i), items[i := Item(p, items[t].color)], used + {i}, flush, n)
  {
    hide Ahead;
  }
}
