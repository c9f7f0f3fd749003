/**
 When things happened in the hook protocol, told from the steps of a run alone: the clock counts
 ticks, every caller is recorded as it arrived, every reading comes from one finished hook, and no
 probe returns a reading finished in an earlier tick than the one it arrived in.
 */
module HooksTime {
  import opened Options
  import opened Hooks

  function Ticks(steps: seq<Step>): nat
  {
    if steps == [] then 0 else Ticks(steps[..|steps| - 1]) + if steps[|steps| - 1].Tick? then 1 else 0
  }

  lemma {:induction false} TicksAppend(a: seq<Step>, b: seq<Step>)
    ensures Ticks(a + b) == Ticks(a) + Ticks(b)
  {
    if b == [] {
      assert a + b == a;
    } else {
      assert (a + b)[..|a + b| - 1] == a + b[..|b| - 1];
      TicksAppend(a, b[..|b| - 1]);
    }
  }

  /** `id` first arrives at this step. */
  ghost predicate ArrivesAt(steps: seq<Step>, id: nat, k: nat) {
    && k < |steps| && steps[k].Arrive? && steps[k].id == id
    && forall j :: 0 <= j < k ==> !(steps[j].Arrive? && steps[j].id == id)
  }

  /** What a caller asked for when it arrived, and when. */
  ghost predicate RequestedAt(steps: seq<Step>, id: nat, r: Request, k: nat) {
    && ArrivesAt(steps, id, k)
    && r == Request(steps[k].kind, LockKey(steps[k].subs), steps[k].question, Ticks(steps[..k]))
  }

  /** At this step a hook that began at log position `reading.run` finishes with this reading. */
  ghost predicate FinishesAt(steps: seq<Step>, reading: Reading, m: nat) {
    && m < |steps| && steps[m].Finish?
    && var s := Run(SOURCE_RULES, steps[..m]);
       && steps[m].id in s.clients
       && s.clients[steps[m].id].phase == Running(reading.run)
       && s.clients[steps[m].id].request.question == reading.command
       && steps[m].output == reading.output
  }

  /** Every caller is recorded as it arrived. */
  ghost predicate CallersInv(steps: seq<Step>, s: State) {
    forall i :: i in s.clients ==> exists k: nat :: RequestedAt(steps, i, s.clients[i].request, k)
  }

  /** Nobody arrived but the callers. */
  ghost predicate NobodyElse(steps: seq<Step>, s: State) {
    forall k :: 0 <= k < |steps| && steps[k].Arrive? ==> steps[k].id in s.clients
  }

  ghost predicate StoredAt(steps: seq<Step>, slot: Slot, m: nat) {
    FinishesAt(steps, slot.reading, m) && slot.doneAt == Ticks(steps[..m])
  }

  /** Every stored answer is some finished hook's, at its time. */
  ghost predicate SlotsInv(steps: seq<Step>, s: State) {
    forall k :: k in s.slots ==> exists m: nat :: StoredAt(steps, s.slots[k], m)
  }

  /** Whatever a caller returned was read by a hook; a probe's, no tick earlier than it arrived. */
  ghost predicate ReadingsInv(steps: seq<Step>, s: State) {
    forall i :: i in s.clients && s.clients[i].phase.Returned? ==> ReadingOk(steps, s, i)
  }

  ghost predicate ReadingOk(steps: seq<Step>, s: State, i: nat)
    requires i in s.clients && s.clients[i].phase.Returned?
  {
    exists m: nat :: FinishesSince(steps, s.clients[i].phase.reading, m, s.clients[i].request.arrived)
  }

  ghost predicate FinishesSince(steps: seq<Step>, reading: Reading, m: nat, arrived: nat) {
    FinishesAt(steps, reading, m) && arrived <= Ticks(steps[..m])
  }

  lemma {:induction false} NowIsTicks(rules: Rules, steps: seq<Step>)
    ensures Run(rules, steps).now == Ticks(steps)
  {
    if steps != [] {
      NowIsTicks(rules, steps[..|steps| - 1]);
      hide LockKey, Serves;
    }
  }

  /** A longer run keeps what happened where. */
  lemma Earlier(steps: seq<Step>, step: Step, k: nat)
    requires k <= |steps|
    ensures (steps + [step])[..k] == steps[..k]
    ensures k < |steps| ==> (steps + [step])[k] == steps[k]
  {
  }

  lemma RequestStays(steps: seq<Step>, step: Step, id: nat, r: Request, k: nat)
    requires RequestedAt(steps, id, r, k)
    ensures RequestedAt(steps + [step], id, r, k)
  {
    Earlier(steps, step, k);
  }

  lemma FinishStays(steps: seq<Step>, step: Step, reading: Reading, m: nat)
    requires FinishesAt(steps, reading, m)
    ensures FinishesAt(steps + [step], reading, m) && (steps + [step])[..m] == steps[..m]
  {
    Earlier(steps, step, m);
  }

  /** A step never changes what an earlier caller asked, and adds at most the one that arrives. */
  lemma NextCallers(rules: Rules, s: State, step: Step)
    ensures var s' := Next(rules, s, step);
            && (forall i :: i in s.clients ==> i in s'.clients && s'.clients[i].request == s.clients[i].request)
            && (forall i :: i in s'.clients && i !in s.clients ==>
                  && step.Arrive? && step.id == i
                  && s'.clients[i] == Client(Request(step.kind, LockKey(step.subs), step.question, s.now), Waiting))
            && (step.Arrive? ==> step.id in s'.clients)
  {
    hide LockKey, Serves;
  }

  lemma CallersKept(steps: seq<Step>, step: Step)
    requires var s := Run(SOURCE_RULES, steps); CallersInv(steps, s) && NobodyElse(steps, s)
    ensures var all := steps + [step];
            var s := Run(SOURCE_RULES, all); CallersInv(all, s) && NobodyElse(all, s)
  {
    hide Next, RequestedAt;
    var s, all := Run(SOURCE_RULES, steps), steps + [step];
    RunOneMore(SOURCE_RULES, steps, step);
    hide Run;
    NextCallers(SOURCE_RULES, s, step);
    NowIsTicks(SOURCE_RULES, steps);
    var s' := Next(SOURCE_RULES, s, step);
    forall i | i in s'.clients ensures exists k: nat :: RequestedAt(all, i, s'.clients[i].request, k) {
      if i in s.clients {
        var k: nat :| RequestedAt(steps, i, s.clients[i].request, k);
        RequestStays(steps, step, i, s.clients[i].request, k);
      } else {
        ArrivesNow(steps, step, s, i);
      }
    }
    forall k | 0 <= k < |all| && all[k].Arrive? ensures all[k].id in s'.clients {
      if k < |steps| {
        assert all[k] == steps[k];
      }
    }
  }

  lemma ArrivesNow(steps: seq<Step>, step: Step, s: State, i: nat)
    requires NobodyElse(steps, s) && i !in s.clients && step.Arrive? && step.id == i
    ensures RequestedAt(steps + [step], i, Request(step.kind, LockKey(step.subs), step.question, Ticks(steps)), |steps|)
  {
    hide LockKey;
    var all := steps + [step];
    assert all[..|steps|] == steps;
    forall j | 0 <= j < |steps| ensures !(all[j].Arrive? && all[j].id == i) {
      assert all[j] == steps[j];
    }
  }

  /** A step stores or returns only an old answer or the one it finishes. */
  lemma NextReadings(s: State, step: Step)
    ensures var s' := Next(SOURCE_RULES, s, step);
            && (forall k :: k in s'.slots ==>
                  || (k in s.slots && s'.slots[k] == s.slots[k])
                  || (Finishing(s, step) && s'.slots[k] == Slot(s.now, Finished(s, step))))
            && (forall i :: i in s'.clients && s'.clients[i].phase.Returned? ==>
                  || (i in s.clients && s'.clients[i].phase == s.clients[i].phase)
                  || (Finishing(s, step) && i == step.id && s'.clients[i].phase.reading == Finished(s, step))
                  || exists k :: k in s.slots && s'.clients[i].phase.reading == s.slots[k].reading
                                 && s'.clients[i].request.arrived <= s.slots[k].doneAt)
  {
    hide LockKey;
  }

  ghost predicate Finishing(s: State, step: Step) {
    step.Finish? && step.id in s.clients && s.clients[step.id].phase.Running?
  }

  ghost function Finished(s: State, step: Step): Reading
    requires Finishing(s, step)
  {
    Reading(s.clients[step.id].request.question, step.output, s.clients[step.id].phase.run)
  }

  lemma FinishesNow(steps: seq<Step>, step: Step)
    requires Finishing(Run(SOURCE_RULES, steps), step)
    ensures FinishesAt(steps + [step], Finished(Run(SOURCE_RULES, steps), step), |steps|)
    ensures (steps + [step])[..|steps|] == steps
  {
    hide Run;
    assert (steps + [step])[..|steps|] == steps;
  }

  lemma SlotsKept(steps: seq<Step>, step: Step)
    requires SlotsInv(steps, Run(SOURCE_RULES, steps))
    ensures SlotsInv(steps + [step], Run(SOURCE_RULES, steps + [step]))
  {
    hide Next, FinishesAt, Finished;
    var s, all := Run(SOURCE_RULES, steps), steps + [step];
    RunOneMore(SOURCE_RULES, steps, step);
    NextReadings(s, step);
    NowIsTicks(SOURCE_RULES, steps);
    var s' := Run(SOURCE_RULES, all);
    forall k | k in s'.slots ensures exists m: nat :: StoredAt(all, s'.slots[k], m) {
      if k in s.slots && s'.slots[k] == s.slots[k] {
        var m: nat :| StoredAt(steps, s.slots[k], m);
        FinishStays(steps, step, s.slots[k].reading, m);
        assert StoredAt(all, s'.slots[k], m);
      } else {
        FinishesNow(steps, step);
        assert StoredAt(all, s'.slots[k], |steps|);
      }
    }
  }

  lemma ReadingsKept(steps: seq<Step>, step: Step)
    requires var s := Run(SOURCE_RULES, steps); SlotsInv(steps, s) && ReadingsInv(steps, s) && LockInv(s)
    ensures ReadingsInv(steps + [step], Run(SOURCE_RULES, steps + [step]))
  {
    hide Next, FinishesAt, Finished, RunnerOk;
    var s, all := Run(SOURCE_RULES, steps), steps + [step];
    RunOneMore(SOURCE_RULES, steps, step);
    NextReadings(s, step);
    NextCallers(SOURCE_RULES, s, step);
    NowIsTicks(SOURCE_RULES, steps);
    var s' := Run(SOURCE_RULES, all);
    forall i | i in s'.clients && s'.clients[i].phase.Returned? ensures ReadingOk(all, s', i) {
      if i in s.clients && s'.clients[i].phase == s.clients[i].phase {
        assert ReadingOk(steps, s, i);
        var m: nat :| FinishesSince(steps, s.clients[i].phase.reading, m, s.clients[i].request.arrived);
        FinishStays(steps, step, s.clients[i].phase.reading, m);
        assert FinishesSince(all, s.clients[i].phase.reading, m, s.clients[i].request.arrived);
      } else if Finishing(s, step) && i == step.id && s'.clients[i].phase.reading == Finished(s, step) {
        FinishesNow(steps, step);
        assert FinishesSince(all, Finished(s, step), |steps|, s'.clients[i].request.arrived);
      } else {
        var k :| k in s.slots && s'.clients[i].phase.reading == s.slots[k].reading
                 && s'.clients[i].request.arrived <= s.slots[k].doneAt;
        var m: nat :| StoredAt(steps, s.slots[k], m);
        FinishStays(steps, step, s.slots[k].reading, m);
        assert FinishesSince(all, s.slots[k].reading, m, s'.clients[i].request.arrived);
      }
    }
  }

  ghost predicate TimeInv(steps: seq<Step>) {
    var s := Run(SOURCE_RULES, steps);
    CallersInv(steps, s) && NobodyElse(steps, s) && SlotsInv(steps, s) && ReadingsInv(steps, s)
  }

  lemma {:induction false} EverythingHasItsTime(steps: seq<Step>)
    ensures TimeInv(steps)
  {
    if steps != [] {
      hide CallersInv, NobodyElse, SlotsInv, ReadingsInv, Run, LockInv, SlotInv, AnswersInv;
      var front, last := steps[..|steps| - 1], steps[|steps| - 1];
      assert front + [last] == steps;
      EverythingHasItsTime(front);
      RunKeeps(front);
      CallersKept(front, last);
      SlotsKept(front, last);
      ReadingsKept(front, last);
    }
  }

  // ------------------------------------------------------------------ one reading, one hook

  /** The hook that began there is over. */
  ghost predicate Over(s: State, run: nat) {
    run < |s.log| && forall i :: i in s.clients ==> s.clients[i].phase != Running(run)
  }

  /** Hooks in flight began at different places. */
  ghost predicate RunsDistinct(s: State) {
    && (forall i :: i in s.clients && s.clients[i].phase.Running? ==> s.clients[i].phase.run < |s.log|)
    && forall i, j ::
         (i in s.clients && j in s.clients && s.clients[i].phase.Running?
          && s.clients[i].phase == s.clients[j].phase) ==> i == j
  }

  lemma EndRuns(s: State, step: Step)
    requires RunsDistinct(s) && !step.Acquire?
    ensures var s' := Next(SOURCE_RULES, s, step);
            && RunsDistinct(s') && |s.log| <= |s'.log|
            && (forall run :: Over(s, run) ==> Over(s', run))
            && (Finishing(s, step) ==> Over(s', s.clients[step.id].phase.run))
  {
    hide LockKey, Serves, TakeLock, LockFree;
  }

  lemma BeginRuns(s: State, id: nat)
    requires RunsDistinct(s)
    ensures var s' := Next(SOURCE_RULES, s, Acquire(id));
            && RunsDistinct(s') && |s.log| <= |s'.log|
            && forall run :: Over(s, run) ==> Over(s', run)
  {
    hide LockKey, Serves, Complete, Release;
  }

  lemma NextRuns(s: State, step: Step)
    requires RunsDistinct(s)
    ensures var s' := Next(SOURCE_RULES, s, step);
            && RunsDistinct(s') && |s.log| <= |s'.log|
            && (forall run :: Over(s, run) ==> Over(s', run))
            && (Finishing(s, step) ==> Over(s', s.clients[step.id].phase.run))
  {
    hide Next, RunsDistinct, Over;
    if step.Acquire? {
      BeginRuns(s, step.id);
    } else {
      EndRuns(s, step);
    }
  }

  lemma {:induction false} AlwaysDistinct(steps: seq<Step>)
    ensures RunsDistinct(Run(SOURCE_RULES, steps))
  {
    if steps != [] {
      hide Next, RunsDistinct;
      AlwaysDistinct(steps[..|steps| - 1]);
      NextRuns(Run(SOURCE_RULES, steps[..|steps| - 1]), steps[|steps| - 1]);
    }
  }

  lemma {:induction false} StaysOver(steps: seq<Step>, k: nat, run: nat)
    requires k <= |steps| && Over(Run(SOURCE_RULES, steps[..k]), run)
    ensures Over(Run(SOURCE_RULES, steps), run)
    decreases |steps|
  {
    hide Next, Over, RunsDistinct;
    if k == |steps| {
      assert steps[..k] == steps;
    } else {
      var front := steps[..|steps| - 1];
      assert front[..k] == steps[..k];
      StaysOver(front, k, run);
      AlwaysDistinct(front);
      NextRuns(Run(SOURCE_RULES, front), steps[|steps| - 1]);
    }
  }

  /** A hook finishes at most once. */
  lemma FinishesOnce(steps: seq<Step>, r: Reading, k: nat, q: Reading, m: nat)
    requires FinishesAt(steps, r, k) && FinishesAt(steps, q, m) && r.run == q.run
    ensures k == m
  {
    if k < m {
      FinishedBefore(steps, r, k, q, m);
    } else if m < k {
      FinishedBefore(steps, q, m, r, k);
    }
  }

  lemma FinishedBefore(steps: seq<Step>, r: Reading, k: nat, q: Reading, m: nat)
    requires FinishesAt(steps, r, k) && FinishesAt(steps, q, m) && k < m
    ensures r.run != q.run
  {
    hide Next, RunsDistinct;
    var s := Run(SOURCE_RULES, steps[..k]);
    AlwaysDistinct(steps[..k]);
    NextRuns(s, steps[k]);
    assert steps[..k + 1] == steps[..k] + [steps[k]];
    RunOneMore(SOURCE_RULES, steps[..k], steps[k]);
    assert steps[..m][..k + 1] == steps[..k + 1];
    hide Run;
    StaysOver(steps[..m], k + 1, r.run);
  }

  // ------------------------------------------------------------------ what is promised

  lemma Evidence(steps: seq<Step>, j: nat) returns (k: nat, m: nat)
    requires var s := Run(SOURCE_RULES, steps); j in s.clients && s.clients[j].phase.Returned?
    ensures k < |steps| && m < |steps| && Ticks(steps[..k]) <= Ticks(steps[..m])
    ensures ArrivesAt(steps, j, k) && FinishesAt(steps, Run(SOURCE_RULES, steps).clients[j].phase.reading, m)
  {
    hide Run;
    EverythingHasItsTime(steps);
    var s := Run(SOURCE_RULES, steps);
    assert ReadingOk(steps, s, j);
    m :| FinishesSince(steps, s.clients[j].phase.reading, m, s.clients[j].request.arrived);
    k :| RequestedAt(steps, j, s.clients[j].request, k);
  }

  /**
   In any run, a caller that has returned was recorded as it arrived, and its reading is the output
   of a hook that asked its question and finished in no earlier tick than the caller arrived in.
   */
  lemma ReturnedReadingIsFresh(steps: seq<Step>, j: nat)
    ensures var s := Run(SOURCE_RULES, steps);
            j in s.clients && s.clients[j].phase.Returned? ==>
              exists k: nat, m: nat ::
                && ArrivesAt(steps, j, k) && FinishesAt(steps, s.clients[j].phase.reading, m)
                && Ticks(steps[..k]) <= Ticks(steps[..m])
  {
    var s := Run(SOURCE_RULES, steps);
    if j in s.clients && s.clients[j].phase.Returned? {
      hide Run, FinishesAt, ArrivesAt;
      var k, m := Evidence(steps, j);
    }
  }

  /**
   Whatever comes before, between and after: a caller that arrives at least one tick after a hook
   finished never returns that hook's reading.
   */
  lemma NeverToldOfThePast(a: seq<Step>, finish: Step, b: seq<Step>, arrive: Step, c: seq<Step>)
    requires Finishing(Run(SOURCE_RULES, a), finish)
    requires (exists i :: 0 <= i < |b| && b[i].Tick?) && arrive.Arrive?
    requires forall i :: 0 <= i < |a + b| ==> !((a + b)[i].Arrive? && (a + b)[i].id == arrive.id)
    ensures var s := Run(SOURCE_RULES, a + [finish] + b + [arrive] + c);
            arrive.id in s.clients && s.clients[arrive.id].phase.Returned? ==>
              s.clients[arrive.id].phase.reading.run != Finished(Run(SOURCE_RULES, a), finish).run
  {
    hide Run, FinishesAt, ArrivesAt, Ticks;
    var steps := a + [finish] + b + [arrive] + c;
    var s := Run(SOURCE_RULES, steps);
    if arrive.id in s.clients && s.clients[arrive.id].phase.Returned? {
      var k, m := Evidence(steps, arrive.id);
      assert steps == a + [finish] + (b + [arrive] + c);
      FinishPlaced(a, finish, b + [arrive] + c);
      ArrivalPlaced(a, finish, b, arrive, c, k);
      LaterTick(a, finish, b, [arrive] + c);
      assert steps == a + [finish] + b + ([arrive] + c);
      if s.clients[arrive.id].phase.reading.run == Finished(Run(SOURCE_RULES, a), finish).run {
        FinishesOnce(steps, s.clients[arrive.id].phase.reading, m, Finished(Run(SOURCE_RULES, a), finish), |a|);
      }
    }
  }

  lemma LaterTick(a: seq<Step>, finish: Step, b: seq<Step>, rest: seq<Step>)
    requires exists i :: 0 <= i < |b| && b[i].Tick?
    ensures var steps := a + [finish] + b + rest; Ticks(steps[..|a|]) < Ticks(steps[..|a| + 1 + |b|])
  {
    hide Ticks;
    var steps := a + [finish] + b + rest;
    assert steps[..|a|] == a && steps[..|a| + 1 + |b|] == a + [finish] + b;
    TicksAppend(a + [finish], b);
    TicksAppend(a, [finish]);
    SomeTick(b);
  }

  lemma FinishPlaced(a: seq<Step>, finish: Step, rest: seq<Step>)
    requires Finishing(Run(SOURCE_RULES, a), finish)
    ensures FinishesAt(a + [finish] + rest, Finished(Run(SOURCE_RULES, a), finish), |a|)
  {
    hide Run;
    var steps := a + [finish] + rest;
    assert steps[..|a|] == a && steps[|a|] == finish;
  }

  lemma ArrivalPlaced(a: seq<Step>, finish: Step, b: seq<Step>, arrive: Step, c: seq<Step>, k: nat)
    requires finish.Finish? && arrive.Arrive? && ArrivesAt(a + [finish] + b + [arrive] + c, arrive.id, k)
    requires forall i :: 0 <= i < |a + b| ==> !((a + b)[i].Arrive? && (a + b)[i].id == arrive.id)
    ensures k == |a| + 1 + |b|
  {
    var steps, n := a + [finish] + b + [arrive] + c, |a| + 1 + |b|;
    assert steps[n] == arrive;
    forall j | 0 <= j < n ensures !(steps[j].Arrive? && steps[j].id == arrive.id) {
      assert steps[j] == if j < |a| then (a + b)[j] else if j == |a| then finish else (a + b)[j - 1];
    }
  }

  lemma {:induction false} SomeTick(b: seq<Step>)
    requires exists i :: 0 <= i < |b| && b[i].Tick?
    ensures Ticks(b) > 0
  {
    var i :| 0 <= i < |b| && b[i].Tick?;
    if !b[|b| - 1].Tick? {
      assert b[..|b| - 1][i].Tick?;
      SomeTick(b[..|b| - 1]);
    }
  }

  // ------------------------------------------------------------------ the lock is given back

  /** A controller is locked exactly while a hook of it runs. */
  ghost predicate HeldExactly(s: State) {
    forall k :: k in s.holder ==> IsRunning(s, s.holder[k], k)
  }

  lemma AcquireHeld(s: State, id: nat)
    requires Inv(s) && HeldExactly(s)
    ensures HeldExactly(Next(SOURCE_RULES, s, Acquire(id)))
  {
    hide LockKey, Serves, Inv, Complete, Release;
  }

  lemma EndHeld(s: State, step: Step)
    requires LockInv(s) && HeldExactly(s) && (step.Finish? || step.Fail?)
    ensures HeldExactly(Next(SOURCE_RULES, s, step))
  {
    hide RunnerOk;
    var id := step.id;
    if id in s.clients && s.clients[id].phase.Running? {
      assert RunnerOk(s, id);
      forall k | k in s.holder && s.holder[k] == id ensures s.clients[id].request.key == Some(k) {
        assert IsRunning(s, s.holder[k], k);
      }
    }
  }

  lemma OtherHeld(s: State, step: Step)
    requires HeldExactly(s) && (step.Tick? || step.Arrive? || step.GiveUp?)
    ensures HeldExactly(Next(SOURCE_RULES, s, step))
  {
    hide LockKey;
  }

  lemma NextHeld(s: State, step: Step)
    requires Inv(s) && HeldExactly(s)
    ensures HeldExactly(Next(SOURCE_RULES, s, step))
  {
    assert LockInv(s);
    hide Next, Inv, HeldExactly, LockInv;
    match step
    case Acquire(id) => AcquireHeld(s, id);
    case Finish(_, _) => EndHeld(s, step);
    case Fail(_) => EndHeld(s, step);
    case _ => OtherHeld(s, step);
  }

  /** In any run the lock of a controller is taken if and only if one of its hooks is in flight. */
  lemma {:induction false} HeldIffRunning(steps: seq<Step>)
    ensures var s := Run(SOURCE_RULES, steps);
            HeldExactly(s) && forall i, k :: IsRunning(s, i, k) ==> k in s.holder && s.holder[k] == i
  {
    RunKeeps(steps);
    if steps != [] {
      hide Next;
      RunKeeps(steps[..|steps| - 1]);
      HeldIffRunning(steps[..|steps| - 1]);
      NextHeld(Run(SOURCE_RULES, steps[..|steps| - 1]), steps[|steps| - 1]);
    }
    hide Run;
    var s := Run(SOURCE_RULES, steps);
    forall i, k | IsRunning(s, i, k) ensures k in s.holder && s.holder[k] == i {
      assert RunnerOk(s, i);
    }
  }

  /**
   Let in, a waiting caller always gets on: it returns a stored answer if and only if it is a probe
   of that controller with the same question that arrived no later than the answer was finished,
   and its hook begins otherwise.
   */
  lemma LetInGetsOn(s: State, id: nat)
    requires id in s.clients && s.clients[id].phase.Waiting? && LockFree(s, id)
    ensures var s', r := Next(SOURCE_RULES, s, Acquire(id)), s.clients[id].request;
            var served := r.kind == Probe && r.key.Some? && r.key.value in s.slots
                          && s.slots[r.key.value].reading.command == r.question
                          && r.arrived <= s.slots[r.key.value].doneAt;
            && id in s'.clients
            && s'.clients[id].phase == (if served then Returned(s.slots[r.key.value].reading) else Running(|s.log|))
            && s'.log == s.log + [if served then Answered(r, s.slots[r.key.value]) else Began(r.kind, r.key, r.question)]
  {
  }
}
