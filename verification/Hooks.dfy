/**
 One hook at a time per controller, and probes that share answers (`hooks.rs`), as a
 step protocol: callers arrive, take the controller's lock in any order, run a hook or
 take a waiting answer, and finish, fail or give up.
 */
module Hooks {
  import opened Options

  /** `Probe` reads the board, `Act` changes it. */
  datatype Kind = Probe | Act

  datatype Request = Request(kind: Kind, key: Option<string>, question: string, arrived: nat)

  /** A hook's output, the command that produced it, and where in the log that hook began. */
  datatype Reading = Reading(command: string, output: string, run: nat)

  datatype Phase = Waiting | Running(run: nat) | Returned(reading: Reading) | Gone

  datatype Client = Client(request: Request, phase: Phase)

  datatype Slot = Slot(doneAt: nat, reading: Reading)

  datatype Event =
    | Began(kind: Kind, key: Option<string>, question: string)
    | Stored(place: string, slot: Slot)
    | Answered(request: Request, slot: Slot)

  datatype State = State(
    now: nat,
    clients: map<nat, Client>,
    holder: map<string, nat>,
    slots: map<string, Slot>,
    log: seq<Event>)

  const START := State(0, map[], map[], map[], [])

  /** The controller a call names, else its device; a call that names neither takes no lock. */
  function LockKey(subs: seq<(string, string)>): Option<string>
  {
    var controller := FirstNonEmpty(subs, "controller");
    if controller.Some? then controller else FirstNonEmpty(subs, "device")
  }

  function FirstNonEmpty(subs: seq<(string, string)>, name: string): Option<string>
  {
    if subs == [] then None
    else if subs[0].0 == name && subs[0].1 != "" then Some(subs[0].1)
    else FirstNonEmpty(subs[1..], name)
  }

  /** The pair at `i` names this, non-empty, and no pair before it does. */
  ghost predicate FirstNamed(subs: seq<(string, string)>, name: string, i: nat) {
    i < |subs| && NamesAt(subs, name, i) && forall j :: 0 <= j < i ==> !NamesAt(subs, name, j)
  }

  ghost predicate NamesAt(subs: seq<(string, string)>, name: string, i: nat)
    requires i < |subs|
  {
    subs[i].0 == name && subs[i].1 != ""
  }

  ghost predicate Names(subs: seq<(string, string)>, name: string) {
    exists i: nat :: i < |subs| && NamesAt(subs, name, i)
  }

  /** The key is the first non-empty controller named, whatever else is; only without one the first device. */
  lemma LockKeyIs(subs: seq<(string, string)>)
    ensures LockKey(subs).Some? <==> Names(subs, "controller") || Names(subs, "device")
    ensures LockKey(subs).Some? ==>
              var name := if Names(subs, "controller") then "controller" else "device";
              exists i: nat :: FirstNamed(subs, name, i) && subs[i].1 == LockKey(subs).value
  {
    var c := FirstNonEmptyIs(subs, "controller");
    var d := FirstNonEmptyIs(subs, "device");
    hide FirstNonEmpty;
  }

  /** Where the first such pair stands, or the length. */
  lemma {:induction false} FirstNonEmptyIs(subs: seq<(string, string)>, name: string) returns (i: nat)
    ensures FirstNonEmpty(subs, name).Some? <==> Names(subs, name)
    ensures FirstNonEmpty(subs, name).Some? ==>
              FirstNamed(subs, name, i) && subs[i].1 == FirstNonEmpty(subs, name).value
    ensures FirstNonEmpty(subs, name).None? ==> forall j :: 0 <= j < |subs| ==> !NamesAt(subs, name, j)
  {
    i := 0;
    if subs != [] {
      if !NamesAt(subs, name, 0) {
        var k := FirstNonEmptyIs(subs[1..], name);
        i := k + 1;
        forall j: nat | j < |subs| ensures NamesAt(subs, name, j) <==> j > 0 && NamesAt(subs[1..], name, j - 1) {
        }
      }
      if FirstNonEmpty(subs, name).Some? {
        assert NamesAt(subs, name, i);
      }
    }
  }

  datatype Step =
    | Tick
    | Arrive(id: nat, kind: Kind, subs: seq<(string, string)>, question: string)
    | Acquire(id: nat)
    | Finish(id: nat, output: string)
    | Fail(id: nat)
    | GiveUp(id: nat)

  /** Which of the three safeguards are in force; the source has all of them. */
  datatype Rules = Rules(clearOnAct: bool, arrivalTest: bool, questionTest: bool)

  const SOURCE_RULES := Rules(true, true, true)

  predicate Serves(rules: Rules, slot: Slot, request: Request)
  {
    && (rules.arrivalTest ==> request.arrived <= slot.doneAt)
    && (rules.questionTest ==> slot.reading.command == request.question)
  }

  function Begin(s: State, id: nat): State
    requires id in s.clients
  {
    var r := s.clients[id].request;
    s.(clients := s.clients[id := Client(r, Running(|s.log|))],
       holder := if r.key.Some? then s.holder[r.key.value := id] else s.holder,
       log := s.log + [Began(r.kind, r.key, r.question)])
  }

  /** The caller gets the lock: an actuation starts, a probe takes a fresh answer or starts. */
  function TakeLock(rules: Rules, s: State, id: nat): State
    requires id in s.clients
  {
    var r := s.clients[id].request;
    if r.key.None? then Begin(s, id)
    else
      var k := r.key.value;
      if r.kind == Act then
        Begin(if rules.clearOnAct then s.(slots := s.slots - {k}) else s, id)
      else if k in s.slots && Serves(rules, s.slots[k], r) then
        s.(clients := s.clients[id := Client(r, Returned(s.slots[k].reading))],
           log := s.log + [Answered(r, s.slots[k])])
      else Begin(s, id)
  }

  function Release(s: State, id: nat, phase: Phase): State
    requires id in s.clients
  {
    var r := s.clients[id].request;
    s.(clients := s.clients[id := Client(r, phase)],
       holder := if r.key.Some? then s.holder - {r.key.value} else s.holder)
  }

  /** The hook succeeded: a probe's answer goes into the slot before the lock is released. */
  function Complete(s: State, id: nat, output: string): State
    requires id in s.clients && s.clients[id].phase.Running?
  {
    var r := s.clients[id].request;
    var slot := Slot(s.now, Reading(r.question, output, s.clients[id].phase.run));
    var s1 := Release(s, id, Returned(slot.reading));
    if r.kind == Probe && r.key.Some? then
      s1.(slots := s1.slots[r.key.value := slot],
          log := s1.log + [Stored(r.key.value, slot), Answered(r, slot)])
    else if r.kind == Probe then s1.(log := s1.log + [Answered(r, slot)])
    else s1
  }

  predicate LockFree(s: State, id: nat)
    requires id in s.clients
  {
    var key := s.clients[id].request.key;
    key.None? || key.value !in s.holder
  }

  /** One step; a step that is not possible leaves everything as it was. */
  function Next(rules: Rules, s: State, step: Step): State
  {
    match step
    case Tick => s.(now := s.now + 1)
    case Arrive(id, kind, subs, question) =>
      if id in s.clients then s
      else s.(clients := s.clients[id := Client(Request(kind, LockKey(subs), question, s.now), Waiting)])
    case Acquire(id) =>
      if id in s.clients && s.clients[id].phase.Waiting? && LockFree(s, id) then TakeLock(rules, s, id) else s
    case Finish(id, output) =>
      if id in s.clients && s.clients[id].phase.Running? then Complete(s, id, output) else s
    case Fail(id) =>
      if id in s.clients && s.clients[id].phase.Running? then Release(s, id, Gone) else s
    case GiveUp(id) =>
      if id in s.clients && s.clients[id].phase.Waiting? then
        s.(clients := s.clients[id := s.clients[id].(phase := Gone)])
      else s
  }

  function Run(rules: Rules, steps: seq<Step>): State
  {
    if steps == [] then START else Next(rules, Run(rules, steps[..|steps| - 1]), steps[|steps| - 1])
  }

  // ------------------------------------------------------------------ what is promised

  ghost predicate IsRunning(s: State, id: nat, key: string) {
    id in s.clients && s.clients[id].phase.Running? && s.clients[id].request.key == Some(key)
  }

  /** At most one hook in flight per controller. */
  ghost predicate Exclusive(s: State) {
    forall i, j, k :: IsRunning(s, i, k) && IsRunning(s, j, k) ==> i == j
  }

  /** No actuation of this controller began at or after log position `from`. */
  ghost predicate Untouched(log: seq<Event>, key: Option<string>, from: nat, to: nat) {
    forall i :: from <= i < to && i < |log| && log[i].Began? && log[i].kind == Act ==> log[i].key != key
  }

  /**
   The answer at log position `p` answers the caller's own question, was finished no earlier
   than the caller arrived, was read by a probe of the same controller, and nothing was done
   to that controller since that probe began.
   */
  ghost predicate GoodAnswer(log: seq<Event>, p: nat)
    requires p < |log| && log[p].Answered?
  {
    var r, slot := log[p].request, log[p].slot;
    && slot.reading.command == r.question
    && r.arrived <= slot.doneAt
    && slot.reading.run < p
    && log[slot.reading.run] == Began(Probe, r.key, r.question)
    && (r.key.Some? ==> Untouched(log, r.key, slot.reading.run, p))
  }

  ghost predicate Safe(s: State) {
    && Exclusive(s)
    && forall p :: 0 <= p < |s.log| && s.log[p].Answered? ==> GoodAnswer(s.log, p)
  }

  /** What the slot of a controller must hold, read off the history alone. */
  ghost function LastStored(log: seq<Event>, key: string): Option<Slot> {
    if log == [] then None
    else
      var e := log[|log| - 1];
      if e.Stored? && e.place == key then Some(e.slot)
      else if e.Began? && e.kind == Act && e.key == Some(key) then None
      else LastStored(log[..|log| - 1], key)
  }

  // ------------------------------------------------------------------ invariants

  /** Whoever runs a keyed hook holds the lock, and the log shows where it began. */
  ghost predicate LockInv(s: State) {
    && (forall i :: i in s.clients && s.clients[i].phase.Running? ==> RunnerOk(s, i))
    && (forall i :: i in s.clients ==> s.clients[i].request.arrived <= s.now)
  }

  ghost predicate RunnerOk(s: State, i: nat)
    requires i in s.clients && s.clients[i].phase.Running?
  {
    var r, run := s.clients[i].request, s.clients[i].phase.run;
    && run < |s.log|
    && s.log[run] == Began(r.kind, r.key, r.question)
    && (r.key.Some? ==> r.key.value in s.holder && s.holder[r.key.value] == i)
    && (r.key.Some? ==> Untouched(s.log, r.key, run + 1, |s.log|))
  }

  ghost predicate SlotOk(s: State, k: string)
    requires k in s.slots
  {
    var reading := s.slots[k].reading;
    && reading.run < |s.log|
    && s.log[reading.run] == Began(Probe, Some(k), reading.command)
    && Untouched(s.log, Some(k), reading.run, |s.log|)
  }

  ghost predicate SlotInv(s: State) {
    forall k :: k in s.slots ==> SlotOk(s, k)
  }

  ghost predicate AnswersInv(log: seq<Event>) {
    forall p :: 0 <= p < |log| && log[p].Answered? ==> GoodAnswer(log, p)
  }

  ghost predicate Inv(s: State) {
    LockInv(s) && SlotInv(s) && AnswersInv(s.log)
  }

  lemma AnswersStay(log: seq<Event>, more: seq<Event>)
    requires AnswersInv(log)
    ensures forall p :: 0 <= p < |log| && (log + more)[p].Answered? ==> GoodAnswer(log + more, p)
  {
    forall p | 0 <= p < |log| && (log + more)[p].Answered? ensures GoodAnswer(log + more, p) {
      assert GoodAnswer(log, p);
    }
  }

  /** Events that are no actuation of the controller do not touch it. */
  lemma UntouchedExtends(log: seq<Event>, more: seq<Event>, key: Option<string>, from: nat)
    requires Untouched(log, key, from, |log|)
    requires forall e :: e in more && e.Began? && e.kind == Act ==> e.key != key
    ensures Untouched(log + more, key, from, |log + more|)
  {
    forall i | from <= i < |log + more| && (log + more)[i].Began? && (log + more)[i].kind == Act
      ensures (log + more)[i].key != key
    {
      if i >= |log| {
        assert (log + more)[i] in more;
      }
    }
  }

  lemma BeginKeeps(s: State, id: nat)
    requires Inv(s) && id in s.clients && s.clients[id].phase.Waiting? && LockFree(s, id)
    requires var r := s.clients[id].request;
             r.kind == Act && r.key.Some? ==> r.key.value !in s.slots
    ensures Inv(Begin(s, id))
  {
    var r := s.clients[id].request;
    var e := Began(r.kind, r.key, r.question);
    var s' := Begin(s, id);
    AnswersStay(s.log, [e]);
    forall i | i in s'.clients && s'.clients[i].phase.Running? ensures RunnerOk(s', i) {
      if i != id {
        assert RunnerOk(s, i);
        if s.clients[i].request.key.Some? {
          assert s.clients[i].request.key != r.key;
          UntouchedExtends(s.log, [e], s.clients[i].request.key, s.clients[i].phase.run + 1);
        }
      }
    }
    forall k | k in s'.slots ensures SlotOk(s', k) {
      assert SlotOk(s, k);
      UntouchedExtends(s.log, [e], Some(k), s.slots[k].reading.run);
    }
  }

  lemma ServeKeeps(s: State, id: nat)
    requires Inv(s) && id in s.clients && s.clients[id].phase.Waiting?
    requires var r := s.clients[id].request;
             && r.kind == Probe && r.key.Some? && r.key.value in s.slots
             && Serves(SOURCE_RULES, s.slots[r.key.value], r)
    ensures Inv(TakeLock(SOURCE_RULES, s, id))
  {
    var r := s.clients[id].request;
    var slot := s.slots[r.key.value];
    var e := Answered(r, slot);
    var s' := TakeLock(SOURCE_RULES, s, id);
    assert SlotOk(s, r.key.value);
    AnswersStay(s.log, [e]);
    assert GoodAnswer(s'.log, |s.log|);
    forall i | i in s'.clients && s'.clients[i].phase.Running? ensures RunnerOk(s', i) {
      assert RunnerOk(s, i);
      if s.clients[i].request.key.Some? {
        UntouchedExtends(s.log, [e], s.clients[i].request.key, s.clients[i].phase.run + 1);
      }
    }
    forall k | k in s'.slots ensures SlotOk(s', k) {
      assert SlotOk(s, k);
      UntouchedExtends(s.log, [e], Some(k), s.slots[k].reading.run);
    }
  }

  lemma ReleaseKeeps(s: State, id: nat, phase: Phase)
    requires Inv(s) && id in s.clients && s.clients[id].phase.Running? && !phase.Running?
    ensures Inv(Release(s, id, phase))
  {
    var s' := Release(s, id, phase);
    assert RunnerOk(s, id);
    forall i | i in s'.clients && s'.clients[i].phase.Running? ensures RunnerOk(s', i) {
      assert RunnerOk(s, i);
    }
    forall k | k in s'.slots ensures SlotOk(s', k) {
      assert SlotOk(s, k);
    }
  }

  /** Answers and stored slots may be logged at any time, if the answers are good. */
  lemma LoggingKeeps(s: State, more: seq<Event>)
    requires Inv(s) && forall e :: e in more ==> !e.Began?
    requires forall p :: |s.log| <= p < |s.log + more| && (s.log + more)[p].Answered? ==> GoodAnswer(s.log + more, p)
    ensures Inv(s.(log := s.log + more))
  {
    hide GoodAnswer;
    var s' := s.(log := s.log + more);
    AnswersStay(s.log, more);
    forall i | i in s'.clients && s'.clients[i].phase.Running? ensures RunnerOk(s', i) {
      assert RunnerOk(s, i);
      if s.clients[i].request.key.Some? {
        UntouchedExtends(s.log, more, s.clients[i].request.key, s.clients[i].phase.run + 1);
      }
    }
    forall k | k in s'.slots ensures SlotOk(s', k) {
      assert SlotOk(s, k);
      UntouchedExtends(s.log, more, Some(k), s.slots[k].reading.run);
    }
  }

  lemma StoringKeeps(s: State, k: string, slot: Slot)
    requires Inv(s) && SlotOk(s.(slots := s.slots[k := slot]), k)
    ensures Inv(s.(slots := s.slots[k := slot]))
  {
    hide GoodAnswer, Untouched;
    var s' := s.(slots := s.slots[k := slot]);
    forall i | i in s'.clients && s'.clients[i].phase.Running? ensures RunnerOk(s', i) {
      assert RunnerOk(s, i);
    }
    forall j | j in s'.slots ensures SlotOk(s', j) {
      assert j != k ==> SlotOk(s, j);
    }
  }

  lemma CompleteKeeps(s: State, id: nat, output: string)
    requires Inv(s) && id in s.clients && s.clients[id].phase.Running?
    ensures Inv(Complete(s, id, output))
  {
    var r, run := s.clients[id].request, s.clients[id].phase.run;
    var slot := Slot(s.now, Reading(r.question, output, run));
    var s1 := Release(s, id, Returned(slot.reading));
    ReleaseKeeps(s, id, Returned(slot.reading));
    assert RunnerOk(s, id) && r.arrived <= s.now;
    hide Inv;
    if r.kind == Probe {
      var more := if r.key.Some? then [Stored(r.key.value, slot), Answered(r, slot)] else [Answered(r, slot)];
      assert GoodAnswer(s1.log + more, |s1.log + more| - 1);
      LoggingKeeps(s1, more);
      if r.key.Some? {
        var s2 := s1.(log := s1.log + more);
        UntouchedExtends(s1.log, more, r.key, run);
        assert SlotOk(s2.(slots := s2.slots[r.key.value := slot]), r.key.value);
        StoringKeeps(s2, r.key.value, slot);
      }
    }
  }

  lemma AcquireKeeps(s: State, id: nat)
    requires Inv(s) && id in s.clients && s.clients[id].phase.Waiting? && LockFree(s, id)
    ensures Inv(TakeLock(SOURCE_RULES, s, id))
  {
    hide Inv;
    var r := s.clients[id].request;
    if r.key.Some? && r.kind == Act {
      FewerSlots(s, {r.key.value});
      BeginKeeps(s.(slots := s.slots - {r.key.value}), id);
    } else if r.key.Some? && r.key.value in s.slots && Serves(SOURCE_RULES, s.slots[r.key.value], r) {
      ServeKeeps(s, id);
    } else {
      BeginKeeps(s, id);
    }
  }

  /** Time passing, arrivals and giving up start no hook and touch no slot. */
  lemma QuietKeeps(s: State, s': State)
    requires Inv(s) && s' == s.(now := s'.now, clients := s'.clients) && s.now <= s'.now
    requires forall i :: i in s'.clients ==>
               if i in s.clients && s'.clients[i] == s.clients[i] then true
               else !s'.clients[i].phase.Running? && s'.clients[i].request.arrived <= s.now
    ensures Inv(s')
  {
    forall i | i in s'.clients && s'.clients[i].phase.Running? ensures RunnerOk(s', i) {
      assert RunnerOk(s, i);
    }
    forall k | k in s'.slots ensures SlotOk(s', k) {
      assert SlotOk(s, k);
    }
  }

  /** Every step of every caller keeps the invariant. */
  lemma NextKeeps(s: State, step: Step)
    requires Inv(s)
    ensures Inv(Next(SOURCE_RULES, s, step))
  {
    var s' := Next(SOURCE_RULES, s, step);
    assert forall i :: i in s.clients ==> s.clients[i].request.arrived <= s.now;
    hide Inv, TakeLock, Complete, Release;
    match step
    case Acquire(id) =>
      if id in s.clients && s.clients[id].phase.Waiting? && LockFree(s, id) {
        AcquireKeeps(s, id);
      }
    case Finish(id, output) =>
      if id in s.clients && s.clients[id].phase.Running? {
        CompleteKeeps(s, id, output);
      }
    case Fail(id) =>
      if id in s.clients && s.clients[id].phase.Running? {
        ReleaseKeeps(s, id, Gone);
      }
    case _ =>
      QuietKeeps(s, s');
  }

  lemma FewerSlots(s: State, keys: set<string>)
    requires Inv(s)
    ensures Inv(s.(slots := s.slots - keys))
  {
    var s' := s.(slots := s.slots - keys);
    forall i | i in s'.clients && s'.clients[i].phase.Running? ensures RunnerOk(s', i) {
      assert RunnerOk(s, i);
    }
    forall k | k in s'.slots ensures SlotOk(s', k) {
      assert SlotOk(s, k);
    }
  }

  lemma {:induction false} RunKeeps(steps: seq<Step>)
    ensures Inv(Run(SOURCE_RULES, steps))
  {
    if steps != [] {
      RunKeeps(steps[..|steps| - 1]);
      NextKeeps(Run(SOURCE_RULES, steps[..|steps| - 1]), steps[|steps| - 1]);
    }
  }

  lemma InvIsSafe(s: State)
    requires Inv(s)
    ensures Safe(s)
  {
    forall i, j, k | IsRunning(s, i, k) && IsRunning(s, j, k) ensures i == j {
      assert RunnerOk(s, i) && RunnerOk(s, j);
    }
  }

  /** In every state any mix of callers can reach, hooks never overlap and every answer is good. */
  lemma EveryRunIsSafe(steps: seq<Step>)
    ensures Safe(Run(SOURCE_RULES, steps))
  {
    RunKeeps(steps);
    InvIsSafe(Run(SOURCE_RULES, steps));
  }

  // ------------------------------------------------------------------ all three rules are needed

  const SUBS := [("controller", "c")]
  const C := Some("c")

  lemma KeyOfSubs()
    ensures LockKey(SUBS) == C
  {
  }

  lemma RunOneMore(rules: Rules, steps: seq<Step>, step: Step)
    ensures Run(rules, steps + [step]) == Next(rules, Run(rules, steps), step)
  {
    assert (steps + [step])[..|steps|] == steps;
  }

  /** A state reached by some run. */
  ghost predicate Reachable(rules: Rules, s: State) {
    exists steps :: Run(rules, steps) == s
  }

  lemma StartReachable(rules: Rules)
    ensures Reachable(rules, START)
  {
    assert Run(rules, []) == START;
  }

  lemma NextReachable(rules: Rules, s: State, step: Step) returns (s': State)
    requires Reachable(rules, s)
    ensures s' == Next(rules, s, step) && Reachable(rules, s')
  {
    s' := Next(rules, s, step);
    var steps :| Run(rules, steps) == s;
    RunOneMore(rules, steps, step);
  }

  /** A probe has arrived at an idle controller, run and left its answer. */
  lemma OneProbe(rules: Rules) returns (s: State)
    ensures Reachable(rules, s)
    ensures s.now == 0 && s.holder == map[] && s.clients.Keys == {0}
    ensures var slot := Slot(0, Reading("power", "on", 0));
            && s.slots == map["c" := slot]
            && s.log == [Began(Probe, C, "power"), Stored("c", slot), Answered(Request(Probe, C, "power", 0), slot)]
  {
    KeyOfSubs();
    StartReachable(rules);
    s := NextReachable(rules, START, Arrive(0, Probe, SUBS, "power"));
    s := NextReachable(rules, s, Acquire(0));
    s := NextReachable(rules, s, Finish(0, "on"));
  }

  /** Without the question test a caller can be told the answer to another question. */
  lemma QuestionTestNeeded(rules: Rules) returns (s: State)
    requires !rules.questionTest
    ensures Reachable(rules, s) && !Safe(s)
  {
    s := OneProbe(rules);
    KeyOfSubs();
    hide LockKey;
    s := NextReachable(rules, s, Arrive(1, Probe, SUBS, "straps"));
    s := NextReachable(rules, s, Acquire(1));
    assert s.log[3] == Answered(Request(Probe, C, "straps", 0), Slot(0, Reading("power", "on", 0)));
    assert !GoodAnswer(s.log, 3);
  }

  /** Without the arrival test a caller can be told of a board as it was before it asked. */
  lemma ArrivalTestNeeded(rules: Rules) returns (s: State)
    requires !rules.arrivalTest
    ensures Reachable(rules, s) && !Safe(s)
  {
    s := OneProbe(rules);
    KeyOfSubs();
    hide LockKey;
    s := NextReachable(rules, s, Tick);
    s := NextReachable(rules, s, Arrive(1, Probe, SUBS, "power"));
    s := NextReachable(rules, s, Acquire(1));
    assert s.log[3] == Answered(Request(Probe, C, "power", 1), Slot(0, Reading("power", "on", 0)));
    assert !GoodAnswer(s.log, 3);
  }

  /** A probe runs while an actuation and then a second probe wait. */
  lemma QueueingBehindProbe(rules: Rules) returns (s: State)
    ensures Reachable(rules, s)
    ensures s == State(0,
                       map[0 := Client(Request(Probe, C, "power", 0), Running(0)),
                           1 := Client(Request(Act, C, "off", 0), Waiting),
                           2 := Client(Request(Probe, C, "power", 0), Waiting)],
                       map["c" := 0], map[], [Began(Probe, C, "power")])
  {
    KeyOfSubs();
    hide LockKey;
    StartReachable(rules);
    s := NextReachable(rules, START, Arrive(0, Probe, SUBS, "power"));
    s := NextReachable(rules, s, Acquire(0));
    s := NextReachable(rules, s, Arrive(1, Act, SUBS, "off"));
    s := NextReachable(rules, s, Arrive(2, Probe, SUBS, "power"));
  }

  /** A probe has answered while an actuation and then a second probe were waiting. */
  lemma QueuedBehindProbe(rules: Rules) returns (s: State)
    ensures Reachable(rules, s)
    ensures s.now == 1 && s.holder == map[] && s.clients.Keys == {0, 1, 2}
    ensures s.clients[1] == Client(Request(Act, C, "off", 0), Waiting)
    ensures s.clients[2] == Client(Request(Probe, C, "power", 0), Waiting)
    ensures var slot := Slot(1, Reading("power", "on", 0));
            && s.slots == map["c" := slot]
            && s.log == [Began(Probe, C, "power"), Stored("c", slot), Answered(Request(Probe, C, "power", 0), slot)]
  {
    s := QueueingBehindProbe(rules);
    s := NextReachable(rules, s, Tick);
    s := NextReachable(rules, s, Finish(0, "on"));
  }

  /** Without the clear, an actuation queued ahead of a waiting probe breaks freshness. */
  lemma ClearNeeded(rules: Rules) returns (s: State)
    requires !rules.clearOnAct
    ensures Reachable(rules, s) && !Safe(s)
  {
    s := QueuedBehindProbe(rules);
    var slot := Slot(1, Reading("power", "on", 0));
    s := NextReachable(rules, s, Acquire(1));
    assert s.log[3] == Began(Act, C, "off");
    s := NextReachable(rules, s, Finish(1, ""));
    assert s.slots == map["c" := slot] && |s.log| == 4;
    s := NextReachable(rules, s, Acquire(2));
    assert s.log[4] == Answered(Request(Probe, C, "power", 0), slot);
    assert !Untouched(s.log, C, 0, 4) by {
      assert s.log[3] == Began(Act, C, "off");
    }
    assert !GoodAnswer(s.log, 4);
  }

  /** Safety of every run holds with all three safeguards and with no fewer. */
  lemma ExactlyTheseRules(rules: Rules)
    ensures (forall s :: Reachable(rules, s) ==> Safe(s)) <==> rules == SOURCE_RULES
  {
    if rules == SOURCE_RULES {
      forall s | Reachable(rules, s) ensures Safe(s) {
        var steps :| Run(rules, steps) == s;
        EveryRunIsSafe(steps);
      }
    } else if !rules.questionTest {
      var s := QuestionTestNeeded(rules);
    } else if !rules.arrivalTest {
      var s := ArrivalTestNeeded(rules);
    } else {
      var s := ClearNeeded(rules);
    }
  }

  // ------------------------------------------------------------------ sharing

  /** The slot is exactly the last stored answer that no actuation has overtaken. */
  ghost predicate SlotsMatchLog(s: State) {
    forall k :: if k in s.slots then LastStored(s.log, k) == Some(s.slots[k]) else LastStored(s.log, k) == None
  }

  lemma LastStoredMore(log: seq<Event>, e: Event, k: string)
    ensures LastStored(log + [e], k)
         == if e.Stored? && e.place == k then Some(e.slot)
            else if e.Began? && e.kind == Act && e.key == Some(k) then None
            else LastStored(log, k)
  {
    assert (log + [e])[..|log|] == log;
  }

  lemma NextKeepsSlots(s: State, step: Step)
    requires SlotsMatchLog(s)
    ensures SlotsMatchLog(Next(SOURCE_RULES, s, step))
  {
    var s' := Next(SOURCE_RULES, s, step);
    forall k
      ensures if k in s'.slots then LastStored(s'.log, k) == Some(s'.slots[k]) else LastStored(s'.log, k) == None
    {
      NextSlot(s, step, k);
    }
  }

  lemma NextSlot(s: State, step: Step, k: string)
    requires SlotsMatchLog(s)
    ensures var s' := Next(SOURCE_RULES, s, step);
            if k in s'.slots then LastStored(s'.log, k) == Some(s'.slots[k]) else LastStored(s'.log, k) == None
  {
    hide LastStored, LockKey, LockFree, Serves;
    var s' := Next(SOURCE_RULES, s, step);
    if |s'.log| == |s.log| + 1 {
      LastStoredMore(s.log, s'.log[|s.log|], k);
    } else if |s'.log| == |s.log| + 2 {
      var stored, answered := s'.log[|s.log|], s'.log[|s.log| + 1];
      LastStoredMore(s.log, stored, k);
      LastStoredMore(s.log + [stored], answered, k);
      assert s'.log == s.log + [stored] + [answered];
    }
  }

  lemma {:induction false} SlotIsLastStored(steps: seq<Step>)
    ensures SlotsMatchLog(Run(SOURCE_RULES, steps))
  {
    if steps != [] {
      SlotIsLastStored(steps[..|steps| - 1]);
      NextKeepsSlots(Run(SOURCE_RULES, steps[..|steps| - 1]), steps[|steps| - 1]);
    }
  }

  /** Callers still waiting for a controller whose answer already serves them. */
  ghost predicate AllServed(s: State, ids: seq<nat>, key: string) {
    && key in s.slots && key !in s.holder
    && (forall i, j :: 0 <= i < j < |ids| ==> ids[i] != ids[j])
    && forall i :: 0 <= i < |ids| ==>
         && ids[i] in s.clients && s.clients[ids[i]].phase.Waiting?
         && s.clients[ids[i]].request.kind == Probe && s.clients[ids[i]].request.key == Some(key)
         && Serves(SOURCE_RULES, s.slots[key], s.clients[ids[i]].request)
  }

  ghost function AcquireAll(s: State, ids: seq<nat>): State
    decreases |ids|
  {
    if ids == [] then s else AcquireAll(Next(SOURCE_RULES, s, Acquire(ids[0])), ids[1..])
  }

  ghost function HooksBegun(log: seq<Event>): nat {
    if log == [] then 0 else HooksBegun(log[..|log| - 1]) + if log[|log| - 1].Began? then 1 else 0
  }

  /** However many probes are waiting for the same answer, serving them starts no hook at all. */
  lemma {:induction false} WaitersShareOneRun(s: State, ids: seq<nat>, key: string)
    requires AllServed(s, ids, key)
    ensures var s' := AcquireAll(s, ids);
            && HooksBegun(s'.log) == HooksBegun(s.log)
            && s'.slots == s.slots && s'.holder == s.holder
            && (forall i :: i in ids ==> i in s'.clients && s'.clients[i].phase == Returned(s.slots[key].reading))
            && (forall i :: i in s.clients && i !in ids ==> i in s'.clients && s'.clients[i] == s.clients[i])
    decreases |ids|
  {
    if ids != [] {
      var id, rest := ids[0], ids[1..];
      var s1 := Next(SOURCE_RULES, s, Acquire(id));
      ServeOne(s, ids, key);
      assert forall i :: i in ids <==> i == id || i in rest;
      hide Next, AllServed, HooksBegun;
      WaitersShareOneRun(s1, rest, key);
    }
  }

  /** Probes waiting for a controller with the same question. */
  ghost predicate SameQuestion(s: State, ids: seq<nat>, key: string, question: string) {
    && (forall i, j :: 0 <= i < j < |ids| ==> ids[i] != ids[j])
    && forall i :: 0 <= i < |ids| ==>
         && ids[i] in s.clients && s.clients[ids[i]].phase.Waiting?
         && s.clients[ids[i]].request.kind == Probe && s.clients[ids[i]].request.key == Some(key)
         && s.clients[ids[i]].request.question == question
  }

  lemma AfterRunAllServed(s: State, id: nat, output: string, ids: seq<nat>, key: string)
    requires Inv(s) && IsRunning(s, id, key) && s.clients[id].request.kind == Probe
    requires SameQuestion(s, ids, key, s.clients[id].request.question)
    ensures AllServed(Complete(s, id, output), ids, key)
  {
    assert forall i :: i in s.clients ==> s.clients[i].request.arrived <= s.now;
    hide Inv;
    var s' := Complete(s, id, output);
    forall i | 0 <= i < |ids| ensures ids[i] in s'.clients && s'.clients[ids[i]] == s.clients[ids[i]] {
      assert ids[i] != id;
    }
  }

  /**
   In any run: when a probe's hook finishes, the probes that were waiting with the same question,
   let in one after the other in whatever order, all return that one reading, and no further hook
   is begun for them.
   */
  lemma ConcurrentProbesShareOneRun(steps: seq<Step>, id: nat, output: string, ids: seq<nat>, key: string)
    requires var s := Run(SOURCE_RULES, steps);
             && IsRunning(s, id, key) && s.clients[id].request.kind == Probe
             && SameQuestion(s, ids, key, s.clients[id].request.question)
    ensures var s := Run(SOURCE_RULES, steps);
            var s' := AcquireAll(Next(SOURCE_RULES, s, Finish(id, output)), ids);
            && HooksBegun(s'.log) == HooksBegun(s.log)
            && forall i :: i in [id] + ids ==>
                 && i in s'.clients
                 && s'.clients[i].phase
                    == Returned(Reading(s.clients[id].request.question, output, s.clients[id].phase.run))
  {
    hide Run, AcquireAll, HooksBegun, Inv, AllServed;
    RunKeeps(steps);
    var s := Run(SOURCE_RULES, steps);
    var s1 := Complete(s, id, output);
    AfterRunAllServed(s, id, output, ids, key);
    NoneBegunBy(s, id, output);
    WaitersShareOneRun(s1, ids, key);
    assert id !in ids;
  }

  ghost function RunFrom(s: State, steps: seq<Step>): State {
    if steps == [] then s
    else Next(SOURCE_RULES, RunFrom(s, steps[..|steps| - 1]), steps[|steps| - 1])
  }

  /** This step lets no call of the controller take the lock unless the stored answer serves it. */
  ghost predicate LetsInOnlyServed(s: State, step: Step, key: string, slot: Slot) {
    step.Acquire? && step.id in s.clients && s.clients[step.id].request.key == Some(key) ==>
      s.clients[step.id].request.kind == Probe && Serves(SOURCE_RULES, slot, s.clients[step.id].request)
  }

  ghost predicate NotOvertaken(s: State, steps: seq<Step>, key: string, slot: Slot) {
    steps == []
    || (var front := steps[..|steps| - 1];
        NotOvertaken(s, front, key, slot)
        && LetsInOnlyServed(RunFrom(s, front), steps[|steps| - 1], key, slot))
  }

  /** The answer stands, the controller is free, and every such probe waits, has it, or gave up. */
  ghost predicate Sharing(s: State, ids: seq<nat>, key: string, slot: Slot) {
    && key in s.slots && s.slots[key] == slot && key !in s.holder
    && forall i :: i in ids ==> SharesAnswer(s, i, key, slot)
  }

  ghost predicate SharesAnswer(s: State, i: nat, key: string, slot: Slot) {
    && i in s.clients
    && s.clients[i].request.kind == Probe && s.clients[i].request.key == Some(key)
    && Serves(SOURCE_RULES, slot, s.clients[i].request)
    && s.clients[i].phase in {Waiting, Gone, Returned(slot.reading)}
  }

  /** No hook of this controller was begun from this log position on. */
  ghost predicate NoneBegunSince(log: seq<Event>, from: nat, key: string) {
    forall p :: from <= p < |log| ==> !(log[p].Began? && log[p].key == Some(key))
  }

  lemma SharingAcquired(s: State, id: nat, ids: seq<nat>, key: string, slot: Slot)
    requires Sharing(s, ids, key, slot) && LetsInOnlyServed(s, Acquire(id), key, slot)
    ensures var s' := Next(SOURCE_RULES, s, Acquire(id));
            && Sharing(s', ids, key, slot) && s.log <= s'.log && NoneBegunSince(s'.log, |s.log|, key)
  {
  }

  lemma SharingEnded(s: State, step: Step, ids: seq<nat>, key: string, slot: Slot)
    requires Inv(s) && Sharing(s, ids, key, slot) && (step.Finish? || step.Fail?)
    ensures var s' := Next(SOURCE_RULES, s, step);
            && Sharing(s', ids, key, slot) && s.log <= s'.log && NoneBegunSince(s'.log, |s.log|, key)
  {
    var id := step.id;
    if id in s.clients && s.clients[id].phase.Running? {
      assert RunnerOk(s, id);
      assert s.clients[id].request.key != Some(key) && id !in ids;
    }
  }

  lemma SharingKept(s: State, step: Step, ids: seq<nat>, key: string, slot: Slot)
    requires Inv(s) && Sharing(s, ids, key, slot) && LetsInOnlyServed(s, step, key, slot)
    ensures var s' := Next(SOURCE_RULES, s, step);
            && Sharing(s', ids, key, slot) && s.log <= s'.log && NoneBegunSince(s'.log, |s.log|, key)
  {
    match step
    case Acquire(id) => SharingAcquired(s, id, ids, key, slot);
    case Finish(_, _) => SharingEnded(s, step, ids, key, slot);
    case Fail(_) => SharingEnded(s, step, ids, key, slot);
    case _ =>
  }

  lemma {:induction false} SharingLasts(s: State, steps: seq<Step>, ids: seq<nat>, key: string, slot: Slot)
    requires Inv(s) && Sharing(s, ids, key, slot) && NotOvertaken(s, steps, key, slot)
    ensures var s' := RunFrom(s, steps);
            && Inv(s') && Sharing(s', ids, key, slot) && s.log <= s'.log && NoneBegunSince(s'.log, |s.log|, key)
  {
    if steps != [] {
      hide Inv, Sharing, Next, LetsInOnlyServed;
      var front, last := steps[..|steps| - 1], steps[|steps| - 1];
      SharingLasts(s, front, ids, key, slot);
      var mid := RunFrom(s, front);
      SharingKept(mid, last, ids, key, slot);
      NextKeeps(mid, last);
    }
  }

  lemma SharingStarts(s: State, id: nat, output: string, ids: seq<nat>, key: string)
    requires Inv(s) && IsRunning(s, id, key) && s.clients[id].request.kind == Probe
    requires SameQuestion(s, ids, key, s.clients[id].request.question)
    ensures var s1 := Complete(s, id, output);
            key in s1.slots && Sharing(s1, ids, key, s1.slots[key])
            && s1.slots[key].reading == Reading(s.clients[id].request.question, output, s.clients[id].phase.run)
  {
    AfterRunAllServed(s, id, output, ids, key);
  }

  /**
   In any run, once a probe's hook has finished: whatever happens next, callers of other controllers
   included, as long as the lock is not given to a call of this controller its answer does not
   serve, no hook of this controller begins, and every probe that was waiting with the same
   question still waits, has given up, or has returned that one reading; and letting in one that
   waits returns it.
   */
  lemma SharedUntilOvertaken(steps: seq<Step>, id: nat, output: string, ids: seq<nat>, key: string, more: seq<Step>, i: nat)
    requires var s := Run(SOURCE_RULES, steps);
             && IsRunning(s, id, key) && s.clients[id].request.kind == Probe
             && SameQuestion(s, ids, key, s.clients[id].request.question) && i in ids
    ensures var s := Run(SOURCE_RULES, steps);
            var s1 := Next(SOURCE_RULES, s, Finish(id, output));
            var reading := Reading(s.clients[id].request.question, output, s.clients[id].phase.run);
            && key in s1.slots
            && (NotOvertaken(s1, more, key, s1.slots[key]) ==>
                  var s2 := RunFrom(s1, more);
                  && s1.log <= s2.log && NoneBegunSince(s2.log, |s1.log|, key)
                  && i in s2.clients && s2.clients[i].phase in {Waiting, Gone, Returned(reading)}
                  && (s2.clients[i].phase.Waiting? ==>
                        var s3 := Next(SOURCE_RULES, s2, Acquire(i));
                        i in s3.clients && s3.clients[i].phase == Returned(reading)))
  {
    hide Run, Inv, RunFrom, NotOvertaken;
    RunKeeps(steps);
    var s := Run(SOURCE_RULES, steps);
    var s1 := Next(SOURCE_RULES, s, Finish(id, output));
    SharingStarts(s, id, output, ids, key);
    NextKeeps(s, Finish(id, output));
    var slot := s1.slots[key];
    if NotOvertaken(s1, more, key, slot) {
      SharingLasts(s1, more, ids, key, slot);
      LetIn(RunFrom(s1, more), ids, key, slot, i);
    }
  }

  lemma LetIn(s: State, ids: seq<nat>, key: string, slot: Slot, i: nat)
    requires Sharing(s, ids, key, slot) && i in ids
    ensures SharesAnswer(s, i, key, slot)
    ensures s.clients[i].phase.Waiting? ==>
              var s' := Next(SOURCE_RULES, s, Acquire(i));
              i in s'.clients && s'.clients[i].phase == Returned(slot.reading)
  {
  }

  lemma NoneBegunBy(s: State, id: nat, output: string)
    requires id in s.clients && s.clients[id].phase.Running?
    ensures HooksBegun(Complete(s, id, output).log) == HooksBegun(s.log)
  {
    var log := Complete(s, id, output).log;
    if |log| == |s.log| + 1 {
      assert log[..|s.log|] == s.log;
    } else if |log| == |s.log| + 2 {
      assert log[..|s.log| + 1][..|s.log|] == s.log;
    }
  }

  lemma ServeOne(s: State, ids: seq<nat>, key: string)
    requires ids != [] && AllServed(s, ids, key)
    ensures var s1 := Next(SOURCE_RULES, s, Acquire(ids[0]));
            && AllServed(s1, ids[1..], key) && ids[0] !in ids[1..]
            && HooksBegun(s1.log) == HooksBegun(s.log)
            && s1.slots == s.slots && s1.holder == s.holder && ids[0] in s.clients
            && s1.clients == s.clients[ids[0] := Client(s.clients[ids[0]].request, Returned(s.slots[key].reading))]
  {
    var s1 := Next(SOURCE_RULES, s, Acquire(ids[0]));
    assert s1.log[..|s.log|] == s.log;
    assert forall i :: 0 <= i < |ids[1..]| ==> ids[1..][i] == ids[i + 1];
  }
}
