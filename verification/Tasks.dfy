/**
 Tasks for long work (cep/src/task.rs): what starting, reporting, finishing and cancelling do, under
 every order of the workers, the callers and the clock.
 */
module Tasks {
  import opened Wrappers
  import opened Numbers
  import opened Json

  const MAX_EVENTS: nat := 1000

  datatype Status = Working | InputRequired | Completed | Failed | Cancelled {
    predicate Terminal() { Completed? || Failed? || Cancelled? }
  }

  datatype CepError = CepError(kind: string, message: string)

  type Outcome = Result<Value, CepError>

  datatype Progress = Progress(done: nat, total: Option<nat>, unit: Option<string>, message: Option<string>)

  /** Numbers that count from 1. */
  type Positive = n: nat | n > 0 witness 1

  datatype Task = Task(
    principal: string,
    methodName: string,
    status: Status,
    statusMessage: Option<string>,
    createdMs: nat,
    updatedMs: nat,
    ttlMs: nat,
    progress: Option<Progress>,
    /** Numbered from 1. */
    events: seq<(nat, Value)>,
    nextSeq: Positive,
    outcome: Option<Outcome>,
    cancel: bool)

  datatype View = View(
    id: string, methodName: string, status: Status, statusMessage: Option<string>, createdMs: nat, updatedMs: nat,
    ttlMs: nat, progress: Option<Progress>, events: Option<(seq<Value>, nat)>)

  /** The events numbered after `after`. */
  function EventsAfter(events: seq<(nat, Value)>, after: nat): seq<Value> {
    if events == [] then []
    else (if events[0].0 > after then [events[0].1] else []) + EventsAfter(events[1..], after)
  }

  function ViewOf(t: Task, id: string, after: Option<nat>): View {
    View(id, t.methodName, t.status, t.statusMessage, t.createdMs, t.updatedMs, t.ttlMs, t.progress,
         if after.Some? then Some((EventsAfter(t.events, after.value), t.nextSeq - 1)) else None)
  }

  // ----- what one change does to a task -----

  function NewTask(principal: string, methodName: string, ttlMs: nat, now: nat): Task {
    Task(principal, methodName, Working, None, now, now, ttlMs, None, [], 1, None, false)
  }

  function Emitted(t: Task, event: Value, now: nat): Task {
    var events := t.events + [(t.nextSeq, event)];
    t.(events := if |events| > MAX_EVENTS then events[1..] else events, nextSeq := t.nextSeq + 1, updatedMs := now)
  }

  /** What its work's return makes of a task; one that was cancelled keeps that status. */
  function Finished(t: Task, outcome: Outcome, now: nat): Task {
    if t.status == Cancelled then t.(updatedMs := now)
    else t.(status := if outcome.Ok? then Completed else Failed,
            statusMessage := if outcome.Err? then Some(outcome.error.message) else t.statusMessage,
            outcome := Some(outcome), updatedMs := now)
  }

  function CancelledTask(t: Task, now: nat): Task {
    t.(cancel := true, status := Cancelled, statusMessage := Some("Cancelled by request"), updatedMs := now)
  }

  predicate Expired(t: Task, now: nat) { t.createdMs + t.ttlMs <= now }

  // ----- the store -----

  type TaskMap = map<string, Task>

  function Unexpired(tasks: TaskMap, now: nat): TaskMap {
    map id | id in tasks && !Expired(tasks[id], now) :: tasks[id]
  }

  function Running(tasks: TaskMap, principal: string): set<string> {
    set id | id in tasks && tasks[id].principal == principal && !tasks[id].status.Terminal()
  }

  /** The caller's own task, unless it has expired: others are told there is none. */
  predicate Owned(tasks: TaskMap, principal: string, id: string, now: nat) {
    id in tasks && tasks[id].principal == principal && !Expired(tasks[id], now)
  }

  datatype Answer = Settled(outcome: Outcome) | WasCancelled | StillRunning | NoTask

  /** What `result` answers when it reads the task. */
  function ResultRead(tasks: TaskMap, principal: string, id: string, now: nat): Answer {
    if !Owned(tasks, principal, id, now) then NoTask
    else if tasks[id].status == Cancelled then WasCancelled
    else if tasks[id].outcome.Some? then Settled(tasks[id].outcome.value)
    else StillRunning
  }

  datatype Limits = Limits(maxRunning: nat, defaultTtlMs: nat, maxTtlMs: nat)

  function Ttl(limits: Limits, ttlMs: Option<nat>): nat {
    Min(if ttlMs.Some? then ttlMs.value else limits.defaultTtlMs, limits.maxTtlMs)
  }

  /** The tasks, whose work is still going on, and every event each task ever emitted. */
  datatype System = System(tasks: TaskMap, working: set<string>, emitted: map<string, seq<Value>>)

  const NO_TASKS: System := System(map[], {}, map[])

  datatype Action =
    | Start(principal: string, methodName: string, ttlMs: Option<nat>, id: string, now: nat)
    | Emit(id: string, event: Value, now: nat)
    | Report(id: string, progress: Progress, now: nat)
    | Finish(id: string, outcome: Outcome, now: nat)
    | Cancel(principal: string, id: string, now: nat)

  /** A new task has a new id, and work ends once. */
  predicate Possible(s: System, a: Action) {
    match a
    case Start(_, _, _, id, _) => id !in s.emitted
    case Finish(id, _, _) => id in s.working
    case _ => true
  }

  predicate Refused(limits: Limits, s: System, a: Action)
    requires a.Start?
  {
    |Running(Unexpired(s.tasks, a.now), a.principal)| >= limits.maxRunning
  }

  function After(limits: Limits, s: System, a: Action): System {
    match a
    case Start(principal, methodName, ttlMs, id, now) =>
      var tasks := Unexpired(s.tasks, now);
      if Refused(limits, s, a) then s.(tasks := tasks)
      else System(tasks[id := NewTask(principal, methodName, Ttl(limits, ttlMs), now)], s.working + {id},
          s.emitted[id := []])
    case Emit(id, event, now) =>
      if id !in s.tasks then s
      else s.(tasks := s.tasks[id := Emitted(s.tasks[id], event, now)],
              emitted := s.emitted[id := (if id in s.emitted then s.emitted[id] else []) + [event]])
    case Report(id, progress, now) =>
      if id !in s.tasks then s
      else s.(tasks := s.tasks[id := s.tasks[id].(progress := Some(progress), updatedMs := now)])
    case Finish(id, outcome, now) =>
      if id !in s.tasks then s.(working := s.working - {id})
      else s.(tasks := s.tasks[id := Finished(s.tasks[id], outcome, now)], working := s.working - {id})
    case Cancel(principal, id, now) =>
      if !Owned(s.tasks, principal, id, now) || s.tasks[id].status.Terminal() then s
      else s.(tasks := s.tasks[id := CancelledTask(s.tasks[id], now)])
  }

  // ----- the invariant -----

  /** The last events that are kept, with their numbers. */
  function KeptEvents(all: seq<Value>): seq<(nat, Value)> {
    var from := if |all| > MAX_EVENTS then |all| - MAX_EVENTS else 0;
    seq(|all| - from, i requires 0 <= i < |all| - from => (from + i + 1, all[from + i]))
  }

  ghost predicate TaskOk(s: System, id: string)
    requires id in s.tasks
  {
    var t := s.tasks[id];
    && (t.outcome.Some? <==> t.status == Completed || t.status == Failed)
    && (t.status == Completed ==> t.outcome.value.Ok?)
    && (t.status == Failed ==> t.outcome.value.Err?)
    && (id in s.working ==> t.outcome.None?)
    && id in s.emitted && t.events == KeptEvents(s.emitted[id]) && t.nextSeq == |s.emitted[id]| + 1
  }

  ghost predicate Inv(limits: Limits, s: System) {
    && (forall id | id in s.tasks :: TaskOk(s, id))
    && (forall principal :: |Running(s.tasks, principal)| <= limits.maxRunning)
  }

  lemma KeptEventsPush(all: seq<Value>, event: Value)
    ensures var next := KeptEvents(all) + [(|all| + 1, event)];
      KeptEvents(all + [event]) == if |next| > MAX_EVENTS then next[1..] else next
  {
  }

  lemma FewerRunning(tasks: TaskMap, tasks': TaskMap, principal: string)
    requires forall id | id in tasks' ::
      id in tasks && tasks[id].principal == tasks'[id].principal && (tasks[id].status.Terminal() ==>
          tasks'[id].status.Terminal())
    ensures |Running(tasks', principal)| <= |Running(tasks, principal)|
  {
    var a, b := Running(tasks', principal), Running(tasks, principal);
    assert a <= b;
    assert b == a + (b - a);
  }

  lemma StartKeeps(limits: Limits, s: System, a: Action)
    requires Inv(limits, s) && Possible(s, a) && a.Start?
    ensures Inv(limits, After(limits, s, a))
  {
    var live, s' := Unexpired(s.tasks, a.now), After(limits, s, a);
    forall principal ensures |Running(s'.tasks, principal)| <= limits.maxRunning {
      FewerRunning(s.tasks, live, principal);
      if !Refused(limits, s, a) { OneMoreRunning(live, a.id, s'.tasks[a.id], principal); }
    }
    forall id | id in s'.tasks ensures TaskOk(s', id) {
      if id != a.id || Refused(limits, s, a) { assert TaskOk(s, id); }
    }
  }

  lemma OneMoreRunning(tasks: TaskMap, id: string, t: Task, principal: string)
    ensures |Running(tasks[id := t], principal)| <=
            |Running(tasks, principal)| + (if t.principal == principal then 1 else 0)
  {
    var a, b := Running(tasks[id := t], principal), Running(tasks, principal);
    var c := if t.principal == principal then b + {id} else b;
    assert a <= c;
    assert c == a + (c - a);
  }

  lemma ChangedTaskOk(limits: Limits, s: System, a: Action)
    requires Inv(limits, s) && Possible(s, a) && !a.Start? && a.id in s.tasks
    ensures TaskOk(After(limits, s, a), a.id)
  {
    assert TaskOk(s, a.id);
    if a.Emit? { KeptEventsPush(s.emitted[a.id], a.event); }
  }

  lemma ChangeKeeps(limits: Limits, s: System, a: Action)
    requires Inv(limits, s) && Possible(s, a) && !a.Start?
    ensures Inv(limits, After(limits, s, a))
  {
    var s' := After(limits, s, a);
    forall id | id in s'.tasks ensures TaskOk(s', id) {
      if id == a.id { ChangedTaskOk(limits, s, a); } else { assert TaskOk(s, id); }
    }
    forall principal ensures |Running(s'.tasks, principal)| <= limits.maxRunning {
      ChangeRunsFewer(limits, s, a, principal);
    }
  }

  lemma ChangeRunsFewer(limits: Limits, s: System, a: Action, principal: string)
    requires Inv(limits, s) && Possible(s, a) && !a.Start?
    ensures |Running(After(limits, s, a).tasks, principal)| <= |Running(s.tasks, principal)|
  {
    if a.id in s.tasks {
      var t := After(limits, s, a).tasks[a.id];
      EndStaysEnd(limits, s, a);
      hide After;
      ReplacedRunsFewer(s.tasks, a.id, t, principal);
    }
  }

  /** An action other than a start changes its own task alone, and one that has ended stays ended. */
  lemma EndStaysEnd(limits: Limits, s: System, a: Action)
    requires Inv(limits, s) && Possible(s, a) && !a.Start? && a.id in s.tasks
    ensures var t := After(limits, s, a).tasks[a.id];
      After(limits, s, a).tasks == s.tasks[a.id := t]
      && t.principal == s.tasks[a.id].principal && (s.tasks[a.id].status.Terminal() ==> t.status.Terminal())
  {
    assert TaskOk(s, a.id);
  }

  lemma ReplacedRunsFewer(tasks: TaskMap, id: string, t: Task, principal: string)
    requires id in tasks && t.principal == tasks[id].principal && (tasks[id].status.Terminal() ==> t.status.Terminal())
    ensures |Running(tasks[id := t], principal)| <= |Running(tasks, principal)|
  {
    FewerRunning(tasks, tasks[id := t], principal);
  }

  /** Every action keeps the tasks in order and the running ones within the limit of each principal. */
  lemma StepKeeps(limits: Limits, s: System, a: Action)
    requires Inv(limits, s) && Possible(s, a)
    ensures Inv(limits, After(limits, s, a))
  {
    if a.Start? { StartKeeps(limits, s, a); } else { ChangeKeeps(limits, s, a); }
  }

  // ----- terminal states are final -----

  /** The task is gone, or ended as it was. */
  ghost predicate SameEnd(s: System, s': System, id: string)
    requires id in s.tasks
  {
    id in s'.tasks ==>
      && s'.tasks[id].status == s.tasks[id].status && s'.tasks[id].outcome == s.tasks[id].outcome
      && s'.tasks[id].principal == s.tasks[id].principal
      && s'.tasks[id].createdMs == s.tasks[id].createdMs && s'.tasks[id].ttlMs == s.tasks[id].ttlMs
  }

  lemma EndIsFinal(limits: Limits, s: System, a: Action, id: string)
    requires Inv(limits, s) && Possible(s, a) && id in s.tasks && s.tasks[id].status.Terminal()
    ensures SameEnd(s, After(limits, s, a), id)
  {
    assert TaskOk(s, id);
  }

  ghost predicate IsRun(limits: Limits, actions: seq<Action>, states: seq<System>) {
    && |states| == |actions| + 1 && states[0] == NO_TASKS
    && forall n: nat | n < |actions| :: StepAt(limits, actions, states, n)
  }

  ghost predicate StepAt(limits: Limits, actions: seq<Action>, states: seq<System>, n: nat)
    requires n < |actions| < |states|
  {
    Possible(states[n], actions[n]) && states[n + 1] == After(limits, states[n], actions[n])
  }

  lemma {:induction false} RunKeeps(limits: Limits, actions: seq<Action>, states: seq<System>, n: nat)
    requires IsRun(limits, actions, states) && n <= |actions|
    ensures Inv(limits, states[n])
  {
    if n == 0 {
      forall principal ensures Running(NO_TASKS.tasks, principal) == {} {}
    } else {
      RunKeeps(limits, actions, states, n - 1);
      assert StepAt(limits, actions, states, n - 1);
      StepKeeps(limits, states[n - 1], actions[n - 1]);
    }
  }

  /** Ids of tasks that were ever started are never given again. */
  lemma {:induction false} GoneStaysGone(limits: Limits, actions: seq<Action>, states: seq<System>, i: nat, j: nat,
      id: string)
    requires IsRun(limits, actions, states) && i <= j <= |actions| && id in states[i].emitted && id !in states[i].tasks
    ensures id !in states[j].tasks && id in states[j].emitted
    decreases j
  {
    if i < j {
      GoneStaysGone(limits, actions, states, i, j - 1, id);
      assert StepAt(limits, actions, states, j - 1);
    }
  }

  /** Completed, failed and cancelled are final, in every order of workers, cancels and clock. */
  lemma {:induction false} EndsStay(limits: Limits, actions: seq<Action>, states: seq<System>, i: nat, j: nat,
      id: string)
    requires IsRun(limits, actions, states) && i <= j <= |actions|
    requires id in states[i].tasks && states[i].tasks[id].status.Terminal()
    ensures SameEnd(states[i], states[j], id)
    decreases j
  {
    if i < j {
      EndsStay(limits, actions, states, i, j - 1, id);
      RunKeeps(limits, actions, states, j - 1);
      assert StepAt(limits, actions, states, j - 1);
      if id in states[j - 1].tasks {
        EndIsFinal(limits, states[j - 1], actions[j - 1], id);
      } else {
        EverEmitted(limits, actions, states, i, j - 1, id);
      }
    }
  }

  lemma {:induction false} EverEmitted(limits: Limits, actions: seq<Action>, states: seq<System>, i: nat, j: nat,
      id: string)
    requires IsRun(limits, actions, states) && i <= j <= |actions| && id in states[i].tasks
    ensures id in states[j].emitted
    decreases j
  {
    if i == j {
      RunKeeps(limits, actions, states, i);
      assert TaskOk(states[i], id);
    } else {
      EverEmitted(limits, actions, states, i, j - 1, id);
      assert StepAt(limits, actions, states, j - 1);
    }
  }

  /**
   The first answer of `result` other than a timeout is the answer of every later one, until the task
   expires; another principal is always told there is no task.
   */
  lemma ResultRepeats(limits: Limits, actions: seq<Action>, states: seq<System>, i: nat, j: nat,
                      principal: string, id: string, now: nat, later: nat)
    requires IsRun(limits, actions, states) && i <= j <= |actions|
    requires ResultRead(states[i].tasks, principal, id, now) !in {StillRunning, NoTask}
    ensures ResultRead(states[j].tasks, principal, id, later) in
            {ResultRead(states[i].tasks, principal, id, now), NoTask}
    ensures ResultRead(states[j].tasks, principal, id, later) == NoTask <==>
            id !in states[j].tasks || Expired(states[i].tasks[id], later)
  {
    RunKeeps(limits, actions, states, i);
    assert TaskOk(states[i], id);
    EndsStay(limits, actions, states, i, j, id);
  }

  /** From its start on, a task is its principal's: everyone else is told at any time that there is none. */
  lemma {:induction false} OthersNeverTold(limits: Limits, actions: seq<Action>, states: seq<System>, i: nat, j: nat,
                                           other: string, id: string, now: nat)
    requires IsRun(limits, actions, states) && i <= j <= |actions|
    requires id in states[i].tasks && states[i].tasks[id].principal != other
    ensures id in states[j].tasks ==> states[j].tasks[id].principal == states[i].tasks[id].principal
    ensures !Owned(states[j].tasks, other, id, now) && ResultRead(states[j].tasks, other, id, now) == NoTask
    decreases j
  {
    if i < j {
      OthersNeverTold(limits, actions, states, i, j - 1, other, id, now);
      EverEmitted(limits, actions, states, i, j - 1, id);
      assert StepAt(limits, actions, states, j - 1);
    }
  }

  /** In every reachable state an outcome is kept exactly for completed and failed tasks. */
  lemma OutcomeMeansEnded(limits: Limits, actions: seq<Action>, states: seq<System>, n: nat, id: string)
    requires IsRun(limits, actions, states) && n <= |actions| && id in states[n].tasks
    ensures var t := states[n].tasks[id];
      && (t.outcome.Some? <==> t.status == Completed || t.status == Failed)
      && (t.status == Completed <==> t.outcome.Some? && t.outcome.value.Ok?)
      && |Running(states[n].tasks, t.principal)| <= limits.maxRunning
  {
    RunKeeps(limits, actions, states, n);
    assert TaskOk(states[n], id);
  }

  // ----- a reader with a cursor -----

  lemma {:induction false} EventsAfterSuffix(events: seq<(nat, Value)>, first: nat, after: nat)
    requires forall i | 0 <= i < |events| :: events[i].0 == first + i
    ensures EventsAfter(events, after) ==
            var skip := Min(Max(after + 1 - first, 0), |events|);
            seq(|events| - skip, i requires 0 <= i < |events| - skip => events[skip + i].1)
    decreases |events|
  {
    if events != [] {
      assert forall i | 0 <= i < |events[1..]| :: events[1..][i] == events[i + 1];
      EventsAfterSuffix(events[1..], first + 1, after);
    }
  }

  /** A poll gives what was emitted after the cursor, as far as it is kept. */
  lemma PollGets(all: seq<Value>, after: nat)
    requires after <= |all|
    ensures EventsAfter(KeptEvents(all), after) == all[Max(after, |all| - MAX_EVENTS)..]
  {
    var from := if |all| > MAX_EVENTS then |all| - MAX_EVENTS else 0;
    EventsAfterSuffix(KeptEvents(all), from + 1, after);
  }

  lemma {:induction false} EmittedGrows(limits: Limits, actions: seq<Action>, states: seq<System>, i: nat, j: nat,
      id: string)
    requires IsRun(limits, actions, states) && i <= j <= |actions| && id in states[i].emitted
    ensures id in states[j].emitted && states[i].emitted[id] <= states[j].emitted[id]
    decreases j
  {
    if i < j {
      EmittedGrows(limits, actions, states, i, j - 1, id);
      assert StepAt(limits, actions, states, j - 1);
    }
  }

  /** The states of the run in which one reader polls the task, one after the other. */
  ghost predicate Polls(states: seq<System>, id: string, moments: seq<nat>) {
    && (forall i | 0 <= i < |moments| :: moments[i] < |states| && id in states[moments[i]].tasks)
    && (forall i, j | 0 <= i < j < |moments| :: moments[i] <= moments[j])
  }

  /** What a reader has gathered, and the `next` of its last poll. */
  datatype Reader = Reader(got: seq<Value>, next: nat)

  /** Each poll passes the `next` of the one before, and the first one passes 0. */
  function ReadBy(states: seq<System>, id: string, moments: seq<nat>): Reader
    requires forall i | 0 <= i < |moments| :: moments[i] < |states| && id in states[moments[i]].tasks
  {
    if moments == [] then Reader([], 0) else
      var n := |moments| - 1;
      var before := ReadBy(states, id, moments[..n]);
      var poll := ViewOf(states[moments[n]].tasks[id], id, Some(before.next)).events.value;
      Reader(before.got + poll.0, poll.1)
  }

  /** How many events were emitted since the poll before. */
  ghost function Gap(states: seq<System>, id: string, moments: seq<nat>, i: nat): int
    requires i < |moments|
    requires forall i | 0 <= i < |moments| :: moments[i] < |states| && id in states[moments[i]].emitted
  {
    |states[moments[i]].emitted[id]| - (if i == 0 then 0 else |states[moments[i - 1]].emitted[id]|)
  }

  /** Between two polls no more was emitted than is kept. */
  ghost predicate InTime(states: seq<System>, id: string, moments: seq<nat>)
    requires forall i | 0 <= i < |moments| :: moments[i] < |states| && id in states[moments[i]].emitted
  {
    forall i: nat | i < |moments| :: Gap(states, id, moments, i) <= MAX_EVENTS
  }

  /** One more poll: what it gives, and how much of what came since the last one. */
  lemma OnePoll(limits: Limits, actions: seq<Action>, states: seq<System>, id: string, m: nat, after: nat)
    requires IsRun(limits, actions, states) && m < |states| && id in states[m].tasks
    requires id in states[m].emitted ==> after <= |states[m].emitted[id]|
    ensures id in states[m].emitted
    ensures var all := states[m].emitted[id];
      ViewOf(states[m].tasks[id], id, Some(after)).events == Some((all[Max(after, |all| - MAX_EVENTS)..], |all|))
  {
    RunKeeps(limits, actions, states, m);
    assert TaskOk(states[m], id);
    PollGets(states[m].emitted[id], after);
  }

  lemma PollsEmitted(limits: Limits, actions: seq<Action>, states: seq<System>, id: string, moments: seq<nat>)
    requires IsRun(limits, actions, states) && Polls(states, id, moments)
    ensures forall i | 0 <= i < |moments| :: id in states[moments[i]].emitted
  {
    forall i | 0 <= i < |moments| ensures id in states[moments[i]].emitted {
      EverEmitted(limits, actions, states, moments[i], moments[i], id);
    }
  }

  lemma JoinedAll(got: seq<Value>, seen: seq<Value>, all: seq<Value>, rest: seq<Value>)
    requires |got| <= |seen| && seen <= all && rest == all[Max(|seen|, |all| - MAX_EVENTS)..]
    ensures |got + rest| <= |all|
    ensures got + rest == all <==> got == seen && |all| - |seen| <= MAX_EVENTS
  {
    if got + rest == all {
      assert |got| == |seen|;
      assert got == (got + rest)[..|got|] == all[..|seen|] == seen;
    }
  }

  /**
   A reader that passes on each `next` has, after its last poll, each event emitted so far once and in
   order, if and only if between its polls never more than `MAX_EVENTS` were emitted.
   */
  lemma {:induction false} ReaderGetsAll(limits: Limits, actions: seq<Action>, states: seq<System>, id: string,
      moments: seq<nat>)
    requires IsRun(limits, actions, states) && Polls(states, id, moments) && moments != []
    ensures forall i | 0 <= i < |moments| :: id in states[moments[i]].emitted
    ensures var all := states[moments[|moments| - 1]].emitted[id];
      var reader := ReadBy(states, id, moments);
      && reader.next == |all| && |reader.got| <= |all|
      && (reader.got == all <==> InTime(states, id, moments))
    decreases |moments|
  {
    PollsEmitted(limits, actions, states, id, moments);
    var n := |moments| - 1;
    var front, all := moments[..n], states[moments[n]].emitted[id];
    if n == 0 {
      assert front == [];
      OnePoll(limits, actions, states, id, moments[0], 0);
      JoinedAll([], [], all, all[Max(0, |all| - MAX_EVENTS)..]);
      assert Gap(states, id, moments, 0) == |all|;
    } else {
      var seen := states[moments[n - 1]].emitted[id];
      ReaderGetsAll(limits, actions, states, id, front);
      EmittedGrows(limits, actions, states, moments[n - 1], moments[n], id);
      OnePoll(limits, actions, states, id, moments[n], |seen|);
      JoinedAll(ReadBy(states, id, front).got, seen, all, all[Max(|seen|, |all| - MAX_EVENTS)..]);
      InTimeOneMore(states, id, moments);
    }
  }

  lemma InTimeOneMore(states: seq<System>, id: string, moments: seq<nat>)
    requires |moments| > 1 && forall i | 0 <= i < |moments| :: moments[i] < |states| && id in states[moments[i]].emitted
    ensures InTime(states, id, moments) <==>
      (InTime(states, id, moments[..|moments| - 1]) && Gap(states, id, moments, |moments| - 1) <= MAX_EVENTS)
  {
    var n := |moments| - 1;
    var front := moments[..n];
    forall i: nat | i < n ensures Gap(states, id, front, i) == Gap(states, id, moments, i) {}
    if InTime(states, id, moments) {
      forall i: nat | i < n ensures Gap(states, id, front, i) <= MAX_EVENTS {
        assert Gap(states, id, moments, i) <= MAX_EVENTS;
      }
    }
  }
}
