/** The task store itself (cep/src/task.rs): each method is one action on the locked map of tasks. */
module TaskStores {
  import opened Wrappers
  import opened Json
  import opened Tasks

  datatype CallError = TooManyTasks(running: nat) | TaskNotFound | TaskEnded

  /** What has not run out. */
  function Lasting(tasks: TaskMap, now: nat): TaskMap {
    map id | id in tasks && tasks[id].createdMs + tasks[id].ttlMs > now :: tasks[id]
  }

  /** The tasks of the principal that go on. */
  function GoingOn(tasks: TaskMap, principal: string): set<string> {
    set id | id in tasks && tasks[id].principal == principal
             && (tasks[id].status.Working? || tasks[id].status.InputRequired?)
  }

  /** The task is there for this caller: its own, and not run out. */
  predicate Sees(tasks: TaskMap, principal: string, id: string, now: nat) {
    id in tasks && tasks[id].principal == principal && tasks[id].createdMs + tasks[id].ttlMs > now
  }

  /** What a caller sees of a task, without its events. */
  predicate Shows(v: View, id: string, t: Task) {
    && v.id == id && v.methodName == t.methodName && v.status == t.status && v.statusMessage == t.statusMessage
    && v.createdMs == t.createdMs && v.updatedMs == t.updatedMs && v.ttlMs == t.ttlMs && v.progress == t.progress
  }

  class TaskStore {
    const limits: Limits
    var tasks: TaskMap
    /** The tasks whose work has not returned yet. */
    var working: set<string>
    ghost var emitted: map<string, seq<Value>>

    ghost function Now(): System
      reads this
    {
      System(tasks, working, emitted)
    }

    ghost predicate Valid()
      reads this
    {
      Inv(limits, Now())
    }

    constructor (limits: Limits)
      ensures Valid() && Now() == NO_TASKS && this.limits == limits
    {
      this.limits := limits;
      tasks, working, emitted := map[], {}, map[];
      new;
      forall principal ensures Running(tasks, principal) == {} {}
    }

    static method CountRunning(tasks: TaskMap, principal: string) returns (n: nat)
      ensures n == |Running(tasks, principal)|
    {
      var rest := tasks.Keys;
      n := 0;
      ghost var counted: set<string> := {};
      while rest != {}
        invariant rest <= tasks.Keys && counted == Running(tasks, principal) - rest && n == |counted|
      {
        var id :| id in rest;
        rest := rest - {id};
        if tasks[id].principal == principal && !tasks[id].status.Terminal() {
          n := n + 1;
          counted := counted + {id};
        }
      }
      assert counted == Running(tasks, principal);
    }

    /** Starts a task under a new id; the work then runs beside the store. */
    method Start(principal: string, methodName: string, ttlMs: Option<nat>, id: string, now: nat)
      returns (r: Result<View, CallError>)
      requires Valid() && id !in emitted
      modifies this
      ensures Valid() && Now() == After(limits, old(Now()), Action.Start(principal, methodName, ttlMs, id, now))
      ensures r.Err? <==> |GoingOn(Lasting(old(tasks), now), principal)| >= limits.maxRunning
      ensures r.Err? ==> tasks == Lasting(old(tasks), now)
      ensures r.Ok? ==>
        var asked := if ttlMs.Some? then ttlMs.value else limits.defaultTtlMs;
        var ttl := if asked <= limits.maxTtlMs then asked else limits.maxTtlMs;
        var task := Task(principal, methodName, Working, None, now, now, ttl, None, [], 1, None, false);
        tasks == Lasting(old(tasks), now)[id := task] && Shows(r.value, id, task) && r.value.events == None
    {
      hide Inv;
      assert Lasting(tasks, now) == Unexpired(tasks, now);
      assert GoingOn(Lasting(tasks, now), principal) == Running(Unexpired(tasks, now), principal);
      StepKeeps(limits, Now(), Action.Start(principal, methodName, ttlMs, id, now));
      tasks := map other | other in tasks && tasks[other].createdMs + tasks[other].ttlMs > now :: tasks[other];
      assert tasks == Unexpired(old(tasks), now);
      var running := CountRunning(tasks, principal);
      if running >= limits.maxRunning {
        return Err(TooManyTasks(running));
      }
      var task := NewTask(principal, methodName, Ttl(limits, ttlMs), now);
      tasks := tasks[id := task];
      working := working + {id};
      emitted := emitted[id := []];
      r := Ok(ViewOf(task, id, None));
    }

    /** A piece of output from the task's work; the oldest goes when too many are kept. */
    method Emit(id: string, event: Value, now: nat)
      requires Valid()
      modifies this
      ensures Valid() && Now() == After(limits, old(Now()), Action.Emit(id, event, now))
      ensures tasks == if id !in old(tasks) then old(tasks) else
        var t := old(tasks)[id];
        var all := t.events + [(t.nextSeq, event)];
        old(tasks)[id := t.(events := if |all| > 1000 then all[1..] else all,
                            nextSeq := t.nextSeq + 1, updatedMs := now)]
    {
      hide Inv;
      StepKeeps(limits, Now(), Action.Emit(id, event, now));
      if id in tasks {
        var task := tasks[id];
        var events := task.events + [(task.nextSeq, event)];
        if |events| > MAX_EVENTS {
          events := events[1..];
        }
        tasks := tasks[id := task.(events := events, nextSeq := task.nextSeq + 1, updatedMs := now)];
        emitted := emitted[id := (if id in emitted then emitted[id] else []) + [event]];
      }
    }

    method Report(id: string, progress: Progress, now: nat)
      requires Valid()
      modifies this
      ensures Valid() && Now() == After(limits, old(Now()), Action.Report(id, progress, now))
      ensures tasks == if id !in old(tasks) then old(tasks)
                       else old(tasks)[id := old(tasks)[id].(progress := Some(progress), updatedMs := now)]
    {
      hide Inv;
      StepKeeps(limits, Now(), Action.Report(id, progress, now));
      if id in tasks {
        tasks := tasks[id := tasks[id].(progress := Some(progress), updatedMs := now)];
      }
    }

    /** The task's work has returned. */
    method Finish(id: string, outcome: Outcome, now: nat)
      requires Valid() && id in working
      modifies this
      ensures Valid() && Now() == After(limits, old(Now()), Action.Finish(id, outcome, now))
      ensures working == old(working) - {id}
      ensures tasks == if id !in old(tasks) then old(tasks) else
        var t := old(tasks)[id];
        old(tasks)[id := if t.status.Cancelled? then t.(updatedMs := now) else
          match outcome
          case Ok(_) => t.(status := Completed, outcome := Some(outcome), updatedMs := now)
          case Err(error) =>
            t.(status := Failed, statusMessage := Some(error.message), outcome := Some(outcome), updatedMs := now)]
    {
      hide Inv;
      StepKeeps(limits, Now(), Action.Finish(id, outcome, now));
      working := working - {id};
      if id in tasks {
        var task := tasks[id];
        if task.status != Cancelled {
          task := task.(status := if outcome.Ok? then Completed else Failed);
          if outcome.Err? {
            task := task.(statusMessage := Some(outcome.error.message));
          }
          task := task.(outcome := Some(outcome));
        }
        tasks := tasks[id := task.(updatedMs := now)];
      }
    }

    method Cancel(principal: string, id: string, now: nat) returns (r: Result<View, CallError>)
      requires Valid()
      modifies this
      ensures Valid() && Now() == After(limits, old(Now()), Action.Cancel(principal, id, now))
      ensures r == Err(TaskNotFound) <==> !Sees(old(tasks), principal, id, now)
      ensures r.Ok? <==> Sees(old(tasks), principal, id, now)
                         && (old(tasks)[id].status.Working? || old(tasks)[id].status.InputRequired?)
      ensures r.Err? ==> tasks == old(tasks) && r.error in {TaskNotFound, TaskEnded}
      ensures r.Ok? ==> tasks == old(tasks)[id := old(tasks)[id].(cancel := true, status := Cancelled,
          statusMessage := Some("Cancelled by request"), updatedMs := now)]
      ensures r.Ok? ==> Shows(r.value, id, tasks[id]) && r.value.events == None
    {
      hide Inv;
      StepKeeps(limits, Now(), Action.Cancel(principal, id, now));
      if !Owned(tasks, principal, id, now) {
        return Err(TaskNotFound);
      }
      if tasks[id].status.Terminal() {
        return Err(TaskEnded);
      }
      tasks := tasks[id := tasks[id].(cancel := true, status := Cancelled,
          statusMessage := Some("Cancelled by request"), updatedMs := now)];
      r := Ok(ViewOf(tasks[id], id, None));
    }

    /** Status and progress, and what was emitted after the cursor. */
    method Get(principal: string, id: string, after: Option<nat>, now: nat) returns (r: Result<View, CallError>)
      requires Valid()
      ensures r == Err(TaskNotFound) <==> !Sees(tasks, principal, id, now)
      ensures r.Ok? <==> Sees(tasks, principal, id, now)
      ensures r.Ok? ==>
        var cursor := if after.Some? then after.value else 0;
        && r.value == ViewOf(tasks[id], id, Some(cursor)) && Shows(r.value, id, tasks[id])
        && (cursor <= |emitted[id]| ==>
              var from := if |emitted[id]| <= cursor + 1000 then cursor else |emitted[id]| - 1000;
              r.value.events == Some((emitted[id][from..], |emitted[id]|)))
    {
      if !Owned(tasks, principal, id, now) {
        return Err(TaskNotFound);
      }
      assert TaskOk(Now(), id);
      var cursor := if after.Some? then after.value else 0;
      if cursor <= |emitted[id]| { PollGets(emitted[id], cursor); }
      r := Ok(ViewOf(tasks[id], id, Some(cursor)));
    }

    /** One look at the final result; a caller that is told it is still running looks again. */
    method ReadResult(principal: string, id: string, now: nat) returns (answer: Answer)
      ensures answer == ResultRead(tasks, principal, id, now)
      ensures answer.NoTask? <==> !Sees(tasks, principal, id, now)
      ensures answer.WasCancelled? <==> Sees(tasks, principal, id, now) && tasks[id].status.Cancelled?
      ensures answer.StillRunning? ==> tasks[id].outcome.None?
      ensures answer.Settled? ==> tasks[id].outcome == Some(answer.outcome)
    {
      if !Owned(tasks, principal, id, now) {
        return NoTask;
      }
      var task := tasks[id];
      if task.status == Cancelled {
        return WasCancelled;
      }
      answer := if task.outcome.Some? then Settled(task.outcome.value) else StillRunning;
    }
  }
}
