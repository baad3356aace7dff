/** `PlannedTaskScheduler` in place: the handler table, the counters and the deferred removals. */
module SchedulerObject {
  import opened Common
  import opened Scheduler

  /** The sequence lists each of `ids` exactly once. */
  ghost predicate EachOnce(run: seq<nat>, ids: set<nat>) {
    && (forall id :: id in run <==> id in ids)
    && forall i, j :: 0 <= i < j < |run| ==> run[i] != run[j]
  }

  class PlannedTaskScheduler {
    var increaseKey: nat
    var handlers: map<nat, Task>
    var shouldRemoveIds: seq<nat>
    var lastTimestamp: int
    /** Every action run so far, by task id. */
    var log: seq<nat>

    constructor ()
      ensures Valid() && View() == State(0, map[], 0) && log == []
    {
      increaseKey, handlers, shouldRemoveIds, lastTimestamp, log := 0, map[], [], 0, [];
    }

    ghost predicate Valid()
      reads this
    {
      shouldRemoveIds == [] && IdsBelow(View())
    }

    function View(): State
      reads this
    {
      State(increaseKey, handlers, lastTimestamp)
    }

    method AddTimeTask(delayMs: int, repeatTime: Int32) returns (id: nat)
      requires Valid()
      modifies this
      ensures Valid() && log == old(log)
      ensures View() == Apply(old(View()), Op.AddTimeTask(delayMs, repeatTime))
      ensures id == old(increaseKey) && id !in old(handlers) && id in handlers
    {
      id := increaseKey;
      increaseKey := increaseKey + 1;
      handlers := handlers[id := Interval(delayMs, 0, repeatTime)];
    }

    method AddTickTask(delayFrame: Int32, repeatTime: Int32) returns (id: nat)
      requires Valid()
      modifies this
      ensures Valid() && log == old(log)
      ensures View() == Apply(old(View()), Op.AddTickTask(delayFrame, repeatTime))
      ensures id == old(increaseKey) && id !in old(handlers) && id in handlers
    {
      id := increaseKey;
      increaseKey := increaseKey + 1;
      handlers := handlers[id := Tick(delayFrame, 0, repeatTime)];
    }

    /** An invalid time of day is an exception and adds nothing. */
    method AddDailySpecificTimeTask(hour: int, minute: int, second: int, now: int) returns (id: Outcome<nat>)
      requires Valid()
      modifies this
      ensures Valid() && log == old(log)
      ensures View() == Apply(old(View()), AddDailyTask(hour, minute, second, now))
      ensures id == if 0 <= hour < 24 && 0 <= minute < 60 && 0 <= second < 60 then Ok(old(increaseKey)) else Failed
      ensures id.Failed? ==> View() == old(View())
    {
      if hour < 0 || hour > 23 || minute < 0 || minute > 59 || second < 0 || second > 59 {
        return Failed;
      }
      var target := TargetTime(hour, minute, second);
      var next := now - now % DAY + target;
      if now % DAY > target {
        next := next + DAY;
      }
      id := Ok(increaseKey);
      handlers := handlers[increaseKey := Daily(target, next)];
      increaseKey := increaseKey + 1;
    }

    method Clear(id: nat)
      modifies this`handlers
      ensures View() == Apply(old(View()), Op.Clear(id)) && handlers == old(handlers) - {id}
    {
      if id in handlers {
        handlers := handlers - {id};
      }
    }

    /** What the loop body does to one handler: its new counters, whether its action runs, whether it is to be removed. */
    method Visit(handler: Task, deltaTime: int, now: int) returns (t: Task, shouldDoAction: bool, remove: bool)
      ensures t == After(handler, deltaTime, now)
      ensures shouldDoAction == Fires(handler, deltaTime, now) && remove == Finished(handler, deltaTime, now)
    {
      t, shouldDoAction, remove := handler, false, false;
      if t.Interval? {
        t := t.(totalTime := t.totalTime + deltaTime);
        if t.totalTime >= t.delayMs {
          shouldDoAction := true;
          t := t.(totalTime := 0);
        }
      } else if t.Tick? {
        t := t.(totalFrame := t.totalFrame + 1);
        if t.totalFrame >= t.delayFrame {
          shouldDoAction := true;
          t := t.(totalFrame := 0);
        }
      } else if now >= t.nextExecution {
        shouldDoAction := true;
        t := t.(nextExecution := t.nextExecution + DAY);
      }
      if shouldDoAction && !t.Daily? && t.repeatTime != -1 {
        t := t.(repeatTime := WrapInt32(t.repeatTime - 1));
        remove := t.repeatTime <= 0;
      }
    }

    /**
     One `Update`.  The handlers are visited in any order; each task that is due runs
     its action exactly once, and finished tasks are removed after the loop.
     */
    method Update(m: Moment)
      requires Valid()
      modifies this
      ensures Valid() && View() == UpdateAll(old(View()), m)
      ensures exists ran: seq<nat> :: log == old(log) + ran && EachOnce(ran, FiredIds(old(View()), m))
    {
      var deltaTime := m.timestamp - lastTimestamp;
      ghost var ran := VisitAll(deltaTime, m.now);
      assert log == old(log) + ran && EachOnce(ran, FiredIds(old(View()), m));
      RemoveFinished();
      lastTimestamp := m.timestamp;
    }

    /** The loop over the handler table. */
    method VisitAll(deltaTime: int, now: int) returns (ghost ran: seq<nat>)
      requires shouldRemoveIds == []
      modifies this`handlers, this`shouldRemoveIds, this`log
      ensures handlers.Keys == old(handlers).Keys
      ensures forall id :: id in handlers ==> handlers[id] == After(old(handlers)[id], deltaTime, now)
      ensures forall id :: id in shouldRemoveIds <==> id in old(handlers) && Finished(old(handlers)[id], deltaTime, now)
      ensures log == old(log) + ran
      ensures EachOnce(ran, set id | id in old(handlers) && Fires(old(handlers)[id], deltaTime, now))
    {
      ran := [];
      ghost var visited: set<nat> := {};
      var todo := handlers.Keys;
      while todo != {}
        invariant visited + todo == handlers.Keys == old(handlers).Keys && visited !! todo
        invariant forall id :: id in todo ==> handlers[id] == old(handlers)[id]
        invariant forall id :: id in visited ==> handlers[id] == After(old(handlers)[id], deltaTime, now)
        invariant forall id :: id in shouldRemoveIds <==> id in visited && Finished(old(handlers)[id], deltaTime, now)
        invariant log == old(log) + ran
        invariant forall id :: id in ran <==> id in visited && Fires(old(handlers)[id], deltaTime, now)
        invariant forall i, j :: 0 <= i < j < |ran| ==> ran[i] != ran[j]
        decreases todo
      {
        var id :| id in todo;
        var t, shouldDoAction, remove := Visit(handlers[id], deltaTime, now);
        if shouldDoAction {
          log := log + [id];
          ran := ran + [id];
        }
        if remove {
          shouldRemoveIds := shouldRemoveIds + [id];
        }
        handlers := handlers[id := t];
        visited, todo := visited + {id}, todo - {id};
      }
    }

    method RemoveFinished()
      modifies this`handlers, this`shouldRemoveIds
      ensures handlers == map id | id in old(handlers) && id !in old(shouldRemoveIds) :: old(handlers)[id]
      ensures shouldRemoveIds == []
    {
      var i := 0;
      while i < |shouldRemoveIds|
        invariant 0 <= i <= |shouldRemoveIds| && shouldRemoveIds == old(shouldRemoveIds)
        invariant handlers == map id | id in old(handlers) && id !in shouldRemoveIds[..i] :: old(handlers)[id]
      {
        Clear(shouldRemoveIds[i]);
        assert shouldRemoveIds[..i + 1] == shouldRemoveIds[..i] + [shouldRemoveIds[i]];
        i := i + 1;
      }
      assert shouldRemoveIds[..i] == shouldRemoveIds;
      shouldRemoveIds := [];
    }
  }
}
