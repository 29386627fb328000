// Expensive edits one at a time, the latest waiting one kept.
module LatestTasks {
  import opened Sequences

  // Names one call of `enqueue`.
  type Task = nat

  class LatestTask {
    var busy: bool
    var pending: Option<Task>

    // What happened so far.
    ghost var enqueued: seq<Task>   // in order
    ghost var started: seq<Task>    // in order
    ghost var dropped: set<Task>    // replaced or cancelled
    ghost var running: Option<Task>
    ghost var threw: bool           // the error handler itself threw

    // What every run keeps: one task at a time, the waiting one the latest, and
    // every enqueued task started, waiting or dropped, each only once.
    ghost predicate Valid()
      reads this
    {
      && (busy <==> running.Some?)
      && (running.Some? ==> started != [] && running.value == started[|started| - 1])
      && (pending.Some? ==> enqueued != [] && pending.value == enqueued[|enqueued| - 1])
      && (pending.Some? && !busy ==> threw)
      && (forall i, j :: 0 <= i < j < |enqueued| ==> enqueued[i] != enqueued[j])
      && (forall i, j :: 0 <= i < j < |started| ==> started[i] != started[j])
      && (forall t :: t in enqueued <==> t in started || t in dropped || pending == Some(t))
      && (forall t :: t in started ==> t !in dropped && pending != Some(t))
      && (pending.Some? ==> pending.value !in dropped)
    }

    constructor ()
      ensures Valid() && enqueued == [] && started == [] && dropped == {} && !threw
    {
      busy, pending := false, None;
      enqueued, started, dropped, running, threw := [], [], {}, None, false;
    }

    // Starts at once when nothing runs, else waits in the place of what waited.
    method Enqueue(task: Task)
      requires Valid() && task !in enqueued
      modifies this
      ensures Valid() && busy && enqueued == old(enqueued) + [task] && threw == old(threw)
      ensures old(busy) ==>
                && pending == Some(task) && started == old(started) && running == old(running)
                && dropped == old(dropped) + (if old(pending).Some? then {old(pending).value} else {})
      ensures !old(busy) ==>
                && pending == None && started == old(started) + [task] && running == Some(task)
                && dropped == old(dropped) + (if old(pending).Some? then {old(pending).value} else {})
    {
      dropped := dropped + (if pending.Some? then {pending.value} else {});
      pending := Some(task);
      enqueued := enqueued + [task];
      if !busy {
        busy := true;
        var next := TakePending();
      }
    }

    method CancelPending()
      requires Valid()
      modifies this
      ensures Valid() && pending == None
      ensures busy == old(busy) && running == old(running) && threw == old(threw)
      ensures enqueued == old(enqueued) && started == old(started)
      ensures dropped == old(dropped) + (if old(pending).Some? then {old(pending).value} else {})
    {
      dropped := dropped + (if pending.Some? then {pending.value} else {});
      pending := None;
    }

    // One turn of the loop: the waiting task starts, if one does.
    method TakePending() returns (task: Option<Task>)
      requires busy && (pending.Some? ==> enqueued != [] && pending.value == enqueued[|enqueued| - 1])
      modifies this
      ensures task == old(pending) && pending == None && busy == task.Some?
      ensures running == task
      ensures started == old(started) + (if task.Some? then [task.value] else [])
      ensures enqueued == old(enqueued) && dropped == old(dropped) && threw == old(threw)
    {
      task := pending;
      pending := None;
      running := task;
      started := started + (if task.Some? then [task.value] else []);
      busy := task.Some?;
    }

    // The running task ends, well or not; the handler, if it is told, returns.
    // What starts then is the latest enqueued task.
    method Settle()
      requires Valid() && busy
      modifies this
      ensures Valid() && pending == None && busy == old(pending).Some?
      ensures running == old(pending)
      ensures busy ==> running == Some(enqueued[|enqueued| - 1])
      ensures started == old(started) + (if old(pending).Some? then [old(pending).value] else [])
      ensures enqueued == old(enqueued) && dropped == old(dropped) && threw == old(threw)
    {
      var task := TakePending();
    }

    // The running task fails and the handler throws: the loop is left.
    method SettleThrowing()
      requires Valid() && busy
      modifies this
      ensures Valid() && !busy && pending == old(pending) && threw
      ensures enqueued == old(enqueued) && started == old(started) && dropped == old(dropped)
    {
      busy := false;
      running := None;
      threw := true;
    }
  }

  // What may come next; a settling that finds nothing running is nothing.
  datatype Event = Enqueues | Cancels | Settles | SettlesThrowing

  // Whether a task runs, and whether one waits.
  datatype Standing = Standing(busy: bool, waiting: bool)

  function After(events: seq<Event>): Standing {
    if events == [] then Standing(false, false)
    else
      var before := After(events[..|events| - 1]);
      match events[|events| - 1]
      case Enqueues => Standing(true, before.busy)
      case Cancels => before.(waiting := false)
      case Settles => if before.busy then Standing(before.waiting, false) else before
      case SettlesThrowing => before.(busy := false)
  }

  // Event `k` threw while a task waited, and since then nothing was enqueued or
  // cancelled.
  ghost predicate Strands(events: seq<Event>, k: nat) {
    && k < |events| && events[k] == SettlesThrowing && After(events[..k]) == Standing(true, true)
    && forall m :: k < m < |events| ==> events[m] == Settles || events[m] == SettlesThrowing
  }

  // A task is left waiting with nothing running exactly when some throw left it so.
  lemma {:induction false} LeftWaitingIff(events: seq<Event>)
    ensures After(events) == Standing(false, true) <==> exists k: nat :: Strands(events, k)
    decreases |events|
  {
    if events != [] {
      var front, last := events[..|events| - 1], |events| - 1;
      LeftWaitingIff(front);
      if After(events) == Standing(false, true) {
        if After(front) == Standing(false, true) {
          var k: nat :| Strands(front, k);
          assert events[..k] == front[..k];
          assert Strands(events, k);
        } else {
          assert Strands(events, last);
        }
      }
      if k: nat :| Strands(events, k) {
        if k < last {
          assert events[..k] == front[..k];
          assert Strands(front, k);
        }
      }
    }
  }

  // Any run; event `i` enqueues task `i`. With no throw, nothing waits while no
  // task runs, and once nothing runs every task was started once, replaced or
  // cancelled; with one, a task is left waiting exactly when a throw stranded it.
  method Run(events: seq<Event>) returns (tasks: LatestTask)
    ensures fresh(tasks) && tasks.Valid()
    ensures Standing(tasks.busy, tasks.pending.Some?) == After(events)
    ensures forall t: nat :: t in tasks.enqueued <==> t < |events| && events[t] == Enqueues
    ensures SettlesThrowing !in events ==>
              && (tasks.pending.Some? ==> tasks.busy)
              && (!tasks.busy ==> forall t :: t in tasks.enqueued <==> t in tasks.started || t in tasks.dropped)
    ensures tasks.pending.Some? && !tasks.busy <==> exists k: nat :: Strands(events, k)
  {
    tasks := new LatestTask();
    for i := 0 to |events|
      invariant fresh(tasks) && tasks.Valid()
      invariant Standing(tasks.busy, tasks.pending.Some?) == After(events[..i])
      invariant forall t: nat :: t in tasks.enqueued <==> t < i && events[t] == Enqueues
      invariant tasks.threw ==> SettlesThrowing in events
    {
      assert events[..i + 1][..i] == events[..i];
      match events[i]
      case Enqueues => tasks.Enqueue(i);
      case Cancels => tasks.CancelPending();
      case Settles =>
        if tasks.busy {
          tasks.Settle();
        }
      case SettlesThrowing =>
        if tasks.busy {
          tasks.SettleThrowing();
        }
    }
    assert events[..|events|] == events;
    LeftWaitingIff(events);
  }

  // The shortest such run: two tasks, and the first one's handler throws.
  method LeftWaiting() returns (tasks: LatestTask)
    ensures tasks.Valid() && tasks.pending == Some(1) && !tasks.busy
  {
    tasks := new LatestTask();
    tasks.Enqueue(0);
    tasks.Enqueue(1);
    tasks.SettleThrowing();
  }
}
