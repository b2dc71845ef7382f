/** The kernel as the source writes it: a task table changed in place, searched by
    loops.  Every method is proved equal to its atomic step. */
module KernelImpl {
  import opened Kernel
  import opened Bits
  import opened Sleepers

  class System {
    const tasks: array<Task>
    const pending: array<bool>
    const notes: array<Message>
    var cur: nat
    var nextPid: nat
    var now: nat
    var locks: nat
    var preemptive: bool

    ghost predicate Valid()
      reads this, tasks, pending, notes
    {
      tasks.Length == MAX_TASKS && pending.Length == MAX_TASKS && notes.Length == MAX_TASKS && cur < MAX_TASKS
    }

    ghost function View(): (k: K)
      requires Valid()
      reads this, tasks, pending, notes
      ensures k.Shaped()
    {
      K(tasks[..], cur, nextPid, pending[..], notes[..], now, locks, preemptive)
    }

    /** task_init and ipc_init. */
    constructor (quantum: nat)
      ensures Valid() && View() == Initial(quantum)
      ensures fresh(tasks) && fresh(pending) && fresh(notes)
    {
      var idle := NewTask(0, 0, 0).(active := false);
      tasks := new Task[MAX_TASKS](_ => idle);
      pending := new bool[MAX_TASKS](_ => false);
      notes := new Message[MAX_TASKS](_ => NO_MESSAGE);
      cur, nextPid, now, locks, preemptive := 0, 1, 0, 0, true;
      new;
      tasks[0] := NewTask(0, 10, quantum).(state := Running);
    }

    /** task_get_by_pid */
    method ByPid(pid: nat, first: nat) returns (i: nat)
      requires Valid() && first <= MAX_TASKS
      ensures i == FindPid(tasks[..], pid, first)
    {
      i := first;
      while i < MAX_TASKS
        invariant first <= i <= MAX_TASKS && FindPid(tasks[..], pid, first) == FindPid(tasks[..], pid, i)
      {
        if tasks[i].active && tasks[i].id == pid { return; }
        i := i + 1;
      }
    }

    /** find_blocked_sender */
    method BlockedSender(receiver: nat, from: nat) returns (i: nat)
      requires Valid()
      ensures i == FindSender(tasks[..], receiver, from, 0)
    {
      i := 0;
      while i < MAX_TASKS
        invariant 0 <= i <= MAX_TASKS
                  && FindSender(tasks[..], receiver, from, 0) == FindSender(tasks[..], receiver, from, i)
      {
        var t := tasks[i];
        if t.active && t.state == Blocked && (t.reason == Sending || t.reason == SendReceiving)
           && t.sendTo == receiver && (from == PID_ANY || t.id == from) {
          return;
        }
        i := i + 1;
      }
    }

    /** ipc_send */
    method IpcSend(dest: nat, msg: Message) returns (code: int)
      requires Valid()
      modifies tasks
      ensures Valid() && View() == Send(old(View()), dest, msg)
      ensures code == if FindPid(old(tasks[..]), dest, 0) == MAX_TASKS then -2 else 0
    {
      var d := ByPid(dest, 0);
      if d == MAX_TASKS { return -2; }
      var me := tasks[cur].id;
      var m := msg.(sender := me);
      if tasks[d].state == Blocked && tasks[d].reason == Receiving {
        var from := tasks[d].receiveFrom;
        if from == PID_ANY || from == me {
          tasks[d] := tasks[d].(buf := m, state := Ready, reason := NoReason);
          return 0;
        }
      }
      tasks[cur] := tasks[cur].(state := Blocked, reason := Sending, sendTo := dest, buf := m, ticksLeft := 0);
      return 0;
    }

    /** ipc_sendrec */
    method IpcSendRec(dest: nat, msg: Message) returns (code: int)
      requires Valid()
      modifies tasks
      ensures Valid() && View() == SendRec(old(View()), dest, msg)
      ensures code == if FindPid(old(tasks[..]), dest, 0) == MAX_TASKS then -2 else 0
    {
      var d := ByPid(dest, 0);
      if d == MAX_TASKS { return -2; }
      var me := tasks[cur].id;
      var m := msg.(sender := me);
      if tasks[d].state == Blocked && tasks[d].reason == Receiving {
        var from := tasks[d].receiveFrom;
        if from == PID_ANY || from == me {
          tasks[d] := tasks[d].(buf := m, state := Ready, reason := NoReason);
        }
      }
      tasks[cur] := tasks[cur].(state := Blocked, reason := SendReceiving, sendTo := dest, buf := m, ticksLeft := 0);
      return 0;
    }

    /** ipc_receive; `got` is None when the caller blocks. */
    method IpcReceive(from: nat, msg: Message) returns (got: Option<Message>)
      requires Valid()
      modifies tasks, pending
      ensures Valid() && View() == Receive(old(View()), from, msg).0 && got == Receive(old(View()), from, msg).1
    {
      var me := tasks[cur].id;
      if pending[me % MAX_TASKS] {
        pending[me % MAX_TASKS] := false;
        return Some(notes[me % MAX_TASKS]);
      }
      var s := BlockedSender(me, from);
      if s < MAX_TASKS {
        var m := tasks[s].buf.(sender := tasks[s].id);
        if tasks[s].reason != SendReceiving {
          tasks[s] := tasks[s].(state := Ready, reason := NoReason);
        }
        return Some(m);
      }
      tasks[cur] := tasks[cur].(state := Blocked, reason := Receiving, receiveFrom := from, buf := msg, ticksLeft := 0);
      return None;
    }

    /** ipc_reply */
    method IpcReply(dest: nat, msg: Message) returns (code: int)
      requires Valid()
      modifies tasks
      ensures Valid() && View() == Reply(old(View()), dest, msg)
      ensures var d := FindPid(old(tasks[..]), dest, 0);
              code == if d == MAX_TASKS then -2 else if old(tasks[..])[d].AwaitsReply() then 0 else -3
    {
      var d := ByPid(dest, 0);
      if d == MAX_TASKS { return -2; }
      if tasks[d].state == Blocked && tasks[d].reason == SendReceiving {
        tasks[d] := tasks[d].(buf := msg.(sender := tasks[cur].id), state := Ready, reason := NoReason);
        return 0;
      }
      return -3;
    }

    /** ipc_notify */
    method IpcNotify(dest: nat, msg: Message) returns (code: int)
      requires Valid()
      modifies tasks, pending, notes
      ensures Valid() && View() == Notify(old(View()), dest, msg)
      ensures code == if FindPid(old(tasks[..]), dest, 0) == MAX_TASKS then -2 else 0
    {
      var d := ByPid(dest, 0);
      if d == MAX_TASKS { return -2; }
      var m := msg.(sender := 0);
      if tasks[d].state == Blocked && tasks[d].reason == Receiving {
        tasks[d] := tasks[d].(buf := m, state := Ready, reason := NoReason);
        return 0;
      }
      notes[dest % MAX_TASKS] := m;
      pending[dest % MAX_TASKS] := true;
      return 0;
    }

    /** The first loop of find_next_task. */
    method WakeSleepers()
      requires Valid()
      modifies tasks
      ensures Valid() && View() == Woken(old(View()))
    {
      ghost var ts := tasks[..];
      var i := 0;
      while i < MAX_TASKS
        invariant 0 <= i <= MAX_TASKS
        invariant forall j :: 0 <= j < i ==> tasks[j] == WakeSleeper(ts[j], now)
        invariant forall j :: i <= j < MAX_TASKS ==> tasks[j] == ts[j]
      {
        if tasks[i].active && tasks[i].state == Sleeping && now >= tasks[i].wake {
          tasks[i] := tasks[i].(state := Ready);
        }
        i := i + 1;
      }
      assert tasks[..] == Woken(old(View())).tasks;
    }

    /** find_next_task: wake sleepers, then scan the table once round. */
    method FindNextTask() returns (next: nat)
      requires Valid()
      modifies tasks
      ensures Valid() && View() == Woken(old(View())) && next == NextTask(Woken(old(View())))
    {
      WakeSleepers();
      var best, bestPriority := MAX_TASKS, NO_PRIORITY;
      var start := (cur + 1) % MAX_TASKS;
      var n := 0;
      while n < MAX_TASKS
        invariant 0 <= n <= MAX_TASKS && best == Best(View(), n)
        invariant bestPriority == if best == MAX_TASKS then NO_PRIORITY else tasks[best].priority
      {
        var i := (start + n) % MAX_TASKS;
        if i != cur && tasks[i].active && (tasks[i].state == Ready || tasks[i].state == Running)
           && tasks[i].priority < bestPriority {
          best, bestPriority := i, tasks[i].priority;
        }
        n := n + 1;
      }
      if best == MAX_TASKS {
        if tasks[cur].active && (tasks[cur].state == Ready || tasks[cur].state == Running) { return cur; }
        return 0;
      }
      return best;
    }

    /** The second half of task_timer_tick. */
    method EndSlice()
      requires Valid()
      modifies this, tasks
      ensures Valid() && View() == Reschedule(old(View()))
    {
      var next := FindNextTask();
      if next == cur {
        tasks[cur] := tasks[cur].(ticksLeft := tasks[cur].quantum);
        return;
      }
      if tasks[cur].state == Running { tasks[cur] := tasks[cur].(state := Ready); }
      tasks[next] := tasks[next].(state := Running, ticksLeft := tasks[next].quantum);
      cur := next;
    }

    /** task_timer_tick */
    method TimerTick()
      requires Valid()
      modifies this, tasks
      ensures Valid() && View() == Tick(old(View()))
    {
      hide Reschedule;
      now := now + 1;
      if locks > 0 || !preemptive { return; }
      var mustSwitch := tasks[cur].state == Sleeping || tasks[cur].state == Blocked || tasks[cur].state == Terminated;
      if !mustSwitch {
        if tasks[cur].ticksLeft > 0 {
          tasks[cur] := tasks[cur].(ticksLeft := tasks[cur].ticksLeft - 1);
        }
        assert View().tasks == old(View()).tasks[cur := tasks[cur]];
        if tasks[cur].ticksLeft > 0 { return; }
      }
      EndSlice();
    }

    /** task_create and its variants; `memory` tells whether the stacks and the address
        space can be allocated. */
    method TaskCreate(priority: nat, quantum: nat, memory: bool) returns (pid: int)
      requires Valid()
      modifies this, tasks
      ensures Valid() && View() == if memory then Create(old(View()), priority, quantum) else old(View())
      ensures pid == if !memory || FindFree(old(tasks[..]), 0) == MAX_TASKS then -1 else old(nextPid)
    {
      var i := 0;
      while i < MAX_TASKS && tasks[i].active
        invariant 0 <= i <= MAX_TASKS && FindFree(tasks[..], 0) == FindFree(tasks[..], i)
      {
        i := i + 1;
      }
      if i == MAX_TASKS { return -1; }
      if !memory { return -1; }
      tasks[i] := NewTask(nextPid, priority, quantum);
      nextPid := nextPid + 1;
      return nextPid - 1;
    }

    /** task_kill */
    method TaskKill(pid: nat)
      requires Valid()
      modifies tasks
      ensures Valid() && View() == Kill(old(View()), pid)
    {
      var i := ByPid(pid, 1);
      if i < MAX_TASKS {
        tasks[i] := tasks[i].(state := Terminated, active := false);
      }
    }

    /** task_exit */
    method TaskExit()
      requires Valid()
      modifies tasks
      ensures Valid() && View() == Exit(old(View()))
    {
      if cur > 0 {
        tasks[cur] := tasks[cur].(state := Terminated, active := false);
      }
    }

    /** task_sleep, up to the point where the caller is parked. */
    method TaskSleep(ms: nat)
      requires Valid() && ms < TWO32
      modifies tasks
      ensures Valid() && View() == Sleep(old(View()), SleepTicks(ms))
    {
      tasks[cur] := tasks[cur].(state := Sleeping, wake := now + ms * 100 % TWO32 / 1000);
      tasks[cur] := tasks[cur].(ticksLeft := 0);
    }
  }
}
