/** What every reachable kernel state satisfies, whatever the interleaving of IPC calls,
    timer ticks, notifications, creations and terminations. */
module KernelSafety {
  import opened Kernel

  /** Slot 0 is the kernel task; live PIDs are distinct and already issued. */
  ghost predicate Identified(k: K)
    requires k.Shaped()
  {
    && k.tasks[0].active && k.tasks[0].id == 0 && 0 < k.nextPid <= PID_ANY
    && (forall i :: 0 <= i < MAX_TASKS && k.tasks[i].active ==> k.tasks[i].id < k.nextPid)
    && (forall i, j :: 0 <= i < j < MAX_TASKS && k.tasks[i].active && k.tasks[j].active
          ==> k.tasks[i].id != k.tasks[j].id)
  }

  /** At most one task is RUNNING and it is the current one. */
  ghost predicate OneRunning(k: K)
    requires k.Shaped()
  {
    && (forall i :: 0 <= i < MAX_TASKS && k.tasks[i].state.Running? ==> i == k.cur)
    && (k.Current().active || k.Current().state.Terminated?)
  }

  /** a is stuck sending to b while b is stuck receiving and would take it. */
  ghost predicate Missed(k: K, a: nat, b: nat)
    requires k.Shaped() && a < MAX_TASKS && b < MAX_TASKS
  {
    k.tasks[b].active && k.tasks[a].WaitsFor(k.tasks[b].id, PID_ANY) && k.tasks[b].Accepts(k.tasks[a].id)
  }

  ghost predicate NoMissedRendezvous(k: K)
    requires k.Shaped()
  {
    forall a, b :: 0 <= a < MAX_TASKS && 0 <= b < MAX_TASKS ==> !Missed(k, a, b)
  }

  /** Stored notifications come from the kernel. */
  ghost predicate NotesFromKernel(k: K)
    requires k.Shaped()
  {
    forall i :: 0 <= i < MAX_TASKS && k.pending[i] ==> k.notes[i].sender == 0
  }

  ghost predicate Inv(k: K) {
    k.Shaped() && Identified(k) && OneRunning(k) && NoMissedRendezvous(k) && NotesFromKernel(k)
  }

  lemma InitialInv(quantum: nat)
    ensures Inv(Initial(quantum))
  {
  }

  /** With distinct live PIDs the first match is the only one. */
  lemma FindPidUnique(k: K, i: nat)
    requires k.Shaped() && Identified(k) && i < MAX_TASKS && k.tasks[i].active
    ensures FindPid(k.tasks, k.tasks[i].id, 0) == i
  {
  }

  /** From t to u a process did not start to wait or accept. */
  ghost predicate Quieter(t: Task, u: Task) {
    u.state.Blocked? ==>
      && t.state.Blocked? && u.id == t.id && u.active == t.active && u.reason == t.reason
      && u.sendTo == t.sendTo && u.receiveFrom == t.receiveFrom
  }

  lemma AllQuieter(k: K, r: K)
    requires k.Shaped() && NoMissedRendezvous(k) && r.Shaped()
    requires forall i :: 0 <= i < MAX_TASKS ==> Quieter(k.tasks[i], r.tasks[i])
    ensures NoMissedRendezvous(r)
  {
    forall a, b | 0 <= a < MAX_TASKS && 0 <= b < MAX_TASKS ensures !Missed(r, a, b) {
      assert !Missed(k, a, b) && Quieter(k.tasks[a], r.tasks[a]) && Quieter(k.tasks[b], r.tasks[b]);
    }
  }

  /** All but `who` are quieter, and `who` misses nobody. */
  lemma OthersQuieter(k: K, r: K, who: nat)
    requires k.Shaped() && NoMissedRendezvous(k) && r.Shaped() && who < MAX_TASKS
    requires forall i :: 0 <= i < MAX_TASKS && i != who ==> Quieter(k.tasks[i], r.tasks[i])
    requires forall b :: 0 <= b < MAX_TASKS ==> !Missed(r, who, b) && !Missed(r, b, who)
    ensures NoMissedRendezvous(r)
  {
    forall a, b | 0 <= a < MAX_TASKS && 0 <= b < MAX_TASKS ensures !Missed(r, a, b) {
      if a != who && b != who {
        assert !Missed(k, a, b) && Quieter(k.tasks[a], r.tasks[a]) && Quieter(k.tasks[b], r.tasks[b]);
      }
    }
  }

  lemma SendKeeps(k: K, dest: nat, msg: Message)
    requires Inv(k) && !k.Current().Parked()
    ensures Inv(Send(k, dest, msg))
  {
    var r := Send(k, dest, msg);
    var d := FindPid(k.tasks, dest, 0);
    if d == MAX_TASKS || k.tasks[d].Accepts(k.Current().id) {
      AllQuieter(k, r);
    } else {
      BlockedSenderMisses(k, r, dest);
    }
  }

  /** A task that blocks sending because its destination was not accepting. */
  lemma BlockedSenderMisses(k: K, r: K, dest: nat)
    requires Inv(k) && r.Shaped() && FindPid(k.tasks, dest, 0) < MAX_TASKS
    requires forall i :: 0 <= i < MAX_TASKS && i != k.cur ==> Quieter(k.tasks[i], r.tasks[i])
    requires var me := r.tasks[k.cur]; me.state.Blocked? && !me.reason.Receiving? && me.sendTo == dest
                                       && me.id == k.Current().id
    requires !r.tasks[FindPid(k.tasks, dest, 0)].Accepts(k.Current().id)
    ensures NoMissedRendezvous(r)
  {
    forall b | 0 <= b < MAX_TASKS ensures !Missed(r, k.cur, b) && !Missed(r, b, k.cur) {
      if Missed(r, k.cur, b) {
        assert Quieter(k.tasks[b], r.tasks[b]);
        FindPidUnique(k, b);
      }
    }
    OthersQuieter(k, r, k.cur);
  }

  lemma SendRecKeeps(k: K, dest: nat, msg: Message)
    requires Inv(k) && !k.Current().Parked()
    ensures Inv(SendRec(k, dest, msg))
  {
    var r := SendRec(k, dest, msg);
    if FindPid(k.tasks, dest, 0) == MAX_TASKS {
      AllQuieter(k, r);
    } else {
      BlockedSenderMisses(k, r, dest);
    }
  }

  lemma ReceiveKeeps(k: K, from: nat, msg: Message)
    requires Inv(k) && !k.Current().Parked()
    ensures Inv(Receive(k, from, msg).0)
  {
    var r := Receive(k, from, msg).0;
    var me := k.Current();
    var s := FindSender(k.tasks, me.id, from, 0);
    if k.pending[me.id % MAX_TASKS] || s < MAX_TASKS {
      AllQuieter(k, r);
    } else {
      forall b | 0 <= b < MAX_TASKS ensures !Missed(r, k.cur, b) && !Missed(r, b, k.cur) {
        if Missed(r, b, k.cur) { assert k.tasks[b].WaitsFor(me.id, from); }
      }
      OthersQuieter(k, r, k.cur);
    }
  }

  lemma NextIsActive(k: K)
    requires k.Shaped() && Identified(k)
    ensures k.tasks[NextTask(k)].active
  {
  }

  lemma WokenKeeps(k: K)
    requires Inv(k)
    ensures Inv(Woken(k))
  {
    AllQuieter(k, Woken(k));
  }

  lemma RescheduleKeeps(k: K)
    requires Inv(k)
    ensures Inv(Reschedule(k))
  {
    hide NextTask, Woken;
    WokenKeeps(k);
    NextIsActive(Woken(k));
    AllQuieter(Woken(k), Reschedule(k));
  }

  lemma TickKeeps(k: K)
    requires Inv(k)
    ensures Inv(Tick(k))
  {
    hide Reschedule;
    var k1 := k.(now := k.now + 1);
    AllQuieter(k, k1);
    var me := k1.Current();
    var t := k1.(tasks := k1.tasks[k1.cur := me.(ticksLeft := if me.ticksLeft > 0 then me.ticksLeft - 1 else 0)]);
    AllQuieter(k, t);
    RescheduleKeeps(k1);
    RescheduleKeeps(t);
  }

  lemma CreateKeeps(k: K, priority: nat, quantum: nat)
    requires Inv(k) && !k.Current().Parked() && k.nextPid < PID_ANY
    ensures Inv(Create(k, priority, quantum))
  {
    AllQuieter(k, Create(k, priority, quantum));
  }

  lemma ReplyKeeps(k: K, dest: nat, msg: Message)
    requires Inv(k)
    ensures Inv(Reply(k, dest, msg))
  {
    AllQuieter(k, Reply(k, dest, msg));
  }

  lemma NotifyKeeps(k: K, dest: nat, msg: Message)
    requires Inv(k)
    ensures Inv(Notify(k, dest, msg))
  {
    AllQuieter(k, Notify(k, dest, msg));
  }

  lemma KillKeeps(k: K, pid: nat)
    requires Inv(k)
    ensures Inv(Kill(k, pid))
  {
    AllQuieter(k, Kill(k, pid));
  }

  lemma OwnOpKeeps(k: K, op: Op)
    requires Inv(k) && Enabled(k, op)
    requires op.DoSleep? || op.DoYield? || op.DoExit? || op.DoLock? || op.DoUnlock? || op.DoPreemptive?
    ensures Inv(Step(k, op))
  {
    AllQuieter(k, Step(k, op));
  }

  /** Every step keeps the invariant. */
  lemma StepKeeps(k: K, op: Op)
    requires Inv(k) && Enabled(k, op)
    ensures Inv(Step(k, op))
  {
    hide Inv, Send, SendRec, Receive, Reply, Notify, Tick, Create, Kill;
    match op
    case DoSend(dest, msg) => SendKeeps(k, dest, msg);
    case DoReceive(from, msg) => ReceiveKeeps(k, from, msg);
    case DoSendRec(dest, msg) => SendRecKeeps(k, dest, msg);
    case DoTick => TickKeeps(k);
    case DoCreate(priority, quantum) => CreateKeeps(k, priority, quantum);
    case DoReply(dest, msg) => ReplyKeeps(k, dest, msg);
    case DoNotify(dest, msg) => NotifyKeeps(k, dest, msg);
    case DoKill(pid) => KillKeeps(k, pid);
    case _ => OwnOpKeeps(k, op);
  }

  /** Safety over whole runs. */
  lemma {:induction false} EveryReachableState(ks: seq<K>, ops: seq<Op>, quantum: nat, n: nat)
    requires Run(ks, ops, quantum) && n < |ks|
    ensures Inv(ks[n])
  {
    if n == 0 {
      InitialInv(quantum);
    } else {
      EveryReachableState(ks, ops, quantum, n - 1);
      assert ks[(n - 1) + 1] == Step(ks[n - 1], ops[n - 1]);
      StepKeeps(ks[n - 1], ops[n - 1]);
    }
  }

  // ---- leaving BLOCKED ------------------------------------------------------------

  /** The operation that is allowed to take task t out of its wait. */
  ghost predicate Releases(k: K, op: Op, t: Task)
    requires k.Shaped()
  {
    var me := k.Current();
    || (op.DoKill? && op.pid == t.id)
    || (t.reason.Sending? && op.DoReceive? && t.sendTo == me.id && (op.from == PID_ANY || op.from == t.id))
    || (t.reason.Receiving? && (op.DoSend? || op.DoSendRec?) && op.dest == t.id
        && (t.receiveFrom == PID_ANY || t.receiveFrom == me.id))
    || (t.reason.Receiving? && op.DoNotify? && op.dest == t.id)
    || (t.reason.SendReceiving? && op.DoReply? && op.dest == t.id)
  }

  /** A live task other than PID 0 leaves BLOCKED only by a matching receive, delivery,
      reply or notification, or by termination. */
  lemma LeavesBlockedOnlyWhenReleased(k: K, op: Op, i: nat)
    requires Inv(k) && Enabled(k, op) && 0 < i < MAX_TASKS
    requires k.tasks[i].active && k.tasks[i].state.Blocked? && !k.tasks[i].reason.NoReason?
    ensures Step(k, op).tasks[i] == k.tasks[i] || Releases(k, op, k.tasks[i])
  {
    hide Tick;
    if op.DoTick? { TickKeepsBlocked(k, i); }
  }

  lemma TickKeepsBlocked(k: K, i: nat)
    requires k.Shaped() && 0 < i < MAX_TASKS && k.tasks[i].state.Blocked?
    ensures Tick(k).tasks[i] == k.tasks[i]
  {
    hide Reschedule;
    var k1 := k.(now := k.now + 1);
    var me := k1.Current();
    RescheduleKeepsBlocked(k1, i);
    RescheduleKeepsBlocked(k1.(tasks := k1.tasks[k1.cur := me.(ticksLeft := if me.ticksLeft > 0 then me.ticksLeft - 1
        else 0)]), i);
  }

  /** The scheduler never picks a blocked task other than the one in slot 0. */
  lemma RescheduleKeepsBlocked(k: K, i: nat)
    requires k.Shaped() && 0 < i < MAX_TASKS && k.tasks[i].state.Blocked?
    ensures Reschedule(k).tasks[i] == k.tasks[i]
  {
    var w := Woken(k);
    assert w.tasks[i] == k.tasks[i];
    hide Woken, Best;
    var next := NextTask(w);
  }
}
