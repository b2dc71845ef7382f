/** What each kernel call does, in terms of the fields of the process table: who is blocked or
    released, which message is where afterwards, and that nobody else is touched. */
module KernelCalls {
  import opened Kernel
  import opened KernelSafety

  /** Everything but the processes in slots a and b is as before. */
  ghost predicate OthersSame(k: K, r: K, a: nat, b: nat)
    requires k.Shaped() && r.Shaped()
  {
    && r.cur == k.cur && r.nextPid == k.nextPid && r.now == k.now && r.locks == k.locks && r.preemptive == k.preemptive
    && forall i :: 0 <= i < MAX_TASKS && i != a && i != b ==> r.tasks[i] == k.tasks[i]
  }

  /** Process t waits for a message from anyone, or from `sender` in particular. */
  ghost predicate WantsFrom(t: Task, sender: nat) {
    t.state == Blocked && t.reason == Receiving && (t.receiveFrom == 0xFFFF_FFFF || t.receiveFrom == sender)
  }

  /** u is process t with message m in its buffer, and it can run again. */
  ghost predicate Given(t: Task, u: Task, m: Message) {
    && u.state == Ready && u.reason == NoReason && u.buf == m && u.id == t.id && u.active == t.active
    && u.priority == t.priority && u.quantum == t.quantum
  }

  /** u is process t, blocked in a call of this kind to `dest` with message m. */
  ghost predicate Stuck(t: Task, u: Task, why: Reason, dest: nat, m: Message) {
    && u.state == Blocked && u.reason == why && u.sendTo == dest && u.buf == m && u.id == t.id && u.active == t.active
    && u.ticksLeft == 0 && u.priority == t.priority && u.quantum == t.quantum
  }

  /** A message with its sender filled in. */
  ghost predicate From(m: Message, msg: Message, sender: nat) {
    m.sender == sender && m.kind == msg.kind && m.raw == msg.raw
  }

  /** ipc_send to the live process in slot d: if it wants the message it has it, with the
      caller as sender, and can run; otherwise the caller is stuck with the message. */
  lemma SendMeaning(k: K, d: nat, msg: Message)
    requires Inv(k) && !k.Current().Parked() && d < MAX_TASKS && k.tasks[d].active
    ensures var me, dest := k.Current(), k.tasks[d].id;
            var r := Step(k, DoSend(dest, msg));
            if WantsFrom(k.tasks[d], me.id) then
              && From(r.tasks[d].buf, msg, me.id) && Given(k.tasks[d], r.tasks[d], r.tasks[d].buf)
              && OthersSame(k, r, d, d)
            else
              && From(r.tasks[k.cur].buf, msg, me.id) && Stuck(me, r.tasks[k.cur], Sending, dest, r.tasks[k.cur].buf)
              && OthersSame(k, r, k.cur, k.cur)
  {
    hide NoMissedRendezvous;
    FindPidUnique(k, d);
  }

  /** ipc_sendrec: the same delivery, but the caller is stuck in either case. */
  lemma SendRecMeaning(k: K, d: nat, msg: Message)
    requires Inv(k) && !k.Current().Parked() && d < MAX_TASKS && k.tasks[d].active
    ensures var me, dest := k.Current(), k.tasks[d].id;
            var r := Step(k, DoSendRec(dest, msg));
            && From(r.tasks[k.cur].buf, msg, me.id)
            && Stuck(me, r.tasks[k.cur], SendReceiving, dest, r.tasks[k.cur].buf)
            && OthersSame(k, r, d, k.cur)
            && (WantsFrom(k.tasks[d], me.id) ==>
                  From(r.tasks[d].buf, msg, me.id) && Given(k.tasks[d], r.tasks[d], r.tasks[d].buf))
            && (!WantsFrom(k.tasks[d], me.id) && d != k.cur ==> r.tasks[d] == k.tasks[d])
  {
    hide NoMissedRendezvous;
    FindPidUnique(k, d);
  }

  /** ipc_reply to the live process in slot d: it gets the answer if and only if it is stuck
      in a sendrec; nothing changes otherwise. */
  lemma ReplyMeaning(k: K, d: nat, msg: Message)
    requires Inv(k) && d < MAX_TASKS && k.tasks[d].active
    ensures var r := Step(k, DoReply(k.tasks[d].id, msg));
            if k.tasks[d].state == Blocked && k.tasks[d].reason == SendReceiving then
              && From(r.tasks[d].buf, msg, k.Current().id) && Given(k.tasks[d], r.tasks[d], r.tasks[d].buf)
              && OthersSame(k, r, d, d)
            else r == k
  {
    hide NoMissedRendezvous;
    FindPidUnique(k, d);
  }

  /** ipc_notify to the live process in slot d: a receiver gets the message, whomever it
      waits for, from sender 0; for anybody else it is stored at the PID modulo 32. */
  lemma NotifyMeaning(k: K, d: nat, msg: Message)
    requires Inv(k) && d < MAX_TASKS && k.tasks[d].active
    ensures var r, at := Step(k, DoNotify(k.tasks[d].id, msg)), k.tasks[d].id % 32;
            if k.tasks[d].state == Blocked && k.tasks[d].reason == Receiving then
              && From(r.tasks[d].buf, msg, 0) && Given(k.tasks[d], r.tasks[d], r.tasks[d].buf)
              && OthersSame(k, r, d, d) && r.pending == k.pending && r.notes == k.notes
            else
              && r.tasks == k.tasks && r.pending == k.pending[at := true] && From(r.notes[at], msg, 0)
              && r.notes == k.notes[at := r.notes[at]]
  {
    hide NoMissedRendezvous;
    FindPidUnique(k, d);
  }

  /** Slot s holds a live process stuck sending to pid, and the receiver would take it. */
  ghost predicate Offers(t: Task, pid: nat, from: nat) {
    && t.active && t.state == Blocked && (t.reason == Sending || t.reason == SendReceiving) && t.sendTo == pid
    && (from == 0xFFFF_FFFF || t.id == from)
  }

  /** ipc_receive: a stored notification comes first, then the first process in table order
      that is stuck sending to the caller; its message is taken, with it as sender, and a
      plain sender can run again while a sendrec waits on.  When there is neither, the
      caller is stuck. */
  lemma ReceiveMeaning(k: K, from: nat, msg: Message)
    requires Inv(k) && !k.Current().Parked()
    ensures var me, at := k.Current(), k.Current().id % 32;
            var r, got := Step(k, DoReceive(from, msg)), Receive(k, from, msg).1;
            if k.pending[at] then
              r.tasks == k.tasks && r.pending == k.pending[at := false] && got == Some(k.notes[at])
            else if exists s :: 0 <= s < MAX_TASKS && Offers(k.tasks[s], me.id, from) then
              exists s :: 0 <= s < MAX_TASKS && Offers(k.tasks[s], me.id, from)
                && (forall j :: 0 <= j < s ==> !Offers(k.tasks[j], me.id, from))
                && got.Some? && From(got.value, k.tasks[s].buf, k.tasks[s].id) && r.pending == k.pending
                && OthersSame(k, r, s, s)
                && if k.tasks[s].reason == SendReceiving then r.tasks[s] == k.tasks[s]
                   else Given(k.tasks[s], r.tasks[s], k.tasks[s].buf)
            else
              && got == None && r.pending == k.pending && OthersSame(k, r, k.cur, k.cur)
              && r.tasks[k.cur].state == Blocked && r.tasks[k.cur].reason == Receiving
              && r.tasks[k.cur].receiveFrom == from
  {
    hide NoMissedRendezvous;
    var s := FindSender(k.tasks, k.Current().id, from, 0);
    assert forall j :: 0 <= j < MAX_TASKS ==>
      (Offers(k.tasks[j], k.Current().id, from) <==> k.tasks[j].WaitsFor(k.Current().id, from));
    if s < MAX_TASKS { assert Offers(k.tasks[s], k.Current().id, from); }
  }

  /** Calls that name no live process change nothing. */
  lemma NoSuchProcess(k: K, op: Op, dest: nat, msg: Message)
    requires k.Shaped() && forall i :: 0 <= i < MAX_TASKS && k.tasks[i].active ==> k.tasks[i].id != dest
    requires op == DoSend(dest, msg) || op == DoSendRec(dest, msg) || op == DoReply(dest, msg)
             || op == DoNotify(dest, msg) || op == DoKill(dest)
    ensures Step(k, op) == k
  {
  }

  /** task_create fills the first free slot with a READY process that has the next PID, its
      priority and quantum and a full time slice. */
  lemma CreateMeaning(k: K, priority: nat, quantum: nat)
    requires Inv(k) && k.nextPid < PID_ANY
    ensures var r := Step(k, DoCreate(priority, quantum));
            if forall i :: 0 <= i < MAX_TASKS ==> k.tasks[i].active then r == k
            else exists s :: 0 <= s < MAX_TASKS && !k.tasks[s].active && (forall j :: 0 <= j < s ==> k.tasks[j].active)
                   && (forall i :: 0 <= i < MAX_TASKS && i != s ==> r.tasks[i] == k.tasks[i]) && r.cur == k.cur
                   && r.tasks[s].active && r.tasks[s].state == Ready && r.tasks[s].id == k.nextPid
                   && r.tasks[s].priority == priority && r.tasks[s].quantum == quantum == r.tasks[s].ticksLeft
                   && r.nextPid == k.nextPid + 1
  {
    hide NoMissedRendezvous;
    var s := FindFree(k.tasks, 0);
    if s < MAX_TASKS { assert !k.tasks[s].active; }
  }

  /** task_kill and task_exit end exactly one process, and never the one in slot 0. */
  lemma EndMeaning(k: K, d: nat)
    requires Inv(k) && 0 < d < MAX_TASKS && k.tasks[d].active
    ensures var r := Step(k, DoKill(k.tasks[d].id));
            OthersSame(k, r, d, d) && !r.tasks[d].active && r.tasks[d].state == Terminated
    ensures d == k.cur ==> Step(k, DoExit) == Step(k, DoKill(k.tasks[d].id))
    ensures Step(k, DoKill(0)) == k && (k.cur == 0 ==> Step(k, DoExit) == k)
  {
    hide NoMissedRendezvous;
    FindPidUnique(k, d);
  }

  /** The processor goes to one process at a time: a switch makes the picked one RUNNING with
      a full slice, and the one that was RUNNING is READY. */
  lemma SwitchMeaning(k: K, next: nat)
    requires Inv(k) && next < MAX_TASKS && next != k.cur
    ensures var r := SwitchTo(k, next);
            && r.cur == next && r.tasks[next].state == Running && r.tasks[next].ticksLeft == k.tasks[next].quantum
            && (k.Current().state == Running ==> r.tasks[k.cur].state == Ready)
            && (k.Current().state != Running ==> r.tasks[k.cur] == k.Current())
            && forall i :: 0 <= i < MAX_TASKS && i != next && i != k.cur ==> r.tasks[i] == k.tasks[i]
  {
    hide NoMissedRendezvous;
  }

  /** While the scheduler is locked or preemption is off, a tick only counts. */
  lemma LockedTick(k: K)
    requires k.Shaped() && (k.locks > 0 || !k.preemptive)
    ensures Step(k, DoTick) == k.(now := k.now + 1)
  {
  }

  /** task_yield ends the caller's slice; locks are counted; nothing else changes. */
  lemma SmallCalls(k: K)
    requires k.Shaped()
    ensures Step(k, DoYield) == k.(tasks := k.tasks[k.cur := k.Current().(ticksLeft := 0)])
    ensures Step(k, DoLock) == k.(locks := k.locks + 1)
    ensures Step(k, DoUnlock) == (if k.locks == 0 then k else k.(locks := k.locks - 1))
    ensures Step(k, DoPreemptive(true)) == k.(preemptive := true)
    ensures Step(k, DoPreemptive(false)) == k.(preemptive := false)
  {
  }

  /** At the start there is one process, PID 0 with priority 10, running with a full slice. */
  lemma StartState(quantum: nat)
    ensures var k := Initial(quantum);
            && k.cur == 0 && k.now == 0 && k.nextPid == 1 && k.locks == 0 && k.preemptive
            && k.tasks[0].active && k.tasks[0].id == 0 && k.tasks[0].state == Running && k.tasks[0].priority == 10
            && k.tasks[0].quantum == quantum == k.tasks[0].ticksLeft
            && (forall i :: 0 < i < 32 ==> !k.tasks[i].active) && (forall i :: 0 <= i < 32 ==> !k.pending[i])
  {
  }
}
