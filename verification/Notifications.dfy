/** Stored kernel notifications (src/ipc.c): they are filed under the destination's PID
    modulo the size of the task table. */
module Notifications {
  import opened Kernel
  import opened KernelSafety
  import opened Scheduler

  /** The notification finds its destination alive but not waiting for a message. */
  predicate IsStored(k: K, dest: nat)
    requires k.Shaped()
  {
    var d := FindPid(k.tasks, dest, 0);
    d < MAX_TASKS && !(k.tasks[d].state.Blocked? && k.tasks[d].reason.Receiving?)
  }

  // ---- who takes a stored notification ----------------------------------------------

  /** Once the process in slot c has the processor and receives: it takes the notification
      if and only if its PID and the destination's agree modulo 32.  Otherwise it receives
      exactly what it would have received without it, and the notification stays. */
  lemma NoteGoesByResidue(k: K, dest: nat, msg: Message, c: nat, from: nat, m: Message)
    requires k.Shaped() && IsStored(k, dest) && c < MAX_TASKS
    ensures var r := Notify(k, dest, msg).(cur := c);
            var (after, got) := Receive(r, from, m);
            if k.tasks[c].id % MAX_TASKS == dest % MAX_TASKS
            then got == Some(Stamp(msg, 0)) && !after.pending[dest % MAX_TASKS]
            else && got == Receive(k.(cur := c), from, m).1
                 && after.tasks == Receive(k.(cur := c), from, m).0.tasks
                 && after.pending[dest % MAX_TASKS] && after.notes[dest % MAX_TASKS] == Stamp(msg, 0)
  {
  }

  /** For each place the process that the notification last filed there was meant for. */
  ghost function Filed(ks: seq<K>, ops: seq<Op>, n: nat): (f: seq<nat>)
    requires n <= |ops| < |ks| && forall i :: 0 <= i < |ks| ==> ks[i].Shaped()
    ensures |f| == MAX_TASKS
  {
    if n == 0 then seq(MAX_TASKS, _ => 0)
    else
      var f, op := Filed(ks, ops, n - 1), ops[n - 1];
      if op.DoNotify? && IsStored(ks[n - 1], op.dest) then f[op.dest % MAX_TASKS := op.dest] else f
  }

  ghost predicate FiledOk(k: K, f: seq<nat>)
    requires k.Shaped() && |f| == MAX_TASKS
  {
    forall i :: 0 <= i < MAX_TASKS && k.pending[i] ==> f[i] % MAX_TASKS == i && f[i] < k.nextPid
  }

  lemma FiledStep(k: K, op: Op, f: seq<nat>)
    requires Inv(k) && |f| == MAX_TASKS && FiledOk(k, f)
    ensures FiledOk(Step(k, op), if op.DoNotify? && IsStored(k, op.dest) then f[op.dest % MAX_TASKS := op.dest] else f)
  {
    hide Tick, NoMissedRendezvous, OneRunning;
    if op.DoTick? { TickFiles(k); }
  }

  lemma TickFiles(k: K)
    requires k.Shaped()
    ensures Tick(k).pending == k.pending && Tick(k).nextPid == k.nextPid
  {
    hide NextTask;
  }

  lemma {:induction false} EveryNoteFiled(ks: seq<K>, ops: seq<Op>, quantum: nat, n: nat)
    requires Run(ks, ops, quantum) && n <= |ops| && forall i :: 0 <= i < |ks| ==> ks[i].Shaped()
    ensures FiledOk(ks[n], Filed(ks, ops, n))
  {
    hide Inv, Step, Enabled, FiledOk, IsStored;
    if n == 0 {
      NothingFiled(quantum);
    } else {
      EveryNoteFiled(ks, ops, quantum, n - 1);
      EveryReachableState(ks, ops, quantum, n - 1);
      assert ks[n - 1 + 1] == Step(ks[n - 1], ops[n - 1]);
      FiledStep(ks[n - 1], ops[n - 1], Filed(ks, ops, n - 1));
    }
  }

  lemma NothingFiled(quantum: nat)
    ensures FiledOk(Initial(quantum), seq(MAX_TASKS, _ => 0))
  {
  }

  /** In every run, a process that takes a stored notification has the same residue as the
      process it was meant for, and is that process as long as no more than 32 PIDs have
      been issued. */
  lemma TakenByResidue(ks: seq<K>, ops: seq<Op>, quantum: nat, n: nat, from: nat, m: Message)
    requires Run(ks, ops, quantum) && n <= |ops| && forall i :: 0 <= i < |ks| ==> ks[i].Shaped()
    requires ks[n].pending[ks[n].Current().id % MAX_TASKS] && !ks[n].Current().Parked()
    ensures var me := ks[n].Current().id;
            var meant := Filed(ks, ops, n)[me % MAX_TASKS];
            && Receive(ks[n], from, m).1 == Some(ks[n].notes[me % MAX_TASKS])
            && meant % MAX_TASKS == me % MAX_TASKS && (ks[n].nextPid <= MAX_TASKS ==> meant == me)
  {
    hide Filed, Step, Enabled, Inv, FiledOk, Receive;
    EveryNoteFiled(ks, ops, quantum, n);
    EveryReachableState(ks, ops, quantum, n);
    TakesFiled(ks[n], Filed(ks, ops, n), from, m);
  }

  lemma TakesFiled(k: K, f: seq<nat>, from: nat, m: Message)
    requires Inv(k) && |f| == MAX_TASKS && FiledOk(k, f)
    requires k.pending[k.Current().id % MAX_TASKS] && !k.Current().Parked()
    ensures var me := k.Current().id;
            && Receive(k, from, m).1 == Some(k.notes[me % MAX_TASKS])
            && f[me % MAX_TASKS] % MAX_TASKS == me % MAX_TASKS && (k.nextPid <= MAX_TASKS ==> f[me % MAX_TASKS] == me)
  {
    hide NoMissedRendezvous;
    var me := k.Current().id;
    assert k.pending[me % MAX_TASKS] && me < k.nextPid;
  }

  // ---- and it can be the wrong process -----------------------------------------------

  /** The run that has reached state k. */
  ghost predicate Reached(ks: seq<K>, ops: seq<Op>, k: K) {
    Run(ks, ops, 1) && ks[|ops|] == k && k.Shaped()
  }

  lemma Extend(ks: seq<K>, ops: seq<Op>, k: K, op: Op) returns (ks2: seq<K>, ops2: seq<Op>)
    requires Reached(ks, ops, k) && Enabled(k, op)
    ensures ks2 == ks + [Step(k, op)] && ops2 == ops + [op] && Reached(ks2, ops2, Step(k, op))
  {
    hide Step, Enabled;
    ks2, ops2 := ks + [Step(k, op)], ops + [op];
    forall i | 0 <= i < |ops2| ensures ks2[i].Shaped() && Enabled(ks2[i], ops2[i])
      && ks2[i + 1] == Step(ks2[i], ops2[i]) {
      if i < |ops| { assert ks[i + 1] == Step(ks[i], ops[i]); }
    }
  }

  /** The kernel task runs, PID 1 is ready, the other slots are free, n is the next PID. */
  ghost predicate Stage(k: K, n: nat)
    requires k.Shaped()
  {
    && k.cur == 0 && k.nextPid == n >= 2 && k.locks == 0 && k.preemptive
    && k.tasks[0] == NewTask(0, 10, 1).(state := Running) && k.tasks[1] == NewTask(1, 10, 1)
    && (forall i :: 2 <= i < MAX_TASKS ==> !k.tasks[i].active) && (forall i :: 0 <= i < MAX_TASKS ==> !k.pending[i])
  }

  lemma FirstStage()
    ensures Enabled(Initial(1), DoCreate(10, 1)) && Stage(Step(Initial(1), DoCreate(10, 1)), 2)
  {
    assert FindFree(Initial(1).tasks, 0) == 1;
  }

  /** One more process is created and ends. */
  lemma NextStage(k: K, n: nat)
    requires k.Shaped() && Stage(k, n) && n < PID_ANY
    ensures var c := Step(k, DoCreate(10, 1));
            Enabled(k, DoCreate(10, 1)) && Enabled(c, DoKill(n)) && Stage(Step(c, DoKill(n)), n + 1)
    ensures var c := Step(k, DoCreate(10, 1)); c.tasks == k.tasks[2 := NewTask(n, 10, 1)] && c.nextPid == n + 1
  {
    assert k.tasks[0].active && k.tasks[1].active && !k.tasks[2].active;
    assert FindFree(k.tasks, 0) == 2;
    var c := Step(k, DoCreate(10, 1));
    assert FindPid(c.tasks, n, 1) == 2;
  }

  lemma {:induction false} StageReached(n: nat) returns (ks: seq<K>, ops: seq<Op>, k: K)
    requires 2 <= n < PID_ANY
    ensures Reached(ks, ops, k) && Stage(k, n)
  {
    hide Stage, Step, Enabled, Initial, Run;
    if n == 2 {
      FirstStage();
      RunStarts();
      ks, ops := Extend([Initial(1)], [], Initial(1), DoCreate(10, 1));
      k := Step(Initial(1), DoCreate(10, 1));
    } else {
      ks, ops, k := StageReached(n - 1);
      NextStage(k, n - 1);
      var c := Step(k, DoCreate(10, 1));
      ks, ops := Extend(ks, ops, k, DoCreate(10, 1));
      ks, ops := Extend(ks, ops, c, DoKill(n - 1));
      k := Step(c, DoKill(n - 1));
    }
  }

  lemma RunStarts()
    ensures Reached([Initial(1)], [], Initial(1))
  {
  }

  /** PIDs 1 and n are alive, PID 1 has the processor, the others are idle or free. */
  ghost predicate TwoAlive(k: K, n: nat)
    requires k.Shaped()
  {
    && k.cur == 1 && k.locks == 0 && k.preemptive && k.nextPid == n + 1
    && k.tasks[0] == NewTask(0, 10, 1).(ticksLeft := 0) && k.tasks[1] == NewTask(1, 10, 1).(state := Running)
       && k.tasks[2] == NewTask(n, 10, 1)
    && (forall i :: 3 <= i < MAX_TASKS ==> !k.tasks[i].active) && (forall i :: 0 <= i < MAX_TASKS ==> !k.pending[i])
  }

  lemma TickToFirst(k: K, c: K, n: nat)
    requires k.Shaped() && Stage(k, n) && n < PID_ANY && c == Step(k, DoCreate(10, 1))
    ensures Enabled(c, DoTick) && TwoAlive(Step(c, DoTick), n)
  {
    NextStage(k, n);
    CreateRest(k);
    TickDecides(c);
    var w := Deciding(c);
    SlotsAlive(k, c, w, n);
    NextTaskMeaning(w);
    hide NextTask, Deciding, Woken, Step;
    assert Candidate(w, 1) && !Beats(w, 2, 1);
    SwitchedToFirst(w, n);
  }

  lemma SlotsAlive(k: K, c: K, w: K, n: nat)
    requires k.Shaped() && Stage(k, n) && c.Shaped() && c.tasks == k.tasks[2 := NewTask(n, 10, 1)] && c.cur == 0
             && w == Deciding(c)
    requires c.locks == 0 && c.preemptive && c.nextPid == n + 1 && c.pending == k.pending
    ensures BeforeSwitch(w, n)
  {
  }

  ghost predicate BeforeSwitch(w: K, n: nat)
    requires w.Shaped()
  {
    && w.cur == 0 && w.locks == 0 && w.preemptive && w.nextPid == n + 1
    && w.tasks[0] == NewTask(0, 10, 1).(state := Running, ticksLeft := 0) && w.tasks[1] == NewTask(1, 10, 1)
       && w.tasks[2] == NewTask(n, 10, 1)
    && (forall i :: 3 <= i < MAX_TASKS ==> !w.tasks[i].active) && (forall i :: 0 <= i < MAX_TASKS ==> !w.pending[i])
    && (forall i :: 0 <= i < MAX_TASKS ==> (Candidate(w, i) <==> i == 1 || i == 2))
  }

  lemma SwitchedToFirst(w: K, n: nat)
    requires w.Shaped() && BeforeSwitch(w, n)
    ensures TwoAlive(SwitchTo(w, 1), n)
  {
  }

  lemma CreateRest(k: K)
    requires k.Shaped()
    ensures var c := Step(k, DoCreate(10, 1));
            c.cur == k.cur && c.locks == k.locks && c.preemptive == k.preemptive && c.pending == k.pending
  {
  }

  lemma NotifyTwin(k: K, msg: Message, m: Message)
    requires k.Shaped() && TwoAlive(k, 33)
    ensures IsStored(k, 33) && Enabled(k, DoNotify(33, msg))
    ensures var r := Step(k, DoNotify(33, msg));
            r.Current().id == 1 && !r.Current().Parked() && Receive(r, PID_ANY, m).1 == Some(Stamp(msg, 0))
  {
    assert FindPid(k.tasks, 33, 0) == 2;
  }

  /** A run in which the notification for PID 33 is stored and taken by PID 1, both alive. */
  lemma WrongReceiver(msg: Message, m: Message) returns (ks: seq<K>, ops: seq<Op>)
    ensures Run(ks, ops, 1) && |ops| > 0 && ops[|ops| - 1] == DoNotify(33, msg)
    ensures var k, r := ks[|ops| - 1], ks[|ops|];
            && k.Shaped() && r.Shaped() && IsStored(k, 33)
            && r.Current().id == 1 && !r.Current().Parked() && Receive(r, PID_ANY, m).1 == Some(Stamp(msg, 0))
  {
    hide Stage, Step, Enabled, TwoAlive, IsStored, Receive;
    var k;
    ks, ops, k := StageReached(33);
    NextStage(k, 33);
    ks, ops := Extend(ks, ops, k, DoCreate(10, 1));
    var c := Step(k, DoCreate(10, 1));
    TickToFirst(k, c, 33);
    ks, ops := Extend(ks, ops, c, DoTick);
    var d := Step(c, DoTick);
    NotifyTwin(d, msg, m);
    ks, ops := Extend(ks, ops, d, DoNotify(33, msg));
  }
}
