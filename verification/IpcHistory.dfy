/** Histories of IPC calls, and what every call that returns has done.  A call record
    collects the deliveries of its message and the answers it was given; PID 0, which
    the scheduler may resume while it is blocked, is exempt. */
module IpcHistory {
  import opened Kernel
  import opened KernelSafety

  /** A message handed to process `to`. */
  datatype Handed = Handed(to: nat, m: Message)

  /** A reply made by process `server`, who held request number `forNo` at that time. */
  datatype Answer = Answer(server: nat, forNo: int, m: Message)

  /** For a send or sendrec, `got` lists the hand-overs of its message; for a receive,
      the messages it was given.  `atOnce` tells whether there was one when the call was
      made. */
  datatype Call = Call(kind: Reason, pid: nat, peer: nat, msg: Message, no: nat, got: seq<Handed>, rep: seq<Answer>,
                       atOnce: bool)

  datatype Held = Held(client: nat, no: nat)

  /** The latest call of every process, all earlier calls, and for each process the
      request it has received and not yet replied to. */
  datatype Hist = Hist(open: map<nat, Call>, closed: seq<Call>, held: map<nat, Held>, count: nat)

  function Begin(h: Hist, kind: Reason, pid: nat, peer: nat, msg: Message, got: seq<Handed>): Hist {
    h.(closed := if pid in h.open then h.closed + [h.open[pid]] else h.closed,
       open := h.open[pid := Call(kind, pid, peer, msg, h.count, got, [], got != [])],
       count := h.count + 1)
  }

  /** Add a hand-over to the latest call of process pid. */
  function Hand(h: Hist, pid: nat, to: nat, m: Message): Hist {
    if pid in h.open then h.(open := h.open[pid := h.open[pid].(got := h.open[pid].got + [Handed(to, m)])]) else h
  }

  function AnswerCall(h: Hist, pid: nat, a: Answer): Hist {
    if pid in h.open then h.(open := h.open[pid := h.open[pid].(rep := h.open[pid].rep + [a])]) else h
  }

  function Hold(h: Hist, server: nat, client: nat): Hist {
    if client in h.open then h.(held := h.held[server := Held(client, h.open[client].no)]) else h
  }

  function HeldNo(h: Hist, server: nat): int {
    if server in h.held then h.held[server].no else -1
  }

  function HSend(h: Hist, k: K, dest: nat, msg: Message): Hist
    requires k.Shaped()
  {
    var d, me := FindPid(k.tasks, dest, 0), k.Current();
    var m := Stamp(msg, me.id);
    if d == MAX_TASKS then h
    else if k.tasks[d].Accepts(me.id) then Hand(Begin(h, Sending, me.id, dest, m, [Handed(dest, m)]), dest, dest, m)
    else Begin(h, Sending, me.id, dest, m, [])
  }

  function HSendRec(h: Hist, k: K, dest: nat, msg: Message): Hist
    requires k.Shaped()
  {
    var d, me := FindPid(k.tasks, dest, 0), k.Current();
    var m := Stamp(msg, me.id);
    if d == MAX_TASKS then h
    else if k.tasks[d].Accepts(me.id) then
      Hold(Hand(Begin(h, SendReceiving, me.id, dest, m, [Handed(dest, m)]), dest, dest, m), dest, me.id)
    else Begin(h, SendReceiving, me.id, dest, m, [])
  }

  function HReceive(h: Hist, k: K, from: nat, msg: Message): Hist
    requires k.Shaped()
  {
    var me := k.Current();
    var slot := me.id % MAX_TASKS;
    if k.pending[slot] then Begin(h, Receiving, me.id, from, msg, [Handed(me.id, k.notes[slot])])
    else
      var s := FindSender(k.tasks, me.id, from, 0);
      if s == MAX_TASKS then Begin(h, Receiving, me.id, from, msg, [])
      else
        var t := k.tasks[s];
        var m := Stamp(t.buf, t.id);
        var h1 := Hand(Begin(h, Receiving, me.id, from, msg, [Handed(me.id, m)]), t.id, me.id, m);
        if t.reason.SendReceiving? then Hold(h1, me.id, t.id) else h1
  }

  function HReply(h: Hist, k: K, dest: nat, msg: Message): Hist
    requires k.Shaped()
  {
    var d, me := FindPid(k.tasks, dest, 0), k.Current();
    var h1 := if d < MAX_TASKS && k.tasks[d].AwaitsReply()
              then AnswerCall(h, dest, Answer(me.id, HeldNo(h, me.id), Stamp(msg, me.id))) else h;
    if me.id in h.held && h.held[me.id].client == dest then h1.(held := h1.held - {me.id}) else h1
  }

  function HNotify(h: Hist, k: K, dest: nat, msg: Message): Hist
    requires k.Shaped()
  {
    var d := FindPid(k.tasks, dest, 0);
    if d < MAX_TASKS && k.tasks[d].state.Blocked? && k.tasks[d].reason.Receiving?
    then Hand(h, dest, dest, Stamp(msg, 0)) else h
  }

  function HStep(h: Hist, k: K, op: Op): Hist
    requires k.Shaped()
  {
    match op
    case DoSend(dest, msg) => HSend(h, k, dest, msg)
    case DoReceive(from, msg) => HReceive(h, k, from, msg)
    case DoSendRec(dest, msg) => HSendRec(h, k, dest, msg)
    case DoReply(dest, msg) => HReply(h, k, dest, msg)
    case DoNotify(dest, msg) => HNotify(h, k, dest, msg)
    case _ => h
  }

  const NO_HISTORY := Hist(map[], [], map[], 0)

  ghost predicate HistoryOf(hs: seq<Hist>, ks: seq<K>, ops: seq<Op>) {
    && |hs| == |ks| == |ops| + 1 && hs[0] == NO_HISTORY
    && forall i :: 0 <= i < |ops| ==> ks[i].Shaped() && hs[i + 1] == HStep(hs[i], ks[i], ops[i])
  }

  // ---- what holds of every call ---------------------------------------------------

  /** What a call has achieved when it returns. */
  ghost predicate Complete(c: Call) {
    match c.kind
    case Sending => c.got == [Handed(c.peer, c.msg)]
    case Receiving => |c.got| == 1 && c.got[0].to == c.pid
      && (c.peer == PID_ANY || c.got[0].m.sender == c.peer || c.got[0].m.sender == 0)
    case SendReceiving => |c.rep| == 1
    case NoReason => false
  }

  /** The record of the call a blocked task is waiting in. */
  ghost predicate Waiting(t: Task, c: Call) {
    && c.kind == t.reason && c.rep == []
    && match t.reason
       case Sending => c.peer == t.sendTo && c.msg == t.buf && t.buf.sender == t.id && c.got == []
       case Receiving => c.peer == t.receiveFrom && c.got == [] && !c.atOnce
       case SendReceiving => c.peer == t.sendTo && c.msg == t.buf && t.buf.sender == t.id
       case NoReason => false
  }

  /** A task whose blocking receive returned has the message it was given in its buffer. */
  ghost predicate Holding(t: Task, c: Call) {
    c.kind.Receiving? && !c.atOnce ==> |c.got| == 1 && t.buf == c.got[0].m
  }

  ghost predicate TaskOk(t: Task, h: Hist) {
    t.active ==>
      && (t.state.Blocked? ==> t.id in h.open && Waiting(t, h.open[t.id]))
      && (!t.state.Blocked? && t.id != 0 && t.id in h.open ==> Complete(h.open[t.id]) && Holding(t, h.open[t.id]))
  }

  ghost predicate HInv(k: K, h: Hist) {
    && Inv(k)
    && (forall p :: p in h.open ==> p < k.nextPid && h.open[p].pid == p && h.open[p].no < h.count)
    && (forall i :: 0 <= i < MAX_TASKS ==> TaskOk(k.tasks[i], h))
    && (forall i :: 0 <= i < |h.closed| && h.closed[i].pid != 0 ==> Complete(h.closed[i]))
  }

  /** Histories do not change; tasks stay as blocked as they were, or slot 0 wakes, or a
      task ends, or a new one appears. */
  ghost predicate SameCalls(t: Task, u: Task) {
    u.active ==>
      && t.active && u.id == t.id
      && u.buf == t.buf
      && (u.state.Blocked? ==> t.state.Blocked? && u.reason == t.reason && u.sendTo == t.sendTo
                               && u.receiveFrom == t.receiveFrom)
      && (!u.state.Blocked? && t.state.Blocked? ==> t.id == 0)
  }

  lemma QuietHistory(k: K, h: Hist, r: K)
    requires HInv(k, h) && Inv(r) && k.nextPid <= r.nextPid
    requires forall i :: 0 <= i < MAX_TASKS ==>
                           SameCalls(k.tasks[i], r.tasks[i]) || (r.tasks[i].id !in h.open && !r.tasks[i].state.Blocked?)
    ensures HInv(r, h)
  {
    hide Identified, OneRunning, NoMissedRendezvous, NotesFromKernel;
    forall i | 0 <= i < MAX_TASKS ensures TaskOk(r.tasks[i], h) { assert TaskOk(k.tasks[i], h); }
  }

  lemma TickHistory(k: K, h: Hist)
    requires HInv(k, h)
    ensures HInv(Tick(k), h)
  {
    var r := Tick(k);
    TickKeeps(k);
    TickFrame(k);
    forall i | 0 <= i < MAX_TASKS ensures SameCalls(k.tasks[i], r.tasks[i]) {
      if k.tasks[i].state.Blocked? && i > 0 { TickKeepsBlocked(k, i); }
    }
    hide Tick;
    QuietHistory(k, h, r);
  }

  /** No identity changes and nobody becomes blocked. */
  ghost predicate Frame(k: K, r: K)
    requires k.Shaped() && r.Shaped()
  {
    && r.nextPid == k.nextPid
    && forall i :: 0 <= i < MAX_TASKS ==>
      && r.tasks[i].active == k.tasks[i].active && r.tasks[i].id == k.tasks[i].id && r.tasks[i].buf == k.tasks[i].buf
      && (r.tasks[i].state.Blocked? ==>
            && k.tasks[i].state.Blocked? && r.tasks[i].reason == k.tasks[i].reason
            && r.tasks[i].sendTo == k.tasks[i].sendTo && r.tasks[i].receiveFrom == k.tasks[i].receiveFrom)
  }

  lemma TickFrame(k: K)
    requires k.Shaped()
    ensures Frame(k, Tick(k))
  {
    hide Reschedule;
    var k1 := k.(now := k.now + 1);
    var me := k1.Current();
    RescheduleFrame(k1);
    RescheduleFrame(k1.(tasks := k1.tasks[k1.cur := me.(ticksLeft := if me.ticksLeft > 0 then me.ticksLeft - 1
        else 0)]));
  }

  lemma RescheduleFrame(k: K)
    requires k.Shaped()
    ensures Frame(k, Reschedule(k))
  {
    assert Frame(k, Woken(k));
    hide NextTask, Woken;
  }

  // ---- one lemma per operation ----------------------------------------------------

  /** Beginning a call closes the previous one, which is complete because its caller
      was not blocked. */
  lemma BeginKeeps(k: K, h: Hist, kind: Reason, peer: nat, msg: Message, got: seq<Handed>)
    requires HInv(k, h) && !k.Current().Parked()
    ensures var me := k.Current().id;
            var h1 := Begin(h, kind, me, peer, msg, got);
            && (forall p :: p in h1.open ==> p < k.nextPid && h1.open[p].pid == p && h1.open[p].no < h1.count)
            && (forall i :: 0 <= i < MAX_TASKS && i != k.cur ==> TaskOk(k.tasks[i], h1))
            && (forall i :: 0 <= i < |h1.closed| && h1.closed[i].pid != 0 ==> Complete(h1.closed[i]))
  {
    var me := k.Current();
    var h1 := Begin(h, kind, me.id, peer, msg, got);
    assert TaskOk(me, h);
    forall i | 0 <= i < MAX_TASKS && i != k.cur ensures TaskOk(k.tasks[i], h1) {
      assert TaskOk(k.tasks[i], h);
    }
  }

  /** The pieces of HInv that a finished step still has to show. */
  lemma AssembleHistory(r: K, h: Hist)
    requires Inv(r)
    requires forall p :: p in h.open ==> p < r.nextPid && h.open[p].pid == p && h.open[p].no < h.count
    requires forall i :: 0 <= i < MAX_TASKS ==> TaskOk(r.tasks[i], h)
    requires forall i :: 0 <= i < |h.closed| && h.closed[i].pid != 0 ==> Complete(h.closed[i])
    ensures HInv(r, h)
  {
  }

  lemma SendHistory(k: K, h: Hist, dest: nat, msg: Message)
    requires HInv(k, h) && !k.Current().Parked()
    ensures HInv(Send(k, dest, msg), HSend(h, k, dest, msg))
  {
    var r, h2 := Send(k, dest, msg), HSend(h, k, dest, msg);
    SendKeeps(k, dest, msg);
    var d, me := FindPid(k.tasks, dest, 0), k.Current();
    var m := Stamp(msg, me.id);
    if d < MAX_TASKS {
      var got := if k.tasks[d].Accepts(me.id) then [Handed(dest, m)] else [];
      BeginKeeps(k, h, Sending, dest, m, got);
      var h1 := Begin(h, Sending, me.id, dest, m, got);
      assert TaskOk(k.tasks[d], h);
      hide Inv;
      forall i | 0 <= i < MAX_TASKS ensures TaskOk(r.tasks[i], h2) {
        if i != k.cur { assert TaskOk(k.tasks[i], h1); }
        if k.tasks[i].active { LiveDistinct(k, i, d); LiveDistinct(k, i, k.cur); }
      }
      AssembleHistory(r, h2);
    }
  }

  lemma LiveDistinct(k: K, i: nat, j: nat)
    requires Inv(k) && i < MAX_TASKS && j < MAX_TASKS && k.tasks[i].active && k.tasks[j].active
    ensures k.tasks[i].id == k.tasks[j].id <==> i == j
  {
  }

  lemma SendRecHistory(k: K, h: Hist, dest: nat, msg: Message)
    requires HInv(k, h) && !k.Current().Parked()
    ensures HInv(SendRec(k, dest, msg), HSendRec(h, k, dest, msg))
  {
    var r, h2 := SendRec(k, dest, msg), HSendRec(h, k, dest, msg);
    SendRecKeeps(k, dest, msg);
    var d, me := FindPid(k.tasks, dest, 0), k.Current();
    var m := Stamp(msg, me.id);
    if d < MAX_TASKS {
      var got := if k.tasks[d].Accepts(me.id) then [Handed(dest, m)] else [];
      BeginKeeps(k, h, SendReceiving, dest, m, got);
      var h1 := Begin(h, SendReceiving, me.id, dest, m, got);
      assert TaskOk(k.tasks[d], h);
      hide Inv;
      forall i | 0 <= i < MAX_TASKS ensures TaskOk(r.tasks[i], h2) {
        if i != k.cur { assert TaskOk(k.tasks[i], h1); }
        if k.tasks[i].active { LiveDistinct(k, i, d); LiveDistinct(k, i, k.cur); }
      }
      AssembleHistory(r, h2);
    }
  }

  lemma ReceiveHistory(k: K, h: Hist, from: nat, msg: Message)
    requires HInv(k, h) && !k.Current().Parked()
    ensures HInv(Receive(k, from, msg).0, HReceive(h, k, from, msg))
  {
    var me := k.Current();
    if k.pending[me.id % MAX_TASKS] || FindSender(k.tasks, me.id, from, 0) == MAX_TASKS {
      ReceiveAlone(k, h, from, msg);
    } else {
      ReceiveFromSender(k, h, from, msg);
    }
  }

  /** A receive that takes a stored notification or blocks. */
  lemma ReceiveAlone(k: K, h: Hist, from: nat, msg: Message)
    requires HInv(k, h) && !k.Current().Parked()
    requires k.pending[k.Current().id % MAX_TASKS] || FindSender(k.tasks, k.Current().id, from, 0) == MAX_TASKS
    ensures HInv(Receive(k, from, msg).0, HReceive(h, k, from, msg))
  {
    var r, h2 := Receive(k, from, msg).0, HReceive(h, k, from, msg);
    ReceiveKeeps(k, from, msg);
    var me := k.Current();
    var slot := me.id % MAX_TASKS;
    assert k.pending[slot] ==> k.notes[slot].sender == 0;
    var got := if k.pending[slot] then [Handed(me.id, k.notes[slot])] else [];
    BeginKeeps(k, h, Receiving, from, msg, got);
    hide Inv;
    forall i | 0 <= i < MAX_TASKS ensures TaskOk(r.tasks[i], h2) {
      if i != k.cur { assert TaskOk(k.tasks[i], h2); }
    }
    AssembleHistory(r, h2);
  }

  lemma ReceiveFromSender(k: K, h: Hist, from: nat, msg: Message)
    requires HInv(k, h) && !k.Current().Parked()
    requires !k.pending[k.Current().id % MAX_TASKS] && FindSender(k.tasks, k.Current().id, from, 0) < MAX_TASKS
    ensures HInv(Receive(k, from, msg).0, HReceive(h, k, from, msg))
  {
    var r, h2 := Receive(k, from, msg).0, HReceive(h, k, from, msg);
    ReceiveKeeps(k, from, msg);
    var me := k.Current();
    var s := FindSender(k.tasks, me.id, from, 0);
    var got := [Handed(me.id, Stamp(k.tasks[s].buf, k.tasks[s].id))];
    BeginKeeps(k, h, Receiving, from, msg, got);
    var h1 := Begin(h, Receiving, me.id, from, msg, got);
    var t := k.tasks[s];
    assert TaskOk(t, h1);
    LiveDistinct(k, s, k.cur);
    SenderServed(t, h1, me.id, from);
    forall i | 0 <= i < MAX_TASKS ensures TaskOk(r.tasks[i], h2) {
      if i != k.cur && i != s {
        assert TaskOk(k.tasks[i], h1);
        if k.tasks[i].active { LiveDistinct(k, i, s); }
      }
    }
    hide Inv;
    AssembleHistory(r, h2);
  }

  /** Taking the message of blocked sender t completes a plain send and leaves a sendrec
      waiting for its answer. */
  lemma SenderServed(t: Task, h: Hist, me: nat, from: nat)
    requires t.WaitsFor(me, from) && TaskOk(t, h)
    ensures var h2 := Hand(h, t.id, me, Stamp(t.buf, t.id));
            TaskOk(if t.reason.SendReceiving? then t else t.Wake(), h2)
  {
    assert Stamp(t.buf, t.id) == t.buf;
  }

  lemma ReplyHistory(k: K, h: Hist, dest: nat, msg: Message)
    requires HInv(k, h)
    ensures HInv(Reply(k, dest, msg), HReply(h, k, dest, msg))
  {
    var r, h2 := Reply(k, dest, msg), HReply(h, k, dest, msg);
    ReplyKeeps(k, dest, msg);
    var d := FindPid(k.tasks, dest, 0);
    if d < MAX_TASKS { assert TaskOk(k.tasks[d], h); }
    hide Inv;
    forall i | 0 <= i < MAX_TASKS ensures TaskOk(r.tasks[i], h2) {
      assert TaskOk(k.tasks[i], h);
      if k.tasks[i].active && d < MAX_TASKS { LiveDistinct(k, i, d); }
    }
    AssembleHistory(r, h2);
  }

  lemma NotifyHistory(k: K, h: Hist, dest: nat, msg: Message)
    requires HInv(k, h)
    ensures HInv(Notify(k, dest, msg), HNotify(h, k, dest, msg))
  {
    var r, h2 := Notify(k, dest, msg), HNotify(h, k, dest, msg);
    NotifyKeeps(k, dest, msg);
    var d := FindPid(k.tasks, dest, 0);
    if d < MAX_TASKS { assert TaskOk(k.tasks[d], h); }
    hide Inv;
    forall i | 0 <= i < MAX_TASKS ensures TaskOk(r.tasks[i], h2) {
      assert TaskOk(k.tasks[i], h);
      if k.tasks[i].active && d < MAX_TASKS { LiveDistinct(k, i, d); }
    }
    AssembleHistory(r, h2);
  }

  lemma CreateHistory(k: K, h: Hist, priority: nat, quantum: nat)
    requires HInv(k, h) && !k.Current().Parked() && k.nextPid < PID_ANY
    ensures HInv(Create(k, priority, quantum), h)
  {
    CreateKeeps(k, priority, quantum);
    QuietHistory(k, h, Create(k, priority, quantum));
  }

  lemma OtherHistory(k: K, h: Hist, op: Op)
    requires HInv(k, h) && Enabled(k, op)
    requires op.DoSleep? || op.DoYield? || op.DoExit? || op.DoLock? || op.DoUnlock? || op.DoPreemptive? || op.DoKill?
    ensures HInv(Step(k, op), h)
  {
    StepKeeps(k, op);
    hide Inv;
    QuietHistory(k, h, Step(k, op));
  }

  lemma HistoryKeeps(k: K, h: Hist, op: Op)
    requires HInv(k, h) && Enabled(k, op)
    ensures HInv(Step(k, op), HStep(h, k, op))
  {
    hide HInv, Send, SendRec, Receive, Reply, Notify, Tick, Create, Kill, HSend, HSendRec, HReceive, HReply, HNotify;
    match op
    case DoSend(dest, msg) => SendHistory(k, h, dest, msg);
    case DoReceive(from, msg) => ReceiveHistory(k, h, from, msg);
    case DoSendRec(dest, msg) => SendRecHistory(k, h, dest, msg);
    case DoReply(dest, msg) => ReplyHistory(k, h, dest, msg);
    case DoNotify(dest, msg) => NotifyHistory(k, h, dest, msg);
    case DoTick => TickHistory(k, h);
    case DoCreate(priority, quantum) => CreateHistory(k, h, priority, quantum);
    case _ => OtherHistory(k, h, op);
  }

  lemma InitialHistory(quantum: nat)
    ensures HInv(Initial(quantum), NO_HISTORY)
  {
    InitialInv(quantum);
    hide Inv;
  }

  lemma {:induction false} HistoryInvariant(ks: seq<K>, hs: seq<Hist>, ops: seq<Op>, quantum: nat, n: nat)
    requires Run(ks, ops, quantum) && HistoryOf(hs, ks, ops) && n < |ks|
    ensures HInv(ks[n], hs[n])
  {
    hide HInv, Step, HStep, Enabled, Initial;
    if n == 0 {
      InitialHistory(quantum);
    } else {
      HistoryInvariant(ks, hs, ops, quantum, n - 1);
      assert ks[(n - 1) + 1] == Step(ks[n - 1], ops[n - 1])
        && hs[(n - 1) + 1] == HStep(hs[n - 1], ks[n - 1], ops[n - 1]);
      HistoryKeeps(ks[n - 1], hs[n - 1], ops[n - 1]);
    }
  }

  /** The call is over: its caller has made another one, or is alive and not blocked. */
  ghost predicate Returned(k: K, h: Hist, c: Call)
    requires k.Shaped()
  {
    || c in h.closed
    || exists i :: 0 <= i < MAX_TASKS && InCall(k.tasks[i], h, c)
  }

  /** c is the latest call of the living task t, and t is not blocked in it any more. */
  ghost predicate InCall(t: Task, h: Hist, c: Call) {
    t.active && t.id == c.pid && !t.state.Blocked? && c.pid in h.open && h.open[c.pid] == c
  }

  /** A receive that returns at once returns the message its record lists; one that has to
      wait is recorded without any. */
  lemma ReceiveIsRecorded(k: K, h: Hist, from: nat, msg: Message)
    requires HInv(k, h) && !k.Current().Parked()
    ensures var me := k.Current().id;
            var h2 := HReceive(h, k, from, msg);
            me in h2.open && h2.open[me].kind.Receiving?
            && match Receive(k, from, msg).1
               case Some(m) => h2.open[me].got == [Handed(me, m)] && h2.open[me].atOnce
               case None => h2.open[me].got == [] && !h2.open[me].atOnce
  {
    var s := FindSender(k.tasks, k.Current().id, from, 0);
    hide NoMissedRendezvous, TaskOk;
    if s < MAX_TASKS { LiveDistinct(k, s, k.cur); }
  }

  /** In every run, every plain send that returned handed its unmodified message to its
      destination exactly once, every receive that returned got exactly one message,
      from the process it named or from the kernel, and every sendrec that returned got
      exactly one answer.  After a receive that had to wait, that one message is what the
      receiver has in its buffer. */
  lemma ReturnedCallsAreComplete(ks: seq<K>, hs: seq<Hist>, ops: seq<Op>, quantum: nat, n: nat, c: Call)
    requires Run(ks, ops, quantum) && HistoryOf(hs, ks, ops) && n < |ks| && ks[n].Shaped()
    requires Returned(ks[n], hs[n], c) && c.pid != 0
    ensures Complete(c)
    ensures forall i :: 0 <= i < MAX_TASKS && InCall(ks[n].tasks[i], hs[n], c) && c.kind.Receiving? && !c.atOnce ==>
              ks[n].tasks[i].buf == c.got[0].m
  {
    HistoryInvariant(ks, hs, ops, quantum, n);
    var k, h := ks[n], hs[n];
    if c !in h.closed {
      var i :| 0 <= i < MAX_TASKS && InCall(k.tasks[i], h, c);
      assert TaskOk(k.tasks[i], h);
    }
    forall i | 0 <= i < MAX_TASKS && InCall(k.tasks[i], h, c) && c.kind.Receiving? && !c.atOnce
      ensures k.tasks[i].buf == c.got[0].m
    {
      assert TaskOk(k.tasks[i], h);
    }
  }

  /** A call record tells the call: who made it, to whom, and the message handed in, with the
      caller as its sender. */
  ghost predicate Tells(c: Call, kind: Reason, me: nat, dest: nat, msg: Message) {
    && c.kind == kind && c.pid == me && c.peer == dest
    && c.msg.sender == me && c.msg.kind == msg.kind && c.msg.raw == msg.raw
  }

  lemma SendsAreRecorded(k: K, h: Hist, dest: nat, msg: Message)
    requires HInv(k, h) && !k.Current().Parked() && FindPid(k.tasks, dest, 0) < MAX_TASKS
    ensures var me, s, t := k.Current().id, HStep(h, k, DoSend(dest, msg)), HStep(h, k, DoSendRec(dest, msg));
            && me in s.open && Tells(s.open[me], Sending, me, dest, msg)
            && me in t.open && Tells(t.open[me], SendReceiving, me, dest, msg)
  {
    hide NoMissedRendezvous, TaskOk;
    LiveDistinct(k, FindPid(k.tasks, dest, 0), k.cur);
  }

  /** An answer that reaches a waiting client is recorded with what was handed in. */
  lemma RepliesAreRecorded(k: K, h: Hist, i: nat, msg: Message)
    requires HInv(k, h) && i < MAX_TASKS && k.tasks[i].active && k.tasks[i].state == Blocked
             && k.tasks[i].reason == SendReceiving
    ensures var me, pid, r := k.Current().id, k.tasks[i].id, HStep(h, k, DoReply(k.tasks[i].id, msg));
            && pid in h.open && pid in r.open && |r.open[pid].rep| == |h.open[pid].rep| + 1
            && var a := r.open[pid].rep[|h.open[pid].rep|];
               a.server == me && a.m.sender == me && a.m.kind == msg.kind && a.m.raw == msg.raw
  {
    hide NoMissedRendezvous;
    assert TaskOk(k.tasks[i], h);
    FindPidUnique(k, i);
  }
}
