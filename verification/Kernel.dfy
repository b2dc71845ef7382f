/** The table of tasks and the atomic steps of the kernel: synchronous IPC (src/ipc.c) and
    the preemptive scheduler (src/task.c).  A system call runs with interrupts off up to
    the point where it parks its caller, so each call is one step. */
module Kernel {

  const MAX_TASKS: nat := 32
  const PID_ANY: nat := 0xFFFF_FFFF
  const NO_PRIORITY: nat := 0xFFFF_FFFF

  datatype RunState = Ready | Running | Sleeping | Blocked | Terminated
  datatype Reason = NoReason | Sending | Receiving | SendReceiving
  datatype Message = Message(sender: nat, kind: nat, raw: seq<int>)

  datatype Task = Task(
    id: nat, active: bool, state: RunState, priority: nat, quantum: nat, ticksLeft: nat, wake: nat,
    reason: Reason, sendTo: nat, receiveFrom: nat, buf: Message)
  {
    predicate Runnable() { active && (state.Ready? || state.Running?) }

    predicate Parked() { state.Sleeping? || state.Blocked? || state.Terminated? }

    /** Blocked in a send or sendrec that a receive by `receiver` from `from` matches. */
    predicate WaitsFor(receiver: nat, from: nat) {
      && active && state.Blocked? && (reason.Sending? || reason.SendReceiving?)
      && sendTo == receiver && (from == PID_ANY || id == from)
    }

    /** Blocked in a receive that takes messages from `sender`. */
    predicate Accepts(sender: nat) {
      state.Blocked? && reason.Receiving? && (receiveFrom == PID_ANY || receiveFrom == sender)
    }

    predicate AwaitsReply() { state.Blocked? && reason.SendReceiving? }

    function Wake(): Task { this.(state := Ready, reason := NoReason) }

    function Deliver(m: Message): Task { Wake().(buf := m) }

    function BlockOnSend(why: Reason, dest: nat, m: Message): Task {
      this.(state := Blocked, reason := why, sendTo := dest, buf := m, ticksLeft := 0)
    }

    function BlockOnReceive(from: nat, m: Message): Task {
      this.(state := Blocked, reason := Receiving, receiveFrom := from, buf := m, ticksLeft := 0)
    }
  }

  datatype K = K(
    tasks: seq<Task>, cur: nat, nextPid: nat, pending: seq<bool>, notes: seq<Message>,
    now: nat, locks: nat, preemptive: bool)
  {
    predicate Shaped() {
      |tasks| == MAX_TASKS && cur < MAX_TASKS && |pending| == MAX_TASKS && |notes| == MAX_TASKS
    }

    function Current(): Task
      requires Shaped()
    {
      tasks[cur]
    }
  }

  // ---- table searches -------------------------------------------------------------

  /** First slot from i on holding active process pid; |ts| when there is none. */
  function FindPid(ts: seq<Task>, pid: nat, i: nat): (r: nat)
    requires i <= |ts|
    ensures i <= r <= |ts|
    ensures r < |ts| ==> ts[r].active && ts[r].id == pid
    ensures forall j :: i <= j < r ==> !(ts[j].active && ts[j].id == pid)
    decreases |ts| - i
  {
    if i == |ts| || (ts[i].active && ts[i].id == pid) then i else FindPid(ts, pid, i + 1)
  }

  /** First slot from i on blocked sending to `receiver`. */
  function FindSender(ts: seq<Task>, receiver: nat, from: nat, i: nat): (r: nat)
    requires i <= |ts|
    ensures i <= r <= |ts|
    ensures r < |ts| ==> ts[r].WaitsFor(receiver, from)
    ensures forall j :: i <= j < r ==> !ts[j].WaitsFor(receiver, from)
    decreases |ts| - i
  {
    if i == |ts| || ts[i].WaitsFor(receiver, from) then i else FindSender(ts, receiver, from, i + 1)
  }

  function FindFree(ts: seq<Task>, i: nat): (r: nat)
    requires i <= |ts|
    ensures i <= r <= |ts|
    ensures r < |ts| ==> !ts[r].active
    ensures forall j :: i <= j < r ==> ts[j].active
    decreases |ts| - i
  {
    if i == |ts| || !ts[i].active then i else FindFree(ts, i + 1)
  }

  // ---- IPC ------------------------------------------------------------------------

  function Stamp(msg: Message, sender: nat): Message { msg.(sender := sender) }

  function Send(k: K, dest: nat, msg: Message): (r: K)
    requires k.Shaped()
    ensures r.Shaped()
  {
    var d := FindPid(k.tasks, dest, 0);
    var me := k.Current();
    if d == MAX_TASKS then k
    else if k.tasks[d].Accepts(me.id) then
      k.(tasks := k.tasks[d := k.tasks[d].Deliver(Stamp(msg, me.id))])
    else
      k.(tasks := k.tasks[k.cur := me.BlockOnSend(Sending, dest, Stamp(msg, me.id))])
  }

  function SendRec(k: K, dest: nat, msg: Message): (r: K)
    requires k.Shaped()
    ensures r.Shaped()
  {
    var d := FindPid(k.tasks, dest, 0);
    var me := k.Current();
    if d == MAX_TASKS then k
    else
      var ts := if k.tasks[d].Accepts(me.id) then k.tasks[d := k.tasks[d].Deliver(Stamp(msg, me.id))] else k.tasks;
      k.(tasks := ts[k.cur := ts[k.cur].BlockOnSend(SendReceiving, dest, Stamp(msg, me.id))])
  }

  datatype Option<T> = None | Some(value: T)

  /** The new state and the message received, when one is received at once. */
  function Receive(k: K, from: nat, msg: Message): (r: (K, Option<Message>))
    requires k.Shaped()
    ensures r.0.Shaped()
  {
    var me := k.Current();
    var slot := me.id % MAX_TASKS;
    if k.pending[slot] then (k.(pending := k.pending[slot := false]), Some(k.notes[slot]))
    else
      var s := FindSender(k.tasks, me.id, from, 0);
      if s < MAX_TASKS then
        var t := k.tasks[s];
        (if t.reason.SendReceiving? then k else k.(tasks := k.tasks[s := t.Wake()]), Some(Stamp(t.buf, t.id)))
      else
        (k.(tasks := k.tasks[k.cur := me.BlockOnReceive(from, msg)]), None)
  }

  function Reply(k: K, dest: nat, msg: Message): (r: K)
    requires k.Shaped()
    ensures r.Shaped()
  {
    var d := FindPid(k.tasks, dest, 0);
    if d < MAX_TASKS && k.tasks[d].AwaitsReply() then
      k.(tasks := k.tasks[d := k.tasks[d].Deliver(Stamp(msg, k.Current().id))])
    else k
  }

  function Notify(k: K, dest: nat, msg: Message): (r: K)
    requires k.Shaped()
    ensures r.Shaped()
  {
    var d := FindPid(k.tasks, dest, 0);
    if d == MAX_TASKS then k
    else if k.tasks[d].state.Blocked? && k.tasks[d].reason.Receiving? then
      k.(tasks := k.tasks[d := k.tasks[d].Deliver(Stamp(msg, 0))])
    else
      var slot := dest % MAX_TASKS;
      k.(pending := k.pending[slot := true], notes := k.notes[slot := Stamp(msg, 0)])
  }

  // ---- scheduling -----------------------------------------------------------------

  function WakeSleeper(t: Task, now: nat): Task {
    if t.active && t.state.Sleeping? && now >= t.wake then t.(state := Ready) else t
  }

  function Woken(k: K): (r: K)
    requires k.Shaped()
    ensures r.Shaped()
  {
    k.(tasks := seq(MAX_TASKS, i requires 0 <= i < MAX_TASKS => WakeSleeper(k.tasks[i], k.now)))
  }

  /** A slot the first pass of find_next_task may pick. */
  predicate Candidate(k: K, i: nat)
    requires k.Shaped()
  {
    i < MAX_TASKS && i != k.cur && k.tasks[i].Runnable() && k.tasks[i].priority < NO_PRIORITY
  }

  function Slot(k: K, n: nat): (i: nat)
    ensures i < MAX_TASKS
  {
    ((k.cur + 1) % MAX_TASKS + n) % MAX_TASKS
  }

  /** The best candidate among the first n slots after the current one; MAX_TASKS when
      there is none. */
  function Best(k: K, n: nat): (b: nat)
    requires k.Shaped()
    ensures b <= MAX_TASKS && (b < MAX_TASKS ==> Candidate(k, b))
  {
    if n == 0 then MAX_TASKS
    else
      var b, i := Best(k, n - 1), Slot(k, n - 1);
      if Candidate(k, i) && (b == MAX_TASKS || k.tasks[i].priority < k.tasks[b].priority) then i else b
  }

  function NextTask(k: K): (i: nat)
    requires k.Shaped()
    ensures i < MAX_TASKS
  {
    var b := Best(k, MAX_TASKS);
    if b < MAX_TASKS then b else if k.Current().Runnable() then k.cur else 0
  }

  function SwitchTo(k: K, next: nat): (r: K)
    requires k.Shaped() && next < MAX_TASKS
    ensures r.Shaped()
  {
    var ts := if k.Current().state.Running? then k.tasks[k.cur := k.Current().(state := Ready)] else k.tasks;
    k.(tasks := ts[next := ts[next].(state := Running, ticksLeft := ts[next].quantum)], cur := next)
  }

  /** The scheduling decision of a timer tick that ends a time slice. */
  function Reschedule(k: K): (r: K)
    requires k.Shaped()
    ensures r.Shaped()
  {
    var w := Woken(k);
    var next := NextTask(w);
    if next == w.cur then w.(tasks := w.tasks[w.cur := w.Current().(ticksLeft := w.Current().quantum)])
    else SwitchTo(w, next)
  }

  function Tick(k0: K): (r: K)
    requires k0.Shaped()
    ensures r.Shaped()
  {
    var k := k0.(now := k0.now + 1);
    var me := k.Current();
    if k.locks > 0 || !k.preemptive then k
    else if me.Parked() then Reschedule(k)
    else
      var left := if me.ticksLeft > 0 then me.ticksLeft - 1 else 0;
      var t := k.(tasks := k.tasks[k.cur := me.(ticksLeft := left)]);
      if left > 0 then t else Reschedule(t)
  }

  function Sleep(k: K, ticks: nat): (r: K)
    requires k.Shaped()
    ensures r.Shaped()
  {
    k.(tasks := k.tasks[k.cur := k.Current().(state := Sleeping, wake := k.now + ticks, ticksLeft := 0)])
  }

  function Yield(k: K): (r: K)
    requires k.Shaped()
    ensures r.Shaped()
  {
    k.(tasks := k.tasks[k.cur := k.Current().(ticksLeft := 0)])
  }

  const NO_MESSAGE := Message(0, 0, [])

  function NewTask(pid: nat, priority: nat, quantum: nat): Task {
    Task(pid, true, Ready, priority, quantum, quantum, 0, NoReason, 0, 0, NO_MESSAGE)
  }

  function Create(k: K, priority: nat, quantum: nat): (r: K)
    requires k.Shaped()
    ensures r.Shaped()
  {
    var s := FindFree(k.tasks, 0);
    if s == MAX_TASKS then k
    else k.(tasks := k.tasks[s := NewTask(k.nextPid, priority, quantum)], nextPid := k.nextPid + 1)
  }

  /** Slot 0 holds the kernel task and cannot be killed. */
  function Kill(k: K, pid: nat): (r: K)
    requires k.Shaped()
    ensures r.Shaped()
  {
    var d := FindPid(k.tasks, pid, 1);
    if d == MAX_TASKS then k
    else k.(tasks := k.tasks[d := k.tasks[d].(state := Terminated, active := false)])
  }

  function Exit(k: K): (r: K)
    requires k.Shaped()
    ensures r.Shaped()
  {
    if k.cur == 0 then k
    else k.(tasks := k.tasks[k.cur := k.Current().(state := Terminated, active := false)])
  }

  // ---- the transition system ------------------------------------------------------

  datatype Op =
    | DoSend(dest: nat, msg: Message)
    | DoReceive(from: nat, msg: Message)
    | DoSendRec(dest: nat, msg: Message)
    | DoReply(dest: nat, msg: Message)
    | DoNotify(dest: nat, msg: Message)
    | DoTick
    | DoSleep(ticks: nat)
    | DoYield
    | DoCreate(priority: nat, quantum: nat)
    | DoKill(pid: nat)
    | DoExit
    | DoLock
    | DoUnlock
    | DoPreemptive(on: bool)

  /** Interrupts arrive at any time; everything else is done by the current task, which
      must not be parked.  PIDs are assumed not to wrap around. */
  predicate Enabled(k: K, op: Op)
    requires k.Shaped()
  {
    && (op.DoTick? || op.DoNotify? || !k.Current().Parked())
    && (op.DoCreate? ==> k.nextPid < PID_ANY)
  }

  function Step(k: K, op: Op): (r: K)
    requires k.Shaped()
    ensures r.Shaped()
  {
    match op
    case DoSend(dest, msg) => Send(k, dest, msg)
    case DoReceive(from, msg) => Receive(k, from, msg).0
    case DoSendRec(dest, msg) => SendRec(k, dest, msg)
    case DoReply(dest, msg) => Reply(k, dest, msg)
    case DoNotify(dest, msg) => Notify(k, dest, msg)
    case DoTick => Tick(k)
    case DoSleep(ticks) => Sleep(k, ticks)
    case DoYield => Yield(k)
    case DoCreate(priority, quantum) => Create(k, priority, quantum)
    case DoKill(pid) => Kill(k, pid)
    case DoExit => Exit(k)
    case DoLock => k.(locks := k.locks + 1)
    case DoUnlock => if k.locks > 0 then k.(locks := k.locks - 1) else k
    case DoPreemptive(on) => k.(preemptive := on)
  }

  /** The state after task_init: only the kernel task, running. */
  function Initial(quantum: nat): (k: K)
    ensures k.Shaped()
  {
    var idle := NewTask(0, 0, 0).(active := false);
    var first := NewTask(0, 10, quantum).(state := Running);
    K(seq(MAX_TASKS, i => if i == 0 then first else idle), 0, 1,
      seq(MAX_TASKS, _ => false), seq(MAX_TASKS, _ => NO_MESSAGE), 0, 0, true)
  }

  /** A run: a state sequence in which every step is an enabled operation. */
  ghost predicate Run(ks: seq<K>, ops: seq<Op>, quantum: nat) {
    && |ks| == |ops| + 1 && ks[0] == Initial(quantum)
    && forall i :: 0 <= i < |ops| ==> ks[i].Shaped() && Enabled(ks[i], ops[i]) && ks[i + 1] == Step(ks[i], ops[i])
  }
}
