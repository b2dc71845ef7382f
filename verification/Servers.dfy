/** The server loops of src/servers.c: receive, and unless the message is of the
    notification type, reply to its sender.  When they keep the discipline of the protocol,
    and what happens when they do not. */
module Servers {
  import opened Kernel
  import opened KernelSafety
  import opened IpcHistory
  import opened IpcProtocol
  import opened Scheduler
  import opened Notifications

  const MSG_IRQ_NOTIFY: nat := 100

  /** Done by the current process itself, not by an interrupt. */
  predicate OwnOp(op: Op) { !op.DoTick? && !op.DoNotify? }

  predicate Communicates(op: Op) { op.DoSend? || op.DoReceive? || op.DoSendRec? || op.DoReply? }

  /** Where a server is in its loop: about to receive, or behind a receive. */
  datatype Place = Idle | Busy

  function NextPlace(k: K, op: Op, s: nat, at: Place): Place
    requires k.Shaped()
  {
    if !OwnOp(op) || k.Current().id != s then at else if op.DoReceive? then Busy else if op.DoReply? then Idle else at
  }

  /** The message a server has received, if it has. */
  function Received(h: Hist, s: nat): Option<Message> {
    if s in h.open && h.open[s].got != [] then Some(h.open[s].got[0].m) else None
  }

  /** The loop: whatever a server that has received a message does next about messages.
      Servers with a case for notifications skip everything of that type. */
  predicate LoopOp(h: Hist, s: nat, skips: bool, at: Place, op: Op) {
    Communicates(op) ==>
      match at
      case Idle => op.DoReceive? && op.from == PID_ANY
      case Busy =>
        match Received(h, s)
        case None => false
        case Some(m) =>
          if skips && m.kind == MSG_IRQ_NOTIFY then op.DoReceive? && op.from == PID_ANY
          else op.DoReply? && op.dest == m.sender
  }

  // ---- what a server's place says about what it holds ------------------------------------

  /** An idle server holds no request; a busy one holds the request it has received, unless
      the message came from the kernel. */
  ghost predicate PlaceOk(h: Hist, s: nat, at: Place) {
    match at
    case Idle => s !in h.held
    case Busy =>
      && s in h.open && h.open[s].kind.Receiving?
      && match Received(h, s)
         case None => s !in h.held
         case Some(m) => if s in h.held then h.held[s].client == m.sender else m.sender == 0
  }

  /** A server never waits but in a receive. */
  ghost predicate WaitsOk(k: K, s: nat, at: Place)
    requires k.Shaped()
  {
    forall i :: 0 <= i < MAX_TASKS && k.tasks[i].active && k.tasks[i].id == s && k.tasks[i].state.Blocked? ==>
      k.tasks[i].reason.Receiving? && at.Busy?
  }

  ghost predicate ServerOk(k: K, h: Hist, s: nat, at: Place)
    requires k.Shaped()
  {
    PlaceOk(h, s, at) && WaitsOk(k, s, at)
  }

  /** What the current process may do: the loop for a server, the discipline for others. */
  ghost predicate Obeys(k: K, h: Hist, op: Op, s: nat, skips: bool, at: Place)
    requires k.Shaped()
  {
    Disciplined(k, h, op) && (OwnOp(op) && k.Current().id == s ==> LoopOp(h, s, skips, at, op))
  }

  lemma TickWaits(k: K, s: nat, at: Place)
    requires k.Shaped() && WaitsOk(k, s, at)
    ensures WaitsOk(Tick(k), s, at)
  {
    hide Tick;
    TickFrame(k);
  }

  lemma StepWaits(k: K, h: Hist, op: Op, s: nat, skips: bool, at: Place)
    requires PInv(k, h) && Enabled(k, op) && s != 0 && ServerOk(k, h, s, at) && Obeys(k, h, op, s, skips, at)
    ensures WaitsOk(Step(k, op), s, NextPlace(k, op, s, at))
  {
    hide PInv, HInv, Inv, PlaceOk, Received, Step;
    GetShape(k, h);
    if op.DoTick? {
      TickWaits(k, s, at) by { TickStep(k); }
      TickStep(k);
    } else {
      var r := Step(k, op);
      forall i | 0 <= i < MAX_TASKS && r.tasks[i].active && r.tasks[i].id == s && r.tasks[i].state.Blocked?
        ensures r.tasks[i].reason.Receiving? && NextPlace(k, op, s, at).Busy?
      {
        BlockedAfter(k, op, i);
        if OwnOp(op) {
          CurrentIsLive(k);
          LiveDistinct(k, i, k.cur);
        }
      }
    }
  }

  lemma TickStep(k: K)
    requires k.Shaped()
    ensures Step(k, DoTick) == Tick(k)
  {
  }

  /** Who is blocked after a step was blocked alike before, or has just called. */
  lemma BlockedAfter(k: K, op: Op, i: nat)
    requires k.Shaped() && !op.DoTick? && i < MAX_TASKS && Step(k, op).tasks[i].active
             && Step(k, op).tasks[i].state.Blocked?
    ensures var t, u := k.tasks[i], Step(k, op).tasks[i];
            && t.active && t.id == u.id
            && ((t.state.Blocked? && t.reason == u.reason && (i != k.cur || !op.DoReply? || t.Parked()))
                || (i == k.cur && (op.DoSend? || op.DoSendRec? || (op.DoReceive? && u.reason.Receiving?))))
  {
  }

  // ---- requests of the notification type ---------------------------------------------------

  /** No request that waits has the type of a notification. */
  ghost predicate CleanQueue(k: K)
    requires k.Shaped()
  {
    forall i :: 0 <= i < MAX_TASKS && k.tasks[i].active && k.tasks[i].AwaitsReply()
      ==> k.tasks[i].buf.kind != MSG_IRQ_NOTIFY
  }

  /** Nor has the request the server holds. */
  ghost predicate CleanServer(h: Hist, s: nat) {
    s in h.held && Received(h, s).Some? ==> Received(h, s).value.kind != MSG_IRQ_NOTIFY
  }

  predicate CleanOp(op: Op) { op.DoSendRec? ==> op.msg.kind != MSG_IRQ_NOTIFY }

  // ---- one lemma per operation ------------------------------------------------------------

  /** The server's record and what it holds are as they were. */
  ghost predicate SameView(h: Hist, r: Hist, s: nat) {
    && (s in r.held <==> s in h.held) && (s in h.held ==> r.held[s] == h.held[s])
    && (s in r.open <==> s in h.open)
    && (s in h.open ==> r.open[s].kind == h.open[s].kind && r.open[s].got == h.open[s].got)
  }

  lemma ViewKept(h: Hist, r: Hist, s: nat, at: Place)
    requires SameView(h, r, s) && PlaceOk(h, s, at)
    ensures PlaceOk(r, s, at) && (CleanServer(h, s) ==> CleanServer(r, s))
  {
  }

  /** A waiting server has been handed nothing yet. */
  lemma WaitingServer(k: K, h: Hist, d: nat, s: nat, at: Place)
    requires PInv(k, h) && k.Shaped() && ServerOk(k, h, s, at) && d < MAX_TASKS
    requires k.tasks[d].active && k.tasks[d].id == s && k.tasks[d].state.Blocked?
    ensures at.Busy? && s in h.open && h.open[s].got == [] && s !in h.held
  {
    hide PInv, ClientOk;
    GetTask(k, h, d);
  }

  lemma SendView(k: K, h: Hist, dest: nat, msg: Message, s: nat, at: Place)
    requires PInv(k, h) && k.Shaped() && !k.Current().Parked() && s != 0 && ServerOk(k, h, s, at) && k.Current().id == 0
    ensures var r := HSend(h, k, dest, msg); PlaceOk(r, s, at) && (CleanServer(h, s) ==> CleanServer(r, s))
  {
    hide PInv, WaitsOk;
    var d := FindPid(k.tasks, dest, 0);
    if d < MAX_TASKS && k.tasks[d].Accepts(0) && dest == s { WaitingServer(k, h, d, s, at); }
    else { ViewKept(h, HSend(h, k, dest, msg), s, at); }
  }

  lemma SendRecView(k: K, h: Hist, dest: nat, msg: Message, s: nat, at: Place)
    requires PInv(k, h) && k.Shaped() && !k.Current().Parked() && ServerOk(k, h, s, at) && k.Current().id != s
    ensures var r := HSendRec(h, k, dest, msg);
            PlaceOk(r, s, at) && (CleanServer(h, s) && msg.kind != MSG_IRQ_NOTIFY ==> CleanServer(r, s))
  {
    hide PInv, WaitsOk;
    var d := FindPid(k.tasks, dest, 0);
    if d < MAX_TASKS && k.tasks[d].Accepts(k.Current().id) && dest == s { WaitingServer(k, h, d, s, at); }
    else { ViewKept(h, HSendRec(h, k, dest, msg), s, at); }
  }

  lemma NotifyView(k: K, h: Hist, dest: nat, msg: Message, s: nat, at: Place)
    requires PInv(k, h) && k.Shaped() && ServerOk(k, h, s, at)
    ensures var r := HNotify(h, k, dest, msg); PlaceOk(r, s, at) && (CleanServer(h, s) ==> CleanServer(r, s))
  {
    hide PInv, WaitsOk;
    var d := FindPid(k.tasks, dest, 0);
    if d < MAX_TASKS && k.tasks[d].state.Blocked? && dest == s { WaitingServer(k, h, d, s, at); }
    else { ViewKept(h, HNotify(h, k, dest, msg), s, at); }
  }

  lemma ReplyView(k: K, h: Hist, dest: nat, msg: Message, s: nat, at: Place)
    requires PInv(k, h) && k.Shaped() && ServerOk(k, h, s, at)
    requires k.Current().id == s ==> at.Busy? && Received(h, s).Some? && dest == Received(h, s).value.sender
    ensures var r := HReply(h, k, dest, msg);
            PlaceOk(r, s, if k.Current().id == s then Idle else at) && (CleanServer(h, s) ==> CleanServer(r, s))
  {
    hide PInv, WaitsOk;
    if k.Current().id != s { ViewKept(h, HReply(h, k, dest, msg), s, at); }
  }

  /** Another process receives: it takes no message of the server, which sends none. */
  lemma OtherReceiveView(k: K, h: Hist, from: nat, msg: Message, s: nat, at: Place)
    requires PInv(k, h) && k.Shaped() && !k.Current().Parked() && ServerOk(k, h, s, at) && k.Current().id != s
    ensures var r := HReceive(h, k, from, msg); PlaceOk(r, s, at) && (CleanServer(h, s) ==> CleanServer(r, s))
  {
    hide PInv;
    var t := FindSender(k.tasks, k.Current().id, from, 0);
    ViewKept(h, HReceive(h, k, from, msg), s, at);
  }

  lemma OwnReceiveView(k: K, h: Hist, from: nat, msg: Message, s: nat)
    requires PInv(k, h) && k.Shaped() && !k.Current().Parked() && s != 0 && k.Current().id == s && s !in h.held
    ensures var r := HReceive(h, k, from, msg); PlaceOk(r, s, Busy) && (CleanQueue(k) ==> CleanServer(r, s))
  {
    hide PInv, NoMissedRendezvous;
    GetShape(k, h);
    CurrentIsLive(k);
    var f := FindSender(k.tasks, s, from, 0);
    if f < MAX_TASKS {
      GetTask(k, h, f);
      LiveDistinct(k, f, k.cur);
    }
  }

  lemma StepPlace(k: K, h: Hist, op: Op, s: nat, skips: bool, at: Place)
    requires PInv(k, h) && Enabled(k, op) && s != 0 && ServerOk(k, h, s, at) && Obeys(k, h, op, s, skips, at)
    ensures PlaceOk(HStep(h, k, op), s, NextPlace(k, op, s, at))
    ensures CleanServer(h, s) && CleanQueue(k) && CleanOp(op) ==> CleanServer(HStep(h, k, op), s)
  {
    hide PInv, HSend, HSendRec, HReceive, HReply, HNotify, PlaceOk, WaitsOk, CleanServer, CleanQueue;
    GetShape(k, h);
    match op
    case DoSend(dest, msg) => SendView(k, h, dest, msg, s, at);
    case DoSendRec(dest, msg) => SendRecView(k, h, dest, msg, s, at);
    case DoReceive(from, msg) =>
      if k.Current().id == s { OwnReceiveView(k, h, from, msg, s); } else { OtherReceiveView(k, h, from, msg, s, at); }
    case DoReply(dest, msg) => ReplyView(k, h, dest, msg, s, at);
    case DoNotify(dest, msg) => NotifyView(k, h, dest, msg, s, at);
    case _ =>
  }

  // ---- runs of servers and clients --------------------------------------------------------

  /** Where server s is before step n. */
  ghost function PlaceAt(ks: seq<K>, ops: seq<Op>, s: nat, n: nat): Place
    requires n <= |ops| < |ks| && forall i :: 0 <= i < |ks| ==> ks[i].Shaped()
  {
    if n == 0 then Idle else NextPlace(ks[n - 1], ops[n - 1], s, PlaceAt(ks, ops, s, n - 1))
  }

  /** Step i: servers follow their loop, everybody else the discipline. */
  ghost predicate ServerStep(ks: seq<K>, hs: seq<Hist>, ops: seq<Op>, servers: map<nat, bool>, i: nat)
    requires i < |ops| < |ks| && |hs| == |ks| && forall j :: 0 <= j < |ks| ==> ks[j].Shaped()
  {
    var me := ks[i].Current().id;
    if OwnOp(ops[i]) && me in servers then LoopOp(hs[i], me, servers[me], PlaceAt(ks, ops, me, i), ops[i])
    else Disciplined(ks[i], hs[i], ops[i])
  }

  /** `servers` gives the PIDs of the servers, and which of them have a case for
      notifications. */
  ghost predicate ServerRun(ks: seq<K>, hs: seq<Hist>, ops: seq<Op>, quantum: nat, servers: map<nat, bool>) {
    && Run(ks, ops, quantum) && HistoryOf(hs, ks, ops) && 0 !in servers
    && (forall i :: 0 <= i < |ks| ==> ks[i].Shaped())
    && forall i :: 0 <= i < |ops| ==> ServerStep(ks, hs, ops, servers, i)
  }

  /** At step i a server turns to its next message although the last one was a request: it
      had the type of a notification. */
  ghost predicate Spurns(ks: seq<K>, hs: seq<Hist>, ops: seq<Op>, servers: map<nat, bool>, i: nat)
    requires i < |ops| < |ks| && |hs| == |ks| && ks[i].Shaped()
  {
    var me := ks[i].Current().id;
    && me in servers && servers[me] && ops[i].DoReceive? && me in hs[i].held
    && Received(hs[i], me).Some? && Received(hs[i], me).value.kind == MSG_IRQ_NOTIFY
  }

  /** Everything that holds before step n as long as no request was spurned. */
  ghost predicate AllOk(ks: seq<K>, hs: seq<Hist>, ops: seq<Op>, servers: map<nat, bool>, n: nat)
    requires n <= |ops| < |ks| && |hs| == |ks| && forall i :: 0 <= i < |ks| ==> ks[i].Shaped()
  {
    PInv(ks[n], hs[n]) && forall s :: s in servers ==> ServerOk(ks[n], hs[n], s, PlaceAt(ks, ops, s, n))
  }

  /** A step of the loop is disciplined unless it spurns a request. */
  lemma LoopDisciplined(ks: seq<K>, hs: seq<Hist>, ops: seq<Op>, quantum: nat, servers: map<nat, bool>, i: nat)
    requires ServerRun(ks, hs, ops, quantum, servers) && i < |ops| && AllOk(ks, hs, ops, servers, i)
    ensures Disciplined(ks[i], hs[i], ops[i]) <==> !Spurns(ks, hs, ops, servers, i)
  {
    hide Run, HistoryOf, PInv, WaitsOk, PlaceAt;
    RunShape(ks, hs, ops, quantum);
    assert ServerStep(ks, hs, ops, servers, i);
    var me := ks[i].Current().id;
    if me in servers { assert ServerOk(ks[i], hs[i], me, PlaceAt(ks, ops, me, i)); }
  }

  lemma {:induction false} UnspurnedKeeps(ks: seq<K>, hs: seq<Hist>, ops: seq<Op>, quantum: nat,
                                          servers: map<nat, bool>, n: nat)
    requires ServerRun(ks, hs, ops, quantum, servers) && n <= |ops|
    requires forall i :: 0 <= i < n ==> !Spurns(ks, hs, ops, servers, i)
    ensures AllOk(ks, hs, ops, servers, n)
  {
    hide PInv, Step, HStep, Disciplined, LoopOp, ServerOk, NextPlace, Spurns;
    if n == 0 {
      InitialPInv(quantum);
      forall s | s in servers ensures ServerOk(ks[0], hs[0], s, PlaceAt(ks, ops, s, 0)) { InitialServer(quantum, s); }
    } else {
      UnspurnedKeeps(ks, hs, ops, quantum, servers, n - 1);
      UnspurnedStep(ks, hs, ops, quantum, servers, n - 1);
    }
  }

  lemma InitialServer(quantum: nat, s: nat)
    ensures ServerOk(Initial(quantum), NO_HISTORY, s, Idle)
  {
  }

  lemma UnspurnedStep(ks: seq<K>, hs: seq<Hist>, ops: seq<Op>, quantum: nat, servers: map<nat, bool>, n: nat)
    requires ServerRun(ks, hs, ops, quantum, servers) && n < |ops| && AllOk(ks, hs, ops, servers, n)
    requires !Spurns(ks, hs, ops, servers, n)
    ensures AllOk(ks, hs, ops, servers, n + 1)
  {
    hide PInv, Step, HStep, Disciplined, LoopOp, ServerOk, NextPlace, Spurns, Enabled;
    LoopDisciplined(ks, hs, ops, quantum, servers, n);
    var k, h, op := ks[n], hs[n], ops[n];
    assert ks[n + 1] == Step(k, op) && hs[n + 1] == HStep(h, k, op) && Enabled(k, op);
    ProtocolKeeps(k, h, op);
    forall s | s in servers ensures ServerOk(ks[n + 1], hs[n + 1], s, PlaceAt(ks, ops, s, n + 1)) {
      var at := PlaceAt(ks, ops, s, n);
      assert ServerOk(k, h, s, at) && ServerStep(ks, hs, ops, servers, n);
      StepWaits(k, h, op, s, servers[s], at);
      StepPlace(k, h, op, s, servers[s], at);
      ServerParts(ks[n + 1], hs[n + 1], s, NextPlace(k, op, s, at));
    }
  }

  lemma ServerParts(k: K, h: Hist, s: nat, at: Place)
    requires k.Shaped() && PlaceOk(h, s, at) && WaitsOk(k, s, at)
    ensures ServerOk(k, h, s, at)
  {
  }

  /** A run of servers following their loops and of disciplined other processes is
      disciplined, so that the request/reply theorem applies to it, if and only if no
      server with a case for notifications is sent a request of that type and goes on. */
  lemma LoopsAreDisciplined(ks: seq<K>, hs: seq<Hist>, ops: seq<Op>, quantum: nat, servers: map<nat, bool>)
    requires ServerRun(ks, hs, ops, quantum, servers)
    ensures DisciplinedRun(ks, hs, ops, quantum) <==> forall i :: 0 <= i < |ops| ==> !Spurns(ks, hs, ops, servers, i)
  {
    hide PInv, Disciplined, ServerStep, Spurns, Run, HistoryOf;
    RunShape(ks, hs, ops, quantum);
    if forall i :: 0 <= i < |ops| ==> !Spurns(ks, hs, ops, servers, i) {
      forall i | 0 <= i < |ops| ensures Disciplined(ks[i], hs[i], ops[i]) {
        UnspurnedKeeps(ks, hs, ops, quantum, servers, i);
        LoopDisciplined(ks, hs, ops, quantum, servers, i);
      }
    }
    forall i | 0 <= i < |ops| && Spurns(ks, hs, ops, servers, i) ensures !Disciplined(ks[i], hs[i], ops[i]) {
      SpurningIsUndisciplined(ks, hs, ops, servers, i);
    }
  }

  lemma RunShape(ks: seq<K>, hs: seq<Hist>, ops: seq<Op>, quantum: nat)
    requires Run(ks, ops, quantum) && HistoryOf(hs, ks, ops)
    ensures |ks| == |ops| + 1 == |hs|
  {
  }

  lemma SpurningIsUndisciplined(ks: seq<K>, hs: seq<Hist>, ops: seq<Op>, servers: map<nat, bool>, i: nat)
    requires i < |ops| < |ks| && |hs| == |ks| && ks[i].Shaped() && Spurns(ks, hs, ops, servers, i)
    ensures !Disciplined(ks[i], hs[i], ops[i])
  {
  }

  // ---- when no request has that type --------------------------------------------------------

  lemma CleanQueueStep(k: K, op: Op)
    requires k.Shaped() && CleanQueue(k) && CleanOp(op)
    ensures CleanQueue(Step(k, op))
  {
    hide Tick;
    if op.DoTick? { TickFrame(k); }
  }

  lemma {:induction false} CleanRun(ks: seq<K>, hs: seq<Hist>, ops: seq<Op>, quantum: nat, servers: map<nat, bool>,
                                    n: nat)
    requires ServerRun(ks, hs, ops, quantum, servers) && n <= |ops|
    requires forall i :: 0 <= i < |ops| ==> CleanOp(ops[i])
    ensures forall i :: 0 <= i < n ==> !Spurns(ks, hs, ops, servers, i)
    ensures CleanQueue(ks[n]) && forall s :: s in servers ==> CleanServer(hs[n], s)
  {
    hide PInv, Step, HStep, Disciplined, ServerStep, Enabled, CleanServer, CleanQueue, CleanOp, Spurns;
    if n == 0 {
      CleanStart(quantum);
    } else {
      CleanRun(ks, hs, ops, quantum, servers, n - 1);
      CleanRunStep(ks, hs, ops, quantum, servers, n - 1);
    }
  }

  lemma CleanStart(quantum: nat)
    ensures CleanQueue(Initial(quantum)) && forall s :: CleanServer(NO_HISTORY, s)
  {
  }

  lemma CleanRunStep(ks: seq<K>, hs: seq<Hist>, ops: seq<Op>, quantum: nat, servers: map<nat, bool>, n: nat)
    requires ServerRun(ks, hs, ops, quantum, servers) && n < |ops| && CleanOp(ops[n])
    requires forall i :: 0 <= i < n ==> !Spurns(ks, hs, ops, servers, i)
    requires CleanQueue(ks[n]) && forall s :: s in servers ==> CleanServer(hs[n], s)
    ensures !Spurns(ks, hs, ops, servers, n)
    ensures CleanQueue(ks[n + 1]) && forall s :: s in servers ==> CleanServer(hs[n + 1], s)
  {
    hide PInv, Step, HStep, Disciplined, Enabled, CleanQueue, CleanOp, PlaceAt;
    var k, h, op := ks[n], hs[n], ops[n];
    assert ks[n + 1] == Step(k, op) && hs[n + 1] == HStep(h, k, op) && Enabled(k, op)
      && ServerStep(ks, hs, ops, servers, n);
    UnspurnedKeeps(ks, hs, ops, quantum, servers, n);
    assert !Spurns(ks, hs, ops, servers, n);
    LoopDisciplined(ks, hs, ops, quantum, servers, n);
    CleanQueueStep(k, op);
    forall s | s in servers ensures CleanServer(hs[n + 1], s) {
      assert ServerOk(k, h, s, PlaceAt(ks, ops, s, n));
      StepPlace(k, h, op, s, servers[s], PlaceAt(ks, ops, s, n));
    }
  }

  /** When no sendrec of the run has the type of a notification, the server loops keep the
      discipline. */
  lemma NoSuchRequestNoTrouble(ks: seq<K>, hs: seq<Hist>, ops: seq<Op>, quantum: nat, servers: map<nat, bool>)
    requires ServerRun(ks, hs, ops, quantum, servers) && forall i :: 0 <= i < |ops| ==> CleanOp(ops[i])
    ensures DisciplinedRun(ks, hs, ops, quantum)
  {
    hide ServerRun, DisciplinedRun, CleanOp, Spurns;
    LoopsAreDisciplined(ks, hs, ops, quantum, servers) by { ServerRunShape(ks, hs, ops, quantum, servers); }
    ServerRunShape(ks, hs, ops, quantum, servers);
    CleanRun(ks, hs, ops, quantum, servers, |ops|);
  }

  lemma ServerRunShape(ks: seq<K>, hs: seq<Hist>, ops: seq<Op>, quantum: nat, servers: map<nat, bool>)
    requires ServerRun(ks, hs, ops, quantum, servers)
    ensures |ks| == |ops| + 1 == |hs| && forall i :: 0 <= i < |ks| ==> ks[i].Shaped()
  {
  }

  // ---- a server that spins --------------------------------------------------------------------

  /** PID 2 is a server with a case for notifications. */
  const SPINNER: map<nat, bool> := map[2 := true]

  /** A run that has come to state k, history h and place `at` of the server. */
  ghost predicate Served(ks: seq<K>, hs: seq<Hist>, ops: seq<Op>, k: K, h: Hist, at: Place) {
    && ServerRun(ks, hs, ops, 1, SPINNER) && |ks| == |ops| + 1 == |hs|
    && ks[|ops|] == k && hs[|ops|] == h && PlaceAt(ks, ops, 2, |ops|) == at
  }

  /** What may come next in such a run. */
  ghost predicate MayDo(k: K, h: Hist, at: Place, op: Op)
    requires k.Shaped()
  {
    Enabled(k, op) && if OwnOp(op) && k.Current().id == 2 then LoopOp(h, 2, true, at, op) else Disciplined(k, h, op)
  }

  lemma {:induction false} SamePlace(ks: seq<K>, ops: seq<Op>, ks': seq<K>, ops': seq<Op>, s: nat, n: nat)
    requires n <= |ops| < |ks| && (forall i :: 0 <= i < |ks| ==> ks[i].Shaped()) && |ops'| < |ks'|
    requires (forall i :: 0 <= i < |ks'| ==> ks'[i].Shaped()) && ks <= ks' && ops <= ops'
    ensures PlaceAt(ks, ops, s, n) == PlaceAt(ks', ops', s, n)
  {
    hide NextPlace;
    if n > 0 { SamePlace(ks, ops, ks', ops', s, n - 1); }
  }

  lemma ExtendServed(ks: seq<K>, hs: seq<Hist>, ops: seq<Op>, k: K, h: Hist, at: Place, op: Op)
    requires Served(ks, hs, ops, k, h, at) && k.Shaped() && MayDo(k, h, at, op)
    ensures Served(ks + [Step(k, op)], hs + [HStep(h, k, op)], ops + [op],
                   Step(k, op), HStep(h, k, op), NextPlace(k, op, 2, at))
  {
    hide Step, HStep, Enabled, LoopOp, Disciplined, NextPlace;
    var ks', hs', ops' := ks + [Step(k, op)], hs + [HStep(h, k, op)], ops + [op];
    forall i | 0 <= i < |ops'|
      ensures ks'[i].Shaped() && Enabled(ks'[i], ops'[i]) && ks'[i + 1] == Step(ks'[i], ops'[i])
              && hs'[i + 1] == HStep(hs'[i], ks'[i], ops'[i])
    {
      if i < |ops| { assert ks[i + 1] == Step(ks[i], ops[i]) && hs[i + 1] == HStep(hs[i], ks[i], ops[i]); }
    }
    forall i | 0 <= i < |ops'| ensures ServerStep(ks', hs', ops', SPINNER, i) {
      SamePlace(ks, ops, ks', ops', ks'[i].Current().id, i);
      if i < |ops| { assert ServerStep(ks, hs, ops, SPINNER, i); }
    }
    SamePlace(ks, ops, ks', ops', 2, |ops|);
  }

  /** The server has the processor and PID 1 waits for its answer to msg. */
  ghost predicate SpinState(k: K, msg: Message)
    requires k.Shaped()
  {
    && k.cur == 2 && k.Current().id == 2 && k.Current().active && k.Current().state.Running? && !k.pending[2]
    && !k.tasks[0].state.Blocked? && k.tasks[1].WaitsFor(2, PID_ANY) && k.tasks[1].reason.SendReceiving?
    && k.tasks[1].id == 1 && k.tasks[1].buf == Stamp(msg, 1)
  }

  lemma SpinStep(k: K, msg: Message, m: Message)
    requires k.Shaped() && SpinState(k, msg)
    ensures Enabled(k, DoReceive(PID_ANY, m)) && Step(k, DoReceive(PID_ANY, m)) == k
    ensures Receive(k, PID_ANY, m).1 == Some(Stamp(msg, 1))
  {
    assert FindSender(k.tasks, 2, PID_ANY, 0) == 1;
  }

  /** From two processes to the client waiting and the server running. */
  lemma AskAndSwitch(k: K, msg: Message)
    requires k.Shaped() && TwoAlive(k, 2)
    ensures var a := Step(k, DoSendRec(2, msg));
            Enabled(k, DoSendRec(2, msg)) && Enabled(a, DoTick) && SpinState(Step(a, DoTick), msg)
  {
    assert FindPid(k.tasks, 2, 0) == 2;
    var a := Step(k, DoSendRec(2, msg));
    var w := Deciding(a);
    assert a.tasks == k.tasks[1 := k.tasks[1].BlockOnSend(SendReceiving, 2, Stamp(msg, 1))] && a.cur == 1;
    TickDecides(a);
    AskedSlots(k, a, w, msg);
    NextTaskMeaning(w);
    hide NextTask, Deciding, Woken, Step;
    assert Candidate(w, 2) && !Beats(w, 0, 2);
    TickStep(a);
  }

  lemma AskedSlots(k: K, a: K, w: K, msg: Message)
    requires k.Shaped() && TwoAlive(k, 2) && a.Shaped() && w == Deciding(a) && a.cur == 1 && a.pending == k.pending
    requires a.tasks == k.tasks[1 := k.tasks[1].BlockOnSend(SendReceiving, 2, Stamp(msg, 1))]
    ensures w.cur == 1 && w.tasks[0] == k.tasks[0] && w.tasks[1] == a.tasks[1] && w.tasks[2] == k.tasks[2]
            && w.pending == k.pending
    ensures forall i :: 0 <= i < MAX_TASKS ==> (Candidate(w, i) <==> i == 0 || i == 2)
  {
  }

  /** The run up to the point where the server spins. */
  lemma SpinStart(msg: Message) returns (ks: seq<K>, hs: seq<Hist>, ops: seq<Op>, k: K, h: Hist)
    ensures Served(ks, hs, ops, k, h, Idle) && k.Shaped() && SpinState(k, msg)
  {
    hide Step, HStep, Enabled, LoopOp, Stage, TwoAlive, SpinState, Served, Initial;
    var k0 := Initial(1);
    FirstStage();
    ServedStart();
    ServedCreate(k0, NO_HISTORY);
    ExtendServed([k0], [NO_HISTORY], [], k0, NO_HISTORY, Idle, DoCreate(10, 1));
    var k1, h1 := Step(k0, DoCreate(10, 1)), HStep(NO_HISTORY, k0, DoCreate(10, 1));
    ks, hs, ops := [k0, k1], [NO_HISTORY, h1], [DoCreate(10, 1)];
    assert [k0] + [k1] == ks && [NO_HISTORY] + [h1] == hs && [] + [DoCreate(10, 1)] == ops;
    NextStage(k1, 2);
    StageCurrent(k1);
    ServedCreate(k1, h1);
    ExtendServed(ks, hs, ops, k1, h1, Idle, DoCreate(10, 1));
    var k2, h2 := Step(k1, DoCreate(10, 1)), HStep(h1, k1, DoCreate(10, 1));
    ks, hs, ops := ks + [k2], hs + [h2], ops + [DoCreate(10, 1)];
    TickToFirst(k1, k2, 2);
    ServedTick(k2, h2);
    ExtendServed(ks, hs, ops, k2, h2, Idle, DoTick);
    var k3, h3 := Step(k2, DoTick), HStep(h2, k2, DoTick);
    ks, hs, ops := ks + [k3], hs + [h3], ops + [DoTick];
    AskAndSwitch(k3, msg);
    ServedAsk(k3, h3, msg);
    ExtendServed(ks, hs, ops, k3, h3, Idle, DoSendRec(2, msg));
    var k4, h4 := Step(k3, DoSendRec(2, msg)), HStep(h3, k3, DoSendRec(2, msg));
    ks, hs, ops := ks + [k4], hs + [h4], ops + [DoSendRec(2, msg)];
    ServedTick(k4, h4);
    ExtendServed(ks, hs, ops, k4, h4, Idle, DoTick);
    k, h := Step(k4, DoTick), HStep(h4, k4, DoTick);
    ks, hs, ops := ks + [k], hs + [h], ops + [DoTick];
  }

  lemma ServedStart()
    ensures Served([Initial(1)], [NO_HISTORY], [], Initial(1), NO_HISTORY, Idle) && Initial(1).Current().id == 0
  {
  }

  lemma StageCurrent(k: K)
    requires k.Shaped() && Stage(k, 2)
    ensures k.Current().id == 0
  {
  }

  lemma ServedCreate(k: K, h: Hist)
    requires k.Shaped() && Enabled(k, DoCreate(10, 1)) && k.Current().id == 0
    ensures MayDo(k, h, Idle, DoCreate(10, 1)) && NextPlace(k, DoCreate(10, 1), 2, Idle) == Idle
  {
  }

  lemma ServedTick(k: K, h: Hist)
    requires k.Shaped()
    ensures MayDo(k, h, Idle, DoTick) && NextPlace(k, DoTick, 2, Idle) == Idle
  {
  }

  lemma ServedAsk(k: K, h: Hist, msg: Message)
    requires k.Shaped() && TwoAlive(k, 2) && Enabled(k, DoSendRec(2, msg))
    ensures MayDo(k, h, Idle, DoSendRec(2, msg)) && NextPlace(k, DoSendRec(2, msg), 2, Idle) == Idle
  {
  }

  /** The last n steps are receives of the server, each of which returns the same request of
      PID 1, unanswered; and all but the first spurn it. */
  ghost predicate Spins(ks: seq<K>, hs: seq<Hist>, ops: seq<Op>, msg: Message, m: Message, n: nat) {
    && ServerRun(ks, hs, ops, 1, SPINNER) && n <= |ops| < |ks| && |hs| == |ks|
    && forall i :: |ops| - n <= i < |ops| ==> SpinsAt(ks, hs, ops, msg, m, n, i)
  }

  ghost predicate SpinsAt(ks: seq<K>, hs: seq<Hist>, ops: seq<Op>, msg: Message, m: Message, n: nat, i: nat)
    requires i < |ops| < |ks| && |hs| == |ks|
  {
    && ks[i].Shaped() && ops[i] == DoReceive(PID_ANY, m) && SpinState(ks[i], msg)
    && Receive(ks[i], PID_ANY, m).1 == Some(Stamp(msg, 1)) && (i > |ops| - n ==> Spurns(ks, hs, ops, SPINNER, i))
  }

  /** A client that makes a request of the notification type is never answered: for every n
      there is a run of the loop in which the server receives that request n times over. */
  lemma {:induction false} SpinsForever(msg: Message, m: Message, n: nat)
    returns (ks: seq<K>, hs: seq<Hist>, ops: seq<Op>, k: K, h: Hist)
    requires msg.kind == 100
    ensures Spins(ks, hs, ops, msg, m, n) && Served(ks, hs, ops, k, h, if n == 0 then Idle else Busy)
    ensures k.Shaped() && SpinState(k, msg) && (n > 0 ==> Received(h, 2) == Some(Stamp(msg, 1)) && 2 in h.held)
  {
    hide Step, HStep, Enabled, SpinState, Receive, ServerRun;
    if n == 0 {
      ks, hs, ops, k, h := SpinStart(msg);
    } else {
      var ks0, hs0, ops0, k0, h0 := SpinsForever(msg, m, n - 1);
      var at := if n == 1 then Idle else Busy;
      var op := DoReceive(PID_ANY, m);
      SpinStep(k0, msg, m);
      SpinMayDo(k0, h0, at, msg, m);
      ExtendServed(ks0, hs0, ops0, k0, h0, at, op);
      ks, hs, ops, k, h := ks0 + [Step(k0, op)], hs0 + [HStep(h0, k0, op)], ops0 + [op],
        Step(k0, op), HStep(h0, k0, op);
      SpinRecord(ks0, hs0, ops0, k0, h0, at, msg, m);
      forall i | |ops| - n <= i < |ops| ensures SpinsAt(ks, hs, ops, msg, m, n, i) {
        if i < |ops0| {
          assert SpinsAt(ks0, hs0, ops0, msg, m, n - 1, i);
        } else {
          SpinSpurns(ks, hs, ops, k0, h0, msg, m, n);
        }
      }
    }
  }

  lemma SpinMayDo(k: K, h: Hist, at: Place, msg: Message, m: Message)
    requires k.Shaped() && SpinState(k, msg) && Enabled(k, DoReceive(PID_ANY, m)) && msg.kind == MSG_IRQ_NOTIFY
    requires at.Busy? ==> Received(h, 2) == Some(Stamp(msg, 1))
    ensures MayDo(k, h, at, DoReceive(PID_ANY, m)) && NextPlace(k, DoReceive(PID_ANY, m), 2, at) == Busy
  {
  }

  lemma SpinRecord(ks: seq<K>, hs: seq<Hist>, ops: seq<Op>, k: K, h: Hist, at: Place, msg: Message, m: Message)
    requires Served(ks, hs, ops, k, h, at) && k.Shaped() && SpinState(k, msg)
    ensures var r := HStep(h, k, DoReceive(PID_ANY, m)); Received(r, 2) == Some(Stamp(msg, 1)) && 2 in r.held
  {
    HistoryInvariant(ks, hs, ops, 1, |ops|);
    assert FindSender(k.tasks, 2, PID_ANY, 0) == 1;
    assert TaskOk(k.tasks[1], h);
  }

  lemma SpinSpurns(ks: seq<K>, hs: seq<Hist>, ops: seq<Op>, k: K, h: Hist, msg: Message, m: Message, n: nat)
    requires 0 < |ops| < |ks| && |hs| == |ks| && 0 < n <= |ops| && ks[|ops| - 1] == k && hs[|ops| - 1] == h
             && k.Shaped()
    requires ops[|ops| - 1] == DoReceive(PID_ANY, m) && SpinState(k, msg) && msg.kind == MSG_IRQ_NOTIFY
    requires Receive(k, PID_ANY, m).1 == Some(Stamp(msg, 1))
             && (n > 1 ==> Received(h, 2) == Some(Stamp(msg, 1)) && 2 in h.held)
    ensures SpinsAt(ks, hs, ops, msg, m, n, |ops| - 1)
  {
    hide Receive;
  }
}
