/** The client/server protocol of include/server.h: clients use sendrec only, and a
    server replies to each request before it receives again.  Under that discipline
    every request is received exactly once and every answer belongs to its request. */
module IpcProtocol {
  import opened Kernel
  import opened KernelSafety
  import opened IpcHistory

  /** What a disciplined process does.  PID 0 is only ever a client. */
  ghost predicate Disciplined(k: K, h: Hist, op: Op)
    requires k.Shaped()
  {
    var me := k.Current().id;
    && (op.DoReceive? ==> me != 0 && me !in h.held)
    && (op.DoReply? ==> me != 0 && (op.dest == 0 || (me in h.held && h.held[me].client == op.dest)))
    && (op.DoSend? ==> me == 0)
  }

  /** Process p is alive. */
  ghost predicate Alive(k: K, p: nat)
    requires k.Shaped()
  {
    exists i :: 0 <= i < MAX_TASKS && k.tasks[i].active && k.tasks[i].id == p
  }

  /** The request of a waiting client is still queued, or its server holds it. */
  ghost predicate QueuedOrHeld(k: K, h: Hist, t: Task)
    requires k.Shaped() && t.id in h.open
  {
    var c := h.open[t.id];
    || c.got == []
    || (c.got == [Handed(t.sendTo, c.msg)]
        && (Alive(k, t.sendTo) ==> t.sendTo in h.held && h.held[t.sendTo] == Held(t.id, c.no)))
  }

  /** A sendrec that was received once, by its server, and answered once, by its server,
      while the server held exactly this request. */
  ghost predicate Served(c: Call) {
    c.kind.SendReceiving? ==>
      && c.got == [Handed(c.peer, c.msg)]
      && |c.rep| == 1 && c.rep[0].server == c.peer && c.rep[0].forNo == c.no && c.rep[0].m.sender == c.peer
  }

  ghost predicate ClientOk(k: K, h: Hist, t: Task)
    requires k.Shaped()
  {
    t.active && t.id != 0 ==>
      && (t.state.Blocked? ==> !t.reason.Sending?)
      && (t.AwaitsReply() ==> t.id in h.open && t.sendTo < k.nextPid && QueuedOrHeld(k, h, t))
      && (!t.state.Blocked? && t.id in h.open ==>
            Served(h.open[t.id]) && (h.open[t.id].kind.SendReceiving? ==> t.buf == h.open[t.id].rep[0].m))
  }

  /** A held request belongs to a client that still waits for this server's reply. */
  ghost predicate HeldOk(k: K, h: Hist, s: nat)
    requires k.Shaped() && s in h.held
  {
    var c := h.held[s];
    && s < k.nextPid && c.client < k.nextPid
    && forall i :: 0 <= i < MAX_TASKS && k.tasks[i].active ==>
         && (k.tasks[i].id == c.client && c.client != 0 ==>
               && k.tasks[i].AwaitsReply() && k.tasks[i].sendTo == s
               && c.client in h.open && h.open[c.client].no == c.no
               && h.open[c.client].got == [Handed(s, h.open[c.client].msg)])
         && (k.tasks[i].id == s ==> !(k.tasks[i].state.Blocked? && k.tasks[i].reason.Receiving?))
  }

  ghost predicate PInv(k: K, h: Hist) {
    && HInv(k, h)
    && (forall i :: 0 <= i < MAX_TASKS ==> ClientOk(k, h, k.tasks[i]))
    && (forall s :: s in h.held ==> HeldOk(k, h, s))
    && (forall i :: 0 <= i < |h.closed| && h.closed[i].pid != 0 ==> Served(h.closed[i]))
  }

  lemma InitialPInv(quantum: nat)
    ensures PInv(Initial(quantum), NO_HISTORY)
  {
    InitialInv(quantum);
  }

  /** Steps that touch no record: tasks keep their waits, end, or appear. */
  lemma QuietProtocol(k: K, h: Hist, r: K)
    requires PInv(k, h) && HInv(r, h) && k.nextPid <= r.nextPid
    requires forall i :: 0 <= i < MAX_TASKS ==>
      || SameCalls(k.tasks[i], r.tasks[i])
      || (r.tasks[i].id >= k.nextPid && !r.tasks[i].state.Blocked?)
    ensures PInv(r, h)
  {
    hide Identified, OneRunning, NoMissedRendezvous, NotesFromKernel, TaskOk;
    forall i | 0 <= i < MAX_TASKS ensures ClientOk(r, h, r.tasks[i]) {
      var t := k.tasks[i];
      assert ClientOk(k, h, t);
      if r.tasks[i].active && t.id != 0 && SameCalls(t, r.tasks[i]) && t.AwaitsReply() && Alive(r, t.sendTo) {
        StillAlive(k, r, t.sendTo);
      }
    }
    forall s | s in h.held ensures HeldOk(r, h, s) { assert HeldOk(k, h, s); }
  }

  lemma StillAlive(k: K, r: K, p: nat)
    requires k.Shaped() && r.Shaped() && p < k.nextPid && Alive(r, p)
    requires forall i :: 0 <= i < MAX_TASKS ==> SameCalls(k.tasks[i], r.tasks[i]) || r.tasks[i].id >= k.nextPid
    ensures Alive(k, p)
  {
    var i :| 0 <= i < MAX_TASKS && r.tasks[i].active && r.tasks[i].id == p;
    assert k.tasks[i].active && k.tasks[i].id == p;
  }

  lemma AliveSame(k: K, r: K)
    requires k.Shaped() && r.Shaped()
    requires forall i :: 0 <= i < MAX_TASKS ==> r.tasks[i].active == k.tasks[i].active && r.tasks[i].id == k.tasks[i].id
    ensures forall p :: Alive(r, p) <==> Alive(k, p)
  {
    forall p ensures Alive(r, p) <==> Alive(k, p) {
      if Alive(k, p) {
        var i :| 0 <= i < MAX_TASKS && k.tasks[i].active && k.tasks[i].id == p;
        assert r.tasks[i].active && r.tasks[i].id == p;
      }
      if Alive(r, p) {
        var i :| 0 <= i < MAX_TASKS && r.tasks[i].active && r.tasks[i].id == p;
        assert k.tasks[i].active && k.tasks[i].id == p;
      }
    }
  }

  /** Closing the previous call of the current task. */
  lemma ClosedServed(k: K, h: Hist, kind: Reason, peer: nat, msg: Message, got: seq<Handed>)
    requires PInv(k, h) && !k.Current().Parked()
    ensures var h1 := Begin(h, kind, k.Current().id, peer, msg, got);
            forall i :: 0 <= i < |h1.closed| && h1.closed[i].pid != 0 ==> Served(h1.closed[i])
  {
    assert ClientOk(k, h, k.Current());
  }

  /** Nobody holds a request of a task that is not waiting for an answer. */
  lemma NotAClient(k: K, h: Hist, s: nat, i: nat)
    requires PInv(k, h) && s in h.held && i < MAX_TASKS && k.tasks[i].active && k.tasks[i].id != 0
             && !k.tasks[i].AwaitsReply()
    ensures h.held[s].client != k.tasks[i].id
  {
    assert HeldOk(k, h, s);
  }

  /** A process blocked in receive holds nothing. */
  lemma ReceiverHoldsNothing(k: K, h: Hist, i: nat)
    requires PInv(k, h) && i < MAX_TASKS && k.tasks[i].active && k.tasks[i].state.Blocked?
             && k.tasks[i].reason.Receiving?
    ensures k.tasks[i].id !in h.held
  {
    assert k.tasks[i].id in h.held ==> HeldOk(k, h, k.tasks[i].id);
  }

  lemma CurrentIsLive(k: K)
    requires Inv(k) && !k.Current().Parked()
    ensures k.Current().active
  {
  }

  /** A task whose record and whose server's held request did not change. */
  lemma ClientFrame(k: K, h: Hist, r: K, h2: Hist, t: Task)
    requires k.Shaped() && r.Shaped() && ClientOk(k, h, t) && k.nextPid == r.nextPid
    requires forall p :: Alive(r, p) <==> Alive(k, p)
    requires t.id in h2.open <==> t.id in h.open
    requires t.id in h.open ==> h2.open[t.id] == h.open[t.id]
    requires t.active && t.id != 0 && t.AwaitsReply() && h.open[t.id].got != [] && Alive(k, t.sendTo) ==>
      t.sendTo in h2.held && h2.held[t.sendTo] == h.held[t.sendTo]
    ensures ClientOk(r, h2, t)
  {
  }

  /** A held request whose client and server were not disturbed. */
  lemma HeldFrame(k: K, h: Hist, r: K, h2: Hist, s: nat)
    requires k.Shaped() && r.Shaped() && s in h.held && HeldOk(k, h, s) && k.nextPid == r.nextPid
    requires s in h2.held && h2.held[s] == h.held[s]
    requires forall i :: 0 <= i < MAX_TASKS && r.tasks[i].active ==>
      && k.tasks[i].active && r.tasks[i].id == k.tasks[i].id
      && (k.tasks[i].id == h.held[s].client && k.tasks[i].id != 0 ==>
            && r.tasks[i] == k.tasks[i] && k.tasks[i].id in h2.open && h2.open[k.tasks[i].id] == h.open[k.tasks[i].id])
      && (k.tasks[i].id == s ==> r.tasks[i]
                                 == k.tasks[i] || !(r.tasks[i].state.Blocked? && r.tasks[i].reason.Receiving?))
    ensures HeldOk(r, h2, s)
  {
  }

  lemma AssembleProtocol(r: K, h: Hist)
    requires HInv(r, h)
    requires forall i :: 0 <= i < MAX_TASKS ==> ClientOk(r, h, r.tasks[i])
    requires forall s :: s in h.held ==> HeldOk(r, h, s)
    requires forall i :: 0 <= i < |h.closed| && h.closed[i].pid != 0 ==> Served(h.closed[i])
    ensures PInv(r, h)
  {
  }

  // ---- one lemma per operation ----------------------------------------------------

  lemma GetShape(k: K, h: Hist)
    requires PInv(k, h)
    ensures k.Shaped() && Inv(k) && HInv(k, h)
  {
  }

  lemma GetTask(k: K, h: Hist, i: nat)
    requires PInv(k, h) && i < MAX_TASKS
    ensures k.Shaped() && ClientOk(k, h, k.tasks[i]) && TaskOk(k.tasks[i], h)
  {
  }

  lemma GetHeld(k: K, h: Hist, s: nat)
    requires PInv(k, h) && s in h.held
    ensures k.Shaped() && HeldOk(k, h, s)
  {
  }

  /** PID 0 sends: no client record changes except through a receiver, which is not
      waiting for an answer. */
  lemma SendClient(k: K, h: Hist, dest: nat, msg: Message, i: nat)
    requires PInv(k, h) && k.Shaped() && !k.Current().Parked() && k.Current().id == 0 && i < MAX_TASKS
    requires FindPid(k.tasks, dest, 0) < MAX_TASKS
    ensures ClientOk(Send(k, dest, msg), HSend(h, k, dest, msg), Send(k, dest, msg).tasks[i])
  {
    hide PInv, HInv, Inv, FindPid;
    GetShape(k, h);
    GetTask(k, h, i);
    CurrentIsLive(k);
    var r, h2 := Send(k, dest, msg), HSend(h, k, dest, msg);
    var d := FindPid(k.tasks, dest, 0);
    AliveSame(k, r);
    if k.tasks[i].active {
      LiveDistinct(k, i, d);
      LiveDistinct(k, i, k.cur);
      if i != d && i != k.cur { ClientFrame(k, h, r, h2, k.tasks[i]); }
    }
  }

  lemma SendHeld(k: K, h: Hist, dest: nat, msg: Message, s: nat)
    requires PInv(k, h) && k.Shaped() && !k.Current().Parked() && k.Current().id == 0 && s in h.held
    requires FindPid(k.tasks, dest, 0) < MAX_TASKS
    ensures HSend(h, k, dest, msg).held == h.held
    ensures HeldOk(Send(k, dest, msg), HSend(h, k, dest, msg), s)
  {
    hide PInv, HInv, Inv, FindPid;
    GetShape(k, h);
    GetHeld(k, h, s);
    var d := FindPid(k.tasks, dest, 0);
    GetTask(k, h, d);
    forall i | 0 <= i < MAX_TASKS && k.tasks[i].active
      ensures k.tasks[i].id == dest <==> i == d
    {
      LiveDistinct(k, i, d);
    }
    HeldFrame(k, h, Send(k, dest, msg), HSend(h, k, dest, msg), s);
  }

  lemma SendProtocol(k: K, h: Hist, dest: nat, msg: Message)
    requires PInv(k, h) && !k.Current().Parked() && k.Current().id == 0
    ensures PInv(Send(k, dest, msg), HSend(h, k, dest, msg))
  {
    hide HInv, ClientOk, HeldOk, Served;
    GetShape(k, h);
    SendHistory(k, h, dest, msg);
    if FindPid(k.tasks, dest, 0) < MAX_TASKS {
      ClosedServed(k, h, Sending, dest, Stamp(msg, 0), []);
      ClosedServed(k, h, Sending, dest, Stamp(msg, 0), [Handed(dest, Stamp(msg, 0))]);
      forall i | 0 <= i < MAX_TASKS
        ensures ClientOk(Send(k, dest, msg), HSend(h, k, dest, msg), Send(k, dest, msg).tasks[i])
      {
        SendClient(k, h, dest, msg, i);
      }
      forall s | s in HSend(h, k, dest, msg).held ensures HeldOk(Send(k, dest, msg), HSend(h, k, dest, msg), s) {
        SendHeld(k, h, dest, msg, s);
      }
      AssembleProtocol(Send(k, dest, msg), HSend(h, k, dest, msg));
    }
  }

  /** A request that finds its server busy is queued; one that finds it receiving is
      taken at once, and the server then holds it. */
  lemma SendRecClient(k: K, h: Hist, dest: nat, msg: Message, i: nat)
    requires PInv(k, h) && k.Shaped() && !k.Current().Parked() && i < MAX_TASKS
    requires FindPid(k.tasks, dest, 0) < MAX_TASKS
    ensures ClientOk(SendRec(k, dest, msg), HSendRec(h, k, dest, msg), SendRec(k, dest, msg).tasks[i])
  {
    hide PInv, HInv, Inv, FindPid, Complete, Holding;
    GetShape(k, h);
    GetTask(k, h, i);
    CurrentIsLive(k);
    var r, h2 := SendRec(k, dest, msg), HSendRec(h, k, dest, msg);
    var d := FindPid(k.tasks, dest, 0);
    PidBelowNext(k, d);
    AliveSame(k, r);
    if k.tasks[i].active {
      LiveDistinct(k, i, d);
      LiveDistinct(k, i, k.cur);
      LiveDistinct(k, d, k.cur);
      if i != d && i != k.cur { SendRecBystander(k, h, dest, msg, i); }
    }
  }

  lemma SendRecBystander(k: K, h: Hist, dest: nat, msg: Message, i: nat)
    requires PInv(k, h) && k.Shaped() && !k.Current().Parked() && i < MAX_TASKS && k.tasks[i].active
    requires FindPid(k.tasks, dest, 0) < MAX_TASKS && i != FindPid(k.tasks, dest, 0) && i != k.cur
    ensures ClientOk(SendRec(k, dest, msg), HSendRec(h, k, dest, msg), k.tasks[i])
  {
    hide PInv, HInv, Inv, FindPid, Complete, Holding;
    GetShape(k, h);
    GetTask(k, h, i);
    CurrentIsLive(k);
    var r, h2 := SendRec(k, dest, msg), HSendRec(h, k, dest, msg);
    var d := FindPid(k.tasks, dest, 0);
    AliveSame(k, r);
    LiveDistinct(k, i, d);
    LiveDistinct(k, i, k.cur);
    LiveDistinct(k, d, k.cur);
    if k.tasks[d].Accepts(k.Current().id) {
      ReceiverHoldsNothing(k, h, d);
      assert Alive(k, dest);
    }
    ClientFrame(k, h, r, h2, k.tasks[i]);
  }

  lemma PidBelowNext(k: K, i: nat)
    requires Inv(k) && i < MAX_TASKS && k.tasks[i].active
    ensures k.tasks[i].id < k.nextPid
  {
  }

  lemma SendRecHeld(k: K, h: Hist, dest: nat, msg: Message, s: nat)
    requires PInv(k, h) && k.Shaped() && !k.Current().Parked() && s in HSendRec(h, k, dest, msg).held
    requires FindPid(k.tasks, dest, 0) < MAX_TASKS
    ensures HeldOk(SendRec(k, dest, msg), HSendRec(h, k, dest, msg), s)
  {
    hide PInv, HInv, Inv, FindPid;
    GetShape(k, h);
    CurrentIsLive(k);
    var r, h2 := SendRec(k, dest, msg), HSendRec(h, k, dest, msg);
    var d, me := FindPid(k.tasks, dest, 0), k.Current();
    PidBelowNext(k, d);
    PidBelowNext(k, k.cur);
    forall i | 0 <= i < MAX_TASKS && k.tasks[i].active
      ensures (k.tasks[i].id == dest <==> i == d) && (k.tasks[i].id == me.id <==> i == k.cur)
    {
      LiveDistinct(k, i, d);
      LiveDistinct(k, i, k.cur);
    }
    if k.tasks[d].Accepts(me.id) { ReceiverHoldsNothing(k, h, d); }
    if s in h.held && !(k.tasks[d].Accepts(me.id) && s == dest) {
      GetHeld(k, h, s);
      if me.id != 0 { NotAClient(k, h, s, k.cur); }
      if dest != 0 && k.tasks[d].Accepts(me.id) { NotAClient(k, h, s, d); }
      HeldFrame(k, h, r, h2, s);
    }
  }

  lemma SendRecProtocol(k: K, h: Hist, dest: nat, msg: Message)
    requires PInv(k, h) && !k.Current().Parked()
    ensures PInv(SendRec(k, dest, msg), HSendRec(h, k, dest, msg))
  {
    hide HInv, ClientOk, HeldOk, Served;
    GetShape(k, h);
    SendRecHistory(k, h, dest, msg);
    var me := k.Current().id;
    if FindPid(k.tasks, dest, 0) < MAX_TASKS {
      ClosedServed(k, h, SendReceiving, dest, Stamp(msg, me), []);
      ClosedServed(k, h, SendReceiving, dest, Stamp(msg, me), [Handed(dest, Stamp(msg, me))]);
      forall i | 0 <= i < MAX_TASKS
        ensures ClientOk(SendRec(k, dest, msg), HSendRec(h, k, dest, msg), SendRec(k, dest, msg).tasks[i])
      {
        SendRecClient(k, h, dest, msg, i);
      }
      forall s | s in HSendRec(h, k, dest, msg).held
        ensures HeldOk(SendRec(k, dest, msg), HSendRec(h, k, dest, msg), s)
      {
        SendRecHeld(k, h, dest, msg, s);
      }
      AssembleProtocol(SendRec(k, dest, msg), HSendRec(h, k, dest, msg));
    }
  }

  // ---- receive ----

  lemma ReceiveClient(k: K, h: Hist, from: nat, msg: Message, i: nat)
    requires PInv(k, h) && k.Shaped() && !k.Current().Parked() && i < MAX_TASKS
    requires k.Current().id != 0 && k.Current().id !in h.held
    ensures ClientOk(Receive(k, from, msg).0, HReceive(h, k, from, msg), Receive(k, from, msg).0.tasks[i])
  {
    hide PInv, HInv, Inv, FindSender;
    GetShape(k, h);
    GetTask(k, h, i);
    CurrentIsLive(k);
    var r, h2 := Receive(k, from, msg).0, HReceive(h, k, from, msg);
    var me := k.Current();
    var s := FindSender(k.tasks, me.id, from, 0);
    AliveSame(k, r);
    if !k.pending[me.id % MAX_TASKS] && s < MAX_TASKS {
      TakenClient(k, h, from, msg, i);
    } else if k.tasks[i].active {
      LiveDistinct(k, i, k.cur);
      if i != k.cur { ClientFrame(k, h, r, h2, k.tasks[i]); }
    }
  }

  /** Taking a queued request: no earlier request of this server is outstanding, so this
      one had not been handed over before. */
  lemma TakenClient(k: K, h: Hist, from: nat, msg: Message, i: nat)
    requires PInv(k, h) && k.Shaped() && !k.Current().Parked() && i < MAX_TASKS
    requires k.Current().id != 0 && k.Current().id !in h.held
    requires !k.pending[k.Current().id % MAX_TASKS] && FindSender(k.tasks, k.Current().id, from, 0) < MAX_TASKS
    ensures ClientOk(Receive(k, from, msg).0, HReceive(h, k, from, msg), Receive(k, from, msg).0.tasks[i])
  {
    hide PInv, HInv, Inv, FindSender;
    GetShape(k, h);
    GetTask(k, h, i);
    CurrentIsLive(k);
    var r, h2 := Receive(k, from, msg).0, HReceive(h, k, from, msg);
    var me := k.Current();
    var s := FindSender(k.tasks, me.id, from, 0);
    AliveSame(k, r);
    assert Alive(k, me.id);
    GetTask(k, h, s);
    LiveDistinct(k, s, k.cur);
    if k.tasks[i].active {
      LiveDistinct(k, i, k.cur);
      LiveDistinct(k, i, s);
      if i == s {
        assert k.tasks[s].id != 0 ==> Stamp(k.tasks[s].buf, k.tasks[s].id) == k.tasks[s].buf;
      } else if i != k.cur {
        ClientFrame(k, h, r, h2, k.tasks[i]);
      }
    }
  }

  lemma ReceiveHeld(k: K, h: Hist, from: nat, msg: Message, s: nat)
    requires PInv(k, h) && k.Shaped() && !k.Current().Parked() && s in HReceive(h, k, from, msg).held
    requires k.Current().id != 0 && k.Current().id !in h.held
    ensures HeldOk(Receive(k, from, msg).0, HReceive(h, k, from, msg), s)
  {
    hide PInv, HInv, Inv, FindSender;
    GetShape(k, h);
    CurrentIsLive(k);
    var r, h2 := Receive(k, from, msg).0, HReceive(h, k, from, msg);
    var me := k.Current();
    var q := FindSender(k.tasks, me.id, from, 0);
    PidBelowNext(k, k.cur);
    if q < MAX_TASKS {
      PidBelowNext(k, q);
      GetTask(k, h, q);
      LiveDistinct(k, q, k.cur);
      forall i | 0 <= i < MAX_TASKS && k.tasks[i].active
        ensures k.tasks[i].id == k.tasks[q].id <==> i == q
      {
        LiveDistinct(k, i, q);
      }
    }
    forall i | 0 <= i < MAX_TASKS && k.tasks[i].active
      ensures k.tasks[i].id == me.id <==> i == k.cur
    {
      LiveDistinct(k, i, k.cur);
    }
    if s != me.id {
      GetHeld(k, h, s);
      NotAClient(k, h, s, k.cur);
      HeldFrame(k, h, r, h2, s);
    }
  }

  lemma ReceiveProtocol(k: K, h: Hist, from: nat, msg: Message)
    requires PInv(k, h) && !k.Current().Parked() && k.Current().id != 0 && k.Current().id !in h.held
    ensures PInv(Receive(k, from, msg).0, HReceive(h, k, from, msg))
  {
    hide HInv, ClientOk, HeldOk, Served;
    GetShape(k, h);
    ReceiveHistory(k, h, from, msg);
    var r, h2 := Receive(k, from, msg).0, HReceive(h, k, from, msg);
    ClosedServed(k, h, Receiving, from, msg, []);
    assert h2.closed == Begin(h, Receiving, k.Current().id, from, msg, []).closed;
    forall i | 0 <= i < MAX_TASKS ensures ClientOk(r, h2, r.tasks[i]) { ReceiveClient(k, h, from, msg, i); }
    forall s | s in h2.held ensures HeldOk(r, h2, s) { ReceiveHeld(k, h, from, msg, s); }
    AssembleProtocol(r, h2);
  }

  // ---- reply ----

  lemma ReplyClient(k: K, h: Hist, dest: nat, msg: Message, i: nat)
    requires PInv(k, h) && k.Shaped() && Disciplined(k, h, DoReply(dest, msg)) && i < MAX_TASKS
    ensures ClientOk(Reply(k, dest, msg), HReply(h, k, dest, msg), Reply(k, dest, msg).tasks[i])
  {
    hide PInv, HInv, Inv, FindPid;
    GetShape(k, h);
    GetTask(k, h, i);
    var r, h2 := Reply(k, dest, msg), HReply(h, k, dest, msg);
    var d, me := FindPid(k.tasks, dest, 0), k.Current();
    if me.id in h.held { GetHeld(k, h, me.id); }
    AliveSame(k, r);
    if k.tasks[i].active {
      if d < MAX_TASKS { LiveDistinct(k, i, d); }
      if i != d { ClientFrame(k, h, r, h2, k.tasks[i]); }
    }
  }

  lemma ReplyHeld(k: K, h: Hist, dest: nat, msg: Message, s: nat)
    requires PInv(k, h) && k.Shaped() && Disciplined(k, h, DoReply(dest, msg)) && s in HReply(h, k, dest, msg).held
    ensures HeldOk(Reply(k, dest, msg), HReply(h, k, dest, msg), s)
  {
    hide PInv, HInv, Inv, FindPid;
    GetShape(k, h);
    var r, h2 := Reply(k, dest, msg), HReply(h, k, dest, msg);
    var d, me := FindPid(k.tasks, dest, 0), k.Current();
    GetHeld(k, h, s);
    if me.id in h.held { GetHeld(k, h, me.id); }
    if d < MAX_TASKS {
      forall i | 0 <= i < MAX_TASKS && k.tasks[i].active
        ensures k.tasks[i].id == dest <==> i == d
      {
        LiveDistinct(k, i, d);
      }
    }
    HeldFrame(k, h, r, h2, s);
  }

  lemma ReplyProtocol(k: K, h: Hist, dest: nat, msg: Message)
    requires PInv(k, h) && Disciplined(k, h, DoReply(dest, msg))
    ensures PInv(Reply(k, dest, msg), HReply(h, k, dest, msg))
  {
    hide HInv, ClientOk, HeldOk, Served, Disciplined;
    GetShape(k, h);
    ReplyHistory(k, h, dest, msg);
    var r, h2 := Reply(k, dest, msg), HReply(h, k, dest, msg);
    forall i | 0 <= i < MAX_TASKS ensures ClientOk(r, h2, r.tasks[i]) { ReplyClient(k, h, dest, msg, i); }
    forall s | s in h2.held ensures HeldOk(r, h2, s) { ReplyHeld(k, h, dest, msg, s); }
    AssembleProtocol(r, h2);
  }

  // ---- notify, ticks and the rest ----

  lemma NotifyClient(k: K, h: Hist, dest: nat, msg: Message, i: nat)
    requires PInv(k, h) && k.Shaped() && i < MAX_TASKS
    ensures ClientOk(Notify(k, dest, msg), HNotify(h, k, dest, msg), Notify(k, dest, msg).tasks[i])
  {
    hide PInv, HInv, Inv, FindPid;
    GetShape(k, h);
    GetTask(k, h, i);
    var r, h2 := Notify(k, dest, msg), HNotify(h, k, dest, msg);
    var d := FindPid(k.tasks, dest, 0);
    AliveSame(k, r);
    if k.tasks[i].active {
      if d < MAX_TASKS { LiveDistinct(k, i, d); }
      if i != d { ClientFrame(k, h, r, h2, k.tasks[i]); }
    }
  }

  lemma NotifyHeld(k: K, h: Hist, dest: nat, msg: Message, s: nat)
    requires PInv(k, h) && k.Shaped() && s in h.held
    ensures HNotify(h, k, dest, msg).held == h.held
    ensures HeldOk(Notify(k, dest, msg), HNotify(h, k, dest, msg), s)
  {
    hide PInv, HInv, Inv, FindPid;
    GetShape(k, h);
    GetHeld(k, h, s);
    var d := FindPid(k.tasks, dest, 0);
    if d < MAX_TASKS {
      forall i | 0 <= i < MAX_TASKS && k.tasks[i].active
        ensures k.tasks[i].id == dest <==> i == d
      {
        LiveDistinct(k, i, d);
      }
    }
    HeldFrame(k, h, Notify(k, dest, msg), HNotify(h, k, dest, msg), s);
  }

  lemma NotifyProtocol(k: K, h: Hist, dest: nat, msg: Message)
    requires PInv(k, h)
    ensures PInv(Notify(k, dest, msg), HNotify(h, k, dest, msg))
  {
    hide HInv, ClientOk, HeldOk, Served;
    GetShape(k, h);
    NotifyHistory(k, h, dest, msg);
    var r, h2 := Notify(k, dest, msg), HNotify(h, k, dest, msg);
    forall i | 0 <= i < MAX_TASKS ensures ClientOk(r, h2, r.tasks[i]) { NotifyClient(k, h, dest, msg, i); }
    forall s | s in h2.held ensures HeldOk(r, h2, s) { NotifyHeld(k, h, dest, msg, s); }
    AssembleProtocol(r, h2);
  }

  lemma TickProtocol(k: K, h: Hist)
    requires PInv(k, h)
    ensures PInv(Tick(k), h)
  {
    TickHistory(k, h);
    TickFrame(k);
    TickBuffers(k);
    forall i | 0 <= i < MAX_TASKS ensures SameCalls(k.tasks[i], Tick(k).tasks[i]) {
      if k.tasks[i].state.Blocked? && i > 0 { TickKeepsBlocked(k, i); }
    }
    hide Tick, HInv, ClientOk, HeldOk;
    QuietProtocol(k, h, Tick(k));
  }

  lemma TickBuffers(k: K)
    requires k.Shaped()
    ensures forall i :: 0 <= i < MAX_TASKS ==> Tick(k).tasks[i].buf == k.tasks[i].buf
  {
    hide Reschedule;
    var k1 := k.(now := k.now + 1);
    var me := k1.Current();
    RescheduleBuffers(k1);
    RescheduleBuffers(k1.(tasks := k1.tasks[k1.cur := me.(ticksLeft := if me.ticksLeft > 0 then me.ticksLeft - 1
        else 0)]));
  }

  lemma RescheduleBuffers(k: K)
    requires k.Shaped()
    ensures forall i :: 0 <= i < MAX_TASKS ==> Reschedule(k).tasks[i].buf == k.tasks[i].buf
  {
    hide NextTask;
  }

  lemma OtherProtocol(k: K, h: Hist, op: Op)
    requires PInv(k, h) && Enabled(k, op)
    requires op.DoSleep? || op.DoYield? || op.DoExit? || op.DoLock? || op.DoUnlock? || op.DoPreemptive? || op.DoKill?
    ensures PInv(Step(k, op), h)
  {
    hide HInv, ClientOk, HeldOk;
    GetShape(k, h);
    OtherHistory(k, h, op);
    hide Inv;
    QuietProtocol(k, h, Step(k, op));
  }

  lemma CreateProtocol(k: K, h: Hist, priority: nat, quantum: nat)
    requires PInv(k, h) && !k.Current().Parked() && k.nextPid < PID_ANY
    ensures PInv(Create(k, priority, quantum), h)
  {
    hide HInv, ClientOk, HeldOk;
    GetShape(k, h);
    CreateHistory(k, h, priority, quantum);
    hide Inv;
    QuietProtocol(k, h, Create(k, priority, quantum));
  }

  lemma ProtocolKeeps(k: K, h: Hist, op: Op)
    requires PInv(k, h) && Enabled(k, op) && Disciplined(k, h, op)
    ensures PInv(Step(k, op), HStep(h, k, op))
  {
    hide PInv, Send, SendRec, Receive, Reply, Notify, Tick, Create, Kill, HSend, HSendRec, HReceive, HReply, HNotify;
    match op
    case DoSend(dest, msg) => SendProtocol(k, h, dest, msg);
    case DoReceive(from, msg) => ReceiveProtocol(k, h, from, msg);
    case DoSendRec(dest, msg) => SendRecProtocol(k, h, dest, msg);
    case DoReply(dest, msg) => ReplyProtocol(k, h, dest, msg);
    case DoNotify(dest, msg) => NotifyProtocol(k, h, dest, msg);
    case DoTick => TickProtocol(k, h);
    case DoCreate(priority, quantum) => CreateProtocol(k, h, priority, quantum);
    case _ => OtherProtocol(k, h, op);
  }

  // ---- whole runs -----------------------------------------------------------------

  ghost predicate DisciplinedRun(ks: seq<K>, hs: seq<Hist>, ops: seq<Op>, quantum: nat) {
    && Run(ks, ops, quantum) && HistoryOf(hs, ks, ops)
    && forall i :: 0 <= i < |ops| ==> Disciplined(ks[i], hs[i], ops[i])
  }

  lemma {:induction false} ProtocolInvariant(ks: seq<K>, hs: seq<Hist>, ops: seq<Op>, quantum: nat, n: nat)
    requires DisciplinedRun(ks, hs, ops, quantum) && n < |ks|
    ensures PInv(ks[n], hs[n])
  {
    hide PInv;
    if n == 0 {
      InitialPInv(quantum);
    } else {
      ProtocolInvariant(ks, hs, ops, quantum, n - 1);
      assert ks[(n - 1) + 1] == Step(ks[n - 1], ops[n - 1])
        && hs[(n - 1) + 1] == HStep(hs[n - 1], ks[n - 1], ops[n - 1]);
      ProtocolKeeps(ks[n - 1], hs[n - 1], ops[n - 1]);
    }
  }

  /** In every disciplined run with any number of clients and servers, a sendrec that
      returned was received exactly once, unmodified, by the process it named, and
      carries the one reply that process made while it held exactly this request. */
  lemma RequestReplyTheorem(ks: seq<K>, hs: seq<Hist>, ops: seq<Op>, quantum: nat, n: nat, c: Call)
    requires DisciplinedRun(ks, hs, ops, quantum) && n < |ks| && ks[n].Shaped()
    requires Returned(ks[n], hs[n], c) && c.pid != 0 && c.kind.SendReceiving?
    ensures c.got == [Handed(c.peer, c.msg)]
    ensures |c.rep| == 1 && c.rep[0].server == c.peer && c.rep[0].forNo == c.no
    ensures forall i :: 0 <= i < MAX_TASKS && InCall(ks[n].tasks[i], hs[n], c) ==> ks[n].tasks[i].buf == c.rep[0].m
  {
    ProtocolInvariant(ks, hs, ops, quantum, n);
    var k, h := ks[n], hs[n];
    hide HInv, HeldOk;
    forall i | 0 <= i < MAX_TASKS && k.tasks[i].active && k.tasks[i].id == c.pid ensures ClientOk(k, h, k.tasks[i]) {}
  }

  /** A request that has not returned was received at most once, by its server. */
  lemma PendingRequestReceivedAtMostOnce(ks: seq<K>, hs: seq<Hist>, ops: seq<Op>, quantum: nat, n: nat, i: nat)
    requires DisciplinedRun(ks, hs, ops, quantum) && n < |ks| && ks[n].Shaped() && i < MAX_TASKS
    requires ks[n].tasks[i].active && ks[n].tasks[i].id != 0 && ks[n].tasks[i].AwaitsReply()
    ensures ks[n].tasks[i].id in hs[n].open
    ensures var c := hs[n].open[ks[n].tasks[i].id]; c.got == [] || c.got == [Handed(ks[n].tasks[i].sendTo, c.msg)]
  {
    ProtocolInvariant(ks, hs, ops, quantum, n);
    GetTask(ks[n], hs[n], i);
  }

  // ---- why the discipline is needed -----------------------------------------------

  /** Receiving a request does not consume it: a server that receives again without
      replying gets the same request again. */
  lemma RequestIsNotConsumed(k: K, from: nat, msg: Message)
    requires k.Shaped() && !k.pending[k.Current().id % MAX_TASKS]
    requires var s := FindSender(k.tasks, k.Current().id, from, 0); s < MAX_TASKS && k.tasks[s].reason.SendReceiving?
    ensures var r := Receive(k, from, msg); r.1.Some? && r.0 == k && Receive(r.0, from, msg) == r
  {
  }

  /** ipc_reply does not look at who replies: any running task can answer any request. */
  lemma AnyoneCanReply(k: K, i: nat, msg: Message)
    requires Inv(k) && i < MAX_TASKS && k.tasks[i].active && k.tasks[i].AwaitsReply()
    ensures Reply(k, k.tasks[i].id, msg).tasks[i] == k.tasks[i].Deliver(Stamp(msg, k.Current().id))
  {
    FindPidUnique(k, i);
  }
}
