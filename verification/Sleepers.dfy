/** Sleeping processes: how long they sleep, what wakes them, and that they do wake. */
module Sleepers {
  import opened Kernel
  import opened KernelSafety
  import opened Scheduler
  import opened Bits

  /** Slot s holds the live process pid, which sleeps until time w. */
  ghost predicate Asleep(k: K, s: nat, pid: nat, w: nat)
    requires k.Shaped() && s < MAX_TASKS
  {
    k.tasks[s].active && k.tasks[s].id == pid && k.tasks[s].state.Sleeping? && k.tasks[s].wake == w
  }

  /** Slot s holds the live process pid, which can run. */
  ghost predicate Awake(k: K, s: nat, pid: nat)
    requires k.Shaped() && s < MAX_TASKS
  {
    k.tasks[s].active && k.tasks[s].id == pid && (k.tasks[s].state.Ready? || k.tasks[s].state.Running?)
  }

  /** task_sleep leaves its caller asleep until that many ticks from now, at the end of its
      slice; nothing else changes. */
  lemma SleepMeaning(k: K, ticks: nat)
    requires k.Shaped()
    ensures var r := Step(k, DoSleep(ticks));
            && r.cur == k.cur && r.now == k.now && r.tasks[k.cur].ticksLeft == 0
            && (k.Current().active ==> Asleep(r, k.cur, k.Current().id, k.now + ticks))
            && forall i :: 0 <= i < MAX_TASKS && i != k.cur ==> r.tasks[i] == k.tasks[i]
  {
  }

  /** The ticks that task_sleep makes of milliseconds, 100 a second, in 32 bits. */
  function SleepTicks(ms: nat): nat { ms * 100 % TWO32 / 1000 }

  /** One tick for every ten milliseconds if and only if the product fits 32 bits, that is up
      to 42949672 milliseconds. */
  lemma SleepTicksMeaning(ms: nat)
    requires ms < TWO32
    ensures SleepTicks(ms) == ms / 10 <==> ms <= 42949672
  {
    if ms <= 42949672 {
      SmallMod(ms * 100, TWO32);
    } else if ms < 42949680 {
      DivUnique(ms * 100, TWO32, 1, ms * 100 - TWO32);
    } else {
      assert ms * 100 % TWO32 < TWO32;
    }
  }

  // ---- one step ---------------------------------------------------------------------------

  /** The table a tick decides on, process by process. */
  lemma DecidingStates(k: K, i: nat)
    requires k.Shaped() && i < MAX_TASKS
    ensures var t, u := k.tasks[i], Deciding(k).tasks[i];
            && u.active == t.active && u.id == t.id && u.wake == t.wake && u.priority == t.priority
            && u.state == if t.active && t.state.Sleeping? && t.wake <= k.now + 1 then Ready else t.state
  {
  }

  lemma DecidingNow(k: K)
    requires k.Shaped()
    ensures Deciding(k).now == k.now + 1
  {
  }

  /** When time is `now`, nobody can run. */
  ghost predicate NobodyRuns(k: K, now: nat)
    requires k.Shaped()
  {
    forall i :: 0 <= i < MAX_TASKS && k.tasks[i].active && k.tasks[i].priority < NO_PRIORITY ==>
      !k.tasks[i].state.Ready? && !k.tasks[i].state.Running? && !(k.tasks[i].state.Sleeping? && k.tasks[i].wake <= now)
  }

  /** A tick that decides wakes exactly the sleepers whose time has come, except that the
      process in slot 0 gets the processor, asleep or not, when nobody else can have it. */
  lemma DecidingTickWakes(k: K, s: nat, pid: nat, w: nat)
    requires k.Shaped() && s < MAX_TASKS && Reschedules(k, DoTick) && Asleep(k, s, pid, w)
    ensures var r := Step(k, DoTick);
            if w <= k.now + 1 then Awake(r, s, pid)
            else Asleep(r, s, pid, w) || (s == 0 && r.cur == 0 && NobodyRuns(k, k.now + 1))
  {
    hide NextTask, Tick, Deciding;
    var d := Deciding(k);
    TickDecides(k);
    DecidingStates(k, s);
    if w > k.now + 1 && NextTask(d) == s {
      NextTaskMeaning(d);
      assert !Candidate(d, s);
      forall i | 0 <= i < MAX_TASKS && k.tasks[i].active && k.tasks[i].priority < NO_PRIORITY
        ensures !k.tasks[i].state.Ready? && !k.tasks[i].state.Running?
                && !(k.tasks[i].state.Sleeping? && k.tasks[i].wake <= k.now + 1)
      {
        DecidingStates(k, i);
        assert !Candidate(d, i);
      }
    }
  }

  lemma StepTime(k: K, op: Op)
    requires k.Shaped()
    ensures Step(k, op).now == k.now + if op.DoTick? then 1 else 0
  {
    hide NextTask;
  }

  /** No other step changes anything about a sleeper, unless it kills it. */
  lemma OtherStepsKeepAsleep(k: K, op: Op, s: nat, pid: nat, w: nat)
    requires Inv(k) && Enabled(k, op) && 0 < s < MAX_TASKS && Asleep(k, s, pid, w) && !Reschedules(k, op)
    ensures if op == DoKill(pid) then !Step(k, op).tasks[s].active else Step(k, op).tasks[s] == k.tasks[s]
  {
    hide NextTask, Woken, NoMissedRendezvous;
  }

  // ---- runs ---------------------------------------------------------------------------------

  /** After a tick that decides no live process sleeps beyond its time. */
  lemma NobodyOversleeps(ks: seq<K>, ops: seq<Op>, quantum: nat, n: nat, s: nat)
    requires Run(ks, ops, quantum) && n < |ops| && s < MAX_TASKS && Reschedules(ks[n], ops[n])
    ensures var r := ks[n + 1];
            r.Shaped() && !(r.tasks[s].active && r.tasks[s].state.Sleeping? && r.tasks[s].wake <= r.now)
  {
    hide NextTask, Tick, Deciding;
    var k := ks[n];
    assert ks[n + 1] == Step(k, DoTick);
    TickDecides(k);
    DecidingStates(k, s);
    DecidingNow(k);
  }

  /** The step that ends the sleep of the process: a tick that decides when its time has
      come. */
  predicate Rouses(k: K, op: Op, w: nat)
    requires k.Shaped()
  {
    Reschedules(k, op) && w <= k.now + 1
  }

  /** In every run a sleeping process other than the one in slot 0 sleeps on in every step
      that neither kills it nor is a deciding tick at or after its time; the latter makes it
      ready or running. */
  lemma LeavesSleepOnlyInTime(ks: seq<K>, ops: seq<Op>, quantum: nat, n: nat, s: nat, pid: nat, w: nat)
    requires Run(ks, ops, quantum) && n < |ops| && 0 < s < MAX_TASKS && ks[n].Shaped() && Asleep(ks[n], s, pid, w)
    ensures ks[n + 1].Shaped()
    ensures if Rouses(ks[n], ops[n], w) then Awake(ks[n + 1], s, pid)
            else if ops[n] == DoKill(pid) then !ks[n + 1].tasks[s].active
            else Asleep(ks[n + 1], s, pid, w)
  {
    hide Step, Inv, Tick;
    var k, op := ks[n], ops[n];
    assert ks[n + 1] == Step(k, op) && Enabled(k, op);
    if Reschedules(k, op) {
      DecidingTickWakes(k, s, pid, w);
    } else {
      EveryReachableState(ks, ops, quantum, n);
      OtherStepsKeepAsleep(k, op, s, pid, w);
    }
  }

  /** Time is the number of ticks. */
  lemma {:induction false} TimeIsTicks(ks: seq<K>, ops: seq<Op>, quantum: nat, a: nat, b: nat)
    requires Run(ks, ops, quantum) && a <= b <= |ops|
    ensures ks[b].now == ks[a].now + Ticks(ops, a, b)
    decreases b
  {
    hide Step, Enabled;
    if a < b {
      TimeIsTicks(ks, ops, quantum, a, b - 1);
      assert ks[b - 1 + 1] == Step(ks[b - 1], ops[b - 1]);
      StepTime(ks[b - 1], ops[b - 1]);
    }
  }

  lemma {:induction false} TimeReaches(ks: seq<K>, ops: seq<Op>, quantum: nat, a: nat, b: nat, t: nat) returns (c: nat)
    requires Run(ks, ops, quantum) && a <= b <= |ops| && ks[a].now <= t <= ks[b].now
    ensures a <= c <= b && ks[c].now == t
    decreases b
  {
    hide Step, Enabled;
    if ks[b].now == t { return b; }
    assert ks[b - 1 + 1] == Step(ks[b - 1], ops[b - 1]);
    StepTime(ks[b - 1], ops[b - 1]);
    c := TimeReaches(ks, ops, quantum, a, b - 1, t);
  }

  /** From a to b process pid is neither killed nor roused. */
  ghost predicate Undisturbed(ks: seq<K>, ops: seq<Op>, a: nat, b: nat, pid: nat, w: nat)
    requires b <= |ops| < |ks|
  {
    forall i :: a <= i < b ==> ks[i].Shaped() && ops[i] != DoKill(pid) && !Rouses(ks[i], ops[i], w)
  }

  lemma {:induction false} SleepsOn(
      ks: seq<K>, ops: seq<Op>, quantum: nat, a: nat, b: nat, s: nat, pid: nat, w: nat)
    requires Run(ks, ops, quantum) && a <= b <= |ops| && 0 < s < MAX_TASKS && ks[a].Shaped() && Asleep(ks[a], s, pid, w)
    requires Undisturbed(ks, ops, a, b, pid, w)
    ensures ks[b].Shaped() && Asleep(ks[b], s, pid, w)
    decreases b
  {
    hide Step, Enabled, Rouses;
    if a < b {
      SleepsOn(ks, ops, quantum, a, b - 1, s, pid, w);
      LeavesSleepOnlyInTime(ks, ops, quantum, b - 1, s, pid, w);
    }
  }

  lemma {:induction false} FirstRouse(ks: seq<K>, ops: seq<Op>, a: nat, b: nat, pid: nat, w: nat) returns (j: nat)
    requires a <= b <= |ops| < |ks| && (forall i :: a <= i < b ==> ks[i].Shaped() && ops[i] != DoKill(pid))
    requires exists i :: a <= i < b && Rouses(ks[i], ops[i], w)
    ensures a <= j < b && Rouses(ks[j], ops[j], w) && Undisturbed(ks, ops, a, j, pid, w)
    decreases b
  {
    hide Rouses;
    if Undisturbed(ks, ops, a, b - 1, pid, w) { return b - 1; }
    j := FirstRouse(ks, ops, a, b - 1, pid, w);
  }

  lemma {:induction false} SomeDecision(ks: seq<K>, ops: seq<Op>, a: nat, b: nat) returns (i: nat)
    requires a <= b <= |ops| && |ks| == |ops| + 1 && forall i :: 0 <= i < |ks| ==> ks[i].Shaped()
    requires Count(ks, ops, a, b) > 0
    ensures a <= i < b && Reschedules(ks[i], ops[i])
    decreases b
  {
    if Reschedules(ks[b - 1], ops[b - 1]) { return b - 1; }
    i := SomeDecision(ks, ops, a, b - 1);
  }

  /** In every run, while preemption is possible and no quantum exceeds q: a process that
      sleeps until time w and is not killed sleeps without a break until some step j, is
      awake behind it, no earlier than w, and j comes before the clock has passed both w and
      the time it fell asleep by q ticks. */
  lemma SleepersWake(
      ks: seq<K>, ops: seq<Op>, quantum: nat, a: nat, b: nat, s: nat, pid: nat, w: nat, q: nat) returns (j: nat)
    requires Run(ks, ops, quantum) && a <= b <= |ops| && 0 < s < MAX_TASKS
    requires forall i :: 0 <= i < |ks| ==> ks[i].Shaped()
    requires Asleep(ks[a], s, pid, w) && q >= 1
    requires forall i :: a <= i <= b ==> Preemptible(ks[i], q)
    requires forall i :: a <= i < b ==> ops[i] != DoKill(pid)
    requires ks[b].now >= ks[a].now + q && ks[b].now + 1 >= w + q
    ensures a <= j < b && (forall i :: a <= i <= j ==> Asleep(ks[i], s, pid, w))
    ensures Awake(ks[j + 1], s, pid) && w <= ks[j + 1].now
  {
    hide Step, Enabled, Preemptible, Left, Reschedules, Rouses, Asleep;
    var c := a;
    if ks[a].now + 1 < w { c := TimeReaches(ks, ops, quantum, a, b, w - 1); }
    TimeIsTicks(ks, ops, quantum, c, b);
    DecisionsKeepUp(ks, ops, quantum, c, b, q);
    var i := SomeDecision(ks, ops, c, b);
    TimeIsTicks(ks, ops, quantum, c, i);
    RouseParts(ks[i], ops[i], w);
    j := FirstRouse(ks, ops, a, b, pid, w);
    forall i | a <= i <= j ensures Asleep(ks[i], s, pid, w) { SleepsOn(ks, ops, quantum, a, i, s, pid, w); }
    LeavesSleepOnlyInTime(ks, ops, quantum, j, s, pid, w);
    RouseTime(ks, ops, quantum, j, w);
  }

  lemma RouseParts(k: K, op: Op, w: nat)
    requires k.Shaped() && Reschedules(k, op) && w <= k.now + 1
    ensures Rouses(k, op, w)
  {
  }

  lemma RouseTime(ks: seq<K>, ops: seq<Op>, quantum: nat, j: nat, w: nat)
    requires Run(ks, ops, quantum) && j < |ops| && ks[j].Shaped() && Rouses(ks[j], ops[j], w)
    ensures w <= ks[j + 1].now
  {
    hide Step;
    StepTime(ks[j], ops[j]);
  }
}
