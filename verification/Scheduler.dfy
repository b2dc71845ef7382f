/** What find_next_task picks, and why equal-priority tasks share the processor. */
module Scheduler {
  import opened Kernel
  import opened KernelSafety
  import Bits

  /** How far slot i lies behind the current slot, going round the table; the current
      slot itself is the farthest. */
  function Dist(cur: nat, i: nat): nat
    requires cur < MAX_TASKS && i < MAX_TASKS
  {
    if i > cur then i - cur - 1 else i + MAX_TASKS - 1 - cur
  }

  lemma SlotAt(k: K, i: nat)
    requires k.Shaped() && i < MAX_TASKS
    ensures Dist(k.cur, i) < MAX_TASKS && Slot(k, Dist(k.cur, i)) == i
  {
    RoundTheTable(k.cur + 1);
    RoundTheTable((k.cur + 1) % MAX_TASKS + Dist(k.cur, i));
  }

  lemma DistAt(k: K, n: nat)
    requires k.Shaped() && n < MAX_TASKS
    ensures Dist(k.cur, Slot(k, n)) == n
  {
    RoundTheTable(k.cur + 1);
    RoundTheTable((k.cur + 1) % MAX_TASKS + n);
  }

  lemma RoundTheTable(x: nat)
    requires x < 2 * MAX_TASKS
    ensures x % MAX_TASKS == if x < MAX_TASKS then x else x - MAX_TASKS
  {
  }

  /** i beats j: better (smaller) priority, or equal priority and nearer. */
  ghost predicate Beats(k: K, i: nat, j: nat)
    requires k.Shaped() && i < MAX_TASKS && j < MAX_TASKS
  {
    || k.tasks[i].priority < k.tasks[j].priority
    || (k.tasks[i].priority == k.tasks[j].priority && Dist(k.cur, i) <= Dist(k.cur, j))
  }

  lemma {:induction false} BestBeats(k: K, n: nat)
    requires k.Shaped() && n <= MAX_TASKS
    ensures var b := Best(k, n);
      if b == MAX_TASKS then forall j :: 0 <= j < MAX_TASKS && Dist(k.cur, j) < n ==> !Candidate(k, j)
      else Dist(k.cur, b) < n
           && forall j :: 0 <= j < MAX_TASKS && Dist(k.cur, j) < n && Candidate(k, j) ==> Beats(k, b, j)
  {
    if n > 0 {
      BestBeats(k, n - 1);
      DistAt(k, n - 1);
      forall j | 0 <= j < MAX_TASKS && Dist(k.cur, j) == n - 1 ensures j == Slot(k, n - 1) { SlotAt(k, j); }
    }
  }

  /** Slot i holds a live process, not the current one, that is READY or RUNNING and has a
      priority better than the worst. */
  lemma CandidateMeaning(k: K, i: nat)
    requires k.Shaped() && i < MAX_TASKS
    ensures Candidate(k, i)
            <==> i != k.cur && k.tasks[i].active && (k.tasks[i].state == Ready || k.tasks[i].state == Running)
                 && k.tasks[i].priority < 0xFFFF_FFFF
  {
  }

  /** The scheduler picks the best-priority runnable task other than the current one,
      nearest in cyclic order; the current task only when there is no such task and it
      can still run, and slot 0 otherwise. */
  lemma NextTaskMeaning(k: K)
    requires k.Shaped()
    ensures var n := NextTask(k);
      if exists j :: 0 <= j < MAX_TASKS && Candidate(k, j)
      then Candidate(k, n) && forall j :: 0 <= j < MAX_TASKS && Candidate(k, j) ==> Beats(k, n, j)
      else n == if k.Current().Runnable() then k.cur else 0
  {
    BestBeats(k, MAX_TASKS);
    assert forall j :: 0 <= j < MAX_TASKS ==> Dist(k.cur, j) < MAX_TASKS;
  }

  // ---- fairness -------------------------------------------------------------------

  /** S is the set of runnable tasks of the best priority p. */
  ghost predicate TopSet(k: K, S: set<nat>, p: nat)
    requires k.Shaped()
  {
    && p < NO_PRIORITY
    && (forall i :: i in S ==> i < MAX_TASKS && k.tasks[i].Runnable() && k.tasks[i].priority == p)
    && (forall i :: 0 <= i < MAX_TASKS && k.tasks[i].Runnable() && i !in S ==> k.tasks[i].priority > p)
  }

  /** The members of S met before s when walking round the table from the current slot. */
  ghost function Ahead(cur: nat, S: set<nat>, s: nat): set<nat>
    requires cur < MAX_TASKS && s < MAX_TASKS && forall i :: i in S ==> i < MAX_TASKS
  {
    set t | t in S && Dist(cur, t) < Dist(cur, s)
  }

  /** A switch goes to a nearest member of S. */
  lemma SwitchStaysInTop(k: K, S: set<nat>, p: nat)
    requires k.Shaped() && TopSet(k, S, p) && |S| >= 2
    ensures var n := NextTask(k); n in S && n != k.cur
                                  && forall t :: t in S && t != k.cur ==> Dist(k.cur, n) <= Dist(k.cur, t)
  {
    NextTaskMeaning(k);
    var other := OtherMember(S, k.cur);
    assert Candidate(k, other);
    forall t | t in S && t != k.cur ensures Candidate(k, t) {}
  }

  lemma OtherMember(S: set<nat>, x: nat) returns (y: nat)
    requires |S| >= 2
    ensures y in S && y != x
  {
    var a :| a in S;
    var R := S - {a};
    assert |R| == |S| - 1;
    var b :| b in R;
    y := if a != x then a else b;
  }

  /** Each switch that does not pick s removes the picked task from those ahead of s. */
  lemma FewerAhead(k: K, S: set<nat>, p: nat, s: nat)
    requires k.Shaped() && TopSet(k, S, p) && |S| >= 2 && s in S && NextTask(k) != s
    ensures |Ahead(NextTask(k), S, s)| < |Ahead(k.cur, S, s)|
  {
    SwitchStaysInTop(k, S, p);
    var n := NextTask(k);
    var a, b := Ahead(k.cur, S, s), Ahead(n, S, s);
    assert n in a && n !in b;
    assert b <= a - {n};
    Subset(b, a - {n});
  }

  lemma Subset(a: set<nat>, b: set<nat>)
    requires a <= b
    ensures |a| <= |b|
  {
    var c := b - a;
    assert b == a + c;
  }

  // ---- fairness over runs ---------------------------------------------------------

  /** The tick ends the time slice: preemption is possible, and the current task is parked
      or has used its slice up. */
  predicate Reschedules(k: K, op: Op)
    requires k.Shaped()
  {
    op.DoTick? && k.locks == 0 && k.preemptive && (k.Current().Parked() || k.Current().ticksLeft <= 1)
  }

  /** The table such a tick decides on: time advanced, slice used up, sleepers woken. */
  function Deciding(k: K): (r: K)
    requires k.Shaped()
    ensures r.Shaped() && r.cur == k.cur
  {
    var me := k.Current();
    Woken(k.(now := k.now + 1, tasks := k.tasks[k.cur := if me.Parked() then me else me.(ticksLeft := 0)]))
  }

  lemma TickDecides(k: K)
    requires k.Shaped() && Reschedules(k, DoTick)
    ensures var w := Deciding(k);
            var n := NextTask(w);
            Tick(k) == if n == w.cur then w.(tasks := w.tasks[w.cur := w.Current().(ticksLeft := w.Current().quantum)])
                                          else SwitchTo(w, n)
  {
    hide NextTask, SwitchTo, Woken;
    if k.Current().Parked() { assert k.tasks[k.cur := k.Current()] == k.tasks; }
  }

  /** The processor changes hands only in a tick that ends a time slice, and then goes to
      the task the scheduler picks from the table with its sleepers woken. */
  lemma OnlyTicksSwitch(k: K, op: Op)
    requires k.Shaped()
    ensures Step(k, op).cur == if Reschedules(k, op) then NextTask(Deciding(k)) else k.cur
  {
    hide NextTask, Woken, Best;
    if Reschedules(k, op) { TickDecides(k); }
  }

  /** With two or more top tasks after a switch, they were the top tasks when the decision
      was taken. */
  lemma TopWhenDeciding(k: K, S: set<nat>, p: nat)
    requires k.Shaped() && Reschedules(k, DoTick) && TopSet(Tick(k), S, p) && |S| >= 2
    ensures TopSet(Deciding(k), S, p)
  {
    var w, r := Deciding(k), Tick(k);
    var n := NextTask(w);
    TickDecides(k);
    NextTaskMeaning(w);
    hide NextTask, Woken, Best, Tick, Deciding;
    var other := OtherMember(S, n);
    assert r.tasks[other].Runnable() && r.tasks[other].priority == p;
    assert w.tasks[other].Runnable() && w.tasks[other].priority == p;
    assert n == w.cur ==> Candidate(w, other);
    assert Candidate(w, other) || other == w.cur;
    assert w.tasks[n].Runnable();
    assert forall i :: 0 <= i < MAX_TASKS ==> (r.tasks[i].Runnable() <==> w.tasks[i].Runnable())
                                              && r.tasks[i].priority == w.tasks[i].priority;
  }

  ghost function Count(ks: seq<K>, ops: seq<Op>, a: nat, b: nat): nat
    requires a <= b <= |ops| && |ks| == |ops| + 1 && forall i :: 0 <= i < |ks| ==> ks[i].Shaped()
  {
    if a == b then 0 else Count(ks, ops, a, b - 1) + if Reschedules(ks[b - 1], ops[b - 1]) then 1 else 0
  }

  /** Steps a to b of a run, with S the top set throughout. */
  ghost predicate Window(ks: seq<K>, ops: seq<Op>, a: nat, b: nat, S: set<nat>, p: nat) {
    && a <= b <= |ops| && |ks| == |ops| + 1
    && (forall i :: 0 <= i < |ks| ==> ks[i].Shaped())
    && (forall i :: 0 <= i < |ops| ==> ks[i + 1] == Step(ks[i], ops[i]))
    && (forall i :: a <= i <= b ==> TopSet(ks[i], S, p))
  }

  /** As long as s has not had the processor, every decision has shortened the queue in
      front of it. */
  lemma {:induction false} QueueShrinks(ks: seq<K>, ops: seq<Op>, a: nat, b: nat, S: set<nat>, p: nat, s: nat)
    requires Window(ks, ops, a, b, S, p) && |S| >= 2 && s in S && forall t :: t in S ==> t < MAX_TASKS
    requires forall j :: a < j <= b ==> ks[j].cur != s
    ensures |Ahead(ks[b].cur, S, s)| + Count(ks, ops, a, b) <= |Ahead(ks[a].cur, S, s)|
    decreases b
  {
    hide TopSet, NextTask, Ahead, Step, Deciding;
    if a < b {
      QueueShrinks(ks, ops, a, b - 1, S, p, s);
      var k, op := ks[b - 1], ops[b - 1];
      assert ks[b - 1 + 1] == Step(k, op);
      OnlyTicksSwitch(k, op);
      if Reschedules(k, op) {
        TopWhenDeciding(k, S, p) by { StepIsTick(k, op); }
        FewerAhead(Deciding(k), S, p, s);
      }
    }
  }

  lemma StepIsTick(k: K, op: Op)
    requires k.Shaped() && Reschedules(k, op)
    ensures op == DoTick && Step(k, op) == Tick(k)
  {
  }

  /** Among two or more ready tasks of the best priority, each gets the processor within as
      many scheduling decisions as there are such tasks. */
  lemma RunsWithinDecisions(ks: seq<K>, ops: seq<Op>, a: nat, b: nat, S: set<nat>, p: nat, s: nat)
    requires Window(ks, ops, a, b, S, p) && |S| >= 2 && s in S && Count(ks, ops, a, b) >= |S|
    ensures exists j :: a < j <= b && ks[j].cur == s
  {
    hide Step, Deciding;
    assert TopSet(ks[a], S, p);
    if forall j :: a < j <= b ==> ks[j].cur != s {
      QueueShrinks(ks, ops, a, b, S, p, s);
      var q := Ahead(ks[a].cur, S, s);
      assert q <= S - {s};
      Subset(q, S - {s});
    }
  }

  // ---- how often the scheduler decides --------------------------------------------

  /** No task has more of its slice left than its quantum. */
  ghost predicate Budgeted(k: K)
    requires k.Shaped()
  {
    forall i :: 0 <= i < MAX_TASKS ==> k.tasks[i].ticksLeft <= k.tasks[i].quantum
  }

  lemma StepBudgeted(k: K, op: Op)
    requires k.Shaped() && Budgeted(k)
    ensures Budgeted(Step(k, op))
  {
    hide Tick;
    if op.DoTick? { TickBudgeted(k); }
  }

  lemma TickBudgeted(k: K)
    requires k.Shaped() && Budgeted(k)
    ensures Budgeted(Tick(k))
  {
    hide NextTask;
    if Reschedules(k, DoTick) {
      TickDecides(k);
      hide Tick;
      assert Budgeted(Deciding(k));
    }
  }

  lemma {:induction false} RunBudgeted(ks: seq<K>, ops: seq<Op>, quantum: nat, i: nat)
    requires Run(ks, ops, quantum) && i < |ks|
    ensures ks[i].Shaped() && Budgeted(ks[i])
  {
    hide Step, Budgeted, Enabled;
    if i == 0 {
      InitialBudgeted(quantum);
    } else {
      RunBudgeted(ks, ops, quantum, i - 1);
      assert ks[i - 1 + 1] == Step(ks[i - 1], ops[i - 1]);
      StepBudgeted(ks[i - 1], ops[i - 1]);
    }
  }

  lemma InitialBudgeted(quantum: nat)
    ensures Budgeted(Initial(quantum))
  {
  }

  ghost function Ticks(ops: seq<Op>, a: nat, b: nat): nat
    requires a <= b <= |ops|
  {
    if a == b then 0 else Ticks(ops, a, b - 1) + if ops[b - 1].DoTick? then 1 else 0
  }

  /** Ticks until the current task's slice ends at the latest. */
  function Left(k: K): (n: nat)
    requires k.Shaped()
    ensures n >= 1
  {
    if k.Current().ticksLeft >= 1 then k.Current().ticksLeft else 1
  }

  /** Preemption is possible and no slice is longer than q. */
  ghost predicate Preemptible(k: K, q: nat)
    requires k.Shaped()
  {
    k.locks == 0 && k.preemptive && forall i :: 0 <= i < MAX_TASKS ==> k.tasks[i].quantum <= q
  }

  lemma LeftBounded(k: K, q: nat)
    requires k.Shaped() && Budgeted(k) && Preemptible(k, q) && q >= 1
    ensures Left(k) <= q
  {
  }

  /** A tick either decides or uses up one tick of the slice; nothing else prolongs it. */
  lemma LeftStep(k: K, op: Op)
    requires Inv(k) && Enabled(k, op) && k.locks == 0 && k.preemptive && !Reschedules(k, op)
    ensures Left(Step(k, op)) + (if op.DoTick? then 1 else 0) <= Left(k)
  {
    hide Tick, NoMissedRendezvous;
    if op.DoTick? { TickShortens(k); }
  }

  lemma TickShortens(k: K)
    requires k.Shaped() && k.locks == 0 && k.preemptive && !Reschedules(k, DoTick)
    ensures Left(Tick(k)) + 1 == Left(k)
  {
  }

  /** In q ticks or fewer the scheduler decides at least once. */
  lemma {:induction false} DecisionsKeepUp(ks: seq<K>, ops: seq<Op>, quantum: nat, a: nat, b: nat, q: nat)
    requires Run(ks, ops, quantum) && a <= b <= |ops| && q >= 1 && forall i :: 0 <= i < |ks| ==> ks[i].Shaped()
    requires forall i :: a <= i <= b ==> Preemptible(ks[i], q)
    ensures Ticks(ops, a, b) + Left(ks[b]) <= q * Count(ks, ops, a, b) + q
    decreases b
  {
    hide Step, Budgeted, Enabled, Preemptible, Left, Inv;
    RunBudgeted(ks, ops, quantum, b);
    LeftBounded(ks[b], q);
    if a < b {
      DecisionsKeepUp(ks, ops, quantum, a, b - 1, q);
      var k, op := ks[b - 1], ops[b - 1];
      assert ks[b - 1 + 1] == Step(k, op) && Enabled(k, op);
      EveryReachableState(ks, ops, quantum, b - 1);
      PreemptibleParts(k, q);
      if Reschedules(k, op) {
        assert q * Count(ks, ops, a, b) == q * Count(ks, ops, a, b - 1) + q;
      } else {
        LeftStep(k, op);
      }
    }
  }

  lemma PreemptibleParts(k: K, q: nat)
    requires k.Shaped() && Preemptible(k, q)
    ensures k.locks == 0 && k.preemptive
  {
  }

  /** In every run: among two or more ready tasks of the best priority, while preemption is
      possible and no quantum exceeds q, each gets the processor within q ticks per such
      task, whatever else happens in between. */
  lemma TopTasksShareTheProcessor(ks: seq<K>, ops: seq<Op>, quantum: nat, a: nat, b: nat, S: set<nat>, p: nat, q: nat,
                                  s: nat)
    requires Run(ks, ops, quantum) && a <= b <= |ops| && (forall i :: 0 <= i < |ks| ==> ks[i].Shaped())
    requires forall i :: a <= i <= b ==> TopSet(ks[i], S, p) && Preemptible(ks[i], q)
    requires |S| >= 2 && s in S && q >= 1 && Ticks(ops, a, b) >= q * |S|
    ensures exists j :: a < j <= b && ks[j].cur == s
  {
    hide Step, TopSet, Preemptible, Left;
    DecisionsKeepUp(ks, ops, quantum, a, b, q);
    assert q * |S| < q * Count(ks, ops, a, b) + q;
    EnoughDecisions(q, |S|, Count(ks, ops, a, b));
    RunsWithinDecisions(ks, ops, a, b, S, p, s);
  }

  lemma EnoughDecisions(q: nat, n: nat, c: nat)
    requires q >= 1 && q * n < q * c + q
    ensures n <= c
  {
    assert n * q == q * n && (c + 1) * q == q * c + q;
    Bits.MulCancelLess(n, c + 1, q);
  }

  /** With a single top task the rotation leaves the top set: the running task is skipped
      even when nothing else of its priority can run. */
  lemma LoneTopTaskGivesWay(k: K, p: nat, j: nat)
    requires k.Shaped() && TopSet(k, {k.cur}, p) && Candidate(k, j)
    ensures NextTask(k) != k.cur && k.tasks[NextTask(k)].priority > p
  {
    NextTaskMeaning(k);
  }

  // ---- time slices ------------------------------------------------------------------

  /** The state after n ticks with nothing in between. */
  ghost function Ticked(k: K, n: nat): (r: K)
    requires k.Shaped()
    ensures r.Shaped()
  {
    if n == 0 then k else Step(Ticked(k, n - 1), DoTick)
  }

  /** A process that gets the processor has it for as many ticks as its quantum says; only
      the last of them decides again. */
  lemma {:induction false} SliceLasts(k: K, n: nat)
    requires k.Shaped() && Reschedules(k, DoTick)
    requires var r := Step(k, DoTick); !r.Current().Parked() && n < r.Current().quantum
    ensures var r, t := Step(k, DoTick), Ticked(Step(k, DoTick), n);
            && t.cur == r.cur && t.now == r.now + n && t.Current() == r.Current().(ticksLeft := r.Current().quantum - n)
            && t.locks == 0 && t.preemptive && (Reschedules(t, DoTick) <==> n == r.Current().quantum - 1)
  {
    hide NextTask, Woken, Tick;
    var r := Step(k, DoTick);
    TickDecides(k);
    FullSlice(k);
    if n > 0 {
      SliceLasts(k, n - 1);
      TickInSlice(Ticked(r, n - 1));
    }
  }

  lemma FullSlice(k: K)
    requires k.Shaped() && Reschedules(k, DoTick)
    ensures var r := Step(k, DoTick); r.Current().ticksLeft == r.Current().quantum && r.locks == 0 && r.preemptive
  {
    hide NextTask;
  }

  lemma TickInSlice(k: K)
    requires k.Shaped() && k.locks == 0 && k.preemptive && !k.Current().Parked() && k.Current().ticksLeft > 1
    ensures var r := Step(k, DoTick);
            && r.cur == k.cur && r.now == k.now + 1 && r.locks == 0 && r.preemptive
            && r.Current() == k.Current().(ticksLeft := k.Current().ticksLeft - 1)
  {
  }
}
