/** What every step of the scheduler keeps. */
module SchedInv {
  import opened OrderedSeq
  import opened Options
  import opened SchedModel

  // ---------------------------------------------------------------- pick_next is the leftmost node

  lemma {:induction false} NoneEligible(threads: map<Tid, Thread>, q: seq<Tid>, mvr: int)
    requires forall t | t in q :: t in threads && threads[t].vstart > mvr
    ensures FirstEligible(threads, q, mvr) == None
  {
    if q != [] { NoneEligible(threads, q[1..], mvr); }
  }

  lemma {:induction false} LeastRunKeeps(threads: map<Tid, Thread>, q: seq<Tid>, best: Tid)
    requires best in threads && forall t | t in q :: t in threads && !Better(threads, t, Some(best))
    ensures LeastRun(threads, q, Some(best)) == Some(best)
  {
    if q != [] { LeastRunKeeps(threads, q[1..], best); }
  }

  /** Deadline order on a queue is start order. */
  lemma HeadFirst(s: State, c: nat, t: Tid)
    requires Known(s) && Cpu(s, c) && QueueOk(s, c)
    requires t in s.rqs[c].queue && t != s.rqs[c].queue[0]
    ensures var h := s.rqs[c].queue[0];
      s.threads[h].vstart < s.threads[t].vstart || (s.threads[h].vstart == s.threads[t].vstart && h < t)
  {
    var q := s.rqs[c].queue;
    var i :| 0 <= i < |q| && q[i] == t;
    assert Cmp(s.threads)(q[i], q[0]) >= 0;
    assert QueuedOk(s, c, q[0]) && QueuedOk(s, c, t);
  }

  lemma PickIsLeftmost(s: State, c: nat)
    requires Known(s) && Cpu(s, c) && QueueOk(s, c)
    ensures PickNext(s, c) == if s.rqs[c].queue == [] then s.rqs[c].idle else Some(s.rqs[c].queue[0])
  {
    var rq := s.rqs[c];
    var q := rq.queue;
    if q != [] {
      assert QueuedOk(s, c, q[0]);
      if s.threads[q[0]].vstart > rq.minVruntime {
        forall t | t in q
          ensures s.threads[t].vstart > rq.minVruntime && s.threads[t].vstart == s.threads[t].vruntime
          ensures t != q[0] ==> !Better(s.threads, t, Some(q[0]))
        {
          assert QueuedOk(s, c, t);
          if t != q[0] { HeadFirst(s, c, t); }
        }
        NoneEligible(s.threads, q, rq.minVruntime);
        forall t | t in q[1..] ensures t != q[0] { }
        LeastRunKeeps(s.threads, q[1..], q[0]);
      }
    }
  }

  ghost predicate SameClocks(th: map<Tid, Thread>, th': map<Tid, Thread>) {
    th'.Keys == th.Keys && forall t | t in th :: th'[t].vruntime == th[t].vruntime && th'[t].vstart == th[t].vstart
  }

  lemma {:induction false} ScansFrame(th: map<Tid, Thread>, th': map<Tid, Thread>, q: seq<Tid>, mvr: int,
      best: Option<Tid>)
    requires SameClocks(th, th') && (forall t | t in q :: t in th) && (best.Some? ==> best.value in th)
    ensures FirstEligible(th', q, mvr) == FirstEligible(th, q, mvr)
    ensures LeastRun(th', q, best) == LeastRun(th, q, best)
  {
    if q != [] {
      assert Better(th', q[0], best) == Better(th, q[0], best);
      ScansFrame(th, th', q[1..], mvr, if Better(th, q[0], best) then Some(q[0]) else best);
    }
  }

  /** The choice of the next thread does not look at thread states. */
  lemma PickIgnoresStates(s: State, s': State, c: nat)
    requires Known(s) && Known(s') && Online(s, c) && s'.rqs == s.rqs && SameClocks(s.threads, s'.threads)
    ensures Picked(s', c) == Picked(s, c)
  {
    ScansFrame(s.threads, s'.threads, s.rqs[c].queue, s.rqs[c].minVruntime, None);
  }

  // ---------------------------------------------------------------- queues

  lemma CmpPreorder(threads: map<Tid, Thread>, s: set<Tid>)
    requires forall t | t in s :: t in threads
    ensures Preorder(Cmp(threads), s)
  {
  }

  ghost predicate Unqueued(s: State, t: Tid) {
    forall c | 0 <= c < |s.rqs| :: t !in s.rqs[c].queue
  }

  /** Rewriting threads outside a queue, or advancing its clock, does not disturb the queue. */
  lemma QueueFrame(s: State, c: nat, s': State)
    requires Known(s) && Cpu(s, c) && QueueOk(s, c) && Cpu(s', c)
    requires s'.rqs[c].queue == s.rqs[c].queue && s'.rqs[c].nrRunning == s.rqs[c].nrRunning
    requires s'.rqs[c].idle == s.rqs[c].idle && s.rqs[c].minVruntime <= s'.rqs[c].minVruntime
    requires forall u | u in s.rqs[c].queue :: u in s'.threads && s'.threads[u] == s.threads[u]
    ensures QueueOk(s', c)
  {
    var q := s.rqs[c].queue;
    forall u | u in q ensures QueuedOk(s', c, u) { assert QueuedOk(s, c, u); }
    forall i, j | 0 <= i < j < |q| ensures Cmp(s'.threads)(q[j], q[i]) >= 0 {
      assert Cmp(s.threads)(q[j], q[i]) >= 0;
    }
  }

  lemma NotReadyUnqueued(s: State, hole: int, loose: set<Tid>, t: Tid)
    requires InvExcept(s, hole, loose) && t in s.threads && (s.threads[t].state != Ready || IsIdle(s, t))
    ensures Unqueued(s, t)
  {
    forall c | 0 <= c < |s.rqs| ensures t !in s.rqs[c].queue {
      assert QueueOk(s, c);
      assert t in s.rqs[c].queue ==> QueuedOk(s, c, t);
    }
  }

  /** Changing the clocks of a thread that is not queued. */
  lemma RetimeInv(s: State, hole: int, loose: set<Tid>, t: Tid, th: Thread)
    requires InvExcept(s, hole, loose) && t in s.threads && Unqueued(s, t)
    requires th.cpu == s.threads[t].cpu && th.state == s.threads[t].state
    ensures InvExcept(s.(threads := s.threads[t := th]), hole, loose)
  {
    hide QueueOk;
    var s' := s.(threads := s.threads[t := th]);
    forall c | 0 <= c < MAX_CPUS ensures QueueOk(s', c) && IdleOk(s', c) && (c != hole ==> CurrentOk(s', c)) {
      assert QueueOk(s, c) && IdleOk(s, c);
      QueueFrame(s, c, s');
    }
    forall u | u in s'.threads && u !in loose && !IsIdle(s', u) ensures Housed(s', u) {
      assert Housed(s, u);
    }
    forall u | u in s'.threads ensures HasHome(s', u) { assert HasHome(s, u); }
  }

  /** The current thread of `c` stops running. */
  lemma StopInv(s: State, c: nat, t: Tid, st: RunState)
    requires Inv(s) && Cpu(s, c) && s.rqs[c].current == Some(t) && st != Running
    requires st == Ready <==> IsIdle(s, t)
    ensures InvExcept(s.(threads := s.threads[t := s.threads[t].(state := st)]), c, {})
  {
    hide QueueOk;
    var s' := s.(threads := s.threads[t := s.threads[t].(state := st)]);
    assert CurrentOk(s, c);
    NotReadyUnqueued(s, -1, {}, t);
    forall d | 0 <= d < MAX_CPUS ensures QueueOk(s', d) && IdleOk(s', d) && (d != c ==> CurrentOk(s', d)) {
      assert QueueOk(s, d) && IdleOk(s, d) && CurrentOk(s, d);
      QueueFrame(s, d, s');
    }
    forall u | u in s'.threads && !IsIdle(s', u) ensures Housed(s', u) {
      assert Housed(s, u);
    }
    forall u | u in s'.threads ensures HasHome(s', u) { assert HasHome(s, u); }
  }

  /** Advancing one runqueue's clock. */
  lemma ClockInv(s: State, hole: int, loose: set<Tid>, c: nat, m: int)
    requires InvExcept(s, hole, loose) && Cpu(s, c) && m >= s.rqs[c].minVruntime
    ensures InvExcept(s.(rqs := s.rqs[c := s.rqs[c].(minVruntime := m)]), hole, loose)
  {
    hide QueueOk;
    var s' := s.(rqs := s.rqs[c := s.rqs[c].(minVruntime := m)]);
    forall d | 0 <= d < MAX_CPUS ensures QueueOk(s', d) && IdleOk(s', d) && (d != hole ==> CurrentOk(s', d)) {
      assert QueueOk(s, d) && IdleOk(s, d);
      QueueFrame(s, d, s');
    }
    forall u | u in s'.threads && u !in loose && !IsIdle(s', u) ensures Housed(s', u) {
      assert Housed(s, u);
    }
    forall u | u in s'.threads ensures HasHome(s', u) { assert HasHome(s, u); }
  }

  lemma RaiseInv(s: State, hole: int, loose: set<Tid>, c: nat)
    requires InvExcept(s, hole, loose) && Cpu(s, c)
    ensures InvExcept(RaiseMin(s, c), hole, loose)
  {
    hide InvExcept, MinVr, Known;
    KnownOf(s, hole, loose);
    ClockInv(s, hole, loose, c, if MinVr(s, c) > s.rqs[c].minVruntime then MinVr(s, c) else s.rqs[c].minVruntime);
    assert s.rqs[c].(minVruntime := s.rqs[c].minVruntime) == s.rqs[c];
  }

  lemma KnownOf(s: State, hole: int, loose: set<Tid>)
    requires InvExcept(s, hole, loose)
    ensures Known(s)
  {
  }

  /** Queueing a thread that is nowhere queued. */
  lemma PlaceInv(s: State, hole: int, hole': int, loose: set<Tid>, c: nat, t: Tid)
    requires InvExcept(s, hole, loose) && Cpu(s, c) && t in s.threads && s.threads[t].cpu == c
    requires Unqueued(s, t) && !IsIdle(s, t)
    requires hole' == c || (hole' == hole && s.rqs[c].current != Some(t))
    requires hole == -1 || hole == hole'
    ensures InvExcept(Place(s, c, t), hole', loose - {t})
  {
    hide QueueOk;
    var s' := Place(s, c, t);
    var rq := s.rqs[c];
    var cmp := Cmp(s'.threads);
    forall u ensures u in s'.rqs[c].queue <==> u == t || u in rq.queue { InsertByMember(cmp, rq.queue, t, u); }
    PlaceQueue(s, c, t);
    forall d | 0 <= d < MAX_CPUS ensures QueueOk(s', d) && IdleOk(s', d) && (d != hole' ==> CurrentOk(s', d)) {
      assert QueueOk(s, d) && IdleOk(s, d);
      if d != c { QueueFrame(s, d, s'); }
    }
    forall u | u in s'.threads && u !in loose - {t} && !IsIdle(s', u) ensures Housed(s', u) {
      if u != t { assert Housed(s, u); }
    }
    forall u | u in s'.threads ensures HasHome(s', u) { assert HasHome(s, u); }
  }

  lemma PlaceQueue(s: State, c: nat, t: Tid)
    requires Known(s) && Cpu(s, c) && QueueOk(s, c) && t in s.threads && s.threads[t].cpu == c
    requires t !in s.rqs[c].queue && !IsIdle(s, t)
    ensures QueueOk(Place(s, c, t), c)
  {
    var s' := Place(s, c, t);
    var q := s.rqs[c].queue;
    var cmp := Cmp(s'.threads);
    forall u ensures u in s'.rqs[c].queue <==> u == t || u in q { InsertByMember(cmp, q, t, u); }
    forall u | u in s'.rqs[c].queue ensures QueuedOk(s', c, u) {
      if u != t { assert QueuedOk(s, c, u); }
    }
    forall i, j | 0 <= i < j < |q| ensures cmp(q[j], q[i]) >= 0 {
      assert Cmp(s.threads)(q[j], q[i]) >= 0;
    }
    var all := (set u | u in q) + {t};
    CmpPreorder(s'.threads, all);
    InsertByOrdered(cmp, q, t, all);
    InsertByNoDup(cmp, q, t);
  }

  lemma RemoveQueue(s: State, c: nat, t: Tid)
    requires Known(s) && Cpu(s, c) && QueueOk(s, c) && t in s.rqs[c].queue
    ensures QueueOk(Remove(s, c, t), c)
    ensures forall u :: u in Remove(s, c, t).rqs[c].queue <==> u in s.rqs[c].queue && u != t
  {
    var s' := Remove(s, c, t);
    WithoutKeeps(Cmp(s.threads), s.rqs[c].queue, t);
    forall u | u in s'.rqs[c].queue ensures QueuedOk(s', c, u) { assert QueuedOk(s, c, u); }
  }

  lemma Elsewhere(s: State, c: nat, d: nat, t: Tid)
    requires Cpu(s, c) && Cpu(s, d) && QueueOk(s, c) && QueueOk(s, d) && c != d && t in s.rqs[c].queue
    ensures t !in s.rqs[d].queue
  {
    assert QueuedOk(s, c, t);
    assert t in s.rqs[d].queue ==> QueuedOk(s, d, t);
  }

  /** Taking a thread out of its queue puts it in transit. */
  lemma RemoveInv(s: State, hole: int, loose: set<Tid>, c: nat, t: Tid)
    requires InvExcept(s, hole, loose) && Cpu(s, c) && t in s.rqs[c].queue
    ensures InvExcept(Remove(s, c, t), hole, loose + {t})
    ensures Unqueued(Remove(s, c, t), t)
  {
    hide QueueOk;
    var s' := Remove(s, c, t);
    RemoveQueue(s, c, t);
    forall d | 0 <= d < MAX_CPUS
      ensures QueueOk(s', d) && IdleOk(s', d) && (d != hole ==> CurrentOk(s', d)) && t !in s'.rqs[d].queue
    {
      assert QueueOk(s, d) && IdleOk(s, d);
      if d != c {
        QueueFrame(s, d, s');
        Elsewhere(s, c, d, t);
      }
    }
    forall u | u in s'.threads && u !in loose + {t} && !IsIdle(s', u) ensures Housed(s', u) {
      assert Housed(s, u);
    }
    forall u | u in s'.threads ensures HasHome(s', u) { assert HasHome(s, u); }
  }

  /** Putting a thread in transit (or the idle thread) on a CPU whose last current thread has left. */
  lemma DispatchInv(s: State, c: nat, loose: set<Tid>, next: Tid)
    requires InvExcept(s, c, loose) && Online(s, c) && next in s.threads && s.threads[next].cpu == c
    requires loose <= {next} && Unqueued(s, next)
    requires s.threads[s.rqs[c].current.value].state != Running
    ensures Inv(Dispatch(s, c, next))
  {
    hide QueueOk;
    var s' := Dispatch(s, c, next);
    var prev := s.rqs[c].current.value;
    forall d | 0 <= d < MAX_CPUS ensures QueueOk(s', d) && IdleOk(s', d) && CurrentOk(s', d) {
      assert QueueOk(s, d) && IdleOk(s, d);
      QueueFrame(s, d, s');
    }
    forall u | u in s'.threads && !IsIdle(s', u) ensures Housed(s', u) {
      if u != next { assert Housed(s, u); }
    }
    forall u | u in s'.threads ensures HasHome(s', u) { assert HasHome(s, u); }
  }

  /** A thread in transit, or off the queues for good, may change its CPU. */
  lemma RehomeInv(s: State, loose: set<Tid>, t: Tid, dst: nat)
    requires InvExcept(s, -1, loose) && t in s.threads && Unqueued(s, t) && !IsIdle(s, t)
    requires s.threads[t].state != Running && (s.threads[t].state == Ready ==> t in loose)
    requires Cpu(s, dst) && s.rqs[dst].idle.Some?
    ensures var s' := SetThread(s, t, s.threads[t].(cpu := dst)); InvExcept(s', -1, loose) && !IsIdle(s', t)
  {
    hide QueueOk;
    var s' := SetThread(s, t, s.threads[t].(cpu := dst));
    assert HasHome(s, t) && IdleOk(s, dst);
    forall d | 0 <= d < MAX_CPUS ensures QueueOk(s', d) && IdleOk(s', d) && CurrentOk(s', d) {
      assert QueueOk(s, d) && IdleOk(s, d) && CurrentOk(s, d);
      QueueFrame(s, d, s');
    }
    forall u | u in s'.threads && u !in loose && !IsIdle(s', u) ensures Housed(s', u) {
      if u != t { assert Housed(s, u); }
    }
    forall u | u in s'.threads ensures HasHome(s', u) { assert HasHome(s, u); }
  }

  lemma MoveInv(s: State, src: nat, dst: nat, t: Tid)
    requires Inv(s) && Cpu(s, src) && Cpu(s, dst) && src != dst && t in s.rqs[src].queue && s.rqs[dst].idle.Some?
    ensures Inv(Move(s, src, dst, t))
  {
    hide InvExcept, QueueOk;
    var s1 := Remove(s, src, t);
    Queued(s, src, t);
    RemoveInv(s, -1, {}, src, t);
    assert {} + {t} == {t};
    RehomeInv(s1, {t}, t, dst);
    var s2 := SetThread(s1, t, s1.threads[t].(cpu := dst));
    NotCurrent(s1, {t}, dst, t);
    PlaceInv(s2, -1, -1, {t}, dst, t);
    assert {t} - {t} == {};
  }

  lemma Queued(s: State, c: nat, t: Tid)
    requires Inv(s) && Cpu(s, c) && t in s.rqs[c].queue
    ensures QueuedOk(s, c, t)
  {
    assert QueueOk(s, c);
  }

  lemma ReadyQueued(s: State, t: Tid)
    requires Inv(s) && t in s.threads && !IsIdle(s, t) && s.threads[t].state == Ready && Cpu(s, s.threads[t].cpu)
    ensures t in s.rqs[s.threads[t].cpu].queue
  {
    assert Housed(s, t);
  }

  /** A thread that is not idle is no CPU's idle thread. */
  lemma NotIdle(s: State, t: Tid)
    requires Inv(s) && t in s.threads && !IsIdle(s, t)
    ensures forall d | 0 <= d < |s.rqs| :: s.rqs[d].idle != Some(t)
  {
    hide QueueOk;
    forall d | 0 <= d < |s.rqs| ensures s.rqs[d].idle != Some(t) { assert IdleOk(s, d); }
  }

  lemma NotCurrent(s: State, loose: set<Tid>, c: nat, t: Tid)
    requires InvExcept(s, -1, loose) && Cpu(s, c) && t in s.threads && s.threads[t].state != Running
    ensures s.rqs[c].current != Some(t)
  {
    assert CurrentOk(s, c);
  }

  lemma SwitchInv(s: State, c: nat, cur: Tid, next: Tid)
    requires Inv(s) && Online(s, c) && s.rqs[c].current == Some(cur) && s.rqs[c].idle != Some(cur)
    requires next in s.rqs[c].queue
    ensures next in s.threads && Inv(Switch(s, c, cur, next))
  {
    hide InvExcept, QueueOk;
    CurrentFacts(s, c);
    NotReadyUnqueued(s, -1, {}, cur);
    Queued(s, c, next);
    var s1 := RaiseMin(s, c);
    RaiseInv(s, -1, {}, c);
    PlaceInv(s1, -1, c, {}, c, cur);
    assert {} - {cur} == {};
    var s2 := Place(s1, c, cur);
    InsertByMember(Cmp(s2.threads), s.rqs[c].queue, cur, next);
    RemoveInv(s2, c, {}, c, next);
    assert {} + {next} == {next};
    DispatchInv(Remove(s2, c, next), c, {next}, next);
  }

  lemma CurrentFacts(s: State, c: nat)
    requires Inv(s) && Online(s, c)
    ensures Known(s) && s.rqs[c].current.value in s.threads && s.rqs[c].idle.value in s.threads
    ensures var t := s.rqs[c].current.value; s.threads[t].cpu == c && s.threads[t].state == Running
    ensures s.threads[s.rqs[c].idle.value].cpu == c
    ensures s.rqs[c].current != s.rqs[c].idle ==> !IsIdle(s, s.rqs[c].current.value)
  {
    assert CurrentOk(s, c) && IdleOk(s, c);
  }

  /** Switching from a current thread that has left, to whatever was picked. */
  lemma SwitchAwayInv(s: State, c: nat, next: Tid)
    requires InvExcept(s, c, {}) && Online(s, c) && s.rqs[c].current.value in s.threads
    requires s.threads[s.rqs[c].current.value].state != Running
    requires next in s.rqs[c].queue || (Some(next) == s.rqs[c].idle && next in s.threads && s.threads[next].cpu == c)
    ensures next in s.threads && Inv(SwitchAway(s, c, next))
  {
    assert QueueOk(s, c);
    if next in s.rqs[c].queue {
      assert QueuedOk(s, c, next);
      RemoveInv(s, c, {}, c, next);
      assert {} + {next} == {next};
      DispatchInv(Remove(s, c, next), c, {next}, next);
    } else {
      NotReadyUnqueued(s, c, {}, next);
      DispatchInv(s, c, {}, next);
    }
  }

  /** In every state the invariant allows, `Picked` is the leftmost node, or idle iff there is none. */
  lemma PickedIsLeftmost(s: State, c: nat)
    requires Inv(s) && Online(s, c)
    ensures Known(s) && Picked(s, c) == if s.rqs[c].queue == [] then s.rqs[c].idle.value else s.rqs[c].queue[0]
    ensures Picked(s, c) == s.rqs[c].idle.value <==> s.rqs[c].queue == []
    ensures Picked(s, c) != s.rqs[c].idle.value ==> Picked(s, c) in s.rqs[c].queue
  {
    assert QueueOk(s, c) && IdleOk(s, c);
    PickIsLeftmost(s, c);
    if s.rqs[c].queue != [] { assert QueuedOk(s, c, s.rqs[c].queue[0]); }
  }

  lemma TickInv(s: State, c: nat)
    requires Inv(s) && Cpu(s, c)
    ensures Inv(Tick(s, c))
  {
    hide InvExcept, QueueOk, PickNext, Picked;
    if Online(s, c) {
      var cur, idle := s.rqs[c].current.value, s.rqs[c].idle.value;
      CurrentFacts(s, c);
      NotReadyUnqueued(s, -1, {}, cur);
      var s1 := SetThread(s, cur, s.threads[cur].(vruntime := s.threads[cur].vdeadline));
      RetimeInv(s, -1, {}, cur, s1.threads[cur]);
      if cur == idle {
        PickedIsLeftmost(s1, c);
        var next := Picked(s1, c);
        if next != idle {
          StopInv(s1, c, idle, Ready);
          SwitchAwayInv(SetThread(s1, idle, s1.threads[idle].(state := Ready)), c, next);
        }
      } else {
        var s2 := RaiseMin(s1, c);
        RaiseInv(s1, -1, {}, c);
        PickedIsLeftmost(s2, c);
        if Picked(s2, c) == idle {
          RetimeInv(s2, -1, {}, cur, s2.threads[cur].(vdeadline := s2.threads[cur].vruntime + SLICE_VTIME));
        } else {
          SwitchInv(s2, c, cur, Picked(s2, c));
        }
      }
    }
  }

  lemma YieldInv(s: State, c: nat)
    requires Inv(s) && Online(s, c) && s.rqs[c].current != s.rqs[c].idle
    ensures Inv(Yield(s, c))
  {
    hide InvExcept, QueueOk, PickNext, Picked;
    var cur := s.rqs[c].current.value;
    CurrentFacts(s, c);
    NotReadyUnqueued(s, -1, {}, cur);
    PickedIsLeftmost(s, c);
    var th := s.threads[cur];
    RetimeInv(s, -1, {}, cur, th.(vdeadline := th.vruntime + SLICE_VTIME));
    RetimeInv(s, -1, {}, cur, th.(vruntime := th.vdeadline));
    if Picked(s, c) != s.rqs[c].idle.value && Picked(s, c) != cur {
      SwitchInv(SetThread(s, cur, th.(vruntime := th.vdeadline)), c, cur, Picked(s, c));
    }
  }

  lemma LeaveInv(s: State, c: nat, st: RunState)
    requires Inv(s) && Online(s, c) && s.rqs[c].current != s.rqs[c].idle && (st == Blocked || st == Zombie)
    ensures Inv(Leave(s, c, st))
  {
    hide InvExcept, QueueOk, PickNext, Picked;
    var cur := s.rqs[c].current.value;
    CurrentFacts(s, c);
    PickedIsLeftmost(s, c);
    StopInv(s, c, cur, st);
    SwitchAwayInv(SetThread(s, cur, s.threads[cur].(state := st)), c, Picked(s, c));
  }

  lemma UnblockInv(s: State, t: Tid)
    requires Inv(s) && t in s.threads
    ensures Inv(Unblock(s, t))
  {
    assert IdleOk(s, s.threads[t].cpu);
    if s.threads[t].state == Blocked {
      var c := s.threads[t].cpu;
      NotReadyUnqueued(s, -1, {}, t);
      NotCurrent(s, {}, c, t);
      RaiseInv(s, -1, {}, c);
      PlaceInv(RaiseMin(s, c), -1, -1, {}, c, t);
      assert {} - {t} == {};
    }
  }

  /** Whatever CPU that is up the scan chose. */
  lemma CreateInv(s: State, chosen: Option<nat>)
    requires Inv(s) && (chosen.Some? ==> Up(s, chosen.value))
    ensures Inv(Create(s, chosen))
  {
    if chosen.Some? {
      var c, t := chosen.value, s.nextTid;
      var s1 := Born(s, c);
      BornInv(s, c);
      RaiseInv(s1, -1, {t}, c);
      PlaceInv(RaiseMin(s1, c), -1, -1, {t}, c, t);
      assert {t} - {t} == {};
    }
  }

  lemma BornCpu(s: State, c: nat, d: nat)
    requires Inv(s) && Cpu(s, c) && Cpu(s, d)
    ensures var s1 := Born(s, c); QueueOk(s1, d) && IdleOk(s1, d) && CurrentOk(s1, d)
  {
    hide QueueOk, Housed;
    assert s.nextTid in s.threads ==> HasHome(s, s.nextTid);
    assert QueueOk(s, d) && IdleOk(s, d) && CurrentOk(s, d);
    QueueFrame(s, d, Born(s, c));
  }

  lemma BornInv(s: State, c: nat)
    requires Inv(s) && Cpu(s, c) && s.rqs[c].idle.Some?
    ensures var s1 := Born(s, c); InvExcept(s1, -1, {s.nextTid}) && Unqueued(s1, s.nextTid) && !IsIdle(s1, s.nextTid)
    ensures s.rqs[c].current != Some(s.nextTid)
  {
    hide QueueOk, IdleOk, CurrentOk, Housed, HasHome, Known, IsIdle, Unqueued;
    var s1, t := Born(s, c), s.nextTid;
    BornSelf(s, c);
    forall d | 0 <= d < MAX_CPUS ensures QueueOk(s1, d) && IdleOk(s1, d) && CurrentOk(s1, d) { BornCpu(s, c, d); }
    forall u | u in s.threads ensures HasHome(s1, u) && (!IsIdle(s1, u) ==> Housed(s1, u)) { BornOther(s, c, u); }
  }

  lemma BornSelf(s: State, c: nat)
    requires Inv(s) && Cpu(s, c) && s.rqs[c].idle.Some?
    ensures var s1, t := Born(s, c), s.nextTid;
      && t !in s.threads && |s1.rqs| == MAX_CPUS && HasHome(s1, t) && Unqueued(s1, t) && !IsIdle(s1, t)
      && s.rqs[c].current != Some(t)
  {
    hide QueueOk, Housed;
    assert s.nextTid in s.threads ==> HasHome(s, s.nextTid);
    assert CurrentOk(s, c) && IdleOk(s, c);
  }

  lemma BornOther(s: State, c: nat, u: Tid)
    requires Inv(s) && Cpu(s, c) && u in s.threads && s.nextTid !in s.threads
    ensures var s1 := Born(s, c); HasHome(s1, u) && (!IsIdle(s1, u) ==> Housed(s1, u))
  {
    hide QueueOk, CurrentOk, IdleOk;
    assert HasHome(s, u);
    if !IsIdle(s, u) { assert Housed(s, u); }
  }

  /** Whatever CPU the scan chose, on however old counters. */
  lemma BalanceInv(s: State, dst: nat, src: Option<nat>, locked: bool)
    requires Inv(s) && Online(s, dst) && (src.Some? ==> Cpu(s, src.value) && src.value != dst)
    ensures Inv(LoadBalance(s, dst, src, locked))
  {
    if LoadBalance(s, dst, src, locked) != s {
      var q := s.rqs[src.value].queue;
      MoveInv(s, src.value, dst, q[|q| - 1]);
    }
  }

  lemma MigrateInv(s: State, t: Tid, c: nat)
    requires Inv(s) && t in s.threads && !IsIdle(s, t) && s.threads[t].state != Running
    ensures Inv(Migrate(s, t, c))
  {
    var th := s.threads[t];
    if c < MAX_CPUS && s.rqs[c].idle.Some? && th.cpu != c {
      if th.state == Ready {
        assert Housed(s, t);
        MoveInv(s, th.cpu, c, t);
      } else {
        NotReadyUnqueued(s, -1, {}, t);
        RehomeInv(s, {}, t, c);
      }
    }
  }

  /** The invariant survives migration exactly when the call has no effect or the thread is neither running nor idle. */
  lemma MigrateExact(s: State, t: Tid, c: nat)
    requires Inv(s) && t in s.threads
    ensures Known(s) && var moves := Up(s, c) && s.threads[t].cpu != c;
      Inv(Migrate(s, t, c)) <==> !moves || (!IsIdle(s, t) && s.threads[t].state != Running)
  {
    hide QueueOk;
    var moves := Up(s, c) && s.threads[t].cpu != c;
    if !moves || (!IsIdle(s, t) && s.threads[t].state != Running) {
      if moves { MigrateInv(s, t, c); }
    } else {
      var from, s' := s.threads[t].cpu, Migrate(s, t, c);
      assert HasHome(s, t) && CurrentOk(s, from) && IdleOk(s, from) && QueueOk(s, from);
      if IsIdle(s, t) {
        assert s'.rqs[from].idle == Some(t) && !IdleOk(s', from);
      } else {
        assert Housed(s, t);
        assert !CurrentOk(s', from);
      }
    }
  }

  lemma EmptyQueue(s: State, c: nat)
    requires Cpu(s, c) && s.rqs[c].queue == [] && s.rqs[c].nrRunning == 0
    ensures QueueOk(s, c)
  {
  }

  lemma BringUpInv(s: State, c: nat)
    requires Inv(s) && Cpu(s, c) && s.rqs[c].idle == None
    ensures Inv(BringUp(s, c))
  {
    hide QueueOk;
    var s', t := BringUp(s, c), s.nextTid;
    assert t in s.threads ==> HasHome(s, t);
    forall u | u in s.threads ensures s.threads[u].cpu != c { assert HasHome(s, u); }
    forall d | 0 <= d < MAX_CPUS ensures QueueOk(s', d) && IdleOk(s', d) && CurrentOk(s', d) {
      assert QueueOk(s, d) && IdleOk(s, d) && CurrentOk(s, d);
      if d != c { QueueFrame(s, d, s'); } else { EmptyQueue(s', c); }
    }
    forall u | u in s'.threads && !IsIdle(s', u) ensures Housed(s', u) {
      if u != t { assert Housed(s, u); }
    }
    forall u | u in s'.threads ensures HasHome(s', u) {
      if u != t { assert HasHome(s, u); }
    }
  }

  // ---------------------------------------------------------------- whole runs

  lemma InitInv()
    ensures Inv(Init())
  {
    var s := Init();
    assert HasHome(s, 1) && HasHome(s, 2);
    forall c | 0 <= c < MAX_CPUS ensures QueueOk(s, c) && IdleOk(s, c) && CurrentOk(s, c) {
      EmptyQueue(s, c);
    }
  }

  /** A migration that breaks the invariant: with CPU 1 up, the boot thread is sent there while it runs on CPU 0. */
  lemma MigrateRunning()
    ensures var s := BringUp(Init(), 1); Inv(s) && 1 in s.threads && Known(s) && !Inv(Migrate(s, 1, 1))
  {
    hide InvExcept, Known;
    var s := BringUp(Init(), 1);
    InitInv();
    BringUpInv(Init(), 1);
    assert s.threads[1] == Thread(0, 0, SLICE_VTIME, 0, Running) && s.rqs[1].idle == Some(3);
    MigrateExact(s, 1, 1);
  }

  lemma StepInv(s: State, op: Op)
    requires Inv(s) && Enabled(s, op)
    ensures Inv(Step(s, op))
  {
    hide InvExcept, QueueOk, PickNext, Picked, Tick, Yield, Leave, Unblock, Create, LoadBalance, Migrate, BringUp;
    match op
    case DoTick(c) => TickInv(s, c);
    case DoYield(c) => YieldInv(s, c);
    case DoBlock(c) => LeaveInv(s, c, Blocked);
    case DoExit(c) => LeaveInv(s, c, Zombie);
    case DoUnblock(t) => UnblockInv(s, t);
    case DoCreate(chosen) => CreateInv(s, chosen);
    case DoBalance(c, src, locked) => BalanceInv(s, c, src, locked);
    case DoMigrate(t, c) => MigrateInv(s, t, c);
    case DoBringUp(c) => BringUpInv(s, c);
  }

  lemma {:induction false} RunInv(tr: seq<State>, ops: seq<Op>, i: nat)
    requires Run(tr, ops) && i < |tr|
    ensures Inv(tr[i])
    decreases i
  {
    hide InvExcept, Step;
    if i == 0 {
      InitInv();
    } else {
      RunInv(tr, ops, i - 1);
      StepInv(tr[i - 1], ops[i - 1]);
    }
  }

  /** In every state of every run, `pick_next` returns the leftmost node of the tree, or idle iff the tree is empty. */
  lemma RunPicksLeftmost(tr: seq<State>, ops: seq<Op>, i: nat, c: nat)
    requires Run(tr, ops) && i < |tr| && Online(tr[i], c)
    ensures Known(tr[i])
    ensures PickNext(tr[i], c) == if tr[i].rqs[c].queue == [] then tr[i].rqs[c].idle else Some(tr[i].rqs[c].queue[0])
    ensures PickNext(tr[i], c) == tr[i].rqs[c].idle <==> tr[i].rqs[c].queue == []
  {
    RunInv(tr, ops, i);
    PickedIsLeftmost(tr[i], c);
    PickIsLeftmost(tr[i], c);
  }

  ghost predicate QueuedOn(s: State, t: Tid, c: nat) { c < |s.rqs| && t in s.rqs[c].queue }

  ghost predicate CurrentOn(s: State, t: Tid, c: nat) { c < |s.rqs| && s.rqs[c].current == Some(t) }

  /** Conservation: in every state of every run a thread that is not an idle thread is in exactly one place,
      no idle thread is queued, and the counters equal the tree sizes. */
  lemma RunConserves(tr: seq<State>, ops: seq<Op>, i: nat, t: Tid)
    requires Run(tr, ops) && i < |tr| && t in tr[i].threads
    ensures var s, th := tr[i], tr[i].threads[t];
      && (IsIdle(s, t) ==> forall c :: !QueuedOn(s, t, c))
      && (!IsIdle(s, t) && th.state == Ready ==>
            forall c: nat :: (QueuedOn(s, t, c) <==> c == th.cpu) && !CurrentOn(s, t, c))
      && (!IsIdle(s, t) && th.state == Running ==>
            forall c: nat :: !QueuedOn(s, t, c) && (CurrentOn(s, t, c) <==> c == th.cpu))
      && (th.state == Blocked || th.state == Zombie ==> forall c: nat :: !QueuedOn(s, t, c) && !CurrentOn(s, t, c))
    ensures forall c | 0 <= c < |tr[i].rqs| ::
      NoDup(tr[i].rqs[c].queue) && tr[i].rqs[c].nrRunning == |tr[i].rqs[c].queue|
  {
    RunInv(tr, ops, i);
    var s := tr[i];
    forall c | 0 <= c < |s.rqs|
      ensures t in s.rqs[c].queue ==> QueuedOk(s, c, t)
      ensures s.rqs[c].current == Some(t) ==> s.threads[t].state == Running && s.threads[t].cpu == c
      ensures NoDup(s.rqs[c].queue) && s.rqs[c].nrRunning == |s.rqs[c].queue|
    {
      assert QueueOk(s, c) && CurrentOk(s, c);
    }
    if !IsIdle(s, t) { assert Housed(s, t); }
  }
}
