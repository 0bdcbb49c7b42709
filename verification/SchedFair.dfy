/** One-slice fairness of a runqueue under timer ticks and thread creation. */
module SchedFair {
  import opened OrderedSeq
  import opened Options
  import opened SchedModel
  import opened SchedInv

  /** While a thread runs, every queued deadline is within one slice after its own and the queue's clock within
      one slice before it. While the idle thread runs, every queued thread starts at the queue's clock. */
  ghost predicate Fair(s: State, c: nat)
    requires Known(s)
  {
    Online(s, c) ==>
      var rq := s.rqs[c];
      var cur := s.threads[rq.current.value];
      && rq.minVruntime >= 0
      && if rq.current == rq.idle then forall t | t in rq.queue :: s.threads[t].vstart == rq.minVruntime
         else
           && cur.vruntime <= cur.vdeadline
           && cur.vdeadline - SLICE_VTIME <= rq.minVruntime <= cur.vdeadline
           && forall t | t in rq.queue :: cur.vdeadline <= s.threads[t].vdeadline <= cur.vdeadline + SLICE_VTIME
  }

  // ---------------------------------------------------------------- the queue's clock

  lemma {:induction false} LeastVrBounds(threads: map<Tid, Thread>, q: seq<Tid>, acc: Option<int>, low: int)
    requires forall t | t in q :: t in threads && low <= threads[t].vruntime
    requires acc.Some? ==> low <= acc.value
    ensures var r := LeastVr(threads, q, acc);
      && (acc.Some? ==> r.Some? && r.value <= acc.value)
      && (r.Some? ==> low <= r.value)
      && (r == None <==> acc == None && q == [])
      && (r.Some? ==> forall t | t in q :: r.value <= threads[t].vruntime)
  {
    if q != [] {
      var v := threads[q[0]].vruntime;
      LeastVrBounds(threads, q[1..], if acc == None || v < acc.value then Some(v) else acc, low);
    }
  }

  /** A thread is running: the scan gives at most its runtime, and at least any common lower bound. */
  lemma MinVrRunning(s: State, c: nat, low: int)
    requires Known(s) && Online(s, c) && s.rqs[c].current != s.rqs[c].idle
    requires low <= s.threads[s.rqs[c].current.value].vruntime
    requires forall t | t in s.rqs[c].queue :: low <= s.threads[t].vruntime
    ensures low <= MinVr(s, c) <= s.threads[s.rqs[c].current.value].vruntime
    ensures s.rqs[c].queue == [] ==> MinVr(s, c) == s.threads[s.rqs[c].current.value].vruntime
  {
    LeastVrBounds(s.threads, s.rqs[c].queue, Some(s.threads[s.rqs[c].current.value].vruntime), low);
  }

  function Least(a: int, b: int): int { if a < b then a else b }

  function LowVr(threads: map<Tid, Thread>, q: seq<Tid>): (r: int)
    requires forall t | t in q :: t in threads
    ensures forall t | t in q :: r <= threads[t].vruntime
  {
    if q == [] then 0 else Least(threads[q[0]].vruntime, LowVr(threads, q[1..]))
  }

  /** The clock after raising it: never above the running thread's runtime, unless it already was. */
  lemma ClockBounds(s: State, c: nat, low: int)
    requires Known(s) && Online(s, c) && s.rqs[c].current != s.rqs[c].idle
    requires low <= s.rqs[c].minVruntime
      || (low <= s.threads[s.rqs[c].current.value].vruntime
          && forall t | t in s.rqs[c].queue :: low <= s.threads[t].vruntime)
    ensures var m, v := RaiseMin(s, c).rqs[c].minVruntime, s.threads[s.rqs[c].current.value].vruntime;
      && low <= m && s.rqs[c].minVruntime <= m
      && (s.rqs[c].minVruntime <= v ==> m <= v)
      && (s.rqs[c].queue == [] ==> v <= m)
  {
    var v := s.threads[s.rqs[c].current.value].vruntime;
    MinVrRunning(s, c, Least(v, LowVr(s.threads, s.rqs[c].queue)));
    if low > s.rqs[c].minVruntime { MinVrRunning(s, c, low); }
  }

  // ---------------------------------------------------------------- one tick

  /** What a tick does to the queue of a running thread when another one is waiting. */
  lemma TickEffect(s: State, c: nat)
    requires Inv(s) && Online(s, c) && Fair(s, c)
    requires s.rqs[c].current != s.rqs[c].idle && s.rqs[c].queue != []
    ensures
      var s', rq, cur := Tick(s, c), s.rqs[c], s.rqs[c].current.value;
      var d := s.threads[cur].vdeadline;
      && Cpu(s', c) && s'.rqs[c].current == Some(rq.queue[0]) && s'.rqs[c].idle == rq.idle
        && |s'.rqs[c].queue| == |rq.queue|
      && cur in s'.threads && s'.threads[cur].vdeadline == d + SLICE_VTIME
      && s'.rqs[c].queue == Without(InsertBy(Cmp(s'.threads), rq.queue, cur), rq.queue[0])
      && (forall t | t in s.threads && t != cur ::
            t in s'.threads && s'.threads[t].vdeadline == s.threads[t].vdeadline
              && s'.threads[t].vruntime == s.threads[t].vruntime)
      && rq.minVruntime <= s'.rqs[c].minVruntime <= d
      && s.threads[rq.queue[0]].vdeadline - SLICE_VTIME <= s'.rqs[c].minVruntime
  {
    hide InvExcept, PickNext, Picked, QueueOk, MinVr, InsertBy, Without;
    CurrentFacts(s, c);
    var rq, cur := s.rqs[c], s.rqs[c].current.value;
    var d, next := s.threads[cur].vdeadline, rq.queue[0];
    NotReadyUnqueued(s, -1, {}, cur);
    var s1 := SetThread(s, cur, s.threads[cur].(vruntime := d));
    RetimeInv(s, -1, {}, cur, s1.threads[cur]);
    var s2 := RaiseMin(s1, c);
    RaiseInv(s1, -1, {}, c);
    PickedIsLeftmost(s2, c);
    NextStart(s, c);
    ClockBounds(s1, c, s.threads[next].vdeadline - SLICE_VTIME);
    ClockBounds(s2, c, s2.rqs[c].minVruntime);
    var s3 := Place(RaiseMin(s2, c), c, cur);
    InsertByMember(Cmp(s3.threads), rq.queue, cur, next);
    assert Tick(s, c) == Dispatch(Remove(s3, c, next), c, next);
    assert Tick(s, c).rqs[c].queue == Without(InsertBy(Cmp(s3.threads), rq.queue, cur), next);
    InsertByAgree(Cmp(s3.threads), Cmp(Tick(s, c).threads), rq.queue, cur);
  }

  /** Either the clock has reached the start of the first thread, or nobody's runtime is before that start. */
  lemma NextStart(s: State, c: nat)
    requires Inv(s) && Online(s, c) && Fair(s, c)
    requires s.rqs[c].current != s.rqs[c].idle && s.rqs[c].queue != []
    ensures s.rqs[c].queue[0] in s.threads
    ensures var low := s.threads[s.rqs[c].queue[0]].vdeadline - SLICE_VTIME;
      low <= s.rqs[c].minVruntime
      || (low <= s.threads[s.rqs[c].current.value].vdeadline
          && forall t | t in s.rqs[c].queue :: low <= s.threads[t].vruntime)
  {
    assert QueueOk(s, c);
    var h := s.rqs[c].queue[0];
    assert QueuedOk(s, c, h);
    forall t | t in s.rqs[c].queue
      ensures s.threads[h].vstart <= s.threads[t].vstart
      ensures s.threads[t].vstart == s.threads[t].vruntime || s.threads[t].vstart <= s.rqs[c].minVruntime
    {
      assert QueuedOk(s, c, t);
      if t != h { HeadFirst(s, c, t); }
    }
  }

  lemma TickMember(s: State, c: nat, t: Tid)
    requires Inv(s) && Online(s, c) && Fair(s, c)
    requires s.rqs[c].current != s.rqs[c].idle && s.rqs[c].queue != []
    ensures var s', rq := Tick(s, c), s.rqs[c];
      t in s'.rqs[c].queue <==> t != rq.queue[0] && (t in rq.queue || Some(t) == rq.current)
  {
    hide InvExcept, QueueOk, Tick;
    InvKnown(s);
    TickEffect(s, c);
    var rq, cur := s.rqs[c], s.rqs[c].current.value;
    var th := Tick(s, c).threads;
    CurrentFacts(s, c);
    NotReadyUnqueued(s, -1, {}, cur);
    QueueNoDup(s, c);
    InsertByMember(Cmp(th), rq.queue, cur, t);
    InsertByMember(Cmp(th), rq.queue, cur, rq.queue[0]);
    InsertByNoDup(Cmp(th), rq.queue, cur);
    WithoutKeeps(Cmp(th), InsertBy(Cmp(th), rq.queue, cur), rq.queue[0]);
  }

  lemma QueueNoDup(s: State, c: nat)
    requires Inv(s) && Cpu(s, c)
    ensures NoDup(s.rqs[c].queue)
  {
    assert QueueOk(s, c);
  }

  /** Threads that are queued or current elsewhere do not notice a step on `c`. */
  lemma FairFrame(s: State, s': State, d: nat)
    requires Known(s) && Known(s') && Fair(s, d) && Cpu(s, d) && s'.rqs[d] == s.rqs[d]
    requires forall t | t in s.threads && s.threads[t].cpu == d :: t in s'.threads && s'.threads[t] == s.threads[t]
    requires QueueOk(s, d) && CurrentOk(s, d)
    ensures Fair(s', d)
  {
    forall t | t in s.rqs[d].queue ensures s'.threads[t] == s.threads[t] { assert QueuedOk(s, d, t); }
  }

  lemma FairTickAlone(s: State, c: nat)
    requires Inv(s) && Online(s, c) && Fair(s, c) && s.rqs[c].current != s.rqs[c].idle && s.rqs[c].queue == []
    ensures Known(Tick(s, c)) && Fair(Tick(s, c), c)
  {
    hide InvExcept, QueueOk;
    InvKnown(s);
    var s', cur := Tick(s, c), s.rqs[c].current.value;
    TickInv(s, c);
    InvKnown(s');
    var s1 := SetThread(s, cur, s.threads[cur].(vruntime := s.threads[cur].vdeadline));
    CurrentFacts(s, c);
    NotReadyUnqueued(s, -1, {}, cur);
    RetimeInv(s, -1, {}, cur, s1.threads[cur]);
    RaiseInv(s1, -1, {}, c);
    PickedIsLeftmost(RaiseMin(s1, c), c);
    ClockBounds(s1, c, s.rqs[c].minVruntime);
  }

  lemma FairTickRunning(s: State, c: nat)
    requires Inv(s) && Online(s, c) && Fair(s, c) && s.rqs[c].current != s.rqs[c].idle && s.rqs[c].queue != []
    ensures Known(Tick(s, c)) && Fair(Tick(s, c), c)
  {
    hide InvExcept, QueueOk, Tick;
    var rq, cur := s.rqs[c], s.rqs[c].current.value;
    InvKnown(s);
    var s' := Tick(s, c);
    TickInv(s, c);
    InvKnown(s');
    TickEffect(s, c);
    var h := rq.queue[0];
    Head(s, c, h);
    CurrentFacts(s, c);
    NotReadyUnqueued(s, -1, {}, cur);
    forall t | t in s'.rqs[c].queue
      ensures s'.threads[h].vdeadline <= s'.threads[t].vdeadline <= s'.threads[h].vdeadline + SLICE_VTIME
    {
      TickMember(s, c, t);
      if t != cur { Head(s, c, t); }
    }
    PickedIsLeftmost(s, c);
  }

  lemma InvKnown(s: State)
    requires Inv(s)
    ensures Known(s)
  {
  }

  lemma Head(s: State, c: nat, t: Tid)
    requires Inv(s) && Cpu(s, c) && t in s.rqs[c].queue
    ensures var h := s.rqs[c].queue[0];
      && t in s.threads && h in s.threads && s.threads[h].vdeadline <= s.threads[t].vdeadline
      && s.threads[t].vruntime <= s.threads[t].vstart && s.threads[t].vdeadline == s.threads[t].vstart + SLICE_VTIME
      && (t != h && s.threads[h].vdeadline == s.threads[t].vdeadline ==> h < t)
  {
    assert QueueOk(s, c);
    assert QueuedOk(s, c, t) && QueuedOk(s, c, s.rqs[c].queue[0]);
    if t != s.rqs[c].queue[0] { HeadFirst(s, c, t); }
  }

  lemma FairTickIdle(s: State, c: nat)
    requires Inv(s) && Online(s, c) && Fair(s, c) && s.rqs[c].current == s.rqs[c].idle
    ensures Known(Tick(s, c)) && Fair(Tick(s, c), c)
  {
    hide InvExcept, QueueOk;
    var rq, idle := s.rqs[c], s.rqs[c].idle.value;
    TickInv(s, c);
    InvKnown(s);
    InvKnown(Tick(s, c));
    var s1 := SetThread(s, idle, s.threads[idle].(vruntime := s.threads[idle].vdeadline));
    CurrentFacts(s, c);
    NotReadyUnqueued(s, -1, {}, idle);
    RetimeInv(s, -1, {}, idle, s1.threads[idle]);
    PickedIsLeftmost(s1, c);
    if rq.queue != [] {
      QueueNoDup(s, c);
      WithoutKeeps(Cmp(s.threads), rq.queue, rq.queue[0]);
      forall t | t in rq.queue
        ensures s.threads[t].vdeadline == s.threads[rq.queue[0]].vdeadline
        ensures s.threads[t].vruntime <= s.threads[t].vdeadline
      {
        Head(s, c, t);
        Head(s, c, rq.queue[0]);
      }
      var s2 := SetThread(s1, idle, s1.threads[idle].(state := Ready));
      var s' := Dispatch(Remove(s2, c, rq.queue[0]), c, rq.queue[0]);
      assert Tick(s, c) == s';
      assert s'.rqs[c].current != s'.rqs[c].idle;
      assert s'.threads[rq.queue[0]].vdeadline == s.threads[rq.queue[0]].vdeadline;
      forall t | t in s'.rqs[c].queue ensures s'.threads[t].vdeadline == s'.threads[rq.queue[0]].vdeadline { }
      Head(s, c, rq.queue[0]);
    }
  }

  lemma TickElsewhere(s: State, c: nat, d: nat)
    requires Inv(s) && Cpu(s, c) && Cpu(s, d) && c != d && Fair(s, d)
    ensures Known(Tick(s, c)) && Fair(Tick(s, c), d)
  {
    var s' := Tick(s, c);
    TickInv(s, c);
    if Online(s, c) {
      assert CurrentOk(s, c) && IdleOk(s, c) && QueueOk(s, d) && CurrentOk(s, d);
      TickTouches(s, c);
      FairFrame(s, s', d);
    }
  }

  /** A tick on `c` writes only that runqueue and threads of that CPU. */
  lemma TickTouches(s: State, c: nat)
    requires Inv(s) && Online(s, c)
    ensures var s' := Tick(s, c);
      && |s'.rqs| == |s.rqs| && (forall d | 0 <= d < |s.rqs| && d != c :: s'.rqs[d] == s.rqs[d])
      && (forall t | t in s.threads && s.threads[t].cpu != c :: t in s'.threads && s'.threads[t] == s.threads[t])
  {
    hide InvExcept, QueueOk, InsertBy, Without, Ordered, Picked, MinVr;
    var cur, idle := s.rqs[c].current.value, s.rqs[c].idle.value;
    CurrentFacts(s, c);
    NotReadyUnqueued(s, -1, {}, cur);
    var s1 := SetThread(s, cur, s.threads[cur].(vruntime := s.threads[cur].vdeadline));
    RetimeInv(s, -1, {}, cur, s1.threads[cur]);
    RaiseInv(s1, -1, {}, c);
    PickedIsLeftmost(s1, c);
    PickedIsLeftmost(RaiseMin(s1, c), c);
    if s.rqs[c].queue != [] { Queued(s, c, s.rqs[c].queue[0]); }
  }

  ghost predicate AllFair(s: State) {
    Known(s) && forall c | 0 <= c < MAX_CPUS :: Fair(s, c)
  }

  lemma FairTick(s: State, c: nat)
    requires Inv(s) && Cpu(s, c) && AllFair(s)
    ensures AllFair(Tick(s, c))
  {
    hide InvExcept, Fair, Tick;
    TickInv(s, c);
    InvKnown(Tick(s, c));
    forall d | 0 <= d < MAX_CPUS ensures Fair(Tick(s, c), d) {
      if d != c {
        TickElsewhere(s, c, d);
      } else {
        FairTickHere(s, c);
      }
    }
  }

  lemma FairTickHere(s: State, c: nat)
    requires Inv(s) && Cpu(s, c) && Fair(s, c)
    ensures Known(Tick(s, c)) && Fair(Tick(s, c), c)
  {
    if Online(s, c) {
      if s.rqs[c].current == s.rqs[c].idle { FairTickIdle(s, c); }
      else if s.rqs[c].queue == [] { FairTickAlone(s, c); }
      else { FairTickRunning(s, c); }
    }
  }

  lemma FairCreate(s: State, chosen: Option<nat>)
    requires Inv(s) && AllFair(s) && (chosen.Some? ==> Up(s, chosen.value))
    ensures Known(s) && AllFair(Create(s, chosen))
  {
    hide InvExcept, QueueOk;
    InvKnown(s);
    if chosen.Some? {
      CreateInv(s, chosen);
      var s', c, t := Create(s, chosen), chosen.value, s.nextTid;
      InvKnown(s');
      BornInv(s, c);
      var s1 := Born(s, c);
      FreshTid(s);
      forall d | 0 <= d < MAX_CPUS ensures Fair(s', d) {
        RqFacts(s, d);
        assert Fair(s, d);
        if d != c {
          FairFrame(s, s', d);
        } else {
          FairPlace(s, c);
        }
      }
    }
  }

  lemma FreshTid(s: State)
    requires Inv(s)
    ensures s.nextTid !in s.threads
  {
    assert s.nextTid in s.threads ==> HasHome(s, s.nextTid);
  }

  lemma RqFacts(s: State, c: nat)
    requires Inv(s) && Cpu(s, c)
    ensures QueueOk(s, c) && CurrentOk(s, c)
  {
  }

  /** A new thread starts at the clock, which its arrival cannot push past the running thread's deadline. */
  lemma FairPlace(s: State, c: nat)
    requires Inv(s) && Cpu(s, c) && s.rqs[c].idle.Some? && Fair(s, c) && s.nextTid !in s.threads
    requires Known(Enqueue(Born(s, c), c, s.nextTid))
    ensures Fair(Enqueue(Born(s, c), c, s.nextTid), c)
  {
    hide InvExcept, QueueOk;
    RqFacts(s, c);
    InvKnown(s);
    var s1, t := Born(s, c), s.nextTid;
    var s', rq := Enqueue(s1, c, t), s.rqs[c];
    forall u ensures u in s'.rqs[c].queue <==> u == t || u in rq.queue {
      InsertByMember(Cmp(s'.threads), rq.queue, t, u);
    }
    if rq.current == rq.idle {
      forall u | u in rq.queue ensures s.threads[u].vruntime <= rq.minVruntime { Head(s, c, u); }
      LeastVrBounds(s1.threads, rq.queue, None, LowVr(s1.threads, rq.queue));
      if rq.queue != [] { assert rq.queue[0] in rq.queue; }
    } else {
      var v := s.threads[rq.current.value].vruntime;
      MinVrRunning(s1, c, Least(v, LowVr(s1.threads, rq.queue)));
    }
  }

  // ---------------------------------------------------------------- runs of ticks and creations

  ghost predicate TickOrCreate(op: Op) { op.DoTick? || op.DoCreate? || op.DoBringUp? }

  lemma FairBringUp(s: State, c: nat)
    requires Inv(s) && AllFair(s) && Cpu(s, c) && s.rqs[c].idle == None
    ensures AllFair(BringUp(s, c))
  {
    hide InvExcept, QueueOk;
    var s' := BringUp(s, c);
    BringUpInv(s, c);
    InvKnown(s');
    FreshTid(s);
    forall d | 0 <= d < MAX_CPUS ensures Fair(s', d) {
      RqFacts(s, d);
      assert Fair(s, d);
      if d != c { FairFrame(s, s', d); }
    }
  }

  /** In every run of ticks and thread creations (CPUs may come up at any time), every runqueue stays fair. */
  lemma {:induction false} RunFair(tr: seq<State>, ops: seq<Op>, i: nat)
    requires Run(tr, ops) && i < |tr| && (forall j | 0 <= j < |ops| :: TickOrCreate(ops[j]))
    ensures Inv(tr[i]) && AllFair(tr[i])
    decreases i
  {
    RunInv(tr, ops, i);
    if i > 0 {
      hide InvExcept, AllFair, Step;
      RunFair(tr, ops, i - 1);
      StepFair(tr[i - 1], ops[i - 1]);
    } else {
      InitFair();
    }
  }

  lemma InitFair()
    ensures AllFair(Init())
  {
    InitInv();
  }

  lemma StepFair(s: State, op: Op)
    requires Inv(s) && AllFair(s) && Enabled(s, op) && TickOrCreate(op)
    ensures AllFair(Step(s, op))
  {
    hide InvExcept, AllFair, Tick, Create, BringUp;
    match op {
      case DoTick(c) => FairTick(s, c);
      case DoCreate(chosen) => FairCreate(s, chosen);
      case DoBringUp(c) => FairBringUp(s, c);
      case _ =>
    }
  }

  // ---------------------------------------------------------------- bounded waiting

  ghost predicate Precedes(d: int, u: Tid, e: int, t: Tid) { d < e || (d == e && u < t) }

  /** How often the queued thread `u` can still be dispatched before `t`. */
  ghost function Turns(threads: map<Tid, Thread>, u: Tid, t: Tid): nat
    requires u in threads && t in threads
  {
    var d, e := threads[u].vdeadline, threads[t].vdeadline;
    if !Precedes(d, u, e, t) then 0 else if Precedes(d + SLICE_VTIME, u, e, t) then 2 else 1
  }

  ghost function AllTurns(threads: map<Tid, Thread>, q: seq<Tid>, t: Tid): nat
    requires t in threads && forall u | u in q :: u in threads
  {
    if q == [] then 0 else Turns(threads, q[0], t) + AllTurns(threads, q[1..], t)
  }

  /** Dispatches that can come before that of `t`: of the queued threads, and of the running one once it is back. */
  ghost function Ahead(s: State, c: nat, t: Tid): nat
    requires Known(s) && Online(s, c) && t in s.threads
  {
    var cur := s.rqs[c].current.value;
    AllTurns(s.threads, s.rqs[c].queue, t)
      + if Precedes(s.threads[cur].vdeadline + SLICE_VTIME, cur, s.threads[t].vdeadline, t) then 1 else 0
  }

  lemma {:induction false} AllTurnsFrame(th: map<Tid, Thread>, th': map<Tid, Thread>, q: seq<Tid>, t: Tid)
    requires t in th && t in th' && th'[t].vdeadline == th[t].vdeadline
    requires forall u | u in q :: u in th && u in th' && th'[u].vdeadline == th[u].vdeadline
    ensures AllTurns(th', q, t) == AllTurns(th, q, t)
  {
    if q != [] { AllTurnsFrame(th, th', q[1..], t); }
  }

  lemma {:induction false} AllTurnsBound(threads: map<Tid, Thread>, q: seq<Tid>, t: Tid)
    requires t in threads && forall u | u in q :: u in threads
    ensures AllTurns(threads, q, t) <= 2 * |q| - if t in q then 2 else 0
  {
    if q != [] { AllTurnsBound(threads, q[1..], t); }
  }

  /** Queueing `x` again and taking `y` out changes the count by their turns. */
  lemma AllTurnsSwap(threads: map<Tid, Thread>, cmp: (Tid, Tid) -> int, q: seq<Tid>, x: Tid, y: Tid, t: Tid)
    requires t in threads && x in threads && y in q && forall u | u in q :: u in threads
    ensures var q' := Without(InsertBy(cmp, q, x), y);
      && (forall u | u in q' :: u in threads)
      && AllTurns(threads, q', t) + Turns(threads, y, t) == AllTurns(threads, q, t) + Turns(threads, x, t)
  {
    var r := InsertBy(cmp, q, x);
    forall u | u in r ensures u in threads { InsertByMember(cmp, q, x, u); }
    InsertByMember(cmp, q, x, y);
    AllTurnsInsert(threads, cmp, q, x, t);
    AllTurnsWithout(threads, r, y, t);
  }

  lemma {:induction false} AllTurnsInsert(threads: map<Tid, Thread>, cmp: (Tid, Tid) -> int, q: seq<Tid>, x: Tid,
      t: Tid)
    requires t in threads && x in threads && forall u | u in q :: u in threads
    ensures forall u | u in InsertBy(cmp, q, x) :: u in threads
    ensures AllTurns(threads, InsertBy(cmp, q, x), t) == AllTurns(threads, q, t) + Turns(threads, x, t)
  {
    if q == [] || cmp(x, q[0]) < 0 {
      assert ([x] + q)[1..] == q;
    } else {
      AllTurnsInsert(threads, cmp, q[1..], x, t);
      assert ([q[0]] + InsertBy(cmp, q[1..], x))[1..] == InsertBy(cmp, q[1..], x);
    }
  }

  lemma {:induction false} AllTurnsWithout(threads: map<Tid, Thread>, q: seq<Tid>, y: Tid, t: Tid)
    requires t in threads && y in q && forall u | u in q :: u in threads
    ensures forall u | u in Without(q, y) :: u in threads
    ensures AllTurns(threads, Without(q, y), t) + Turns(threads, y, t) == AllTurns(threads, q, t)
  {
    if q[0] != y {
      AllTurnsWithout(threads, q[1..], y, t);
      assert ([q[0]] + Without(q[1..], y))[1..] == Without(q[1..], y);
    }
  }

  /** Each tick either dispatches the waiting thread or uses up one of the turns ahead of it. */
  lemma TickAhead(s: State, c: nat, t: Tid)
    requires Inv(s) && Online(s, c) && Fair(s, c) && s.rqs[c].current != s.rqs[c].idle
    requires t in s.rqs[c].queue && t != s.rqs[c].queue[0]
    ensures t in s.threads && Inv(Tick(s, c)) && Online(Tick(s, c), c)
    ensures var s' := Tick(s, c);
      && s'.rqs[c].current != s'.rqs[c].idle
      && t in s'.rqs[c].queue && t in s'.threads
      && Ahead(s', c, t) + 1 == Ahead(s, c, t)
  {
    hide InvExcept, QueueOk, Tick;
    InvKnown(s);
    TickInv(s, c);
    var s', rq, cur := Tick(s, c), s.rqs[c], s.rqs[c].current.value;
    InvKnown(s');
    TickEffect(s, c);
    TickMember(s, c, t);
    PickedIsLeftmost(s, c);
    var h := rq.queue[0];
    Head(s, c, t);
    CurrentFacts(s, c);
    NotReadyUnqueued(s, -1, {}, cur);
    var th := s'.threads;
    assert forall u | u in rq.queue :: u in s.threads && u != cur;
    AllTurnsSwap(s'.threads, Cmp(th), rq.queue, cur, h, t);
    AllTurnsFrame(s.threads, s'.threads, rq.queue, t);
  }

  ghost predicate CpuRow(cs: seq<nat>) { forall i | 0 <= i < |cs| :: cs[i] < MAX_CPUS }

  /** Timer ticks on the CPUs of `cs`, in that order. */
  ghost function Ticks(s: State, cs: seq<nat>): (r: State)
    requires Inv(s) && CpuRow(cs)
    ensures Inv(r)
    decreases |cs|
  {
    if cs == [] then s
    else
      CpuIn(s, cs[0]);
      TickInv(s, cs[0]);
      Ticks(Tick(s, cs[0]), cs[1..])
  }

  lemma CpuIn(s: State, c: nat)
    requires Inv(s) && c < MAX_CPUS
    ensures Known(s) && Cpu(s, c)
  {
  }

  /** How many of them are on `c`. */
  ghost function TicksOn(cs: seq<nat>, c: nat): nat {
    if cs == [] then 0 else (if cs[0] == c then 1 else 0) + TicksOn(cs[1..], c)
  }

  /** A tick on another CPU changes nothing for those who wait on `c`. */
  lemma TickBeside(s: State, c: nat, d: nat, t: Tid)
    requires Inv(s) && Online(s, c) && Cpu(s, d) && c != d && Fair(s, c) && t in s.rqs[c].queue
    ensures Known(s) && t in s.threads && var s' := Tick(s, d);
      && Inv(s') && Known(s') && Online(s', c) && Fair(s', c) && s'.rqs[c] == s.rqs[c] && t in s'.threads
      && Ahead(s', c, t) == Ahead(s, c, t)
  {
    hide InvExcept, QueueOk, Tick, Fair, AllTurns;
    InvKnown(s);
    TickInv(s, d);
    InvKnown(Tick(s, d));
    TickElsewhere(s, d, c);
    Queued(s, c, t);
    CurrentFacts(s, c);
    if Online(s, d) {
      TickTouches(s, d);
      forall u | u in s.rqs[c].queue ensures u in s.threads && s.threads[u].cpu == c { Queued(s, c, u); }
      AllTurnsFrame(s.threads, Tick(s, d).threads, s.rqs[c].queue, t);
    } else {
      TickOffline(s, d);
    }
  }

  lemma {:induction false} DispatchedAmong(s: State, c: nat, t: Tid, cs: seq<nat>) returns (k: nat)
    requires Inv(s) && Online(s, c) && Fair(s, c) && s.rqs[c].current != s.rqs[c].idle && t in s.rqs[c].queue
    requires CpuRow(cs) && Known(s) && t in s.threads && TicksOn(cs, c) > Ahead(s, c, t)
    ensures 1 <= k <= |cs| && var r := Ticks(s, cs[..k]); Cpu(r, c) && r.rqs[c].current == Some(t)
    decreases |cs|
  {
    hide InvExcept, QueueOk, Tick, Fair, Ahead;
    var d := cs[0];
    CpuIn(s, d);
    TickInv(s, d);
    var s' := Tick(s, d);
    if d == c && t == s.rqs[c].queue[0] {
      k := 1;
      TickEffect(s, c);
      assert cs[..1] == [d] && [d][1..] == [];
      assert Ticks(s, [d]) == Ticks(s', []);
    } else {
      if d == c {
        TickAhead(s, c, t);
        FairTickHere(s, c);
      } else {
        TickBeside(s, c, d, t);
      }
      var j := DispatchedAmong(s', c, t, cs[1..]);
      k := j + 1;
      assert cs[..k][1..] == cs[1..][..j] && cs[..k][0] == d;
    }
  }

  /** Bounded waiting: with n = |queue| + 1 runnable threads on a CPU, a queued thread is running there at some point of
      any row of ticks, on whatever CPUs, that has at least 2(n - 1) on this one. */
  lemma BoundedWait(s: State, c: nat, t: Tid, cs: seq<nat>)
    requires Inv(s) && Online(s, c) && Fair(s, c) && s.rqs[c].current != s.rqs[c].idle && t in s.rqs[c].queue
    requires CpuRow(cs) && TicksOn(cs, c) >= 2 * |s.rqs[c].queue|
    ensures exists k: nat ::
      1 <= k <= |cs| && Cpu(Ticks(s, cs[..k]), c) && Ticks(s, cs[..k]).rqs[c].current == Some(t)
  {
    hide InvExcept, QueueOk, Fair;
    InvKnown(s);
    Queued(s, c, t);
    AllTurnsBound(s.threads, s.rqs[c].queue, t);
    var k := DispatchedAmong(s, c, t, cs);
  }

  lemma CpuKnown(s: State, t: Tid)
    requires Known(s) && t in s.threads
    ensures Cpu(s, s.threads[t].cpu)
  {
  }

  lemma SwitchClock(s: State, c: nat, d: nat)
    requires Known(s) && Online(s, c) && Online(s, d)
    ensures Cpu(Tick(s, d), c) && s.rqs[c].minVruntime <= Tick(s, d).rqs[c].minVruntime
    ensures Cpu(Yield(s, d), c) && s.rqs[c].minVruntime <= Yield(s, d).rqs[c].minVruntime
  {
    hide Known, PickNext, Picked, MinVr, InsertBy, Without, Cmp;
  }

  lemma LeaveClock(s: State, c: nat, d: nat, st: RunState)
    requires Known(s) && Online(s, c) && Online(s, d)
    ensures Cpu(Leave(s, d, st), c) && s.rqs[c].minVruntime <= Leave(s, d, st).rqs[c].minVruntime
  {
    hide Known, PickNext, Picked, MinVr, InsertBy, Without, Cmp;
  }

  /** No step turns back the clock of a CPU that is up. */
  lemma ClockMonotone(s: State, op: Op, c: nat)
    requires Enabled(s, op) && Online(s, c)
    ensures Cpu(Step(s, op), c) && s.rqs[c].minVruntime <= Step(s, op).rqs[c].minVruntime
  {
    hide Known, PickNext, Picked, MinVr, LeastLoaded, Busiest, InsertBy, Without, Cmp, Tick, Yield, Leave;
    match op
    case DoTick(d) => if Online(s, d) { SwitchClock(s, c, d); } else { TickOffline(s, d); }
    case DoYield(d) => SwitchClock(s, c, d);
    case DoBlock(d) => LeaveClock(s, c, d, Blocked);
    case DoExit(d) => LeaveClock(s, c, d, Zombie);
    case DoUnblock(t) => CpuKnown(s, t);
    case DoCreate(chosen) =>
    case DoBalance(d, src, locked) =>
    case DoMigrate(t, d) => CpuKnown(s, t);
    case DoBringUp(d) =>
  }

  lemma TickOffline(s: State, c: nat)
    requires Known(s) && Cpu(s, c) && !Online(s, c)
    ensures Tick(s, c) == s
  {
  }
}
