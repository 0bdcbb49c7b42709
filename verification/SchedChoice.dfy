/** What the scheduler's choices mean: which CPU, which clock, which thread. */
module SchedChoice {
  import opened OrderedSeq
  import opened Options
  import opened SchedModel
  import opened SchedInv
  import opened SchedFair

  /** `sched_thread_create` places a thread on the first of the CPUs that are up and have the fewest queued threads. */
  lemma {:induction false} LeastLoadedFirst(s: State, i: nat, best: Option<nat>)
    requires |s.rqs| == MAX_CPUS && i <= MAX_CPUS && (best.Some? ==> best.value < i && Up(s, best.value))
    requires best.Some? ==> forall d | 0 <= d < i && Up(s, d) ::
      if d < best.value then s.rqs[best.value].nrRunning < s.rqs[d].nrRunning
        else s.rqs[best.value].nrRunning <= s.rqs[d].nrRunning
    requires best.None? ==> forall d | 0 <= d < i :: !Up(s, d)
    ensures var r := LeastLoaded(s, i, best);
      if r.None? then forall d | 0 <= d < MAX_CPUS :: !Up(s, d)
      else Up(s, r.value) && forall d | 0 <= d < MAX_CPUS && Up(s, d) ::
        if d < r.value then s.rqs[r.value].nrRunning < s.rqs[d].nrRunning
          else s.rqs[r.value].nrRunning <= s.rqs[d].nrRunning
    decreases MAX_CPUS - i
  {
    if i < MAX_CPUS {
      if s.rqs[i].idle.Some? && (best == None || s.rqs[i].nrRunning < s.rqs[best.value].nrRunning) {
        LeastLoadedFirst(s, i + 1, Some(i));
      } else {
        LeastLoadedFirst(s, i + 1, best);
      }
    }
  }

  predicate Rich(s: State, dst: nat, c: nat) { Up(s, c) && c != dst && s.rqs[c].nrRunning > 1 }

  /** `load_balance` takes from the first of the other CPUs with the most queued threads, if that is more than one. */
  lemma {:induction false} BusiestFirst(s: State, dst: nat, i: nat, best: Option<nat>)
    requires |s.rqs| == MAX_CPUS && i <= MAX_CPUS && (best.Some? ==> best.value < i && Rich(s, dst, best.value))
    requires best.Some? ==> forall d | 0 <= d < i && Rich(s, dst, d) ::
      if d < best.value then s.rqs[best.value].nrRunning > s.rqs[d].nrRunning
        else s.rqs[best.value].nrRunning >= s.rqs[d].nrRunning
    requires best.None? ==> forall d | 0 <= d < i :: !Rich(s, dst, d)
    ensures var r := Busiest(s, dst, i, best);
      if r.None? then forall d | 0 <= d < MAX_CPUS :: !Rich(s, dst, d)
      else Rich(s, dst, r.value) && forall d | 0 <= d < MAX_CPUS && Rich(s, dst, d) ::
        if d < r.value then s.rqs[r.value].nrRunning > s.rqs[d].nrRunning
          else s.rqs[r.value].nrRunning >= s.rqs[d].nrRunning
    decreases MAX_CPUS - i
  {
    if i < MAX_CPUS {
      var most := if best.Some? then s.rqs[best.value].nrRunning else 1;
      if i != dst && s.rqs[i].idle.Some? && s.rqs[i].nrRunning > most {
        BusiestFirst(s, dst, i + 1, Some(i));
      } else {
        BusiestFirst(s, dst, i + 1, best);
      }
    }
  }

  /** The threads whose runtimes `rq_min_vr` looks at. */
  predicate Counts(s: State, c: nat, t: Tid)
    requires Cpu(s, c)
  {
    t in s.rqs[c].queue || (s.rqs[c].current == Some(t) && s.rqs[c].current != s.rqs[c].idle)
  }

  lemma {:induction false} LeastVrLeast(threads: map<Tid, Thread>, q: seq<Tid>, acc: Option<int>)
    requires forall t | t in q :: t in threads
    ensures var r := LeastVr(threads, q, acc);
      && (r.None? <==> q == [] && acc.None?)
      && (r.Some? ==>
        && (forall t | t in q :: r.value <= threads[t].vruntime) && (acc.Some? ==> r.value <= acc.value)
        && (r == acc || exists t | t in q :: threads[t].vruntime == r.value))
  {
    if q != [] {
      var v := threads[q[0]].vruntime;
      LeastVrLeast(threads, q[1..], if acc == None || v < acc.value then Some(v) else acc);
      assert q[0] in q;
    }
  }

  /** `rq_min_vr` is the least runtime of the queue and the running thread, and the old clock if there is none. */
  lemma MinVrLeast(s: State, c: nat)
    requires Known(s) && Cpu(s, c)
    ensures forall t | Counts(s, c, t) :: t in s.threads && MinVr(s, c) <= s.threads[t].vruntime
    ensures (exists t | Counts(s, c, t) :: t in s.threads && MinVr(s, c) == s.threads[t].vruntime)
      || ((forall t :: !Counts(s, c, t)) && MinVr(s, c) == s.rqs[c].minVruntime)
  {
    var rq := s.rqs[c];
    var start := if rq.current.Some? && rq.current != rq.idle then Some(s.threads[rq.current.value].vruntime) else None;
    LeastVrLeast(s.threads, rq.queue, start);
    if rq.current.Some? && rq.current != rq.idle { assert Counts(s, c, rq.current.value); }
    var r := LeastVr(s.threads, rq.queue, start);
    if r.Some? && r != start {
      var t :| t in rq.queue && s.threads[t].vruntime == r.value;
      assert Counts(s, c, t);
    }
  }

  /** The later of the clock of `c` and the earliest runtime there. */
  ghost predicate Advanced(s: State, c: nat, clock: int)
    requires Known(s) && Cpu(s, c)
  {
    var was := s.rqs[c].minVruntime;
    && was <= clock
    && (clock == was || exists t | Counts(s, c, t) :: s.threads[t].vruntime == clock)
    && (clock == was || forall t | Counts(s, c, t) :: clock <= s.threads[t].vruntime)
    && ((exists t :: Counts(s, c, t)) ==> exists t | Counts(s, c, t) :: s.threads[t].vruntime <= clock)
  }

  lemma RaiseAdvances(s: State, c: nat)
    requires Known(s) && Cpu(s, c)
    ensures Advanced(s, c, RaiseMin(s, c).rqs[c].minVruntime)
  {
    hide Known, MinVr;
    MinVrLeast(s, c);
  }

  /** There is only one such clock. */
  lemma AdvancedOnce(s: State, c: nat, clock: int, clock': int)
    requires Known(s) && Cpu(s, c) && Advanced(s, c, clock) && Advanced(s, c, clock')
    ensures clock == clock'
  {
  }

  // ---------------------------------------------------------------- outcomes

  /** Nothing changes but the threads `ts` and the queues, clocks and current threads of `cs`. */
  predicate OnlyAt(s: State, s': State, cs: set<nat>, ts: set<Tid>) {
    && s'.nextTid == s.nextTid && |s'.rqs| == |s.rqs| && s'.threads.Keys == s.threads.Keys
    && (forall d | 0 <= d < |s.rqs| :: s'.rqs[d].idle == s.rqs[d].idle && (d !in cs ==> s'.rqs[d] == s.rqs[d]))
    && (forall t | t in s.threads && t !in ts :: s'.threads[t] == s.threads[t])
  }

  /** Thread `t` waits on `c` from the later of its runtime and the clock there, for one slice. */
  predicate Waits(s: State, c: nat, t: Tid, vruntime: int)
    requires Cpu(s, c)
  {
    t in s.threads && var start := Max(vruntime, s.rqs[c].minVruntime);
    s.threads[t] == Thread(vruntime, start, start + SLICE_VTIME, c, Ready)
  }

  /** In deadline order, older threads first among equals. */
  predicate Before(threads: map<Tid, Thread>, a: Tid, b: Tid) {
    && a in threads && b in threads
    && (threads[a].vdeadline < threads[b].vdeadline || (threads[a].vdeadline == threads[b].vdeadline && a < b))
  }

  /** From `s` to `s'` thread `t` joined the queue of `c`: the others wait as before, and the whole queue is in
      order. */
  ghost predicate Joined(s: State, s': State, c: nat, t: Tid)
    requires Cpu(s, c) && Cpu(s', c)
  {
    var q := s'.rqs[c].queue;
    && t !in s.rqs[c].queue && t in q && Without(q, t) == s.rqs[c].queue
    && s'.rqs[c].nrRunning == s.rqs[c].nrRunning + 1
    && forall i, j | 0 <= i < j < |q| :: Before(s'.threads, q[i], q[j])
  }

  lemma {:induction false} WithoutInsert(cmp: (Tid, Tid) -> int, q: seq<Tid>, t: Tid)
    requires t !in q
    ensures t in InsertBy(cmp, q, t) && Without(InsertBy(cmp, q, t), t) == q
  {
    hide InsertBy, Without;
    InsertBySplit(cmp, q, t);
    var k := InsertPos(cmp, q, t);
    WithoutAt(q[..k], q[k..], t);
    assert q[..k] + q[k..] == q;
  }

  lemma QueueOrder(s: State, c: nat, i: nat, j: nat)
    requires Inv(s) && Cpu(s, c) && i < j < |s.rqs[c].queue|
    ensures Before(s.threads, s.rqs[c].queue[i], s.rqs[c].queue[j])
  {
    var q := s.rqs[c].queue;
    assert QueueOk(s, c);
    assert QueuedOk(s, c, q[i]) && QueuedOk(s, c, q[j]);
    assert Cmp(s.threads)(q[j], q[i]) >= 0;
  }

  lemma Joins(s: State, s': State, cmp: (Tid, Tid) -> int, c: nat, t: Tid)
    requires Cpu(s, c) && Cpu(s', c) && Inv(s') && t !in s.rqs[c].queue
    requires s'.rqs[c].queue == InsertBy(cmp, s.rqs[c].queue, t) && s'.rqs[c].nrRunning == s.rqs[c].nrRunning + 1
    ensures Joined(s, s', c, t)
  {
    hide InvExcept, InsertBy, Without, Before;
    WithoutInsert(cmp, s.rqs[c].queue, t);
    var q := s'.rqs[c].queue;
    forall i, j | 0 <= i < j < |q| ensures Before(s'.threads, q[i], q[j]) {
      QueueOrder(s', c, i, j);
    }
  }

  /** On `c` the first thread of the queue takes over from `cur`, which waits among the others in deadline order. */
  ghost predicate HandedOver(s: State, s': State, c: nat, cur: Tid)
    requires Cpu(s, c) && s.rqs[c].queue != []
  {
    var q, next := s.rqs[c].queue, s.rqs[c].queue[0];
    && Cpu(s', c) && next in s.threads && next in s'.threads && next != cur && OnlyAt(s, s', {c}, {cur, next})
    && s'.rqs[c].current == Some(next) && s'.threads[next] == s.threads[next].(state := Running)
    && var q' := s'.rqs[c].queue;
    && s'.rqs[c].nrRunning == s.rqs[c].nrRunning && cur in q' && Without(q', cur) == q[1..]
    && forall i, j | 0 <= i < j < |q'| :: Before(s'.threads, q'[i], q'[j])
  }

  lemma Rotated(cmp: (Tid, Tid) -> int, q: seq<Tid>, cur: Tid)
    requires q != [] && cur !in q && NoDup(q)
    ensures var q' := Without(InsertBy(cmp, q, cur), q[0]); cur in q' && Without(q', cur) == q[1..]
  {
    hide InsertBy, Without;
    var ins := InsertBy(cmp, q, cur);
    InsertByMember(cmp, q, cur, cur);
    InsertByMember(cmp, q, cur, q[0]);
    InsertByNoDup(cmp, q, cur);
    WithoutMember(ins, q[0], cur);
    WithoutCommutes(ins, q[0], cur);
    WithoutInsert(cmp, q, cur);
    WithoutAt([], q[1..], q[0]);
    assert [] + [q[0]] + q[1..] == q && [] + q[1..] == q[1..];
  }

  /** The switch of a charged thread to the first in the queue. */
  lemma SwitchHandsOver(s: State, c: nat, cur: Tid)
    requires Inv(s) && Online(s, c) && s.rqs[c].current == Some(cur) && s.rqs[c].current != s.rqs[c].idle
    requires s.rqs[c].queue != []
    ensures Known(s) && cur in s.threads && s.rqs[c].queue[0] in s.threads
    ensures var s' := Switch(s, c, cur, s.rqs[c].queue[0]);
      && HandedOver(s, s', c, cur) && Advanced(s, c, s'.rqs[c].minVruntime)
      && Waits(s', c, cur, s.threads[cur].vruntime)
  {
    hide InvExcept, PickNext, Picked, QueueOk, MinVr, InsertBy, Without, Cmp, Before, Advanced;
    CurrentFacts(s, c);
    NotReadyUnqueued(s, -1, {}, cur);
    var next := s.rqs[c].queue[0];
    Queued(s, c, next);
    RaiseAdvances(s, c);
    var s' := Switch(s, c, cur, next);
    SwitchInv(s, c, cur, next);
    NoDupQueue(s, c);
    Rotated(Cmp(Enqueue(s, c, cur).threads), s.rqs[c].queue, cur);
    var q' := s'.rqs[c].queue;
    forall i, j | 0 <= i < j < |q'| ensures Before(s'.threads, q'[i], q'[j]) { QueueOrder(s', c, i, j); }
  }

  lemma NoDupQueue(s: State, c: nat)
    requires Inv(s) && Cpu(s, c)
    ensures NoDup(s.rqs[c].queue)
  {
    assert QueueOk(s, c);
  }

  /** The current thread of `c` after its slice was charged. */
  function Charged(s: State, c: nat): State
    requires Known(s) && Online(s, c)
  {
    var cur := s.rqs[c].current.value;
    SetThread(s, cur, s.threads[cur].(vruntime := s.threads[cur].vdeadline))
  }

  /** A yield charges the full slice and hands over to the first thread in the queue; alone, it only renews the
      deadline. */
  lemma YieldHandsOver(s: State, c: nat)
    requires Inv(s) && Online(s, c) && s.rqs[c].current != s.rqs[c].idle
    ensures Known(s) && var s', rq, cur := Yield(s, c), s.rqs[c], s.rqs[c].current.value; var th := s.threads[cur];
      if rq.queue == [] then
        s' == s.(threads := s.threads[cur := th.(vdeadline := th.vruntime + SLICE_VTIME)])
      else
        && HandedOver(s, s', c, cur) && Advanced(Charged(s, c), c, s'.rqs[c].minVruntime)
        && Waits(s', c, cur, th.vdeadline)
  {
    hide InvExcept, PickNext, Picked, QueueOk, MinVr, InsertBy, Without, Cmp, Advanced, Before;
    InvKnown(s);
    CurrentFacts(s, c);
    PickedIsLeftmost(s, c);
    var cur := s.rqs[c].current.value;
    NotReadyUnqueued(s, -1, {}, cur);
    if s.rqs[c].queue != [] {
      var s1 := Charged(s, c);
      RetimeInv(s, -1, {}, cur, s1.threads[cur]);
      SwitchHandsOver(s1, c, cur);
    }
  }

  /** A tick while another thread waits charges the slice and hands over to the first in the queue. */
  lemma TickHandsOver(s: State, c: nat)
    requires Inv(s) && Online(s, c) && s.rqs[c].current != s.rqs[c].idle && s.rqs[c].queue != []
    ensures Known(s) && var s', cur := Tick(s, c), s.rqs[c].current.value;
      && HandedOver(s, s', c, cur) && Advanced(Charged(s, c), c, s'.rqs[c].minVruntime)
      && Waits(s', c, cur, s.threads[cur].vdeadline)
  {
    hide InvExcept, PickNext, Picked, QueueOk, MinVr, InsertBy, Without, Cmp, Advanced, Before;
    InvKnown(s);
    CurrentFacts(s, c);
    var cur, s1 := s.rqs[c].current.value, Charged(s, c);
    NotReadyUnqueued(s, -1, {}, cur);
    RetimeInv(s, -1, {}, cur, s1.threads[cur]);
    var s2 := RaiseMin(s1, c);
    RaiseInv(s1, -1, {}, c);
    PickedIsLeftmost(s2, c);
    RaiseTwice(s1, c);
    SwitchHandsOver(s2, c, cur);
    RaiseAdvances(s1, c);
    RaiseAdvances(s2, c);
    AdvancedOnce(s2, c, Tick(s, c).rqs[c].minVruntime, RaiseMin(s2, c).rqs[c].minVruntime);
  }

  lemma RaiseTwice(s: State, c: nat)
    requires Known(s) && Cpu(s, c)
    ensures RaiseMin(RaiseMin(s, c), c) == RaiseMin(s, c)
  {
  }

  /** A tick while nobody else waits, or while the CPU is idle: a thread alone gets another slice, an idle CPU goes to
      the first in the queue. */
  lemma TickOtherwise(s: State, c: nat)
    requires Inv(s) && Online(s, c) && (s.rqs[c].current == s.rqs[c].idle || s.rqs[c].queue == [])
    ensures Known(s) && var s', rq, cur := Tick(s, c), s.rqs[c], s.rqs[c].current.value; var th := s.threads[cur];
      && Cpu(s', c) && cur in s'.threads
      && if rq.queue != [] then
           var next := rq.queue[0];
           && next in s.threads && next in s'.threads && next != cur && OnlyAt(s, s', {c}, {cur, next})
           && s'.threads[cur] == th.(vruntime := th.vdeadline, state := Ready)
           && s'.threads[next] == s.threads[next].(state := Running)
           && s'.rqs[c] == rq.(queue := rq.queue[1..], nrRunning := rq.nrRunning - 1, current := Some(next))
         else if rq.current == rq.idle then s' == Charged(s, c)
         else
           && OnlyAt(s, s', {c}, {cur}) && s'.rqs[c] == rq.(minVruntime := s'.rqs[c].minVruntime)
           && Advanced(Charged(s, c), c, s'.rqs[c].minVruntime)
           && s'.threads[cur] == th.(vruntime := th.vdeadline, vdeadline := th.vdeadline + SLICE_VTIME)
  {
    hide InvExcept, QueueOk, PickNext, Picked, MinVr, InsertBy, Without, Cmp, Advanced;
    InvKnown(s);
    CurrentFacts(s, c);
    var cur, s1 := s.rqs[c].current.value, Charged(s, c);
    NotReadyUnqueued(s, -1, {}, cur);
    RetimeInv(s, -1, {}, cur, s1.threads[cur]);
    RaiseInv(s1, -1, {}, c);
    RaiseAdvances(s1, c);
    PickedIsLeftmost(s1, c);
    PickedIsLeftmost(RaiseMin(s1, c), c);
    if s.rqs[c].queue != [] {
      Queued(s, c, s.rqs[c].queue[0]);
      FirstOut(s.rqs[c].queue);
    }
  }

  lemma FirstOut(q: seq<Tid>)
    requires q != []
    ensures Without(q, q[0]) == q[1..]
  {
  }

  /** A thread that blocks or exits leaves the CPU to the first thread in the queue, or to the idle thread. */
  lemma LeaveHandsOver(s: State, c: nat, st: RunState)
    requires Inv(s) && Online(s, c) && s.rqs[c].current != s.rqs[c].idle
    ensures Known(s) && var s', rq, cur := Leave(s, c, st), s.rqs[c], s.rqs[c].current.value;
      && Cpu(s', c) && cur in s'.threads && s'.threads[cur] == s.threads[cur].(state := st)
      && var next := if rq.queue == [] then rq.idle.value else rq.queue[0];
      && next != cur && next in s.threads && next in s'.threads && OnlyAt(s, s', {c}, {cur, next})
      && s'.threads[next] == s.threads[next].(state := Running)
      && s'.rqs[c] == if rq.queue == [] then rq.(current := rq.idle)
           else rq.(queue := rq.queue[1..], nrRunning := rq.nrRunning - 1, current := Some(next))
  {
    hide InvExcept, PickNext, Picked, QueueOk, MinVr, InsertBy, Without, Cmp;
    InvKnown(s);
    CurrentFacts(s, c);
    PickedIsLeftmost(s, c);
    NotReadyUnqueued(s, -1, {}, s.rqs[c].current.value);
    if s.rqs[c].queue != [] {
      Queued(s, c, s.rqs[c].queue[0]);
      FirstOut(s.rqs[c].queue);
    }
  }

  /** Waking a blocked thread brings the clock of its CPU up to date and queues it there, not before the clock; waking
      any other does nothing. */
  lemma UnblockWakes(s: State, t: Tid)
    requires Inv(s) && t in s.threads
    ensures Known(s) && var s', c := Unblock(s, t), s.threads[t].cpu;
      && Cpu(s, c) && Cpu(s', c) && t in s'.threads
      && (s.threads[t].state != Blocked ==> s' == s)
      && (s.threads[t].state == Blocked ==>
        && Joined(s, s', c, t)
        && Advanced(s, c, s'.rqs[c].minVruntime) && Waits(s', c, t, s.threads[t].vruntime)
        && OnlyAt(s, s', {c}, {t}) && s'.rqs[c].current == s.rqs[c].current)
  {
    hide InvExcept, QueueOk, MinVr, InsertBy, Cmp, Known, Joined, Advanced;
    InvKnown(s);
    CpuKnown(s, t);
    CpuCount(s);
    if s.threads[t].state == Blocked {
      var c := s.threads[t].cpu;
      NotReadyUnqueued(s, -1, {}, t);
      RaiseAdvances(s, c);
      UnblockInv(s, t);
      Joins(s, Unblock(s, t), Cmp(Unblock(s, t).threads), c, t);
    }
  }

  lemma CpuCount(s: State)
    requires Known(s)
    ensures |s.rqs| == MAX_CPUS
  {
  }

  /** Balancing moves nothing, or the last thread of the chosen queue if more than one waits there: it then waits on
      `dst` among the others in deadline order, and no CPU's current thread changes. */
  lemma BalanceMoves(s: State, dst: nat, src: Option<nat>, locked: bool)
    requires Inv(s) && Online(s, dst) && (src.Some? ==> Cpu(s, src.value) && src.value != dst)
    ensures Known(s) && var s' := LoadBalance(s, dst, src, locked);
      if src.None? || !locked || |s.rqs[src.value].queue| <= 1 then s' == s
      else
        && |s'.rqs| == |s.rqs| && var q := s.rqs[src.value].queue;
        && s'.rqs[src.value].queue == q[..|q| - 1] && s'.rqs[src.value].nrRunning == |q| - 1
        && q[|q| - 1] in s.threads && Joined(s, s', dst, q[|q| - 1]) && Carried(s, s', src.value, dst, q[|q| - 1])
  {
    hide InvExcept, QueueOk, MinVr, InsertBy, Cmp, Known, Without, Joined;
    InvKnown(s);
    CpuCount(s);
    if src.Some? && locked {
      QueueCounted(s, src.value);
      var q := s.rqs[src.value].queue;
      if |q| > 1 {
        var t := q[|q| - 1];
        Queued(s, src.value, t);
        LastOut(s, src.value);
        MoveJoins(s, src.value, dst, t);
      }
    }
  }

  /** Thread `t` went from `src` to `dst` with its runtime and waits there not before the clock; no clock and no
      current thread changed. */
  predicate Carried(s: State, s': State, src: nat, dst: nat, t: Tid)
    requires Cpu(s, src) && Cpu(s, dst) && t in s.threads
  {
    && OnlyAt(s, s', {src, dst}, {t}) && Waits(s', dst, t, s.threads[t].vruntime)
    && (forall c | 0 <= c < |s.rqs| ::
         s'.rqs[c].current == s.rqs[c].current && s'.rqs[c].minVruntime == s.rqs[c].minVruntime)
  }

  lemma MoveJoins(s: State, src: nat, dst: nat, t: Tid)
    requires Inv(s) && Cpu(s, src) && Cpu(s, dst) && src != dst && t in s.rqs[src].queue && s.rqs[dst].idle.Some?
    ensures t in s.threads && var s' := Move(s, src, dst, t);
      Cpu(s', dst) && Joined(s, s', dst, t)
  {
    hide InvExcept, QueueOk, InsertBy, Without, Cmp, Joined;
    Queued(s, src, t);
    if t in s.rqs[dst].queue { Queued(s, dst, t); }
    MoveInv(s, src, dst, t);
    Joins(s, Move(s, src, dst, t), Cmp(Move(s, src, dst, t).threads), dst, t);
  }

  lemma LastOut(s: State, c: nat)
    requires Inv(s) && Cpu(s, c) && s.rqs[c].queue != []
    ensures var q := s.rqs[c].queue; Without(q, q[|q| - 1]) == q[..|q| - 1]
  {
    hide Without;
    assert QueueOk(s, c);
    var q := s.rqs[c].queue;
    var n := |q| - 1;
    assert q == q[..n] + [q[n]] + [];
    WithoutAt(q[..n], [], q[n]);
    assert q[..n] + [] == q[..n];
  }

  lemma QueueCounted(s: State, c: nat)
    requires Inv(s) && Cpu(s, c)
    ensures s.rqs[c].nrRunning == |s.rqs[c].queue|
  {
    assert QueueOk(s, c);
  }

  /** A new thread starts with no runtime on the chosen CPU, whose clock is brought up to date, and not before it. */
  lemma CreatePlaces(s: State, c: nat)
    requires Inv(s) && Up(s, c)
    ensures Known(s) && var s', t := Create(s, Some(c)), s.nextTid;
      && Cpu(s, c) && Cpu(s', c) && Joined(s, s', c, t)
      && t !in s.threads && t in s'.threads && s'.nextTid == t + 1
      && Advanced(s, c, s'.rqs[c].minVruntime) && Waits(s', c, t, 0)
      && s'.threads.Keys == s.threads.Keys + {t} && (forall u | u in s.threads :: s'.threads[u] == s.threads[u])
      && (forall d | 0 <= d < |s.rqs| && d != c :: s'.rqs[d] == s.rqs[d])
      && s'.rqs[c].current == s.rqs[c].current && s'.rqs[c].idle == s.rqs[c].idle
  {
    hide InvExcept, QueueOk, MinVr, InsertBy, Cmp, Known, Joined, Advanced;
    InvKnown(s);
    CpuCount(s);
    FreshTid(s);
    var s' := Create(s, Some(c));
    CreateInv(s, Some(c));
    NewUnqueued(s, c);
    RaiseAdvances(Born(s, c), c);
    BornAdvances(s, c, s'.rqs[c].minVruntime);
    Joins(s, s', Cmp(s'.threads), c, s.nextTid);
  }

  lemma BornAdvances(s: State, c: nat, clock: int)
    requires Known(s) && Cpu(s, c) && s.nextTid !in s.threads && Advanced(Born(s, c), c, clock)
    ensures Advanced(s, c, clock)
  {
    var b := Born(s, c);
    assert forall t :: Counts(s, c, t) <==> Counts(b, c, t);
    assert forall t | Counts(s, c, t) :: t in s.threads && b.threads[t] == s.threads[t];
  }

  lemma NewUnqueued(s: State, c: nat)
    requires Known(s) && Cpu(s, c) && s.nextTid !in s.threads
    ensures s.nextTid !in s.rqs[c].queue
  {
  }

  /** At start-up the boot thread has CPU 0 to itself for a slice of five; its idle thread is ready, and no other CPU is
      up. */
  lemma InitStarts()
    ensures var s := Init();
      && Cpu(s, 0) && 1 in s.threads && 2 in s.threads && s.threads.Keys == {1, 2} && s.nextTid == 3
      && s.rqs[0].current == Some(1) && s.rqs[0].idle == Some(2) && s.rqs[0].queue == [] && s.rqs[0].minVruntime == 0
      && s.threads[1] == Thread(0, 0, 5, 0, Running) && s.threads[2].state == Ready && s.threads[2].cpu == 0
      && forall c | 1 <= c < |s.rqs| :: !Up(s, c) && s.rqs[c].current == None && s.rqs[c].queue == []
  {
  }

  /** A CPU comes up idle, with a new thread, an empty queue and the clock at zero; nothing else changes. */
  lemma BringUpIdles(s: State, c: nat)
    requires Inv(s) && Cpu(s, c)
    ensures var s', t := BringUp(s, c), s.nextTid;
      && t !in s.threads && s'.nextTid == t + 1 && s'.threads.Keys == s.threads.Keys + {t} && |s'.rqs| == |s.rqs|
      && s'.rqs[c].current == s'.rqs[c].idle == Some(t) && s'.rqs[c].queue == [] && s'.rqs[c].nrRunning == 0
      && s'.rqs[c].minVruntime == 0 && s'.threads[t].state == Running && s'.threads[t].cpu == c
      && s'.threads[t].vruntime == 0
      && (forall u | u in s.threads :: s'.threads[u] == s.threads[u])
      && (forall d | 0 <= d < |s.rqs| && d != c :: s'.rqs[d] == s.rqs[d])
  {
    hide InvExcept;
    FreshTid(s);
  }

  /** Migration moves a queued thread to the queue of the new CPU, and only relabels one that is not ready; a CPU that
      is not up changes nothing. An idle thread that is ready is queued on the new CPU, and every thread that waited on
      the old one is lost: ready, but in no queue. */
  lemma MigrateMoves(s: State, t: Tid, c: nat)
    requires Inv(s) && t in s.threads
    ensures Known(s) && var s', from := Migrate(s, t, c), s.threads[t].cpu;
      if !Up(s, c) || from == c then s' == s
      else
        && Cpu(s, c) && Cpu(s', c) && Cpu(s, from) && Cpu(s', from)
        && t in s'.threads && s'.threads[t].cpu == c && s'.threads[t].state == s.threads[t].state
        && (s.threads[t].state == Ready ==> Carried(s, s', from, c, t))
        && (s.threads[t].state == Ready && !IsIdle(s, t) ==> Joined(s, s', c, t) && Joined(s', s, from, t))
        && (s.threads[t].state == Ready && IsIdle(s, t) ==>
          && s'.rqs[from].queue == [] && s'.rqs[from].nrRunning == Dec(|s.rqs[from].queue|)
          && t in s'.rqs[c].queue && Without(s'.rqs[c].queue, t) == s.rqs[c].queue
          && forall u | u in s.rqs[from].queue :: Lost(s', u))
        && (s.threads[t].state != Ready ==> s' == s.(threads := s.threads[t := s.threads[t].(cpu := c)]))
  {
    hide InvExcept, QueueOk, InsertBy, Without, Cmp, Known, Joined, IsIdle;
    InvKnown(s);
    CpuCount(s);
    CpuKnown(s, t);
    var from := s.threads[t].cpu;
    if Up(s, c) && from != c && s.threads[t].state == Ready {
      if IsIdle(s, t) {
        MigrateIdle(s, t, c);
      } else {
        ReadyQueued(s, t);
        MoveJoins(s, from, c, t);
        MoveLeaves(s, from, c, t);
      }
    }
  }

  lemma MigrateIdle(s: State, t: Tid, c: nat)
    requires Inv(s) && t in s.threads && s.threads[t].state == Ready && IsIdle(s, t) && s.threads[t].cpu < |s.rqs|
    requires Up(s, c) && s.threads[t].cpu != c
    ensures Known(s) && var s', from := Migrate(s, t, c), s.threads[t].cpu;
      && Cpu(s, from) && Cpu(s, c) && Cpu(s', from) && Cpu(s', c) && Carried(s, s', from, c, t)
      && s'.rqs[from].queue == [] && s'.rqs[from].nrRunning == Dec(|s.rqs[from].queue|)
      && t in s'.rqs[c].queue && Without(s'.rqs[c].queue, t) == s.rqs[c].queue
      && forall u | u in s.rqs[from].queue :: Lost(s', u)
  {
    hide InvExcept, QueueOk, InsertBy, Without, Cmp, Known, IsIdle, Lost;
    InvKnown(s);
    CpuCount(s);
    var from, s' := s.threads[t].cpu, Migrate(s, t, c);
    NotReadyUnqueued(s, -1, {}, t);
    QueueCounted(s, from);
    WithoutInsert(Cmp(s'.threads), s.rqs[c].queue, t);
    forall u | u in s.rqs[from].queue ensures Lost(s', u) { MovedAway(s, t, c, u); }
  }

  /** Ready, but waiting nowhere. */
  ghost predicate Lost(s: State, u: Tid) { u in s.threads && s.threads[u].state == Ready && Unqueued(s, u) }

  lemma MovedAway(s: State, t: Tid, c: nat, u: Tid)
    requires Inv(s) && t in s.threads && s.threads[t].state == Ready && IsIdle(s, t) && Unqueued(s, t)
    requires Up(s, c) && s.threads[t].cpu != c && s.threads[t].cpu < |s.rqs| && u in s.rqs[s.threads[t].cpu].queue
    ensures Known(s) && Lost(Migrate(s, t, c), u)
  {
    hide QueueOk, InsertBy, Cmp;
    var from, s' := s.threads[t].cpu, Migrate(s, t, c);
    Queued(s, from, u);
    forall d | 0 <= d < |s'.rqs| ensures u !in s'.rqs[d].queue {
      if u in s.rqs[d].queue { Queued(s, d, u); }
      if d == c { InsertByMember(Cmp(s'.threads), s.rqs[c].queue, t, u); }
    }
  }

  lemma MoveLeaves(s: State, src: nat, dst: nat, t: Tid)
    requires Inv(s) && Cpu(s, src) && Cpu(s, dst) && src != dst && t in s.rqs[src].queue && s.rqs[dst].idle.Some?
    ensures t in s.threads && var s' := Move(s, src, dst, t);
      Cpu(s', src) && Joined(s', s, src, t)
  {
    hide InvExcept, InsertBy, Without, Cmp, QueueOk, Before;
    Queued(s, src, t);
    LeftQueue(s, src, t);
    var q := s.rqs[src].queue;
    forall i, j | 0 <= i < j < |q| ensures Before(s.threads, q[i], q[j]) {
      QueueOrder(s, src, i, j);
    }
  }

  lemma LeftQueue(s: State, c: nat, t: Tid)
    requires Inv(s) && Cpu(s, c) && t in s.rqs[c].queue
    ensures t !in Without(s.rqs[c].queue, t)
  {
    assert QueueOk(s, c);
    WithoutMember(s.rqs[c].queue, t, t);
  }
}
