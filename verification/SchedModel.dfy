/** src/kern/sched.c as a state machine: every locked section is one step. The in-order sequence of
    a runqueue's tree is the field `queue`; virtual time is a mathematical integer. */
module SchedModel {
  import opened OrderedSeq
  import opened Options

  const SLICE_VTIME: int := 5
  const MAX_CPUS: nat := 16

  type Tid = nat

  datatype RunState = Ready | Running | Blocked | Zombie

  datatype Thread = Thread(vruntime: int, vstart: int, vdeadline: int, cpu: nat, state: RunState)

  /** `idle` is `None` on a CPU that was never brought up. */
  datatype Rq = Rq(queue: seq<Tid>, minVruntime: int, nrRunning: int, current: Option<Tid>, idle: Option<Tid>)

  datatype State = State(threads: map<Tid, Thread>, rqs: seq<Rq>, nextTid: Tid)

  // ---------------------------------------------------------------- runqueue primitives

  /** `thread_cmp`: by virtual deadline, then by thread id. */
  function ThreadCmp(threads: map<Tid, Thread>, a: Tid, b: Tid): int {
    if a !in threads || b !in threads then 0
    else if threads[a].vdeadline != threads[b].vdeadline then
      if threads[a].vdeadline < threads[b].vdeadline then -1 else 1
    else if a < b then -1 else if a > b then 1 else 0
  }

  function Cmp(threads: map<Tid, Thread>): (Tid, Tid) -> int {
    (a: Tid, b: Tid) => ThreadCmp(threads, a, b)
  }

  function Max(a: int, b: int): int { if a > b then a else b }

  /** Smallest virtual runtime of the queued threads and of `acc`. */
  function LeastVr(threads: map<Tid, Thread>, q: seq<Tid>, acc: Option<int>): (r: Option<int>)
    requires forall t | t in q :: t in threads
  {
    if q == [] then acc
    else
      var v := threads[q[0]].vruntime;
      LeastVr(threads, q[1..], if acc == None || v < acc.value then Some(v) else acc)
  }

  /** All ids stored in the queues and rq fields are known threads on known CPUs. */
  predicate Known(s: State) {
    && |s.rqs| == MAX_CPUS
    && (forall c | 0 <= c < |s.rqs| :: forall t | t in s.rqs[c].queue :: t in s.threads)
    && (forall c | 0 <= c < |s.rqs| :: s.rqs[c].current.Some? ==> s.rqs[c].current.value in s.threads)
    && (forall c | 0 <= c < |s.rqs| :: s.rqs[c].idle.Some? ==> s.rqs[c].idle.value in s.threads)
    && (forall t | t in s.threads :: s.threads[t].cpu < MAX_CPUS)
  }

  predicate Cpu(s: State, c: nat) { c < |s.rqs| == MAX_CPUS }

  predicate Online(s: State, c: nat) {
    Cpu(s, c) && s.rqs[c].current.Some? && s.rqs[c].idle.Some?
  }

  predicate Up(s: State, c: nat) { c < |s.rqs| && s.rqs[c].idle.Some? }

  /** `rq_min_vr`. */
  function MinVr(s: State, c: nat): int
    requires Known(s) && Cpu(s, c)
  {
    var rq := s.rqs[c];
    var start := if rq.current.Some? && rq.current != rq.idle then Some(s.threads[rq.current.value].vruntime) else None;
    match LeastVr(s.threads, rq.queue, start)
    case None => rq.minVruntime
    case Some(v) => v
  }

  function RaiseMin(s: State, c: nat): (r: State)
    requires Known(s) && Cpu(s, c)
    ensures Known(r)
  {
    s.(rqs := s.rqs[c := s.rqs[c].(minVruntime := Max(s.rqs[c].minVruntime, MinVr(s, c)))])
  }

  /** Start and deadline from the runtime and the queue's clock, then `rq_insert`. */
  function Place(s: State, c: nat, t: Tid): State
    requires Cpu(s, c) && t in s.threads
  {
    var rq := s.rqs[c];
    var vs := Max(s.threads[t].vruntime, rq.minVruntime);
    var th := s.threads[t := s.threads[t].(vstart := vs, vdeadline := vs + SLICE_VTIME, state := Ready)];
    s.(threads := th, rqs := s.rqs[c := rq.(queue := InsertBy(Cmp(th), rq.queue, t), nrRunning := rq.nrRunning + 1)])
  }

  function Enqueue(s: State, c: nat, t: Tid): State
    requires Known(s) && Cpu(s, c) && t in s.threads
  {
    Place(RaiseMin(s, c), c, t)
  }

  /** `rq_remove`. */
  function Remove(s: State, c: nat, t: Tid): State
    requires Cpu(s, c)
  {
    var rq := s.rqs[c];
    s.(rqs := s.rqs[c := rq.(queue := Without(rq.queue, t), nrRunning := rq.nrRunning - 1)])
  }

  /** The bookkeeping of `do_switch`. */
  function Dispatch(s: State, c: nat, next: Tid): State
    requires Cpu(s, c) && next in s.threads
  {
    s.(threads := s.threads[next := s.threads[next].(state := Running, cpu := c)],
       rqs := s.rqs[c := s.rqs[c].(current := Some(next))])
  }

  // ---------------------------------------------------------------- pick_next

  function FirstEligible(threads: map<Tid, Thread>, q: seq<Tid>, mvr: int): Option<Tid>
    requires forall t | t in q :: t in threads
  {
    if q == [] then None
    else if threads[q[0]].vstart <= mvr then Some(q[0])
    else FirstEligible(threads, q[1..], mvr)
  }

  predicate Better(threads: map<Tid, Thread>, t: Tid, best: Option<Tid>)
    requires t in threads && (best.Some? ==> best.value in threads)
  {
    || best == None
    || threads[t].vruntime < threads[best.value].vruntime
    || (threads[t].vruntime == threads[best.value].vruntime && t < best.value)
  }

  function LeastRun(threads: map<Tid, Thread>, q: seq<Tid>, best: Option<Tid>): Option<Tid>
    requires (forall t | t in q :: t in threads) && (best.Some? ==> best.value in threads)
  {
    if q == [] then best
    else LeastRun(threads, q[1..], if Better(threads, q[0], best) then Some(q[0]) else best)
  }

  /** `pick_next`: first eligible thread in deadline order, else the one with the least runtime, else idle. */
  function PickNext(s: State, c: nat): Option<Tid>
    requires Known(s) && Cpu(s, c)
  {
    var rq := s.rqs[c];
    if rq.nrRunning == 0 then rq.idle
    else
      match FirstEligible(s.threads, rq.queue, rq.minVruntime)
      case Some(t) => Some(t)
      case None =>
        var best := LeastRun(s.threads, rq.queue, None);
        if best.Some? then best else rq.idle
  }

  // ---------------------------------------------------------------- invariant

  predicate IsIdle(s: State, t: Tid)
    requires t in s.threads
  {
    var c := s.threads[t].cpu;
    c < |s.rqs| && s.rqs[c].idle == Some(t)
  }

  predicate QueuedOk(s: State, c: nat, t: Tid)
    requires Cpu(s, c)
  {
    && t in s.threads && !IsIdle(s, t)
    && var th := s.threads[t];
    && th.state == Ready && th.cpu == c
    && th.vdeadline == th.vstart + SLICE_VTIME && th.vruntime <= th.vstart
    && (th.vstart == th.vruntime || th.vstart <= s.rqs[c].minVruntime)
  }

  ghost predicate QueueOk(s: State, c: nat)
    requires Cpu(s, c)
  {
    var rq := s.rqs[c];
    && rq.nrRunning == |rq.queue|
    && NoDup(rq.queue) && Ordered(Cmp(s.threads), rq.queue)
    && (forall t | t in rq.queue :: QueuedOk(s, c, t))
  }

  predicate CurrentOk(s: State, c: nat)
    requires Cpu(s, c)
  {
    var rq := s.rqs[c];
    && (rq.current.Some? <==> rq.idle.Some?)
    && (rq.current.Some? ==>
      var t := rq.current.value;
      t in s.threads && s.threads[t].cpu == c && s.threads[t].state == Running)
  }

  predicate IdleOk(s: State, c: nat)
    requires Cpu(s, c)
  {
    s.rqs[c].idle.Some? ==>
      var t := s.rqs[c].idle.value;
      t in s.threads && s.threads[t].cpu == c && (s.threads[t].state == Ready || s.threads[t].state == Running)
  }

  /** A thread that is neither idle nor in transit is where its state says. */
  predicate Housed(s: State, t: Tid)
    requires Known(s) && t in s.threads
  {
    var th := s.threads[t];
    && (th.state == Ready ==> t in s.rqs[th.cpu].queue)
    && (th.state == Running ==> s.rqs[th.cpu].current == Some(t))
  }

  predicate HasHome(s: State, t: Tid)
    requires t in s.threads
  {
    t < s.nextTid && s.threads[t].cpu < |s.rqs| && s.rqs[s.threads[t].cpu].idle.Some?
  }

  /** The invariant while CPU `hole` (if any) is between two currents and threads of `loose` are in transit. */
  ghost predicate InvExcept(s: State, hole: int, loose: set<Tid>) {
    && Known(s) && s.rqs[0].idle.Some?
    && (forall t {:trigger HasHome(s, t)} | t in s.threads :: HasHome(s, t))
    && (forall c {:trigger QueueOk(s, c)} {:trigger IdleOk(s, c)} {:trigger CurrentOk(s, c)} | 0 <= c < MAX_CPUS ::
        QueueOk(s, c) && IdleOk(s, c) && (c != hole ==> CurrentOk(s, c)))
    && (forall t {:trigger Housed(s, t)} | t in s.threads && t !in loose && !IsIdle(s, t) :: Housed(s, t))
  }

  ghost predicate Inv(s: State) { InvExcept(s, -1, {}) }

  // ---------------------------------------------------------------- the system's steps

  function SetThread(s: State, t: Tid, th: Thread): State {
    s.(threads := s.threads[t := th])
  }

  /** Queue `cur` again, take `next` out and switch to it. */
  function Switch(s: State, c: nat, cur: Tid, next: Tid): State
    requires Known(s) && Cpu(s, c) && cur in s.threads && next in s.threads
  {
    Dispatch(Remove(Enqueue(s, c, cur), c, next), c, next)
  }

  /** Leave the current thread behind and switch to what `pick_next` chose. */
  function SwitchAway(s: State, c: nat, next: Tid): State
    requires Online(s, c) && next in s.threads
  {
    Dispatch(if Some(next) != s.rqs[c].idle then Remove(s, c, next) else s, c, next)
  }

  function Picked(s: State, c: nat): (t: Tid)
    requires Known(s) && Online(s, c)
    ensures t in s.threads
  {
    PickKnown(s, c);
    PickNext(s, c).value
  }

  lemma PickKnown(s: State, c: nat)
    requires Known(s) && Online(s, c)
    ensures PickNext(s, c).Some? && PickNext(s, c).value in s.threads
  {
    EligibleKnown(s.threads, s.rqs[c].queue, s.rqs[c].minVruntime);
    LeastKnown(s.threads, s.rqs[c].queue, None);
  }

  lemma {:induction false} EligibleKnown(threads: map<Tid, Thread>, q: seq<Tid>, mvr: int)
    requires forall t | t in q :: t in threads
    ensures FirstEligible(threads, q, mvr).Some? ==> FirstEligible(threads, q, mvr).value in threads
  {
    if q != [] { EligibleKnown(threads, q[1..], mvr); }
  }

  lemma {:induction false} LeastKnown(threads: map<Tid, Thread>, q: seq<Tid>, best: Option<Tid>)
    requires (forall t | t in q :: t in threads) && (best.Some? ==> best.value in threads)
    ensures LeastRun(threads, q, best).Some? ==> LeastRun(threads, q, best).value in threads
  {
    if q != [] { LeastKnown(threads, q[1..], if Better(threads, q[0], best) then Some(q[0]) else best); }
  }

  /** A tick on an idle CPU, after the charge: the idle thread makes way if anyone waits. */
  function TickIdle(s: State, c: nat): State
    requires Known(s) && Online(s, c)
  {
    var idle, next := s.rqs[c].idle.value, Picked(s, c);
    if next == idle then s
    else Dispatch(Remove(SetThread(s, idle, s.threads[idle].(state := Ready)), c, next), c, next)
  }

  /** A tick while a thread runs, after the charge: it makes way if anyone waits, else it gets a new deadline. */
  function TickBusy(s: State, c: nat): State
    requires Known(s) && Online(s, c)
  {
    var cur, idle, s2 := s.rqs[c].current.value, s.rqs[c].idle.value, RaiseMin(s, c);
    var next := Picked(s2, c);
    if next == idle then SetThread(s2, cur, s2.threads[cur].(vdeadline := s2.threads[cur].vruntime + SLICE_VTIME))
    else Switch(s2, c, cur, next)
  }

  /** `sched_tick` on CPU `c`. */
  function Tick(s: State, c: nat): State
    requires Known(s) && Cpu(s, c)
  {
    if !Online(s, c) then s
    else
      var cur := s.rqs[c].current.value;
      var s1 := SetThread(s, cur, s.threads[cur].(vruntime := s.threads[cur].vdeadline));
      if s.rqs[c].current == s.rqs[c].idle then TickIdle(s1, c) else TickBusy(s1, c)
  }

  /** `sched_yield` by the current thread of `c`. */
  function Yield(s: State, c: nat): State
    requires Known(s) && Online(s, c)
  {
    var cur, idle, next := s.rqs[c].current.value, s.rqs[c].idle.value, Picked(s, c);
    if next == idle || next == cur then
      SetThread(s, cur, s.threads[cur].(vdeadline := s.threads[cur].vruntime + SLICE_VTIME))
    else
      Switch(SetThread(s, cur, s.threads[cur].(vruntime := s.threads[cur].vdeadline)), c, cur, next)
  }

  /** `sched_block` and `sched_thread_exit`: the current thread ends up in state `st`. */
  function Leave(s: State, c: nat, st: RunState): State
    requires Known(s) && Online(s, c)
  {
    var cur := s.rqs[c].current.value;
    SwitchAway(SetThread(s, cur, s.threads[cur].(state := st)), c, Picked(s, c))
  }

  /** `sched_unblock`. */
  function Unblock(s: State, t: Tid): State
    requires Known(s) && t in s.threads
  {
    if s.threads[t].state == Blocked then Enqueue(s, s.threads[t].cpu, t) else s
  }

  /** First online CPU with the fewest queued threads, looking at CPUs from `i` on. */
  function LeastLoaded(s: State, i: nat, best: Option<nat>): (r: Option<nat>)
    requires |s.rqs| == MAX_CPUS && (best.Some? ==> best.value < MAX_CPUS && s.rqs[best.value].idle.Some?)
    ensures r.Some? ==> r.value < MAX_CPUS && s.rqs[r.value].idle.Some?
    ensures best.Some? ==> r.Some?
    ensures r == None ==> forall c | i <= c < MAX_CPUS :: s.rqs[c].idle == None
    decreases MAX_CPUS - i
  {
    if i >= MAX_CPUS then best
    else if s.rqs[i].idle.Some? && (best == None || s.rqs[i].nrRunning < s.rqs[best.value].nrRunning)
    then LeastLoaded(s, i + 1, Some(i))
    else LeastLoaded(s, i + 1, best)
  }

  /** `sched_thread_create` after its scan, which took no lock and chose a CPU by counters that may be out of date;
      `chosen` is `None` if one of the two allocations failed. */
  function Create(s: State, chosen: Option<nat>): State
    requires Known(s) && (chosen.Some? ==> Cpu(s, chosen.value))
  {
    if chosen == None then s
    else Enqueue(Born(s, chosen.value), chosen.value, s.nextTid)
  }

  function Born(s: State, c: nat): (r: State)
    requires Known(s) && c < MAX_CPUS
    ensures Known(r)
  {
    s.(threads := s.threads[s.nextTid := Thread(0, 0, 0, c, Ready)], nextTid := s.nextTid + 1)
  }

  /** First CPU other than `dst` with the most queued threads, if more than one is queued there. */
  function Busiest(s: State, dst: nat, i: nat, best: Option<nat>): (r: Option<nat>)
    requires |s.rqs| == MAX_CPUS && (best.Some? ==> best.value < MAX_CPUS && best.value != dst)
    ensures r.Some? ==> r.value < MAX_CPUS && r.value != dst
    decreases MAX_CPUS - i
  {
    if i >= MAX_CPUS then best
    else
      var most := if best.Some? then s.rqs[best.value].nrRunning else 1;
      if i != dst && s.rqs[i].idle.Some? && s.rqs[i].nrRunning > most then Busiest(s, dst, i + 1, Some(i))
      else Busiest(s, dst, i + 1, best)
  }

  /** The locked part of `load_balance`, run by the idle thread of `dst`. `src` is what the scan of the counters chose
      before any lock was held, so it may be out of date; `locked` says whether both trylocks succeed. */
  function LoadBalance(s: State, dst: nat, src: Option<nat>, locked: bool): State
    requires Known(s) && Cpu(s, dst) && (src.Some? ==> Cpu(s, src.value))
  {
    if src == None || !locked || s.rqs[src.value].nrRunning <= 1 || s.rqs[src.value].queue == [] then s
    else
      var q := s.rqs[src.value].queue;
      Move(s, src.value, dst, q[|q| - 1])
  }

  /** Take `t` from the queue of `src` and queue it on `dst`. */
  function Move(s: State, src: nat, dst: nat, t: Tid): State
    requires Cpu(s, src) && Cpu(s, dst) && t in s.threads
  {
    var s1 := Remove(s, src, t);
    Place(SetThread(s1, t, s1.threads[t].(cpu := dst)), dst, t)
  }

  /** The counters are 32 bits wide. */
  function Dec(n: int): int { if n == 0 then 0xffff_ffff else n - 1 }

  /** `rq_remove` of a thread whose node was never linked: `rb_erase` takes it for the root and drops the whole tree. */
  function DropAll(s: State, c: nat): State
    requires Cpu(s, c)
  {
    s.(rqs := s.rqs[c := s.rqs[c].(queue := [], nrRunning := Dec(s.rqs[c].nrRunning))])
  }

  function MoveLoose(s: State, src: nat, dst: nat, t: Tid): State
    requires Cpu(s, src) && Cpu(s, dst) && t in s.threads
  {
    var s1 := DropAll(s, src);
    Place(SetThread(s1, t, s1.threads[t].(cpu := dst)), dst, t)
  }

  /** `sched_migrate`. A ready thread that is not queued, which is an idle thread, was never in a tree. */
  function Migrate(s: State, t: Tid, c: nat): State
    requires Known(s) && t in s.threads
  {
    var th := s.threads[t];
    if c >= MAX_CPUS || s.rqs[c].idle == None || th.cpu == c then s
    else if th.state == Ready then
      if t in s.rqs[th.cpu].queue then Move(s, th.cpu, c, t) else MoveLoose(s, th.cpu, c, t)
    else SetThread(s, t, th.(cpu := c))
  }

  /** `sched_ap_init`. */
  function BringUp(s: State, c: nat): State
    requires Cpu(s, c)
  {
    s.(threads := s.threads[s.nextTid := Thread(0, 0, 0, c, Running)], nextTid := s.nextTid + 1,
       rqs := s.rqs[c := Rq([], 0, 0, Some(s.nextTid), Some(s.nextTid))])
  }

  /** `sched_init`: the boot thread (id 1) runs on CPU 0, whose idle thread has id 2. */
  function Init(): State {
    State(map[1 := Thread(0, 0, SLICE_VTIME, 0, Running), 2 := Thread(0, 0, 0, 0, Ready)],
          [Rq([], 0, 0, Some(1), Some(2))] + seq(MAX_CPUS - 1, _ => Rq([], 0, 0, None, None)), 3)
  }

  datatype Op =
    | DoTick(c: nat) | DoYield(c: nat) | DoBlock(c: nat) | DoExit(c: nat)
    | DoUnblock(t: Tid) | DoCreate(chosen: Option<nat>) | DoMigrate(t: Tid, c: nat)
    | DoBalance(c: nat, src: Option<nat>, locked: bool)
    | DoBringUp(c: nat)

  /** What the kernel does around the calls: idle threads only halt and balance, CPUs come up once, and a
      migrated thread is neither running nor an idle thread. */
  predicate Enabled(s: State, op: Op) {
    Known(s) &&
    match op
    case DoTick(c) => Cpu(s, c)
    case DoYield(c) => Online(s, c) && s.rqs[c].current != s.rqs[c].idle
    case DoBlock(c) => Online(s, c) && s.rqs[c].current != s.rqs[c].idle
    case DoExit(c) => Online(s, c) && s.rqs[c].current != s.rqs[c].idle
    case DoUnblock(t) => t in s.threads
    case DoCreate(chosen) => chosen.Some? ==> Up(s, chosen.value)
    case DoBalance(c, src, _) => Online(s, c) && (src.Some? ==> Cpu(s, src.value) && src.value != c)
    case DoMigrate(t, _) => t in s.threads && !IsIdle(s, t) && s.threads[t].state != Running
    case DoBringUp(c) => Cpu(s, c) && s.rqs[c].idle == None
  }

  function Step(s: State, op: Op): State
    requires Enabled(s, op)
  {
    match op
    case DoTick(c) => Tick(s, c)
    case DoYield(c) => Yield(s, c)
    case DoBlock(c) => Leave(s, c, Blocked)
    case DoExit(c) => Leave(s, c, Zombie)
    case DoUnblock(t) => Unblock(s, t)
    case DoCreate(chosen) => Create(s, chosen)
    case DoBalance(c, src, locked) => LoadBalance(s, c, src, locked)
    case DoMigrate(t, c) => Migrate(s, t, c)
    case DoBringUp(c) => BringUp(s, c)
  }

  /** `tr` is a run: consecutive states are joined by enabled steps. */
  predicate Run(tr: seq<State>, ops: seq<Op>) {
    && |tr| == |ops| + 1 && tr[0] == Init()
    && forall i | 0 <= i < |ops| :: Enabled(tr[i], ops[i]) && tr[i + 1] == Step(tr[i], ops[i])
  }
}
