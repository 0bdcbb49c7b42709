/** src/kern/sched.c, imperatively: threads and runqueues are updated in place, each queue is a linked red-black tree
    and the scans are walks over it. Every method is proved to perform the step of the same name in the state machine
    and to keep every tree in order with its queue. */
module Schedulers {
  import opened OrderedSeq
  import opened Options
  import opened RunqueueForests
  import opened RunqueueTrees
  import opened SchedModel
  import opened SchedInv
  import opened SchedFair

  /** The fields of a runqueue beside its tree, its counter and its idle thread. */
  datatype CpuFields = CpuFields(minVruntime: int, current: Option<Tid>)

  ghost function RqsOf(cpus: seq<CpuFields>, idles: seq<Option<Tid>>, queues: seq<seq<Tid>>, counts: seq<int>)
    : (r: seq<Rq>)
    requires |cpus| == |idles| == |queues| == |counts|
    ensures |r| == |cpus|
    ensures forall c | 0 <= c < |r| :: r[c] == Rq(queues[c], cpus[c].minVruntime, counts[c], cpus[c].current, idles[c])
  {
    seq(|cpus|, c requires 0 <= c < |cpus| =>
      Rq(queues[c], cpus[c].minVruntime, counts[c], cpus[c].current, idles[c]))
  }

  lemma OrderIgnores(threads: map<Tid, Thread>, q: seq<Tid>, t: Tid, th: Thread)
    requires Ordered(Cmp(threads), q) && t !in q
    ensures Ordered(Cmp(threads[t := th]), q)
  {
    var threads' := threads[t := th];
    forall i, j | 0 <= i < j < |q| ensures Cmp(threads')(q[j], q[i]) >= 0 {
      assert Cmp(threads')(q[j], q[i]) == Cmp(threads)(q[j], q[i]);
    }
  }

  class Scheduler {
    var threads: map<Tid, Thread>
    var cpus: seq<CpuFields>
    /** `None` for a CPU that is not up. */
    var idles: seq<Option<Tid>>
    var nextTid: Tid
    const forest: Forest

    ghost function St(): State
      requires |cpus| == |idles| == |forest.queues| == |forest.counts|
      reads this, forest
    {
      State(threads, RqsOf(cpus, idles, forest.queues, forest.counts), nextTid)
    }

    /** Every thread has its node, and on every CPU the tree is in order with the queue of `St()`. */
    ghost predicate Linked()
      reads this, forest, forest.rq, forest.Trees(), forest.nodes.Values
    {
      && forest.Valid() && |cpus| == |idles| == |forest.queues| == |forest.counts| == |forest.rq| == MAX_CPUS
      && forest.nodes.Keys == threads.Keys && forest.touched <= threads.Keys
    }

    /** The node of an idle thread has never been in a tree. */
    ghost predicate IdleLoose()
      reads this, forest
    {
      forall c | 0 <= c < |idles| && idles[c].Some? :: idles[c].value !in forest.touched
    }

    /** What `Linked` says of one CPU. */
    lemma TreeOfQueue(c: nat)
      requires Linked() && c < MAX_CPUS
      ensures forest.rq[c].Valid(St().rqs[c].queue) && forest.rq[c].nrRunning == St().rqs[c].nrRunning
    {
      assert forest.Holds(c);
    }

    /** The scheduler's own fields are none of the forest's. */
    lemma Outside()
      ensures forall n | n in forest.nodes.Values :: (n as object) != this
      ensures forall r | r in forest.rq :: (r as object) != this
      ensures forall r | r in forest.Trees() :: (r as object) != this
    {
    }

    constructor ()
      ensures Linked() && IdleLoose() && St() == Init() && Inv(St())
      ensures fresh(forest) && fresh(forest.rq) && fresh(forest.Trees()) && fresh(forest.nodes.Values)
    {
      hide InvExcept, RunqueueForests.Forest.Valid;
      forest := new Forest();
      threads := map[1 := Thread(0, 0, SLICE_VTIME, 0, Running), 2 := Thread(0, 0, 0, 0, Ready)];
      cpus := [CpuFields(0, Some(1))] + seq(MAX_CPUS - 1, _ => CpuFields(0, None));
      idles := [Some(2)] + seq(MAX_CPUS - 1, _ => None);
      nextTid := 3;
      new;
      forest.AddNode(1);
      forest.AddNode(2);
      assert St().rqs == Init().rqs;
      InitInv();
    }

    method RqMinVr(c: nat) returns (min: int)
      requires Linked() && Known(St()) && Cpu(St(), c)
      ensures min == MinVr(St(), c)
    {
      hide RunqueueForests.Forest.Valid;
      TreeOfQueue(c);
      var f := cpus[c];
      var start := if f.current.Some? && f.current != idles[c] then Some(threads[f.current.value].vruntime) else None;
      var least := forest.rq[c].LeastRuntime(threads, start, forest.queues[c]);
      min := if least == None then f.minVruntime else least.value;
    }

    method RaiseClock(c: nat)
      requires Linked() && Known(St()) && Cpu(St(), c)
      modifies this`cpus
      ensures Linked() && St() == RaiseMin(old(St()), c)
    {
      hide MinVr, RunqueueForests.Forest.Valid;
      Outside();
      var mvr := RqMinVr(c);
      if mvr > cpus[c].minVruntime { cpus := cpus[c := cpus[c].(minVruntime := mvr)]; }
      assert St().rqs == RaiseMin(old(St()), c).rqs;
    }

    method EnqueueThread(c: nat, t: Tid)
      requires Linked() && Known(St()) && Cpu(St(), c) && t in threads && QueueOk(St(), c) && Unqueued(St(), t)
      modifies this`threads, this`cpus, forest, forest.rq, forest.Trees(), forest.nodes.Values
      ensures Linked() && forest.nodes == old(forest.nodes) && St() == Enqueue(old(St()), c, t)
      ensures forest.touched == old(forest.touched) + {t}
    {
      hide RunqueueForests.Forest.Valid, InsertBy, Ordered, MinVr;
      RaiseClock(c);
      PlaceThread(c, t);
    }

    method PlaceThread(c: nat, t: Tid)
      requires Linked() && Cpu(St(), c) && t in threads && Unqueued(St(), t)
      requires Ordered(Cmp(threads), St().rqs[c].queue) && forall u | u in St().rqs[c].queue :: u in threads
      modifies this`threads, this`cpus, forest, forest.rq, forest.Trees(), forest.nodes.Values
      ensures Linked() && forest.nodes == old(forest.nodes) && St() == Place(old(St()), c, t)
      ensures forest.touched == old(forest.touched) + {t}
    {
      hide RunqueueForests.Forest.Valid, InsertBy, Ordered;
      var vstart := if threads[t].vruntime > cpus[c].minVruntime then threads[t].vruntime else cpus[c].minVruntime;
      var th := threads[t].(vstart := vstart, vdeadline := vstart + SLICE_VTIME, state := Ready);
      OrderIgnores(threads, St().rqs[c].queue, t, th);
      threads := threads[t := th];
      RqInsert(c, t);
    }

    method RqInsert(c: nat, t: Tid)
      requires Linked() && Cpu(St(), c) && t in threads && Unqueued(St(), t)
      requires Ordered(Cmp(threads), St().rqs[c].queue) && forall u | u in St().rqs[c].queue :: u in threads
      modifies forest, forest.rq, forest.Trees(), forest.nodes.Values
      ensures Linked() && forest.nodes == old(forest.nodes) && forest.touched == old(forest.touched) + {t}
      ensures var rq := old(St()).rqs[c];
        St() == old(St()).(rqs := old(St()).rqs[c := rq.(queue := InsertBy(Cmp(threads), rq.queue, t),
                                                        nrRunning := rq.nrRunning + 1)])
    {
      hide RunqueueForests.Forest.Valid, InsertBy, Ordered;
      assert forall d | 0 <= d < MAX_CPUS :: St().rqs[d].queue == forest.queues[d];
      ghost var s := St();
      forest.Insert(c, t, threads);
      assert St().rqs == s.rqs[c := s.rqs[c].(queue := InsertBy(Cmp(threads), s.rqs[c].queue, t),
                                              nrRunning := s.rqs[c].nrRunning + 1)];
    }

    method RqRemove(c: nat, t: Tid)
      requires Linked() && Cpu(St(), c) && t in threads && t in St().rqs[c].queue
      modifies forest, forest.rq, forest.Trees(), forest.nodes.Values
      ensures Linked() && forest.nodes == old(forest.nodes) && St() == Remove(old(St()), c, t)
      ensures forest.touched == old(forest.touched)
    {
      hide RunqueueForests.Forest.Valid, Without;
      ghost var s := St();
      forest.Remove(c, t);
      assert St().rqs == Remove(s, c, t).rqs;
    }

    /** Two walks over the tree; by the invariant the answer is the leftmost node all the same. */
    method Pick(c: nat) returns (next: Tid)
      requires Linked() && Known(St()) && Online(St(), c)
      ensures next == Picked(St(), c)
      ensures Inv(St()) ==>
        Some(next) == if St().rqs[c].queue == [] then St().rqs[c].idle else Some(St().rqs[c].queue[0])
    {
      hide InvExcept, RunqueueForests.Forest.Valid;
      if Inv(St()) { PickedIsLeftmost(St(), c); }
      TreeOfQueue(c);
      next := forest.rq[c].PickNext(threads, cpus[c].minVruntime, idles[c].value, forest.queues[c]);
    }

    method DoSwitch(c: nat, next: Tid)
      requires Linked() && Cpu(St(), c) && next in threads
      modifies this`threads, this`cpus
      ensures Linked() && St() == Dispatch(old(St()), c, next)
    {
      hide RunqueueForests.Forest.Valid;
      Outside();
      ghost var s := St();
      threads := threads[next := threads[next].(state := Running)];
      threads := threads[next := threads[next].(cpu := c)];
      cpus := cpus[c := cpus[c].(current := Some(next))];
      assert St().rqs == s.rqs[c := s.rqs[c].(current := Some(next))];
    }

    method Rewrite(t: Tid, th: Thread)
      requires Linked() && t in threads
      modifies this`threads
      ensures Linked() && St() == SetThread(old(St()), t, th)
    {
      hide RqsOf, RunqueueForests.Forest.Valid;
      Outside();
      threads := threads[t := th];
    }

    /** What follows the charge of a tick: the invariant still holds, so the queue is in order. */
    lemma Charged(s: State, c: nat)
      requires Inv(s) && Online(s, c)
      ensures Known(s) && var cur := s.rqs[c].current.value;
        && Unqueued(s, cur)
        && var s1 := SetThread(s, cur, s.threads[cur].(vruntime := s.threads[cur].vdeadline));
        && Inv(s1) && Known(s1)
    {
      hide InvExcept, QueueOk;
      InvKnown(s);
      CurrentFacts(s, c);
      var cur := s.rqs[c].current.value;
      NotReadyUnqueued(s, -1, {}, cur);
      var th := s.threads[cur].(vruntime := s.threads[cur].vdeadline);
      RetimeInv(s, -1, {}, cur, th);
      InvKnown(SetThread(s, cur, th));
    }

    lemma RunsNotIdle(s: State, c: nat)
      requires Inv(s) && Online(s, c) && s.rqs[c].current != s.rqs[c].idle
      ensures forall d | 0 <= d < |s.rqs| :: s.rqs[d].idle != s.rqs[c].current
    {
      hide InvExcept;
      CurrentFacts(s, c);
      NotIdle(s, s.rqs[c].current.value);
    }

    /** Queue `cur` again, then take `next` from the front of the queue and switch to it. */
    method SwitchTo(c: nat, cur: Tid, next: Tid)
      requires Linked() && Inv(St()) && Online(St(), c) && cur in threads && Unqueued(St(), cur)
      requires next in threads && next in St().rqs[c].queue
      modifies this`threads, this`cpus, forest, forest.rq, forest.Trees(), forest.nodes.Values
      ensures Linked() && forest.nodes == old(forest.nodes) && Known(old(St()))
        && St() == Switch(old(St()), c, cur, next)
      ensures forest.touched == old(forest.touched) + {cur}
    {
      hide InvExcept, QueueOk, RunqueueForests.Forest.Valid, InsertBy, Without, MinVr;
      ghost var s := St();
      InvKnown(s);
      RqFacts(s, c);
      EnqueueThread(c, cur);
      InsertByMember(Cmp(threads), s.rqs[c].queue, cur, next);
      RqRemove(c, next);
      DoSwitch(c, next);
    }

    /** A tick on an idle CPU: the idle thread makes way if anyone waits. */
    method FromIdle(c: nat, idle: Tid)
      requires Linked() && Inv(St()) && Online(St(), c) && St().rqs[c].idle == Some(idle)
      modifies this`threads, this`cpus, forest, forest.rq, forest.Trees(), forest.nodes.Values
      ensures Linked() && forest.nodes == old(forest.nodes) && Known(old(St()))
      ensures forest.touched == old(forest.touched)
      ensures St() == TickIdle(old(St()), c)
    {
      hide InvExcept, QueueOk, RqsOf, PickNext, Picked, Without, RunqueueForests.Forest.Valid;
      InvKnown(St());
      var next := Pick(c);
      if next != idle {
        Rewrite(idle, threads[idle].(state := Ready));
        RqRemove(c, next);
        DoSwitch(c, next);
      }
    }

    /** A tick while a thread runs: it makes way if anyone waits, and otherwise gets a new deadline. */
    method Preempt(c: nat, cur: Tid)
      requires Linked() && Inv(St()) && Online(St(), c) && St().rqs[c].current == Some(cur) && Unqueued(St(), cur)
      modifies this`threads, this`cpus, forest, forest.rq, forest.Trees(), forest.nodes.Values
      ensures Linked() && forest.nodes == old(forest.nodes) && forest.touched <= old(forest.touched) + {cur}
      ensures Known(old(St())) && St() == TickBusy(old(St()), c)
    {
      hide InvExcept, QueueOk, RqsOf, Switch, PickNext, Picked, MinVr, RunqueueForests.Forest.Valid;
      InvKnown(St());
      RaiseInv(St(), -1, {}, c);
      RaiseClock(c);
      var next := Pick(c);
      if Some(next) == idles[c] {
        Rewrite(cur, threads[cur].(vdeadline := threads[cur].vruntime + SLICE_VTIME));
        return;
      }
      SwitchTo(c, cur, next);
    }

    method SchedTick(c: nat)
      requires Linked() && IdleLoose() && Inv(St()) && Cpu(St(), c)
      modifies this`threads, this`cpus, forest, forest.rq, forest.Trees(), forest.nodes.Values
      ensures Linked() && IdleLoose() && forest.nodes == old(forest.nodes)
      ensures Known(old(St())) && St() == Tick(old(St()), c) && Inv(St())
    {
      hide InvExcept, QueueOk, RqsOf, TickIdle, TickBusy, RunqueueForests.Forest.Valid;
      ghost var s0 := St();
      InvKnown(s0);
      RqFacts(s0, c);
      TickInv(s0, c);
      if cpus[c].current == None { return; }
      Charged(s0, c);
      var cur := cpus[c].current.value;
      Rewrite(cur, threads[cur].(vruntime := threads[cur].vdeadline));
      if Some(cur) == idles[c] {
        FromIdle(c, cur);
      } else {
        RunsNotIdle(s0, c);
        Preempt(c, cur);
      }
    }

    lemma Yields(s: State, c: nat)
      requires Inv(s) && Online(s, c)
      ensures Known(s) && var cur := s.rqs[c].current.value;
        && Unqueued(s, cur)
        && var s1 := SetThread(s, cur, s.threads[cur].(vruntime := s.threads[cur].vdeadline));
        && Inv(s1) && Known(s1)
      ensures s.rqs[c].current != s.rqs[c].idle ==>
        Inv(Yield(s, c)) && forall d | 0 <= d < |s.rqs| :: s.rqs[d].idle != s.rqs[c].current
    {
      hide InvExcept, Yield;
      Charged(s, c);
      if s.rqs[c].current != s.rqs[c].idle {
        YieldInv(s, c);
        RunsNotIdle(s, c);
      }
    }

    /** By any thread that runs; the invariant survives unless it is the idle thread. */
    method SchedYield(c: nat)
      requires Linked() && IdleLoose() && Inv(St()) && Online(St(), c)
      modifies this`threads, this`cpus, forest, forest.rq, forest.Trees(), forest.nodes.Values
      ensures Linked() && forest.nodes == old(forest.nodes)
      ensures Known(old(St())) && St() == Yield(old(St()), c)
      ensures old(St()).rqs[c].current != old(St()).rqs[c].idle ==> Inv(St()) && IdleLoose()
    {
      hide InvExcept, QueueOk, RqsOf, Switch, Dispatch, PickNext, Picked, MinVr, InsertBy, Without,
        RunqueueForests.Forest.Valid;
      ghost var s0 := St();
      Yields(s0, c);
      var cur := cpus[c].current.value;
      var next := Pick(c);
      if Some(next) == idles[c] || next == cur {
        Rewrite(cur, threads[cur].(vdeadline := threads[cur].vruntime + SLICE_VTIME));
        return;
      }
      Rewrite(cur, threads[cur].(vruntime := threads[cur].vdeadline));
      SwitchTo(c, cur, next);
    }

    /** Take `next` out of the queue, unless it is the idle thread, and switch to it. */
    method SwitchOff(c: nat, next: Tid)
      requires Linked() && Online(St(), c) && next in threads
      requires Some(next) != St().rqs[c].idle ==> next in St().rqs[c].queue
      modifies this`threads, this`cpus, forest, forest.rq, forest.Trees(), forest.nodes.Values
      ensures Linked() && forest.nodes == old(forest.nodes) && St() == SwitchAway(old(St()), c, next)
      ensures forest.touched == old(forest.touched)
    {
      hide RunqueueForests.Forest.Valid, Without;
      if Some(next) != idles[c] { RqRemove(c, next); }
      DoSwitch(c, next);
    }

    method SchedBlock(c: nat)
      requires Linked() && IdleLoose() && Inv(St()) && Online(St(), c)
      modifies this`threads, this`cpus, forest, forest.rq, forest.Trees(), forest.nodes.Values
      ensures Linked() && IdleLoose() && forest.nodes == old(forest.nodes)
      ensures Known(old(St())) && St() == Leave(old(St()), c, Blocked)
      ensures old(St()).rqs[c].current != old(St()).rqs[c].idle ==> Inv(St())
    {
      hide InvExcept, QueueOk, RqsOf, PickNext, Picked, Without, RunqueueForests.Forest.Valid;
      ghost var s0 := St();
      InvKnown(s0);
      if s0.rqs[c].current != s0.rqs[c].idle { LeaveInv(s0, c, Blocked); }
      var cur := cpus[c].current.value;
      var next := Pick(c);
      Rewrite(cur, threads[cur].(state := Blocked));
      SwitchOff(c, next);
    }

    method SchedThreadExit(c: nat)
      requires Linked() && IdleLoose() && Inv(St()) && Online(St(), c)
      modifies this`threads, this`cpus, forest, forest.rq, forest.Trees(), forest.nodes.Values
      ensures Linked() && IdleLoose() && forest.nodes == old(forest.nodes)
      ensures Known(old(St())) && St() == Leave(old(St()), c, Zombie)
      ensures old(St()).rqs[c].current != old(St()).rqs[c].idle ==> Inv(St())
    {
      hide InvExcept, QueueOk, RqsOf, PickNext, Picked, Without, RunqueueForests.Forest.Valid;
      ghost var s0 := St();
      InvKnown(s0);
      PickedIsLeftmost(s0, c);
      if s0.rqs[c].current != s0.rqs[c].idle { LeaveInv(s0, c, Zombie); }
      var cur := cpus[c].current.value;
      Rewrite(cur, threads[cur].(state := Zombie));
      SamePick(s0, St(), c);
      var next := Pick(c);
      SwitchOff(c, next);
    }

    lemma SamePick(s: State, s': State, c: nat)
      requires Known(s) && Online(s, c) && s'.rqs == s.rqs && s'.threads.Keys == s.threads.Keys
      requires forall t | t in s.threads :: s'.threads[t] == s.threads[t].(state := s'.threads[t].state)
      ensures Known(s') && Online(s', c) && Picked(s', c) == Picked(s, c)
    {
      PickIgnoresStates(s, s', c);
    }

    method SchedUnblock(t: Tid)
      requires Linked() && IdleLoose() && Inv(St()) && t in threads
      modifies this`threads, this`cpus, forest, forest.rq, forest.Trees(), forest.nodes.Values
      ensures Linked() && IdleLoose() && forest.nodes == old(forest.nodes)
      ensures Known(old(St())) && St() == Unblock(old(St()), t) && Inv(St())
    {
      hide InvExcept, QueueOk, MinVr, InsertBy, RunqueueForests.Forest.Valid;
      ghost var s0 := St();
      InvKnown(s0);
      CpuKnown(s0, t);
      UnblockInv(s0, t);
      if threads[t].state != Blocked { return; }
      NotReadyUnqueued(s0, -1, {}, t);
      BlockedNotIdle(s0, t);
      RqFacts(s0, threads[t].cpu);
      EnqueueThread(threads[t].cpu, t);
    }

    lemma BlockedNotIdle(s: State, t: Tid)
      requires Inv(s) && t in s.threads && s.threads[t].state == Blocked
      ensures forall d | 0 <= d < |s.rqs| :: s.rqs[d].idle != Some(t)
    {
      hide QueueOk;
      forall d | 0 <= d < |s.rqs| ensures s.rqs[d].idle != Some(t) { assert IdleOk(s, d); }
    }

    /** The scan of `sched_thread_create`, without a lock. */
    method ChooseCpu() returns (best: Option<nat>)
      requires Linked()
      ensures best == LeastLoaded(St(), 0, None)
    {
      hide RqsOf, LeastLoaded, RunqueueForests.Forest.Valid, RunqueueTrees.Runqueue.Valid;
      ghost var s := St();
      best := None;
      var i := 0;
      while i < MAX_CPUS
        invariant 0 <= i <= MAX_CPUS
        invariant best.Some? ==> best.value < MAX_CPUS && s.rqs[best.value].idle.Some?
        invariant Linked() && St() == s && LeastLoaded(s, i, best) == LeastLoaded(s, 0, None)
      {
        TreeOfQueue(i);
        if best.Some? { TreeOfQueue(best.value); }
        LoadStep(s, i, best);
        if idles[i].Some? && (best == None || forest.rq[i].nrRunning < forest.rq[best.value].nrRunning) {
          best := Some(i);
        }
        i := i + 1;
      }
      LoadEnd(s, best);
    }

    lemma LoadStep(s: State, i: nat, best: Option<nat>)
      requires |s.rqs| == MAX_CPUS && i < MAX_CPUS
      requires best.Some? ==> best.value < MAX_CPUS && s.rqs[best.value].idle.Some?
      ensures LeastLoaded(s, i, best)
        == if s.rqs[i].idle.Some? && (best == None || s.rqs[i].nrRunning < s.rqs[best.value].nrRunning)
           then LeastLoaded(s, i + 1, Some(i)) else LeastLoaded(s, i + 1, best)
    {
    }

    lemma LoadEnd(s: State, best: Option<nat>)
      requires |s.rqs| == MAX_CPUS && (best.Some? ==> best.value < MAX_CPUS && s.rqs[best.value].idle.Some?)
      ensures LeastLoaded(s, MAX_CPUS, best) == best
    {
    }

    /** The rest of `sched_thread_create`: `kmallocs` says whether the stack and the thread record could be allocated,
        `best` is what the scan found. */
    method SchedThreadCreate(kmallocs: bool, best: Option<nat>) returns (created: Option<Tid>)
      requires Linked() && IdleLoose() && Inv(St()) && (best.Some? ==> Up(St(), best.value))
      modifies this`threads, this`cpus, this`nextTid, forest, forest.rq, forest.Trees(), forest.nodes.Values
      ensures Linked() && IdleLoose() && fresh(forest.nodes.Values - old(forest.nodes.Values))
      ensures var c := if best == None then 0 else best.value;
        && Known(old(St())) && St() == Create(old(St()), if kmallocs then Some(c) else None) && Inv(St())
      ensures created == if kmallocs then Some(old(nextTid)) else None
    {
      hide InvExcept, QueueOk, Enqueue, RunqueueForests.Forest.Valid;
      ghost var s0 := St();
      InvKnown(s0);
      BootUp(s0);
      CreateInv(s0, None);
      if !kmallocs { return None; }
      var c := if best == None then 0 else best.value;
      CreateInv(s0, Some(c));
      FreshTid(s0);
      var t := Spawn(c);
      created := Some(t);
    }

    method Spawn(c: nat) returns (t: Tid)
      requires Linked() && Inv(St()) && Up(St(), c) && nextTid !in threads
      modifies this`threads, this`cpus, this`nextTid, forest, forest.rq, forest.Trees(), forest.nodes.Values
      ensures Linked() && t == old(nextTid) && fresh(forest.nodes.Values - old(forest.nodes.Values))
      ensures Known(old(St())) && St() == Create(old(St()), Some(c)) && forest.touched == old(forest.touched) + {t}
    {
      hide InvExcept, QueueOk, Enqueue, Known, RunqueueForests.Forest.Valid;
      InvKnown(St());
      BornQueue(St(), c);
      t := AddThread(Thread(0, 0, 0, c, Ready));
      EnqueueThread(c, t);
    }

    /** The record of a new thread comes with its tree node. */
    method AddThread(th: Thread) returns (t: Tid)
      requires Linked() && nextTid !in threads
      modifies this`threads, this`nextTid, forest
      ensures Linked() && t == old(nextTid) && fresh(forest.nodes.Values - old(forest.nodes.Values))
      ensures forest.touched == old(forest.touched)
      ensures St() == old(St()).(threads := old(threads)[t := th], nextTid := t + 1)
    {
      hide RunqueueForests.Forest.Valid;
      t := nextTid;
      forest.AddNode(t);
      Outside();
      threads := threads[t := th];
      nextTid := nextTid + 1;
    }

    lemma BootUp(s: State)
      requires Inv(s)
      ensures Up(s, 0)
    {
    }

    lemma BornQueue(s: State, c: nat)
      requires Inv(s) && Cpu(s, c) && s.rqs[c].idle.Some?
      ensures Known(s) && Known(Born(s, c)) && QueueOk(Born(s, c), c) && Unqueued(Born(s, c), s.nextTid)
    {
      hide QueueOk;
      BornInv(s, c);
      assert IdleOk(Born(s, c), c);
    }

    /** The scan of `load_balance`, without a lock. */
    method BusiestCpu(dst: nat) returns (src: Option<nat>)
      requires Linked()
      ensures src == Busiest(St(), dst, 0, None)
    {
      hide RunqueueForests.Forest.Valid, RunqueueTrees.Runqueue.Valid;
      ghost var s := St();
      src := None;
      var maxNr := 1;
      var i := 0;
      while i < MAX_CPUS
        invariant 0 <= i <= MAX_CPUS
        invariant src.Some? ==> src.value < MAX_CPUS && src.value != dst
        invariant maxNr == if src.Some? then s.rqs[src.value].nrRunning else 1
        invariant Linked() && St() == s && Busiest(s, dst, i, src) == Busiest(s, dst, 0, None)
      {
        TreeOfQueue(i);
        if i != dst && idles[i].Some? && forest.rq[i].nrRunning > maxNr {
          maxNr := forest.rq[i].nrRunning;
          src := Some(i);
        }
        i := i + 1;
      }
    }

    lemma WaitsNotIdle(s: State, c: nat, t: Tid)
      requires Inv(s) && Cpu(s, c) && t in s.rqs[c].queue
      ensures forall d | 0 <= d < |s.rqs| :: s.rqs[d].idle != Some(t)
    {
      hide InvExcept;
      Queued(s, c, t);
      NotIdle(s, t);
    }

    method MoveQueued(src: nat, dst: nat, t: Tid)
      requires Linked() && IdleLoose() && Inv(St()) && Cpu(St(), src) && Cpu(St(), dst) && src != dst
      requires t in St().rqs[src].queue
      modifies this`threads, this`cpus, forest, forest.rq, forest.Trees(), forest.nodes.Values
      ensures Linked() && IdleLoose() && forest.nodes == old(forest.nodes)
      ensures t in old(St()).threads && St() == Move(old(St()), src, dst, t)
    {
      hide InvExcept, QueueOk, Move, RqsOf, RunqueueForests.Forest.Valid;
      WaitsNotIdle(St(), src, t);
      MoveThread(src, dst, t);
    }

    /** The rest of `load_balance`: `src` is what the scan found, and `locked` says whether both runqueue locks could
        be taken without waiting. */
    method Balance(dst: nat, src: Option<nat>, locked: bool)
      requires Linked() && IdleLoose() && Inv(St()) && Online(St(), dst)
      requires src.Some? ==> Cpu(St(), src.value) && src.value != dst
      modifies this`threads, this`cpus, forest, forest.rq, forest.Trees(), forest.nodes.Values
      ensures Linked() && IdleLoose() && forest.nodes == old(forest.nodes)
      ensures Known(old(St())) && St() == LoadBalance(old(St()), dst, src, locked) && Inv(St())
    {
      hide InvExcept, QueueOk, Move, RqsOf, IdleLoose, RunqueueForests.Forest.Valid, RunqueueTrees.Runqueue.Valid;
      ghost var s0 := St();
      InvKnown(s0);
      BalanceInv(s0, dst, src, locked);
      if src == None || !locked { return; }
      TreeOfQueue(src.value);
      if forest.rq[src.value].nrRunning > 1 {
        var t := forest.rq[src.value].LastThread(forest.queues[src.value]);
        if t.Some? {
          MoveQueued(src.value, dst, t.value);
        }
      }
    }

    /** Only a thread's own CPU queues it. */
    lemma Rehomed(s: State, src: nat, dst: nat, t: Tid, th: Thread)
      requires Inv(s) && Cpu(s, src) && Cpu(s, dst) && src != dst && t in s.rqs[src].queue
      ensures t in s.threads && Unqueued(Remove(s, src, t), t)
      ensures Ordered(Cmp(s.threads[t := th]), s.rqs[dst].queue)
    {
      hide Ordered, Without;
      Queued(s, src, t);
      var s1 := Remove(s, src, t);
      forall d | 0 <= d < MAX_CPUS ensures t !in s1.rqs[d].queue {
        assert QueueOk(s, d);
        if d == src {
          WithoutMember(s.rqs[src].queue, t, t);
        } else if t in s.rqs[d].queue {
          Queued(s, d, t);
        }
      }
      assert QueueOk(s, dst);
      assert s1.rqs[dst] == s.rqs[dst];
      OrderIgnores(s.threads, s.rqs[dst].queue, t, th);
    }

    method MoveThread(src: nat, dst: nat, t: Tid)
      requires Linked() && Inv(St()) && Cpu(St(), src) && Cpu(St(), dst) && src != dst && t in St().rqs[src].queue
      modifies this`threads, this`cpus, forest, forest.rq, forest.Trees(), forest.nodes.Values
      ensures Linked() && forest.nodes == old(forest.nodes)
      ensures t in old(St()).threads && St() == Move(old(St()), src, dst, t)
      ensures forest.touched == old(forest.touched) + {t}
    {
      hide InvExcept, QueueOk, RqsOf, Ordered, Without, InsertBy, RunqueueForests.Forest.Valid;
      ghost var s0 := St();
      InvKnown(s0);
      Queued(s0, src, t);
      RqRemove(src, t);
      Rewrite(t, threads[t].(cpu := dst));
      Rehomed(s0, src, dst, t, threads[t]);
      PlaceThread(dst, t);
    }

    /** An idle thread that is ready takes the place of the whole tree. */
    method MoveLooseThread(src: nat, dst: nat, t: Tid)
      requires Linked() && Inv(St()) && Cpu(St(), src) && Cpu(St(), dst) && src != dst
      requires t in threads && Unqueued(St(), t) && t !in forest.touched
      modifies this`threads, this`cpus, forest, forest.rq, forest.Trees(), forest.nodes.Values
      ensures Linked() && forest.nodes == old(forest.nodes) && St() == MoveLoose(old(St()), src, dst, t)
    {
      hide InvExcept, Ordered, InsertBy, RunqueueForests.Forest.Valid;
      ghost var s0 := St();
      InvKnown(s0);
      RqFacts(s0, dst);
      OrderIgnores(threads, s0.rqs[dst].queue, t, threads[t].(cpu := dst));
      forest.RemoveLoose(src, t);
      assert St().rqs == DropAll(s0, src).rqs;
      threads := threads[t := threads[t].(cpu := dst)];
      PlaceThread(dst, t);
    }

    /** Of any thread; the invariant survives exactly when `MigrateExact` says. */
    method SchedMigrate(t: Tid, c: nat)
      requires Linked() && IdleLoose() && Inv(St()) && t in threads
      modifies this`threads, this`cpus, forest, forest.rq, forest.Trees(), forest.nodes.Values
      ensures Linked() && forest.nodes == old(forest.nodes)
      ensures Known(old(St())) && St() == Migrate(old(St()), t, c)
      ensures Inv(St()) <==> St() == old(St()) || (!IsIdle(old(St()), t) && old(threads[t].state) != Running)
      ensures Inv(St()) ==> IdleLoose()
    {
      hide InvExcept, QueueOk, RqsOf, Move, MoveLoose, Housed, RunqueueForests.Forest.Valid;
      ghost var s0 := St();
      InvKnown(s0);
      CpuKnown(s0, t);
      MigrateExact(s0, t, c);
      if c >= MAX_CPUS || idles[c] == None { return; }
      var src := threads[t].cpu;
      if src == c { return; }
      if threads[t].state == Ready {
        MoveReady(t, src, c);
      } else {
        Rewrite(t, threads[t].(cpu := c));
      }
      CpuChanged(s0, t, c);
    }

    lemma CpuChanged(s: State, t: Tid, c: nat)
      requires Known(s) && t in s.threads && Up(s, c) && s.threads[t].cpu != c
      ensures Migrate(s, t, c) != s
    {
      assert t in Migrate(s, t, c).threads && Migrate(s, t, c).threads[t].cpu == c;
    }

    method MoveReady(t: Tid, src: nat, dst: nat)
      requires Linked() && IdleLoose() && Inv(St()) && t in threads && threads[t].state == Ready
      requires src == threads[t].cpu && Cpu(St(), src) && Cpu(St(), dst) && src != dst
      modifies this`threads, this`cpus, forest, forest.rq, forest.Trees(), forest.nodes.Values
      ensures Linked() && forest.nodes == old(forest.nodes)
      ensures t in old(St()).threads && St() == if t in old(St()).rqs[src].queue then Move(old(St()), src, dst, t)
                                                else MoveLoose(old(St()), src, dst, t)
      ensures !IsIdle(old(St()), t) ==> IdleLoose()
    {
      hide InvExcept, QueueOk, Move, MoveLoose, Housed, RunqueueForests.Forest.Valid;
      ghost var s0 := St();
      if Some(t) != idles[src] {
        ReadyQueued(s0, t);
        NotIdle(s0, t);
        MoveThread(src, dst, t);
      } else {
        // the same calls, on a node that was never linked
        NotReadyUnqueued(s0, -1, {}, t);
        MoveLooseThread(src, dst, t);
      }
    }

    /** The runqueue's memory is cleared, whatever was queued there; a CPU comes up once. */
    method SchedApInit(c: nat)
      requires Linked() && IdleLoose() && Inv(St()) && Cpu(St(), c)
      modifies this, forest, forest.rq, forest.Trees(), forest.nodes.Values
      ensures Linked() && IdleLoose() && fresh(forest.nodes.Values - old(forest.nodes.Values))
      ensures St() == BringUp(old(St()), c)
      ensures old(St()).rqs[c].idle == None ==> Inv(St())
    {
      hide InvExcept, Known, RqsOf, RunqueueForests.Forest.Valid;
      ghost var s0 := St();
      FreshTid(s0);
      if s0.rqs[c].idle == None { BringUpInv(s0, c); }
      ClearRq(c);
      InitIdle(c);
    }

    method InitIdle(c: nat)
      requires Linked() && Cpu(St(), c) && nextTid !in threads
      modifies this, forest
      ensures Linked() && fresh(forest.nodes.Values - old(forest.nodes.Values))
      ensures forest.touched == old(forest.touched) && idles == old(idles)[c := Some(old(nextTid))]
      ensures var s, idle := old(St()), old(nextTid);
        St() == s.(threads := s.threads[idle := Thread(0, 0, 0, c, Running)], nextTid := idle + 1,
                   rqs := s.rqs[c := s.rqs[c].(current := Some(idle), idle := Some(idle))])
    {
      hide RqsOf, RunqueueForests.Forest.Valid;
      var idle := AddThread(Thread(0, 0, 0, c, Ready));
      SetIdle(c, idle);
    }

    method ClearRq(c: nat)
      requires Linked() && Cpu(St(), c)
      modifies this`cpus, this`idles, forest, forest.rq, forest.Trees()
      ensures Linked() && forest.nodes == old(forest.nodes) && forest.touched == old(forest.touched)
      ensures idles == old(idles)[c := None]
      ensures St() == old(St()).(rqs := old(St()).rqs[c := Rq([], 0, 0, None, None)])
    {
      hide RunqueueForests.Forest.Valid;
      ghost var s := St();
      forest.Clear(c);
      cpus, idles := cpus[c := CpuFields(0, None)], idles[c := None];
      assert St().rqs == s.rqs[c := Rq([], 0, 0, None, None)];
    }

    method SetIdle(c: nat, idle: Tid)
      requires Linked() && Cpu(St(), c) && idle in threads
      modifies this`cpus, this`idles, this`threads
      ensures Linked() && idles == old(idles)[c := Some(idle)]
      ensures var s := old(St());
        St() == s.(threads := s.threads[idle := s.threads[idle].(state := Running)],
                   rqs := s.rqs[c := s.rqs[c].(current := Some(idle), idle := Some(idle))])
    {
      ghost var s := St();
      idles := idles[c := Some(idle)];
      threads := threads[idle := threads[idle].(state := Running)];
      cpus := cpus[c := cpus[c].(current := Some(idle))];
      assert St().rqs == s.rqs[c := s.rqs[c].(current := Some(idle), idle := Some(idle))];
    }
  }
}
