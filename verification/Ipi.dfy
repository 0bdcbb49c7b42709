/** src/kern/ipi.c: TLB shootdown and cross-CPU call as a system of interleaved steps.
    `g_ipi_lock` is a mutual-exclusion lock (the ticket lock's guarantee), the number of CPUs is fixed, and a
    CPU's TLB may refill any entry from the current page tables at any moment, as a global one or not. The kernel
    runs with CR4.PGE set, so reloading CR3 keeps global entries. */
module Ipi {
  import opened Bits
  import opened Counting
  import opened Options

  datatype Vector = TlbFlush | FuncCall

  /** A request record on the initiator's stack. `Flush(0, 0)` stands for a full flush. */
  datatype Kind = Flush(vaddr: nat, npages: nat) | Call(fnSet: bool)

  /** `serial` tells activations apart, `published` is when the request was published and `acked` the set of CPUs that
      have acknowledged: bookkeeping; only `ack` is a field of the record. */
  datatype Req = Req(serial: nat, kind: Kind, ack: nat, published: nat, acked: set<nat>)

  /** A cached translation: when it was loaded, and whether its page-table entry has the global bit. */
  datatype Entry = Entry(loaded: nat, global: bool)

  type Tlb = map<nat, Entry>

  datatype Pc =
    | Running
    // initiator
    | Flushing(done: nat) | Sending | Waiting | Clearing | Leaving
    // interrupt handler
    | Entered(vec: Vector) | Handling(vec: Vector, ptr: nat, done: nat)

  /** `ran` counts the executions of the called function since the call was published. */
  datatype Cpu = Cpu(pc: Pc, pendTlb: bool, pendCall: bool, tlb: Tlb, ran: nat)

  /** `now` counts page-table writes and publications. */
  datatype State = State(
    cpus: seq<Cpu>, holder: Option<nat>, tlbWork: Option<nat>, callWork: Option<nat>, req: Req, now: nat)

  const PAGE: nat := 0x1000
  const SPACE: nat := 0x1_0000_0000_0000_0000
  const PAGES: nat := 0x10_0000_0000_0000

  // ---------------------------------------------------------------- what a flush covers

  predicate Full(k: Kind) { k == Flush(0, 0) }

  /** Number of steps of the flush loop (or of the call). */
  function Work(k: Kind): nat {
    if k.Call? || Full(k) || k.npages == 0 then 1 else k.npages
  }

  /** Page number of the `i`-th address a ranged flush invalidates. */
  function PageAt(k: Kind, i: nat): nat
    requires k.Flush?
  {
    ((k.vaddr + i * PAGE) % SPACE) / PAGE
  }

  /** Reloading CR3: only global entries stay. */
  function Reload(tlb: Tlb): Tlb { map p | p in tlb && tlb[p].global :: tlb[p] }

  function Invalidate(tlb: Tlb, k: Kind, i: nat): Tlb
    requires k.Flush?
  {
    if Full(k) then Reload(tlb) else tlb - {PageAt(k, i)}
  }

  /** The pages the first `done` steps of a request cover. */
  ghost predicate Covered(k: Kind, done: nat, page: nat) {
    k.Flush? && if Full(k) then done > 0 else exists i :: 0 <= i < done && page == PageAt(k, i)
  }

  /** The flush reaches the entry: `invlpg` drops any, a reload of CR3 those that are not global. */
  ghost predicate Reached(k: Kind, done: nat, page: nat, e: Entry) {
    Covered(k, done, page) && (Full(k) ==> !e.global)
  }

  /** What the callers ask for: everything, or the `npages` pages from the one of `vaddr` on, and one page if that is
      0. Page numbers go round after 2^52. */
  ghost predicate Asked(k: Kind, page: nat)
    requires k.Flush?
  {
    || (k.vaddr == 0 && k.npages == 0)
    || (page < PAGES && (page - k.vaddr / PAGE) % PAGES < (if k.npages == 0 then 1 else k.npages))
  }

  /** Below the end of the address space these are the pages of an interval. */
  lemma AskedRange(k: Kind, page: nat)
    requires k.Flush? && !(k.vaddr == 0 && k.npages == 0)
    requires k.vaddr / PAGE + (if k.npages == 0 then 1 else k.npages) <= PAGES
    ensures Asked(k, page) <==>
      k.vaddr / PAGE <= page < k.vaddr / PAGE + (if k.npages == 0 then 1 else k.npages)
  {
    var first := k.vaddr / PAGE;
    if first <= page < PAGES {
      ModUnique(page - first, PAGES, 0, page - first);
    } else if page < first {
      ModUnique(page - first, PAGES, -1, page - first + PAGES);
    }
  }

  lemma PageNumber(k: Kind, i: nat)
    requires k.Flush?
    ensures PageAt(k, i) == (k.vaddr / PAGE + i) % PAGES
  {
    var q, r := k.vaddr / PAGE, k.vaddr % PAGE;
    ModAddScale(r, q + i, PAGES, PAGE, SPACE);
    assert k.vaddr + i * PAGE == r + (q + i) * PAGE;
    ModUnique(r + ((q + i) % PAGES) * PAGE, PAGE, (q + i) % PAGES, r);
  }

  /** The flush loops cover exactly the pages asked for. */
  lemma CoversAsked(k: Kind, page: nat)
    requires k.Flush?
    ensures Covered(k, Work(k), page) <==> Asked(k, page)
  {
    hide PageAt;
    var q := k.vaddr / PAGE;
    if !Full(k) {
      if i :| 0 <= i < Work(k) && page == PageAt(k, i) {
        PageNumber(k, i);
        DivMod(q + i, PAGES);
        DivMod(i, PAGES);
        ModUnique(page - q, PAGES, i / PAGES - (q + i) / PAGES, i % PAGES);
      }
      if Asked(k, page) {
        var i := (page - q) % PAGES;
        PageNumber(k, i);
        ModUnique(q + i, PAGES, -((page - q) / PAGES), page);
      }
    }
  }

  // ---------------------------------------------------------------- steps

  datatype Op =
    | Begin(c: nat, kind: Kind) | FlushLocal(c: nat) | Send(c: nat) | SeeAcks(c: nat) | Clear(c: nat) | Unlock(c: nat)
    | Take(c: nat, vec: Vector) | ReadWork(c: nat) | DoWork(c: nat) | Ack(c: nat)
    | WritePageTables | Refill(c: nat, page: nat, global: bool)

  predicate Pending(u: Cpu, v: Vector) { if v == TlbFlush then u.pendTlb else u.pendCall }

  function WorkPtr(s: State, v: Vector): Option<nat> { if v == TlbFlush then s.tlbWork else s.callWork }

  predicate IsCpu(s: State, c: nat) { c < |s.cpus| }

  function VectorOf(k: Kind): Vector { if k.Flush? then TlbFlush else FuncCall }

  predicate Enabled(s: State, op: Op) {
    match op
    case WritePageTables => true
    case Refill(c, _, _) => IsCpu(s, c)
    case Begin(c, k) => IsCpu(s, c) && s.cpus[c].pc == Running && s.holder == None && (k.Call? ==> |s.cpus| > 1)
    case FlushLocal(c) => IsCpu(s, c) && s.cpus[c].pc.Flushing?
    case Send(c) => IsCpu(s, c) && s.cpus[c].pc == Sending
    case SeeAcks(c) => IsCpu(s, c) && s.cpus[c].pc == Waiting && s.req.ack >= |s.cpus| - 1
    case Clear(c) => IsCpu(s, c) && s.cpus[c].pc == Clearing
    case Unlock(c) => IsCpu(s, c) && s.cpus[c].pc == Leaving
    case Take(c, v) => IsCpu(s, c) && s.cpus[c].pc == Running && Pending(s.cpus[c], v)
    case ReadWork(c) => IsCpu(s, c) && s.cpus[c].pc.Entered?
    case DoWork(c) => IsCpu(s, c) && s.cpus[c].pc.Handling? && s.cpus[c].pc.done < Work(s.req.kind)
    case Ack(c) => IsCpu(s, c) && s.cpus[c].pc.Handling? && s.cpus[c].pc.done >= Work(s.req.kind)
  }

  function SetCpu(s: State, c: nat, u: Cpu): State
    requires IsCpu(s, c)
  {
    s.(cpus := s.cpus[c := u])
  }

  function Goto(s: State, c: nat, pc: Pc): State
    requires IsCpu(s, c)
  {
    SetCpu(s, c, s.cpus[c].(pc := pc))
  }

  function Raise(u: Cpu, v: Vector): Cpu { if v == TlbFlush then u.(pendTlb := true) else u.(pendCall := true) }

  function Lower(u: Cpu, v: Vector): Cpu { if v == TlbFlush then u.(pendTlb := false) else u.(pendCall := false) }

  /** One unit of a request's work on one CPU. */
  function Perform(u: Cpu, k: Kind, i: nat): Cpu {
    if k.Call? then u.(ran := u.ran + 1) else u.(tlb := Invalidate(u.tlb, k, i))
  }

  function Step(s: State, op: Op): State
    requires Enabled(s, op)
  {
    match op
    case WritePageTables => s.(now := s.now + 1)
    case Refill(c, page, global) => SetCpu(s, c, s.cpus[c].(tlb := s.cpus[c].tlb[page := Entry(s.now, global)]))
    case Begin(c, k) =>
      var serial := s.req.serial + 1;
      var cpus := seq(|s.cpus|, i requires 0 <= i < |s.cpus| =>
        s.cpus[i].(ran := 0, pc := if i == c then if k.Flush? then Flushing(0) else Sending else s.cpus[i].pc));
      State(cpus, Some(c), if k.Flush? then Some(serial) else s.tlbWork, if k.Call? then Some(serial) else s.callWork,
            Req(serial, k, 0, s.now + 1, {}), s.now + 1)
    case FlushLocal(c) =>
      var i := s.cpus[c].pc.done;
      if s.req.kind.Flush? && i < Work(s.req.kind)
      then SetCpu(s, c, Perform(s.cpus[c], s.req.kind, i).(pc := Flushing(i + 1)))
      else Goto(s, c, Sending)
    case Send(c) =>
      if |s.cpus| == 1 then Goto(s, c, Clearing)
      else s.(cpus := seq(|s.cpus|, i requires 0 <= i < |s.cpus| =>
        if i == c then s.cpus[i].(pc := Waiting) else Raise(s.cpus[i], VectorOf(s.req.kind))))
    case SeeAcks(c) => Goto(s, c, Clearing)
    case Clear(c) =>
      if s.req.kind.Flush? then Goto(s, c, Leaving).(tlbWork := None) else Goto(s, c, Leaving).(callWork := None)
    case Unlock(c) => Goto(s, c, Running).(holder := None)
    case Take(c, v) => SetCpu(s, c, Lower(s.cpus[c], v).(pc := Entered(v)))
    case ReadWork(c) =>
      var v := s.cpus[c].pc.vec;
      var ptr := WorkPtr(s, v);
      if ptr == None || (v == FuncCall && s.req.kind.Call? && !s.req.kind.fnSet) then Goto(s, c, Running)
      else Goto(s, c, Handling(v, ptr.value, 0))
    case DoWork(c) =>
      var pc := s.cpus[c].pc;
      SetCpu(s, c, Perform(s.cpus[c], s.req.kind, pc.done).(pc := pc.(done := pc.done + 1)))
    case Ack(c) => Goto(s, c, Running).(req := s.req.(ack := s.req.ack + 1, acked := s.req.acked + {c}))
  }

  /** Every CPU runs, no interrupt is pending and nothing is published; the TLBs hold anything loaded so far. */
  predicate Initial(s: State) {
    && |s.cpus| > 0 && s.holder == None && s.tlbWork == None && s.callWork == None && s.req.published <= s.now
    && (forall c | 0 <= c < |s.cpus| :: s.cpus[c].pc == Running && !s.cpus[c].pendTlb && !s.cpus[c].pendCall)
    && (forall c | 0 <= c < |s.cpus| :: LoadedBy(s.cpus[c].tlb, s.now))
  }

  predicate LoadedBy(tlb: Tlb, time: nat) { forall p | p in tlb :: tlb[p].loaded <= time }

  ghost predicate Run(tr: seq<State>, ops: seq<Op>) {
    && |tr| == |ops| + 1 && Initial(tr[0])
    && forall i | 0 <= i < |ops| :: Enabled(tr[i], ops[i]) && tr[i + 1] == Step(tr[i], ops[i])
  }

  // ---------------------------------------------------------------- invariant

  /** Every entry the first `done` steps reach was loaded after the request was published. */
  ghost predicate Fresh(u: Cpu, req: Req, done: nat) {
    forall p | p in u.tlb && Reached(req.kind, done, p, u.tlb[p]) :: u.tlb[p].loaded >= req.published
  }

  predicate Quiet(u: Cpu) { u.pc == Running && !u.pendTlb && !u.pendCall }

  predicate Initiating(pc: Pc) { pc.Flushing? || pc == Sending || pc == Waiting || pc == Clearing || pc == Leaving }

  /** The initiator's own share of the request. */
  ghost predicate OwnerOk(s: State, u: Cpu) {
    && Initiating(u.pc) && !u.pendTlb && !u.pendCall && u.ran == 0
    && (u.pc.Flushing? ==> s.req.kind.Flush? && u.pc.done <= Work(s.req.kind) && Fresh(u, s.req, u.pc.done))
    && (!u.pc.Flushing? && s.req.kind.Flush? ==> Fresh(u, s.req, Work(s.req.kind)))
  }

  /** A CPU that was sent the interrupt: it has yet to take it, is handling it, or has acknowledged. A function
      pointer that is null is never called and never acknowledged. */
  ghost predicate TargetOk(s: State, c: nat, u: Cpu) {
    var k := s.req.kind;
    var v := VectorOf(k);
    if c in s.req.acked then
      Quiet(u) && (k.Flush? ==> Fresh(u, s.req, Work(k))) && (k.Call? ==> u.ran == 1)
    else
      match u.pc
      case Running => u.ran == 0 && (Pending(u, v) || (k.Call? && !k.fnSet))
        && !(if v == TlbFlush then u.pendCall else u.pendTlb)
      case Entered(w) => w == v && !u.pendTlb && !u.pendCall && u.ran == 0
      case Handling(w, ptr, done) =>
        && w == v && !u.pendTlb && !u.pendCall && ptr == s.req.serial && done <= Work(k)
        && (k.Call? ==> k.fnSet && u.ran == done) && (k.Flush? ==> Fresh(u, s.req, done))
      case _ => false
  }

  ghost predicate Sent(pc: Pc) { pc == Waiting || pc == Clearing || pc == Leaving }

  ghost predicate Inv(s: State) {
    && |s.cpus| > 0 && s.req.published <= s.now && (forall c | 0 <= c < |s.cpus| :: LoadedBy(s.cpus[c].tlb, s.now))
    && match s.holder
       case None =>
         s.tlbWork == None && s.callWork == None && (forall c | 0 <= c < |s.cpus| :: Quiet(s.cpus[c]))
       case Some(o) =>
         && o < |s.cpus| && OwnerOk(s, s.cpus[o])
         && (s.cpus[o].pc != Leaving ==> WorkPtr(s, VectorOf(s.req.kind)) == Some(s.req.serial))
         && (s.cpus[o].pc == Leaving ==> WorkPtr(s, VectorOf(s.req.kind)) == None)
         && (if s.req.kind.Flush? then s.callWork else s.tlbWork) == None
         && s.req.ack == |s.req.acked| && (forall c | c in s.req.acked :: c < |s.cpus| && c != o)
         && (forall c | 0 <= c < |s.cpus| && c != o ::
              if Sent(s.cpus[o].pc) then TargetOk(s, c, s.cpus[c]) else Quiet(s.cpus[c]) && s.cpus[c].ran == 0)
         && (!Sent(s.cpus[o].pc) ==> s.req.acked == {})
         && (s.req.kind.Call? ==> |s.cpus| > 1 && (s.req.kind.fnSet || s.req.acked == {}))
         && (s.cpus[o].pc == Clearing || s.cpus[o].pc == Leaving ==>
               forall c | 0 <= c < |s.cpus| && c != o :: c in s.req.acked)
  }

  /** Invalidating one more page extends what is known to be fresh. */
  lemma FreshStep(u: Cpu, req: Req, i: nat)
    requires req.kind.Flush? && i < Work(req.kind) && Fresh(u, req, i)
    ensures Fresh(Perform(u, req.kind, i), req, i + 1)
  {
    var u' := Perform(u, req.kind, i);
    forall p | p in u'.tlb && Reached(req.kind, i + 1, p, u'.tlb[p]) ensures u'.tlb[p].loaded >= req.published {
      assert !Full(req.kind);
      assert Reached(req.kind, i, p, u.tlb[p]);
    }
  }

  lemma FreshRefill(u: Cpu, req: Req, done: nat, page: nat, e: Entry)
    requires Fresh(u, req, done) && req.published <= e.loaded
    ensures Fresh(u.(tlb := u.tlb[page := e]), req, done)
  {
  }

  /** A change to one target leaves the others as they were. */
  lemma TargetStep(s: State, s': State, o: nat, c: nat)
    requires Inv(s) && s.holder == Some(o) && IsCpu(s, c) && c != o && Sent(s.cpus[o].pc)
    requires IsCpu(s', c) && s' == s.(cpus := s.cpus[c := s'.cpus[c]]) && TargetOk(s', c, s'.cpus[c])
    requires LoadedBy(s'.cpus[c].tlb, s.now)
    ensures Inv(s')
  {
    forall d | 0 <= d < |s'.cpus| && d != o ensures TargetOk(s', d, s'.cpus[d]) {
      if d != c { assert TargetOk(s, d, s.cpus[d]); }
    }
  }

  /** Only a request that has been sent can be seen by an interrupted CPU. */
  lemma Interrupted(s: State, c: nat)
    requires Inv(s) && IsCpu(s, c)
    requires s.cpus[c].pc.Entered? || s.cpus[c].pc.Handling? || s.cpus[c].pendTlb || s.cpus[c].pendCall
    ensures s.holder.Some? && s.holder.value != c && Sent(s.cpus[s.holder.value].pc)
    ensures TargetOk(s, c, s.cpus[c]) && c !in s.req.acked
    ensures s.cpus[s.holder.value].pc == Waiting
  {
  }

  lemma Owner(s: State, c: nat)
    requires Inv(s) && IsCpu(s, c) && Initiating(s.cpus[c].pc)
    ensures s.holder == Some(c) && OwnerOk(s, s.cpus[c])
  {
  }

  lemma RefillInv(s: State, c: nat, page: nat, global: bool)
    requires Inv(s) && IsCpu(s, c)
    ensures Inv(Step(s, Refill(c, page, global)))
  {
    var s', u := Step(s, Refill(c, page, global)), s.cpus[c];
    if s.holder.Some? {
      var o := s.holder.value;
      forall done | Fresh(u, s.req, done) ensures Fresh(s'.cpus[c], s.req, done) {
        FreshRefill(u, s.req, done, page, Entry(s.now, global));
      }
      if c != o && Sent(s.cpus[o].pc) {
        assert TargetOk(s, c, u);
        TargetStep(s, s', o, c);
      } else if c == o {
        forall d | 0 <= d < |s'.cpus| && d != o && Sent(s.cpus[o].pc) ensures TargetOk(s', d, s'.cpus[d]) {
          assert TargetOk(s, d, s.cpus[d]);
        }
      }
    }
  }

  lemma WriteInv(s: State)
    requires Inv(s)
    ensures Inv(Step(s, WritePageTables))
  {
    var s' := Step(s, WritePageTables);
    if s.holder.Some? {
      var o := s.holder.value;
      forall d | 0 <= d < |s'.cpus| && d != o && Sent(s.cpus[o].pc) ensures TargetOk(s', d, s'.cpus[d]) {
        assert TargetOk(s, d, s.cpus[d]);
      }
    }
  }

  lemma BeginInv(s: State, c: nat, k: Kind)
    requires Inv(s) && Enabled(s, Begin(c, k))
    ensures Inv(Step(s, Begin(c, k)))
  {
  }

  lemma FlushLocalInv(s: State, c: nat)
    requires Inv(s) && Enabled(s, FlushLocal(c))
    ensures Inv(Step(s, FlushLocal(c)))
  {
    Owner(s, c);
    var i := s.cpus[c].pc.done;
    if i < Work(s.req.kind) { FreshStep(s.cpus[c], s.req, i); }
  }

  lemma SendInv(s: State, c: nat)
    requires Inv(s) && Enabled(s, Send(c))
    ensures Inv(Step(s, Send(c)))
  {
    Owner(s, c);
    var s' := Step(s, Send(c));
    if |s.cpus| > 1 {
      forall d | 0 <= d < |s'.cpus| && d != c ensures TargetOk(s', d, s'.cpus[d]) {
        assert Quiet(s.cpus[d]);
      }
    }
  }

  /** All acknowledgements are in: every other CPU is among those that acknowledged. */
  lemma AllAcked(s: State, o: nat)
    requires Inv(s) && s.holder == Some(o) && s.req.ack >= |s.cpus| - 1
    ensures forall c | 0 <= c < |s.cpus| && c != o :: c in s.req.acked
  {
    var others := Below(|s.cpus|) - {o};
    assert s.req.acked <= others;
    SubsetFull(s.req.acked, others);
  }

  lemma SeeAcksInv(s: State, c: nat)
    requires Inv(s) && Enabled(s, SeeAcks(c))
    ensures Inv(Step(s, SeeAcks(c)))
  {
    Owner(s, c);
    AllAcked(s, c);
    var s' := Step(s, SeeAcks(c));
    forall d | 0 <= d < |s'.cpus| && d != c ensures TargetOk(s', d, s'.cpus[d]) { assert TargetOk(s, d, s.cpus[d]); }
  }

  lemma ClearInv(s: State, c: nat)
    requires Inv(s) && Enabled(s, Clear(c))
    ensures Inv(Step(s, Clear(c)))
  {
    Owner(s, c);
    var s' := Step(s, Clear(c));
    forall d | 0 <= d < |s'.cpus| && d != c ensures TargetOk(s', d, s'.cpus[d]) { assert TargetOk(s, d, s.cpus[d]); }
  }

  lemma UnlockInv(s: State, c: nat)
    requires Inv(s) && Enabled(s, Unlock(c))
    ensures Inv(Step(s, Unlock(c)))
  {
    Owner(s, c);
    var s' := Step(s, Unlock(c));
    forall d | 0 <= d < |s'.cpus| ensures Quiet(s'.cpus[d]) {
      if d != c { assert TargetOk(s, d, s.cpus[d]); }
    }
  }

  lemma TakeInv(s: State, c: nat, v: Vector)
    requires Inv(s) && Enabled(s, Take(c, v))
    ensures Inv(Step(s, Take(c, v)))
  {
    Interrupted(s, c);
    TargetStep(s, Step(s, Take(c, v)), s.holder.value, c);
  }

  lemma ReadWorkInv(s: State, c: nat)
    requires Inv(s) && Enabled(s, ReadWork(c))
    ensures Inv(Step(s, ReadWork(c)))
  {
    Interrupted(s, c);
    var s' := Step(s, ReadWork(c));
    assert Fresh(s.cpus[c], s.req, 0);
    TargetStep(s, s', s.holder.value, c);
  }

  lemma DoWorkInv(s: State, c: nat)
    requires Inv(s) && Enabled(s, DoWork(c))
    ensures Inv(Step(s, DoWork(c)))
  {
    Interrupted(s, c);
    if s.req.kind.Flush? { FreshStep(s.cpus[c], s.req, s.cpus[c].pc.done); }
    TargetStep(s, Step(s, DoWork(c)), s.holder.value, c);
  }

  lemma AckInv(s: State, c: nat)
    requires Inv(s) && Enabled(s, Ack(c))
    ensures Inv(Step(s, Ack(c)))
  {
    Interrupted(s, c);
    var s', o := Step(s, Ack(c)), s.holder.value;
    forall d | 0 <= d < |s'.cpus| && d != o ensures TargetOk(s', d, s'.cpus[d]) {
      assert TargetOk(s, d, s.cpus[d]);
    }
  }

  lemma StepInv(s: State, op: Op)
    requires Inv(s) && Enabled(s, op)
    ensures Inv(Step(s, op))
  {
    hide Inv, Step;
    match op
    case WritePageTables => WriteInv(s);
    case Refill(c, page, global) => RefillInv(s, c, page, global);
    case Begin(c, k) => BeginInv(s, c, k);
    case FlushLocal(c) => FlushLocalInv(s, c);
    case Send(c) => SendInv(s, c);
    case SeeAcks(c) => SeeAcksInv(s, c);
    case Clear(c) => ClearInv(s, c);
    case Unlock(c) => UnlockInv(s, c);
    case Take(c, v) => TakeInv(s, c, v);
    case ReadWork(c) => ReadWorkInv(s, c);
    case DoWork(c) => DoWorkInv(s, c);
    case Ack(c) => AckInv(s, c);
  }

  lemma {:induction false} RunInv(tr: seq<State>, ops: seq<Op>, i: nat)
    requires Run(tr, ops) && i < |tr|
    ensures Inv(tr[i])
    decreases i
  {
    if i > 0 {
      hide Inv, Step;
      RunInv(tr, ops, i - 1);
      StepInv(tr[i - 1], ops[i - 1]);
    }
  }

  /** The initiator `o` has left its wait loop and not yet returned. */
  predicate Done(s: State, o: nat) { IsCpu(s, o) && (s.cpus[o].pc == Clearing || s.cpus[o].pc == Leaving) }

  /** Shootdown safety: in every run, once the initiator has left its wait loop and until it returns, every entry of
      any CPU (its own included) for a page asked for was loaded after publication, or is global and the request was
      for everything; exactly the other CPUs have acknowledged, once each, and none of them is in the handler or about
      to enter it. */
  lemma ShootdownComplete(tr: seq<State>, ops: seq<Op>, i: nat, o: nat)
    requires Run(tr, ops) && i < |tr| && Done(tr[i], o) && tr[i].req.kind.Flush?
    ensures var s := tr[i];
      && (forall c, p | 0 <= c < |s.cpus| && p in s.cpus[c].tlb && Asked(s.req.kind, p) ::
            s.cpus[c].tlb[p].loaded >= s.req.published || (s.req.kind == Flush(0, 0) && s.cpus[c].tlb[p].global))
      && s.req.ack == |s.req.acked| == |s.cpus| - 1
      && (forall c :: c in s.req.acked <==> 0 <= c < |s.cpus| && c != o)
      && (forall c | 0 <= c < |s.cpus| && c != o :: Quiet(s.cpus[c]))
  {
    RunInv(tr, ops, i);
    var s := tr[i];
    Owner(s, o);
    assert s.req.acked == Below(|s.cpus|) - {o};
    forall c | 0 <= c < |s.cpus| ensures Fresh(s.cpus[c], s.req, Work(s.req.kind)) && (c != o ==> Quiet(s.cpus[c])) {
      if c != o { assert TargetOk(s, c, s.cpus[c]); }
    }
    forall c, p | 0 <= c < |s.cpus| && p in s.cpus[c].tlb && Asked(s.req.kind, p)
      ensures s.cpus[c].tlb[p].loaded >= s.req.published || (s.req.kind == Flush(0, 0) && s.cpus[c].tlb[p].global)
    {
      CoversAsked(s.req.kind, p);
    }
  }

  /** Cross-CPU call: when the initiator leaves its wait loop every other CPU has run the function exactly once, the
      initiator not at all, and no CPU holds a pointer to the request. */
  lemma CallComplete(tr: seq<State>, ops: seq<Op>, i: nat, o: nat)
    requires Run(tr, ops) && i < |tr| && Done(tr[i], o) && tr[i].req.kind.Call?
    ensures var s := tr[i];
      && s.cpus[o].ran == 0 && s.req.ack == |s.cpus| - 1
      && (forall c | 0 <= c < |s.cpus| && c != o :: s.cpus[c].ran == 1 && Quiet(s.cpus[c]))
  {
    RunInv(tr, ops, i);
    var s := tr[i];
    Owner(s, o);
    assert s.req.acked == Below(|s.cpus|) - {o};
    forall c | 0 <= c < |s.cpus| && c != o ensures s.cpus[c].ran == 1 && Quiet(s.cpus[c]) {
      assert TargetOk(s, c, s.cpus[c]);
    }
  }

  /** No stale pointer: in every run a CPU in the handler points at the request now published, whose initiator is
      still in its wait loop. */
  lemma PointersLive(tr: seq<State>, ops: seq<Op>, i: nat, c: nat)
    requires Run(tr, ops) && i < |tr| && IsCpu(tr[i], c) && tr[i].cpus[c].pc.Handling?
    ensures var s := tr[i];
      && s.cpus[c].pc.ptr == s.req.serial && WorkPtr(s, s.cpus[c].pc.vec) == Some(s.req.serial)
      && s.holder.Some? && s.holder.value < |s.cpus| && s.cpus[s.holder.value].pc == Waiting
  {
    RunInv(tr, ops, i);
    Interrupted(tr[i], c);
  }

  /** Publication time separates old from new: whatever is in a TLB before a request is published counts as loaded
      before it. */
  lemma PublishedAfter(s: State, c: nat, k: Kind, d: nat, p: nat)
    requires Inv(s) && Enabled(s, Begin(c, k)) && IsCpu(s, d) && p in s.cpus[d].tlb
    ensures var s' := Step(s, Begin(c, k));
      IsCpu(s', d) && p in s'.cpus[d].tlb && s'.cpus[d].tlb[p] == s.cpus[d].tlb[p]
        && s'.cpus[d].tlb[p].loaded < s'.req.published
  {
    assert LoadedBy(s.cpus[d].tlb, s.now);
  }

  // ---------------------------------------------------------------- global pages

  /** Entries are global only for pages of `globals`. */
  ghost predicate GlobalsIn(tr: seq<State>, ops: seq<Op>, globals: set<nat>) {
    && |tr| > 0
    && (forall c, p | 0 <= c < |tr[0].cpus| && p in tr[0].cpus[c].tlb && tr[0].cpus[c].tlb[p].global :: p in globals)
    && (forall i | 0 <= i < |ops| :: ops[i].Refill? && ops[i].global ==> ops[i].page in globals)
  }

  /** In every run on `n` CPUs a finished request of this kind has left no CPU an entry for a page asked for from before
      its publication. */
  ghost predicate LeavesFresh(n: nat, k: Kind, globals: set<nat>)
    requires k.Flush?
  {
    forall tr: seq<State>, ops: seq<Op>, i: nat, o: nat, c: nat, p: nat |
      Run(tr, ops) && GlobalsIn(tr, ops, globals) && i < |tr| && |tr[i].cpus| == n && Done(tr[i], o)
        && tr[i].req.kind == k
      && c < n && p in tr[i].cpus[c].tlb && Asked(k, p) :: tr[i].cpus[c].tlb[p].loaded >= tr[i].req.published
  }

  lemma {:induction false} OnlyGlobals(tr: seq<State>, ops: seq<Op>, globals: set<nat>, i: nat, c: nat, p: nat)
    requires Run(tr, ops) && GlobalsIn(tr, ops, globals) && i < |tr| && IsCpu(tr[i], c)
    requires p in tr[i].cpus[c].tlb && tr[i].cpus[c].tlb[p].global
    ensures p in globals
  {
    if i > 0 {
      var s, op := tr[i - 1], ops[i - 1];
      assert Enabled(s, op) && tr[i - 1 + 1] == Step(s, op);
      EntryOrigin(s, op, c, p);
      if p in s.cpus[c].tlb && s.cpus[c].tlb[p].global { OnlyGlobals(tr, ops, globals, i - 1, c, p); }
    }
  }

  lemma EntryOrigin(s: State, op: Op, c: nat, p: nat)
    requires Enabled(s, op) && IsCpu(Step(s, op), c) && p in Step(s, op).cpus[c].tlb
    ensures IsCpu(s, c)
    ensures op == Refill(c, p, Step(s, op).cpus[c].tlb[p].global)
      || (p in s.cpus[c].tlb && s.cpus[c].tlb[p] == Step(s, op).cpus[c].tlb[p])
  {
  }

  /** A ranged request leaves every CPU fresh; a full flush does exactly when no page is global. */
  lemma FreshExactly(n: nat, k: Kind, globals: set<nat>)
    requires k.Flush? && n > 0
    ensures LeavesFresh(n, k, globals) <==> k != Flush(0, 0) || globals == {}
  {
    hide Run, GlobalsIn, Inv;
    if !Full(k) || globals == {} {
      forall tr: seq<State>, ops: seq<Op>, i: nat, o: nat, c: nat, p: nat |
        Run(tr, ops) && GlobalsIn(tr, ops, globals) && i < |tr| && |tr[i].cpus| == n && Done(tr[i], o)
          && tr[i].req.kind == k
        && c < n && p in tr[i].cpus[c].tlb && Asked(k, p)
        ensures tr[i].cpus[c].tlb[p].loaded >= tr[i].req.published
      {
        ShootdownComplete(tr, ops, i, o);
        if Full(k) && tr[i].cpus[c].tlb[p].global { OnlyGlobals(tr, ops, globals, i, c, p); }
      }
    } else {
      var p :| p in globals;
      var tr, ops := GlobalSurvives(n, p, globals);
    }
  }

  /** All CPUs hold a global entry for `p`; CPU 0 waits, and the CPUs from `c` on have yet to take the interrupt. */
  ghost predicate Midway(s: State, n: nat, c: nat, p: nat) {
    && |s.cpus| == n && 1 <= c <= n && s.req.kind == Flush(0, 0) && s.tlbWork.Some? && s.req.ack == c - 1
      && s.req.published == 1
    && s.cpus[0].pc == Waiting && (forall d | c <= d < n :: s.cpus[d].pc == Running && s.cpus[d].pendTlb)
      && AllHold(s, p)
  }

  ghost predicate AllHold(s: State, p: nat) {
    forall d | 0 <= d < |s.cpus| :: p in s.cpus[d].tlb && s.cpus[d].tlb[p] == Entry(0, true)
  }

  lemma Extend(tr: seq<State>, ops: seq<Op>, op: Op) returns (tr': seq<State>, ops': seq<Op>)
    requires |tr| > 0 && Run(tr, ops) && Enabled(tr[|tr| - 1], op)
    ensures Run(tr', ops') && |tr'| == |tr| + 1 && ops' == ops + [op] && tr'[0] == tr[0]
      && tr'[|tr|] == Step(tr[|tr| - 1], op)
  {
    hide Step, Enabled, Initial;
    tr', ops' := tr + [Step(tr[|tr| - 1], op)], ops + [op];
    forall i | 0 <= i < |ops'| ensures Enabled(tr'[i], ops'[i]) && tr'[i + 1] == Step(tr'[i], ops'[i]) {
      if i < |ops| { assert Enabled(tr[i], ops[i]) && tr[i + 1] == Step(tr[i], ops[i]); }
    }
  }

  /** The start of the run: all CPUs hold the entry; CPU 0 asks for a full flush, reloads CR3 and sends the
      interrupt. */
  lemma AskAll(n: nat, p: nat) returns (tr: seq<State>, ops: seq<Op>)
    requires n > 0
    ensures Run(tr, ops) && |tr| == 5 && ops == [Begin(0, Flush(0, 0)), FlushLocal(0), FlushLocal(0), Send(0)]
    ensures AllHold(tr[0], p) && |tr[0].cpus| == n && (forall d | 0 <= d < n :: tr[0].cpus[d].tlb.Keys == {p})
    ensures if n == 1 then Survived(tr[4], n, p) else Midway(tr[4], n, 1, p)
  {
    hide Run, Step, Enabled;
    var s0 := AllHolding(n, p);
    tr, ops := [s0], [];
    StartRun(s0);
    AskSteps(n, p);
    tr, ops := Extend(tr, ops, Begin(0, Flush(0, 0)));
    tr, ops := Extend(tr, ops, FlushLocal(0));
    tr, ops := Extend(tr, ops, FlushLocal(0));
    tr, ops := Extend(tr, ops, Send(0));
  }

  ghost function AllHolding(n: nat, p: nat): (s: State)
    requires n > 0
    ensures Initial(s) && AllHold(s, p) && |s.cpus| == n && forall d | 0 <= d < n :: s.cpus[d].tlb.Keys == {p}
  {
    State(seq(n, _ => Cpu(Running, false, false, map[p := Entry(0, true)], 0)), None, None, None,
        Req(0, Flush(0, 0), 0, 0, {}), 0)
  }

  ghost predicate Asking(s: State, n: nat, p: nat, pc: Pc) {
    && |s.cpus| == n > 0 && s.req.kind == Flush(0, 0) && s.tlbWork.Some? && s.req.ack == 0 && s.req.published == 1
    && s.cpus[0].pc == pc && (forall d | 1 <= d < n :: s.cpus[d].pc == Running) && AllHold(s, p)
  }

  lemma AskSteps(n: nat, p: nat)
    requires n > 0
    ensures var s0 := AllHolding(n, p);
      && Enabled(s0, Begin(0, Flush(0, 0))) && var s1 := Step(s0, Begin(0, Flush(0, 0)));
      && Enabled(s1, FlushLocal(0)) && var s2 := Step(s1, FlushLocal(0));
      && Enabled(s2, FlushLocal(0)) && var s3 := Step(s2, FlushLocal(0));
      && Enabled(s3, Send(0)) && var s4 := Step(s3, Send(0));
      if n == 1 then Survived(s4, n, p) else Midway(s4, n, 1, p)
  {
    var s0 := AllHolding(n, p);
    var s1 := Step(s0, Begin(0, Flush(0, 0)));
    assert Asking(s1, n, p, Flushing(0));
    AskFlush(s1, n, p);
  }

  lemma AskFlush(s1: State, n: nat, p: nat)
    requires Asking(s1, n, p, Flushing(0))
    ensures Enabled(s1, FlushLocal(0)) && var s2 := Step(s1, FlushLocal(0));
      && Enabled(s2, FlushLocal(0)) && var s3 := Step(s2, FlushLocal(0));
      && Enabled(s3, Send(0)) && var s4 := Step(s3, Send(0));
      if n == 1 then Survived(s4, n, p) else Midway(s4, n, 1, p)
  {
    var s2 := Step(s1, FlushLocal(0));
    assert Asking(s2, n, p, Flushing(1));
    var s3 := Step(s2, FlushLocal(0));
    assert Asking(s3, n, p, Sending);
    AskSend(s3, n, p);
  }

  lemma AskSend(s: State, n: nat, p: nat)
    requires Asking(s, n, p, Sending)
    ensures Enabled(s, Send(0)) && var s' := Step(s, Send(0));
      if n == 1 then Survived(s', n, p) else Midway(s', n, 1, p)
  {
  }

  lemma StartRun(s: State)
    requires Initial(s)
    ensures Run([s], [])
  {
  }

  ghost predicate Survived(s: State, n: nat, p: nat) {
    |s.cpus| == n > 0 && Done(s, 0) && s.req.kind == Flush(0, 0) && AllHold(s, p) && s.req.published == 1
  }

  /** CPU `c` is in the handler at `pc`. */
  ghost predicate Serving(s: State, n: nat, c: nat, p: nat, pc: Pc) {
    && |s.cpus| == n && 1 <= c < n && s.req.kind == Flush(0, 0) && s.tlbWork.Some? && s.req.ack == c - 1
      && s.req.published == 1
    && s.cpus[0].pc == Waiting && s.cpus[c].pc == pc
      && (forall d | c < d < n :: s.cpus[d].pc == Running && s.cpus[d].pendTlb)
    && AllHold(s, p)
  }

  /** One more CPU takes the interrupt, reloads CR3 and acknowledges, and still holds the entry. */
  lemma ServeOne(s: State, n: nat, c: nat, p: nat)
    requires Midway(s, n, c, p) && c < n
    ensures Enabled(s, Take(c, TlbFlush)) && var s1 := Step(s, Take(c, TlbFlush));
      && Enabled(s1, ReadWork(c)) && var s2 := Step(s1, ReadWork(c));
      && Enabled(s2, DoWork(c)) && var s3 := Step(s2, DoWork(c));
      && Enabled(s3, Ack(c)) && Midway(Step(s3, Ack(c)), n, c + 1, p)
  {
    hide Midway, Step, Enabled, Serving;
    ServeTake(s, n, c, p);
    var s1 := Step(s, Take(c, TlbFlush));
    var ptr := ServeRead(s1, n, c, p);
    var s2 := Step(s1, ReadWork(c));
    ServeWork(s2, n, c, p, ptr);
    ServeAck(Step(s2, DoWork(c)), n, c, p, ptr);
  }

  lemma ServeTake(s: State, n: nat, c: nat, p: nat)
    requires Midway(s, n, c, p) && c < n
    ensures Enabled(s, Take(c, TlbFlush)) && Serving(Step(s, Take(c, TlbFlush)), n, c, p, Entered(TlbFlush))
  {
  }

  lemma ServeRead(s: State, n: nat, c: nat, p: nat) returns (ptr: nat)
    requires Serving(s, n, c, p, Entered(TlbFlush))
    ensures Enabled(s, ReadWork(c)) && Serving(Step(s, ReadWork(c)), n, c, p, Handling(TlbFlush, ptr, 0))
  {
    ptr := s.tlbWork.value;
  }

  lemma ServeWork(s: State, n: nat, c: nat, p: nat, ptr: nat)
    requires Serving(s, n, c, p, Handling(TlbFlush, ptr, 0))
    ensures Enabled(s, DoWork(c)) && Serving(Step(s, DoWork(c)), n, c, p, Handling(TlbFlush, ptr, 1))
  {
  }

  lemma ServeAck(s: State, n: nat, c: nat, p: nat, ptr: nat)
    requires Serving(s, n, c, p, Handling(TlbFlush, ptr, 1))
    ensures Enabled(s, Ack(c)) && Midway(Step(s, Ack(c)), n, c + 1, p)
  {
  }

  lemma {:induction false} ServeFrom(tr: seq<State>, ops: seq<Op>, n: nat, c: nat, p: nat)
    returns (tr': seq<State>, ops': seq<Op>)
    requires |tr| > 0 && Run(tr, ops) && Midway(tr[|tr| - 1], n, c, p) && forall i | 0 <= i < |ops| :: !ops[i].Refill?
    ensures |tr'| > 0 && Run(tr', ops') && tr'[0] == tr[0] && Survived(tr'[|tr'| - 1], n, p)
    ensures forall i | 0 <= i < |ops'| :: !ops'[i].Refill?
    decreases n - c
  {
    hide Run, Step, Enabled, Midway;
    if c >= n {
      ServeEnd(tr[|tr| - 1], n, c, p);
      tr', ops' := Extend(tr, ops, SeeAcks(0));
    } else {
      ServeOne(tr[|tr| - 1], n, c, p);
      tr', ops' := Extend(tr, ops, Take(c, TlbFlush));
      tr', ops' := Extend(tr', ops', ReadWork(c));
      tr', ops' := Extend(tr', ops', DoWork(c));
      tr', ops' := Extend(tr', ops', Ack(c));
      tr', ops' := ServeFrom(tr', ops', n, c + 1, p);
    }
  }

  lemma ServeEnd(s: State, n: nat, c: nat, p: nat)
    requires Midway(s, n, c, p) && c >= n
    ensures Enabled(s, SeeAcks(0)) && Survived(Step(s, SeeAcks(0)), n, p)
  {
  }

  /** On any number of CPUs a global entry can survive a full flush everywhere. */
  lemma GlobalSurvives(n: nat, p: nat, globals: set<nat>) returns (tr: seq<State>, ops: seq<Op>)
    requires n > 0 && p in globals
    ensures |tr| > 0 && Run(tr, ops) && GlobalsIn(tr, ops, globals) && !LeavesFresh(n, Flush(0, 0), globals)
    ensures var s := tr[|tr| - 1];
      && |s.cpus| == n && Done(s, 0) && s.req.kind == Flush(0, 0)
      && forall c | 0 <= c < n :: p in s.cpus[c].tlb && s.cpus[c].tlb[p].loaded < s.req.published
  {
    hide Run;
    tr, ops := AskAll(n, p);
    if n > 1 { tr, ops := ServeFrom(tr, ops, n, 1, p); }
    var i := |tr| - 1;
    assert Asked(Flush(0, 0), p) && p in tr[i].cpus[0].tlb;
  }

  // ---------------------------------------------------------------- the two flush loops

  /** `tlb` without the entries the request reaches. */
  ghost predicate Flushed(tlb: Tlb, tlb': Tlb, k: Kind, done: nat) {
    && (forall p :: p in tlb' <==> p in tlb && !Reached(k, done, p, tlb[p]))
    && (forall p | p in tlb' :: tlb'[p] == tlb[p])
  }

  /** `tlb'` is `tlb` without the entries for the pages asked for, except that global ones survive a request for
      everything. */
  ghost predicate Dropped(tlb: Tlb, tlb': Tlb, k: Kind)
    requires k.Flush?
  {
    && (forall p :: p in tlb' <==> p in tlb && (Asked(k, p) ==> k == Flush(0, 0) && tlb[p].global))
    && (forall p | p in tlb' :: tlb'[p] == tlb[p])
  }

  lemma FlushedAll(tlb: Tlb, tlb': Tlb, k: Kind)
    requires k.Flush? && Flushed(tlb, tlb', k, Work(k))
    ensures Dropped(tlb, tlb', k)
  {
    hide Covered, Asked;
    forall p ensures Covered(k, Work(k), p) <==> Asked(k, p) { CoversAsked(k, p); }
  }

  lemma FlushedStep(tlb: Tlb, tlb': Tlb, k: Kind, i: nat)
    requires k.Flush? && !Full(k) && Flushed(tlb, tlb', k, i)
    ensures Flushed(tlb, tlb' - {PageAt(k, i)}, k, i + 1)
  {
    forall p ensures Covered(k, i + 1, p) <==> Covered(k, i, p) || p == PageAt(k, i) {
      if Covered(k, i, p) {
        var j :| 0 <= j < i && p == PageAt(k, j);
        assert 0 <= j < i + 1 && p == PageAt(k, j);
      }
    }
  }

  /** The first `done` units of a request's work, one after the other. */
  ghost function Worked(u: Cpu, k: Kind, done: nat): Cpu {
    if done == 0 then u else Perform(Worked(u, k, done - 1), k, done - 1)
  }

  /** The steps of a CPU drop what was asked for and nothing else. */
  lemma StepsDrop(u: Cpu, k: Kind)
    requires k.Flush?
    ensures Dropped(u.tlb, Worked(u, k, Work(k)).tlb, k)
  {
    if Full(k) {
      assert Worked(u, k, 1).tlb == Reload(Worked(u, k, 0).tlb);
    } else {
      StepsFlushed(u, k, Work(k));
    }
    FlushedAll(u.tlb, Worked(u, k, Work(k)).tlb, k);
  }

  lemma {:induction false} StepsFlushed(u: Cpu, k: Kind, done: nat)
    requires k.Flush? && !Full(k)
    ensures Flushed(u.tlb, Worked(u, k, done).tlb, k, done)
  {
    if done > 0 {
      StepsFlushed(u, k, done - 1);
      FlushedStep(u.tlb, Worked(u, k, done - 1).tlb, k, done - 1);
    }
  }

  /** `do_local_flush`. */
  method LocalFlush(tlb: Tlb, k: Kind) returns (out: Tlb)
    requires k.Flush?
    ensures Dropped(tlb, out, k)
  {
    if k.vaddr == 0 && k.npages == 0 {
      out := Reload(tlb);
      FlushedAll(tlb, out, k);
      return;
    }
    out := tlb;
    var i := 0;
    while i < k.npages || (i == 0 && k.npages == 0)
      invariant i <= Work(k) && (k.npages == 0 ==> i == 0)
      invariant Flushed(tlb, out, k, i)
      decreases k.npages + 1 - i
    {
      FlushedStep(tlb, out, k, i);
      out := out - {PageAt(k, i)};
      i := i + 1;
      if k.npages == 0 { break; }
    }
    FlushedAll(tlb, out, k);
  }

  /** The flush loop of `ipi_handle_tlb_flush`. */
  method HandlerFlush(tlb: Tlb, k: Kind) returns (out: Tlb)
    requires k.Flush?
    ensures Dropped(tlb, out, k)
  {
    if k.vaddr == 0 && k.npages == 0 {
      out := Reload(tlb);
      FlushedAll(tlb, out, k);
      return;
    }
    out := tlb;
    var n := if k.npages != 0 then k.npages else 1;
    var i := 0;
    while i < n
      invariant 0 <= i <= n && Flushed(tlb, out, k, i)
    {
      FlushedStep(tlb, out, k, i);
      out := out - {PageAt(k, i)};
      i := i + 1;
    }
    FlushedAll(tlb, out, k);
  }
}
