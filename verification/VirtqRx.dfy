/** The receive virtqueue: every buffer is always posted, with the device, or returned, and a returned one is posted
    again. */
module VirtqRx {
  import opened OrderedSeq
  import opened Counting
  import opened Virtq
  import opened VirtqInv

  const RX_LEN: nat := 1526

  /** A descriptor of the receive queue: the whole of its own buffer, on its own. */
  function RxDesc(i: nat): Desc { Desc(Payload(i), RX_LEN, 0, false) }

  function PostOne(q: Queue, i: nat): (r: Queue)
    requires Shaped(q) && i < |q.desc|
    ensures Shaped(r) && |r.desc| == |q.desc|
  {
    q.(desc := q.desc[i := RxDesc(i)], avail := q.avail[Place(q.availIdx, |q.avail|) := i],
        availIdx := (q.availIdx + 1) % WRAP)
  }

  /** `rxq_populate`, from buffer `i` on. */
  function PopulateFrom(q: Queue, i: nat): (r: Queue)
    requires Shaped(q) && i <= |q.desc|
    ensures Shaped(r) && |r.desc| == |q.desc|
    decreases |q.desc| - i
  {
    if i == |q.desc| then q.(numFree := 0) else PopulateFrom(PostOne(q, i), i + 1)
  }

  /** One round of the receive half of `virtio_net_poll`. */
  function Recycle(q: Queue): (r: Queue)
    requires Shaped(q)
    ensures Shaped(r) && |r.desc| == |q.desc|
  {
    if q.lastUsed == q.usedIdx then q
    else
      var id := q.used[Place(q.lastUsed, |q.used|)];
      if id >= |q.desc| then q.(lastUsed := (q.lastUsed + 1) % WRAP)
      else
        q.(lastUsed := (q.lastUsed + 1) % WRAP, desc := q.desc[id := RxDesc(id)],
           avail := q.avail[Place(q.availIdx, |q.avail|) := id], availIdx := (q.availIdx + 1) % WRAP)
  }

  ghost predicate RxOk(s: State, g: Ledger) {
    && Shaped(s.q) && |g.role| == |s.q.desc|
    && (forall d | 0 <= d < |g.role| :: g.role[d].Head? && s.q.desc[d] == RxDesc(d))
    && Listed(g.role, Pending, g.pend) && Listed(g.role, Held, s.held) && Listed(g.role, Done, g.done)
    && RingsOk(s, g)
  }

  /** The buffers before `i` are posted in order. */
  ghost predicate PostedTo(q: Queue, i: nat)
    requires Shaped(q)
  {
    && i <= |q.desc| && q.availIdx == i && Ring(q.avail, 0, From(0, i)) && q.usedIdx == q.lastUsed == 0
    && forall d | 0 <= d < i :: q.desc[d] == RxDesc(d)
  }

  lemma {:induction false} Populated(q: Queue, i: nat)
    requires Shaped(q) && i <= |q.desc| && PostedTo(q, i)
    ensures PostedTo(PopulateFrom(q, i), |q.desc|) && |PopulateFrom(q, i).desc| == |q.desc|
    decreases |q.desc| - i
  {
    hide PostOne, Shaped, PostedTo;
    if i == |q.desc| {
      PostedAll(q);
    } else {
      PostedOne(q, i);
      Populated(PostOne(q, i), i + 1);
    }
  }

  lemma PostedAll(q: Queue)
    requires Shaped(q) && PostedTo(q, |q.desc|)
    ensures PostedTo(q.(numFree := 0), |q.desc|)
  {
  }

  /** Until the index wraps no entry meets another. */
  lemma FirstLap(from: nat, len: nat, n: nat)
    requires 0 < n < WRAP && len < n && from + len < WRAP
    ensures FreshSlot(from, len, n)
  {
    hide Slot;
    forall p | from <= p < from + len ensures Slot(p, n) != Slot(from + len, n) { SlotsMeet(p, from + len, n); }
  }

  lemma PostedOne(q: Queue, i: nat)
    requires Shaped(q) && PostedTo(q, i) && i < |q.desc|
    ensures PostedTo(PostOne(q, i), i + 1) && |PostOne(q, i).desc| == |q.desc|
  {
    hide Place, Ring, From, FreshSlot;
    QueueSize(q);
    FirstLap(0, i, |q.desc|);
    RingPush(q.avail, 0, From(0, i), i);
    assert From(0, i) + [i] == From(0, i + 1);
  }

  /** After start-up all buffers wait in the available ring. */
  lemma PopulateInv(s: State)
    requires Initial(s) && Shaped(s.q)
    ensures exists g ::
      RxOk(s.(q := PopulateFrom(s.q, 0)), g) && g.pend == From(0, |s.q.desc|) && g.taken == 0 && g.done == []
  {
    hide Place, PopulateFrom;
    Populated(s.q, 0);
    var q, n := PopulateFrom(s.q, 0), |s.q.desc|;
    var g := Ledger(0, 0, From(0, n), [], seq(n, _ => Head(Pending)), map[]);
    forall d | 0 <= d < n ensures d in g.pend { assert g.pend[d] == d; }
    assert RxOk(s.(q := q), g);
  }

  lemma RxTake(s: State, g: Ledger) returns (g': Ledger)
    requires RxOk(s, g)
    ensures RxOk(Take(s), g') && (s.devIdx != s.q.availIdx <==> g.pend != [])
    ensures
      if g.pend == [] then g' == g
      else g'.pend == g.pend[1..] && g'.taken == g.taken + 1 && g'.done == g.done && g'.reaped == g.reaped
  {
    hide Place, Ring, RingsOk, Shaped, Listed;
    RxSize(s, g);
    TakeRings(s, g);
    g' := g;
    if g.pend != [] {
      var h := g.pend[0];
      ListedAt(g.role, Pending, g.pend, h);
      g' := Moved(g, h, Held).(taken := g.taken + 1, pend := g.pend[1..]);
      Leaves(g.role, Pending, g.pend, 0, Head(Held));
      assert g.pend[..0] + g.pend[0 + 1..] == g.pend[1..];
      Arrives(g.role, h, Held, s.held);
      Elsewhere(g.role, Done, g.done, h, Head(Held));
      SameRings(Take(s), g.(taken := g.taken + 1, pend := g.pend[1..]), g');
    }
  }

  lemma RxSize(s: State, g: Ledger)
    requires RxOk(s, g)
    ensures |g.role| == |s.q.desc| && |g.pend| <= 256
  {
    hide Ring, RingsOk;
    Fits(g.pend, |g.role|);
  }

  lemma RxReturn(s: State, g: Ledger, k: nat) returns (g': Ledger)
    requires RxOk(s, g) && k < |s.held| && FreshSlot(g.reaped, |g.done|, |s.q.desc|)
    ensures RxOk(Return(s, k), g') && g'.done == g.done + [s.held[k]] && g'.pend == g.pend && g'.taken == g.taken
  {
    hide Place, Ring, Shaped, FreshSlot;
    var h := s.held[k];
    assert h in s.held;
    QueueSize(s.q);
    Room(g.role, Done, g.done, h);
    RingPush(s.q.used, g.reaped, g.done, h);
    NextIndex(g.reaped + |g.done|);
    g' := Moved(g, h, Done).(done := g.done + [h]);
    Leaves(g.role, Held, s.held, k, Head(Done));
    Arrives(g.role, h, Done, g.done);
    Elsewhere(g.role, Pending, g.pend, h, Head(Done));
  }

  /** The buffer returned longest ago is posted again, and the rings stay consistent exactly when the device has already
      read what was in that slot. */
  lemma RecycleInv(s: State, g: Ledger) returns (g': Ledger)
    requires RxOk(s, g)
    ensures RxOk(s.(q := Recycle(s.q)), g') <==> g.done == [] || FreshSlot(g.taken, |g.pend|, |s.q.desc|)
    ensures s.q.lastUsed != s.q.usedIdx <==> g.done != []
    ensures
      if g.done == [] then Recycle(s.q) == s.q && g' == g
      else g'.done == g.done[1..] && g'.pend == g.pend + [g.done[0]] && g'.taken == g.taken
           && Recycle(s.q).avail == s.q.avail[Slot(g.taken + |g.pend|, |s.q.desc|) := g.done[0]]
           && Recycle(s.q).availIdx == (g.taken + |g.pend| + 1) % WRAP
  {
    hide Place, Ring, Shaped, FreshSlot;
    Fits(g.done, |g.role|);
    QueueSize(s.q);
    SameIndex(g.reaped, g.reaped + |g.done|);
    g' := g;
    if g.done != [] {
      var h := g.done[0];
      assert h in g.done;
      RingPop(s.q.used, g.reaped, g.done);
      NextIndex(g.reaped);
      Room(g.role, Pending, g.pend, h);
      if FreshSlot(g.taken, |g.pend|, |s.q.desc|) {
        RingPush(s.q.avail, g.taken, g.pend, h);
      } else {
        RingSpoilt(s.q.avail, g.taken, g.pend, h);
      }
      NextIndex(g.taken + |g.pend|);
      g' := Moved(g, h, Pending).(reaped := g.reaped + 1, done := g.done[1..], pend := g.pend + [h]);
      Leaves(g.role, Done, g.done, 0, Head(Pending));
      assert g.done[..0] + g.done[0 + 1..] == g.done[1..];
      Arrives(g.role, h, Pending, g.pend);
      Elsewhere(g.role, Held, s.held, h, Head(Pending));
    }
  }

  datatype RxOp = RxDoTake | RxDoReturn(k: nat) | RxDoRecycle

  ghost predicate RxNext(s: State, op: RxOp, s': State) {
    && Shaped(s.q)
    && match op
       case RxDoTake => s' == Take(s)
       case RxDoReturn(k) => k < |s.held| && s' == Return(s, k)
       case RxDoRecycle => s' == s.(q := Recycle(s.q))
  }

  ghost predicate RxRun(tr: seq<State>, ops: seq<RxOp>) {
    && |tr| == |ops| + 1
    && (exists s :: Initial(s) && Shaped(s.q) && tr[0] == s.(q := PopulateFrom(s.q, 0)))
    && forall i | 0 <= i < |ops| :: RxNext(tr[i], ops[i], tr[i + 1])
  }

  lemma {:induction false} RxRunSize(tr: seq<State>, ops: seq<RxOp>, i: nat)
    requires RxRun(tr, ops) && i < |tr|
    ensures |tr[i].q.desc| == |tr[0].q.desc|
  {
    hide Initial, PopulateFrom, Take, Return, Recycle;
    if i > 0 {
      RxRunSize(tr, ops, i - 1);
      assert RxNext(tr[i - 1], ops[i - 1], tr[i - 1 + 1]);
    }
  }

  /** All buffers may be in a ring at once, so the ring must not meet itself at all. */
  lemma RxRoomy(s: State, g: Ledger)
    requires RxOk(s, g) && WRAP % |s.q.desc| == 0
    ensures s.held != [] ==> FreshSlot(g.reaped, |g.done|, |s.q.desc|)
    ensures g.done != [] ==> FreshSlot(g.taken, |g.pend|, |s.q.desc|)
  {
    hide FreshSlot, Place, Ring, RingsOk;
    RxOwnership(s, g);
    var n := |s.q.desc|;
    if s.held != [] { Fresh(g.reaped, |g.done|, n, n); }
    if g.done != [] { Fresh(g.taken, |g.pend|, n, n); }
  }

  /** In every reachable state each buffer is in exactly one place, and both rings hold what they should. */
  lemma {:induction false} RxRunInv(tr: seq<State>, ops: seq<RxOp>, i: nat)
    requires RxRun(tr, ops) && i < |tr| && tr[0].q.desc != [] && WRAP % |tr[0].q.desc| == 0
    ensures exists g :: RxOk(tr[i], g)
  {
    hide RxOk, Initial, PopulateFrom, Take, Return, Recycle, FreshSlot;
    if i == 0 {
      var s :| Initial(s) && Shaped(s.q) && tr[0] == s.(q := PopulateFrom(s.q, 0));
      PopulateInv(s);
    } else {
      RxRunInv(tr, ops, i - 1);
      assert RxNext(tr[i - 1], ops[i - 1], tr[i - 1 + 1]);
      var s := tr[i - 1];
      var g :| RxOk(s, g);
      RxRunSize(tr, ops, i - 1);
      RxRoomy(s, g);
      match ops[i - 1]
      case RxDoTake => var g' := RxTake(s, g);
      case RxDoReturn(k) => var g' := RxReturn(s, g, k);
      case RxDoRecycle => var g' := RecycleInv(s, g);
    }
  }

  /** The driver never has to wait for a slot: posted, held and returned buffers are all of them, each once, and every
      descriptor leads to its own buffer of 1526 bytes. */
  lemma RxOwnership(s: State, g: Ledger)
    requires RxOk(s, g)
    ensures NoDup(g.pend + s.held + g.done) && |g.pend| + |s.held| + |g.done| == |s.q.desc|
    ensures forall d: nat | d < |s.q.desc| :: d in g.pend + s.held + g.done
    ensures forall d: nat | d < |s.q.desc| ::
      s.q.desc[d].addr == Payload(d) && s.q.desc[d].len == 1526 && !s.q.desc[d].more
  {
    hide Ring, RingsOk, Place;
    NoDupJoin(g.pend, s.held);
    NoDupJoin(g.pend + s.held, g.done);
    forall d: nat | d < |s.q.desc| ensures d in g.pend + s.held + g.done {
      match g.role[d].at
      case Pending => assert d in g.pend;
      case Held => assert d in s.held;
      case Done => assert d in g.done;
    }
    Exactly(g.pend + s.held + g.done, |s.q.desc|);
  }

  // ---------------------------------------------------------------- sizes

  /** In every run of `n` buffers the device never holds one buffer twice. */
  ghost predicate NeverShared(n: nat) {
    forall tr: seq<State>, ops: seq<RxOp>, i: nat |
      RxRun(tr, ops) && i < |tr| && |tr[0].q.desc| == n :: NoDup(tr[i].held)
  }

  ghost predicate RxTold(tr: seq<State>, ops: seq<RxOp>, n: nat) {
    tr != [] && |tr[0].q.desc| == n && RxRun(tr, ops)
  }

  lemma RxExtend(tr: seq<State>, ops: seq<RxOp>, n: nat, op: RxOp, s': State) returns (tr': seq<State>, ops': seq<RxOp>)
    requires RxTold(tr, ops, n) && RxNext(tr[|tr| - 1], op, s')
    ensures RxTold(tr', ops', n) && tr'[|tr'| - 1] == s'
  {
    hide RxNext, Initial;
    tr', ops' := tr + [s'], ops + [op];
    forall i | 0 <= i < |ops'| ensures RxNext(tr'[i], ops'[i], tr'[i + 1]) {
      if i < |ops| { assert RxNext(tr[i], ops[i], tr[i + 1]); }
    }
  }

  /** All buffers are posted, `k` of them have been used before. */
  ghost predicate Full(tr: seq<State>, ops: seq<RxOp>, n: nat, g: Ledger, k: nat) {
    && RxTold(tr, ops, n) && var s := tr[|tr| - 1];
    RxOk(s, g) && |s.q.desc| == n && s.held == [] && g.done == [] && g.taken == k && |g.pend| == n
  }

  lemma RxBegin(n: nat) returns (tr: seq<State>, ops: seq<RxOp>, g: Ledger)
    requires 0 < n <= 256
    ensures Full(tr, ops, n, g, 0)
  {
    hide RxOk, PopulateFrom, Initial, Start;
    var s := Start(n);
    Starts(n);
    PopulateInv(s);
    var s0 := s.(q := PopulateFrom(s.q, 0));
    g :| RxOk(s0, g) && g.pend == From(0, n) && g.taken == 0 && g.done == [];
    tr, ops := [s0], [];
  }

  /** The device takes the oldest buffer and returns it. */
  lemma TakeAndReturn(tr: seq<State>, ops: seq<RxOp>, n: nat, g: Ledger, k: nat)
    returns (tr': seq<State>, ops': seq<RxOp>, g': Ledger)
    requires 0 < n <= 256 && Full(tr, ops, n, g, k)
    ensures RxTold(tr', ops', n) && var s' := tr'[|tr'| - 1];
      && RxOk(s', g') && |s'.q.desc| == n && s'.held == [] && |g'.done| == 1 && g'.taken == k + 1
      && |g'.pend| == n - 1
  {
    hide RxOk, RxRun, Take, Return, FreshSlot;
    var s := tr[|tr| - 1];
    var g1 := RxTake(s, g);
    RxShaped(s, g);
    var s1 := Take(s);
    var tr1, ops1 := RxExtend(tr, ops, n, RxDoTake, s1);
    RxOwnership(s1, g1);
    EmptyFresh(g1.reaped, n);
    g' := RxReturn(s1, g1, 0);
    HeldAfter(s1, 0);
    tr', ops' := RxExtend(tr1, ops1, n, RxDoReturn(0), Return(s1, 0));
  }

  lemma RxShaped(s: State, g: Ledger)
    requires RxOk(s, g)
    ensures Shaped(s.q) && s.devIdx == g.taken % WRAP && s.q.availIdx == (g.taken + |g.pend|) % WRAP
  {
  }

  lemma EmptyFresh(from: nat, n: nat)
    requires n > 0
    ensures FreshSlot(from, 0, n)
  {
  }

  lemma HeldAfter(s: State, k: nat)
    requires Shaped(s.q) && |s.held| == 1 && k == 0
    ensures Return(s, k).held == []
  {
  }

  /** The driver posts the returned buffer again. */
  lemma RxRound(tr: seq<State>, ops: seq<RxOp>, n: nat, g: Ledger, k: nat)
    returns (tr': seq<State>, ops': seq<RxOp>, g': Ledger)
    requires 0 < n <= 256 && Full(tr, ops, n, g, k) && k + n < WRAP
    ensures Full(tr', ops', n, g', k + 1)
  {
    hide RxOk, RxRun, Recycle, FreshSlot;
    var tr1, ops1, g1 := TakeAndReturn(tr, ops, n, g, k);
    var s1 := tr1[|tr1| - 1];
    RxShaped(s1, g1);
    FirstLap(k + 1, n - 1, n);
    g' := RecycleInv(s1, g1);
    tr', ops' := RxExtend(tr1, ops1, n, RxDoRecycle, s1.(q := Recycle(s1.q)));
  }

  lemma {:induction false} RxRounds(n: nat, k: nat) returns (tr: seq<State>, ops: seq<RxOp>, g: Ledger)
    requires 0 < n <= 256 && k + n <= WRAP
    ensures Full(tr, ops, n, g, k)
    decreases k
  {
    hide Full;
    if k == 0 {
      tr, ops, g := RxBegin(n);
    } else {
      var tr0, ops0, g0 := RxRounds(n, k - 1);
      tr, ops, g := RxRound(tr0, ops0, n, g0, k - 1);
    }
  }

  /** The device takes the entries from number `c` on, whatever they are. */
  lemma {:induction false} TakeMany(tr: seq<State>, ops: seq<RxOp>, n: nat, c: nat, m: nat)
    returns (tr': seq<State>, ops': seq<RxOp>)
    requires 0 < n <= 256 && m <= n && RxTold(tr, ops, n) && var s := tr[|tr| - 1];
      && Shaped(s.q) && |s.q.desc| == n && s.held == []
      && s.devIdx == c % WRAP && s.q.availIdx == (c + n) % WRAP
    ensures RxTold(tr', ops', n) && var s, s' := tr[|tr| - 1], tr'[|tr'| - 1];
      && s'.q == s.q && s'.devIdx == (c + m) % WRAP && |s'.held| == m
      && forall i | 0 <= i < m :: s'.held[i] == s.q.avail[Slot(c + i, n)]
    decreases m
  {
    hide RxRun, Slot;
    if m == 0 {
      tr', ops' := tr, ops;
    } else {
      var tr0, ops0 := TakeMany(tr, ops, n, c, m - 1);
      var s := tr0[|tr0| - 1];
      SameIndex(c + m - 1, c + n);
      TakeHere(s, c + m - 1, n);
      tr', ops' := RxExtend(tr0, ops0, n, RxDoTake, Take(s));
    }
  }

  lemma TakeHere(s: State, c: nat, n: nat)
    requires Shaped(s.q) && |s.q.desc| == n && s.devIdx == c % WRAP && s.devIdx != s.q.availIdx
    ensures Take(s) == State(s.q, (c + 1) % WRAP, s.held + [s.q.avail[Slot(c, n)]])
  {
    NextIndex(c);
  }

  /** When the index wraps, a buffer is posted into a slot not read yet, and the device meets it twice. */
  lemma HeldTwice(n: nat) returns (tr: seq<State>, ops: seq<RxOp>)
    requires 0 < n <= 256 && WRAP % n != 0
    ensures RxTold(tr, ops, n) && !NoDup(tr[|tr| - 1].held)
  {
    hide RxOk, RxRun, Recycle, Slot;
    var r, k := WRAP % n, WRAP - n;
    var tr0, ops0, g0 := RxRounds(n, k);
    var tr1, ops1, g1 := TakeAndReturn(tr0, ops0, n, g0, k);
    var s1 := tr1[|tr1| - 1];
    RxShaped(s1, g1);
    var g2 := RecycleInv(s1, g1);
    var s2 := s1.(q := Recycle(s1.q));
    RecycleDevice(s1);
    var tr2, ops2 := RxExtend(tr1, ops1, n, RxDoRecycle, s2);
    tr, ops := TakeMany(tr2, ops2, n, k + 1, n);
    SlotsMeet(WRAP - r, WRAP, n);
    var held := tr[|tr| - 1].held;
    assert held[n - 1 - r] == s2.q.avail[Slot(k + 1 + (n - 1 - r), n)];
    assert held[n - 1] == s2.q.avail[Slot(k + 1 + (n - 1), n)];
  }

  lemma RecycleDevice(s: State)
    requires Shaped(s.q)
    ensures |Recycle(s.q).desc| == |s.q.desc| && Shaped(Recycle(s.q))
  {
  }

  /** The device never holds a buffer twice, in any run, exactly when 2^16 is a whole number of rings. */
  lemma RxSizeExact(n: nat)
    requires 0 < n <= 256
    ensures NeverShared(n) <==> WRAP % n == 0
  {
    hide RxRun, NoDup;
    if WRAP % n == 0 {
      forall tr: seq<State>, ops: seq<RxOp>, i: nat | RxRun(tr, ops) && i < |tr| && |tr[0].q.desc| == n
        ensures NoDup(tr[i].held)
      {
        RxRunInv(tr, ops, i);
        var g :| RxOk(tr[i], g);
        HeldOnce(tr[i], g);
      }
    } else {
      var tr, ops := HeldTwice(n);
      assert !NoDup(tr[|tr| - 1].held);
    }
  }

  lemma HeldOnce(s: State, g: Ledger)
    requires RxOk(s, g)
    ensures NoDup(s.held)
  {
  }
}
