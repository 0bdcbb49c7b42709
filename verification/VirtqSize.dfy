/** Which queue sizes the transmit rings work with: virtq_init takes any size the device offers, and the 16-bit index
    then wraps in the middle of the ring. */
module VirtqSize {
  import opened Virtq
  import opened VirtqInv

  /** In every run of a queue of `n` descriptors the device finds every frame, oldest first. */
  ghost predicate AlwaysDelivers(n: nat) {
    forall tr: seq<State>, ops: seq<Op>, sent: seq<seq<seq<nat>>>, taken: seq<nat>, i: nat |
      Run(tr, ops, sent, taken) && i < |tr| && |tr[0].q.desc| == n :: Delivered(tr[i], sent[i], taken[i])
  }

  // ---------------------------------------------------------------- building runs

  /** A run with the frames accepted and taken along the way. */
  datatype Story = Story(tr: seq<State>, ops: seq<Op>, sent: seq<seq<seq<nat>>>, taken: seq<nat>)

  ghost predicate Told(st: Story, n: nat) {
    && |st.tr| == |st.sent| == |st.taken| > 0 && |st.tr[0].q.desc| == n
    && Run(st.tr, st.ops, st.sent, st.taken)
  }

  ghost function Now(st: Story): State
    requires st.tr != []
  {
    st.tr[|st.tr| - 1]
  }

  ghost function SentNow(st: Story): seq<seq<nat>>
    requires st.sent != []
  {
    st.sent[|st.sent| - 1]
  }

  ghost function TakenNow(st: Story): nat
    requires st.taken != []
  {
    st.taken[|st.taken| - 1]
  }

  lemma Extend(st: Story, n: nat, op: Op) returns (st': Story)
    requires Told(st, n) && Enabled(Now(st), op)
    ensures Told(st', n) && Now(st') == Step(Now(st), op) && SentNow(st') == SentAfter(Now(st), SentNow(st), op)
    ensures TakenNow(st') == TakenAfter(Now(st), TakenNow(st), op)
  {
    hide Initial, Step, SentAfter, TakenAfter, Enabled;
    var s := Now(st);
    st' := Story(st.tr + [Step(s, op)], st.ops + [op], st.sent + [SentAfter(s, SentNow(st), op)],
                 st.taken + [TakenAfter(s, TakenNow(st), op)]);
    forall i | 0 <= i < |st'.ops|
      ensures Enabled(st'.tr[i], st'.ops[i]) && st'.tr[i + 1] == Step(st'.tr[i], st'.ops[i])
      ensures st'.sent[i + 1] == SentAfter(st'.tr[i], st'.sent[i], st'.ops[i])
      ensures st'.taken[i + 1] == TakenAfter(st'.tr[i], st'.taken[i], st'.ops[i])
    {
      if i < |st.ops| { assert st.tr[i + 1] == Step(st.tr[i], st.ops[i]); }
    }
  }

  /** The frames of `g.pend` wait, the device has none in work and the driver none to take back. */
  ghost predicate Posted(st: Story, n: nat, g: Ledger) {
    && Told(st, n) && Ok(Now(st), g) && |Now(st).q.desc| == n && Now(st).held == [] && g.done == []
    && TakenNow(st) == g.taken && |SentNow(st)| == g.taken + |g.pend|
  }

  lemma Begin(n: nat) returns (st: Story, g: Ledger)
    requires 0 < n <= 256
    ensures Posted(st, n, g) && g.pend == [] && g.taken == 0
  {
    hide Ok;
    st := Story([Start(n)], [], [[]], [0]);
    Starts(n);
    InitialInv(Start(n));
    g :| Ok(Start(n), g) && Waiting(g, [], 0);
    var g' := ReapInv(Start(n), g);
  }

  /** One more frame is posted. */
  lemma PostMore(st: Story, n: nat, g: Ledger, data: seq<nat>) returns (st': Story, g': Ledger)
    requires 0 < n <= 256 && Posted(st, n, g) && FreshSlot(g.taken, |g.pend|, n) && n - 2 * |g.pend| >= 2
    ensures Posted(st', n, g') && g'.taken == g.taken && |g'.pend| == |g.pend| + 1
    ensures SentNow(st') == SentNow(st) + [data]
  {
    hide Ok, FreshSlot, Send, Run, Partitioned;
    var s := Now(st);
    OkShaped(s, g);
    Ownership(s, g);
    g' := SendInv(s, g, data);
    st' := Extend(st, n, DoSend(data));
  }

  /** A frame goes all the way to the device and back. */
  lemma Round(st: Story, n: nat, g: Ledger) returns (st': Story, g': Ledger)
    requires 2 <= n <= 256 && Posted(st, n, g) && g.pend == []
    ensures Posted(st', n, g') && g'.pend == [] && g'.taken == g.taken + 1
  {
    hide Ok, FreshSlot, Told;
    NoneShared(g.taken, n);
    var st1, g1 := PostMore(st, n, g, []);
    var st2, g2 := TakeOne(st1, n, g1);
    st', g' := GiveBack(st2, n, g2);
  }

  lemma TakeOne(st: Story, n: nat, g: Ledger) returns (st': Story, g': Ledger)
    requires 0 < n <= 256 && Posted(st, n, g) && |g.pend| == 1
    ensures Working(st', n, g') && g'.taken == g.taken + 1
  {
    hide Ok, Take, Run;
    OkShaped(Now(st), g);
    g' := TakeInv(Now(st), g);
    st' := Extend(st, n, DoTake);
  }

  /** The device has one frame in work and nothing else is in flight. */
  ghost predicate Working(st: Story, n: nat, g: Ledger) {
    && Told(st, n) && Ok(Now(st), g) && |Now(st).q.desc| == n && |Now(st).held| == 1 && g.pend == g.done == []
    && TakenNow(st) == |SentNow(st)| == g.taken
  }

  lemma GiveBack(st: Story, n: nat, g: Ledger) returns (st': Story, g': Ledger)
    requires 0 < n <= 256 && Working(st, n, g)
    ensures Posted(st', n, g') && g'.pend == [] && g'.taken == g.taken
  {
    hide Ok, FreshSlot, Reap, Run, Place;
    var s := Now(st);
    OkShaped(s, g);
    NoneShared(g.reaped, n);
    var g1 := ReturnInv(s, g, 0);
    var st1 := Extend(st, n, DoReturn(0));
    assert Now(st1).held == [];
    OkShaped(Now(st1), g1);
    g' := ReapInv(Now(st1), g1);
    st' := Extend(st1, n, DoReap);
  }

  lemma NoneShared(from: nat, n: nat)
    requires n > 0
    ensures FreshSlot(from, 0, n)
  {
  }

  lemma {:induction false} Rounds(n: nat, k: nat) returns (st: Story, g: Ledger)
    requires 2 <= n <= 256
    ensures Posted(st, n, g) && g.pend == [] && g.taken == k
    decreases k
  {
    hide Posted;
    if k == 0 {
      st, g := Begin(n);
    } else {
      var st0, g0 := Rounds(n, k - 1);
      st, g := Round(st0, n, g0);
    }
  }

  // ---------------------------------------------------------------- the losing run

  /** Just before the index wraps, `j` frames are posted that the device leaves alone; the first one is not empty. */
  lemma {:induction false} Burst(n: nat, j: nat) returns (st: Story, g: Ledger)
    requires 2 <= n <= 256 && j <= WRAP % n < n / 2
    ensures Posted(st, n, g) && g.taken == WRAP - 1 && |g.pend| == j
    ensures j > 0 ==> SentNow(st)[WRAP - 1] == [1]
    decreases j
  {
    hide Ok, Run;
    if j == 0 {
      st, g := Rounds(n, WRAP - 1);
    } else {
      var st0, g0 := Burst(n, j - 1);
      BeforeMeeting(n, j - 1);
      st, g := PostMore(st0, n, g0, if j == 1 then [1] else []);
    }
  }

  lemma BeforeMeeting(n: nat, j: nat)
    requires 2 <= n <= 256 && j < WRAP % n
    ensures FreshSlot(WRAP - 1, j, n)
  {
    hide Slot;
    forall p | WRAP - 1 <= p < WRAP - 1 + j ensures Slot(p, n) != Slot(WRAP - 1 + j, n) {
      SlotsMeet(p, WRAP - 1 + j, n);
    }
  }

  /** The next frame goes into the slot of the oldest one that waits, and the device finds it there instead. */
  lemma Overwritten(n: nat) returns (st: Story)
    requires 2 <= n <= 256 && 0 < WRAP % n < n / 2
    ensures Told(st, n) && !Delivered(Now(st), SentNow(st), TakenNow(st))
  {
    hide Ok, Run, Slot, Partitioned, Send, Delivered;
    var r := WRAP % n;
    var st0, g := Burst(n, r);
    var s := Now(st0);
    OkShaped(s, g);
    Ownership(s, g);
    var g' := SendInv(s, g, []);
    st := Extend(st0, n, DoSend([]));
    SlotsMeet(WRAP - 1, WRAP - 1 + r, n);
    Misread(s, g, SentNow(st0), r);
  }

  lemma Misread(s: State, g: Ledger, sent: seq<seq<nat>>, r: nat)
    requires Ok(s, g) && Shaped(s.q) && s.q.numFree >= 2 && |g.pend| == r && g.taken == WRAP - 1
    requires Slot(WRAP - 1, |s.q.desc|) == Slot(WRAP - 1 + r, |s.q.desc|)
    requires |sent| > WRAP - 1 && sent[WRAP - 1] == [1]
    ensures !Delivered(s.(q := Send(s.q, []).0), sent + [[]], WRAP - 1)
  {
    hide FreeList, Ring, Place, PairOk, DataOk, Listed, FreeOk;
    var q' := Send(s.q, []).0;
    assert q'.avail[Place(s.devIdx, |q'.avail|)] == s.q.freeHead;
    assert |Cut([])| == 0 && Cut([1]) == [1];
    FirstTwoApart(s, g);
  }

  lemma FirstTwoApart(s: State, g: Ledger)
    requires Ok(s, g) && s.q.numFree >= 2
    ensures s.q.freeHead < |s.q.desc| && s.q.desc[s.q.freeHead].next != s.q.freeHead
  {
    hide Place, Ring, RingsOk, Cut;
    FirstTwo(s.q, g.role);
  }

  /** Every frame reaches the device in every run exactly when 2^16 is a whole number of rings, or leaves at least half
      a ring over. */
  lemma SizeExact(n: nat)
    requires 0 < n <= 256
    ensures AlwaysDelivers(n) <==> Holds(n, n / 2)
  {
    hide Initial, Enabled, Step, SentAfter, TakenAfter, Delivered;
    if Holds(n, n / 2) {
      forall tr: seq<State>, ops: seq<Op>, sent: seq<seq<seq<nat>>>, taken: seq<nat>, i: nat |
        Run(tr, ops, sent, taken) && i < |tr| && |tr[0].q.desc| == n
        ensures Delivered(tr[i], sent[i], taken[i])
      {
        RunDelivers(tr, ops, sent, taken, i);
      }
    } else {
      var st := Overwritten(n);
      assert !Delivered(st.tr[|st.tr| - 1], st.sent[|st.tr| - 1], st.taken[|st.tr| - 1]);
    }
  }

  /** With five descriptors frames are lost, with six they are not, although neither divides 2^16. */
  lemma FiveAndSix()
    ensures !AlwaysDelivers(5) && AlwaysDelivers(6) && !Holds(5, 5) && !Holds(6, 6)
  {
    hide AlwaysDelivers;
    SizeExact(5);
    SizeExact(6);
  }
}
