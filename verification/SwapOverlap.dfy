/** Swap devices on sectors that are in use: when pages that are out stay safe. */
module SwapOverlap {
  import opened Options
  import opened Swap
  import opened SwapInv

  /** Steps from some state on. */
  ghost predicate Goes(tr: seq<(Sys, map<nat, seq<nat>>)>, ops: seq<Op>) {
    && |tr| == |ops| + 1
    && forall i | 0 <= i < |ops| :: Next(tr[i].0, tr[i].1, ops[i], tr[i + 1].0, tr[i + 1].1)
  }

  /** Every reserved entry reads back what was last written to it. */
  ghost predicate ReadsBack(s: Sys, held: map<nat, seq<nat>>) {
    forall pte | pte in held :: SlotData(s, pte) == held[pte]
  }

  /** Now and in everything that may follow; devices added later have sectors of their own. */
  ghost predicate SafeFrom(s: Sys, held: map<nat, seq<nat>>) {
    forall tr: seq<(Sys, map<nat, seq<nat>>)>, ops: seq<Op>, i: nat |
      Goes(tr, ops) && tr[0] == (s, held) && i < |tr| :: ReadsBack(tr[i].0, tr[i].1)
  }

  lemma {:induction false} GoesInv(tr: seq<(Sys, map<nat, seq<nat>>)>, ops: seq<Op>, i: nat)
    requires Goes(tr, ops) && i < |tr| && Inv(tr[0].0, tr[0].1)
    ensures Inv(tr[i].0, tr[i].1)
  {
    hide Inv, Next;
    if i > 0 {
      GoesInv(tr, ops, i - 1);
      assert Next(tr[i - 1].0, tr[i - 1].1, ops[i - 1], tr[i - 1 + 1].0, tr[i - 1 + 1].1);
      StepInv(tr[i - 1].0, tr[i - 1].1, ops[i - 1], tr[i].0, tr[i].1);
    }
  }

  lemma SoundIsSafe(s: Sys, held: map<nat, seq<nat>>)
    requires Inv(s, held)
    ensures SafeFrom(s, held)
  {
    hide Inv, Next, SlotData;
    forall tr: seq<(Sys, map<nat, seq<nat>>)>, ops: seq<Op>, i: nat |
      Goes(tr, ops) && tr[0] == (s, held) && i < |tr| ensures ReadsBack(tr[i].0, tr[i].1)
    {
      GoesInv(tr, ops, i);
      forall pte | pte in tr[i].1 ensures SlotData(tr[i].0, pte) == tr[i].1[pte] { HeldData(tr[i].0, tr[i].1, pte); }
    }
  }

  // ---------------------------------------------------------------- reserving every slot

  /** Every slot that is taken has its entry. */
  ghost predicate Booked(s: Sys, held: map<nat, seq<nat>>) {
    forall i: nat, off: nat {:trigger Taken(s, i, off)} | Taken(s, i, off) :: Encode(i, off) in held
  }

  /** The devices are where they were. */
  ghost predicate SameDevs(s: Sys, s': Sys) {
    && |s'.devs| == |s.devs|
    && forall i | 0 <= i < |s.devs| ::
         && s'.devs[i].bdev == s.devs[i].bdev && s'.devs[i].start == s.devs[i].start
         && s'.devs[i].nslots == s.devs[i].nslots && s'.devs[i].active == s.devs[i].active
  }

  ghost predicate NoRoomLeft(s: Sys) { forall i | 0 <= i < |s.devs| :: !Room(s, i) }

  lemma TakeBooked(s: Sys, held: map<nat, seq<nat>>, i: nat, off: nat, hint: nat)
    requires Counted(s) && Booked(s, held) && Room(s, i) && off < s.devs[i].nslots && !s.devs[i].bits[off]
    ensures var s' := Take(s, i, off, hint);
      && Counted(s') && SameDevs(s, s') && FreeSum(s'.devs) < FreeSum(s.devs)
      && Booked(s', held[Encode(i, off) := SlotData(s', Encode(i, off))])
  {
    hide Encode, Clear, FreeSum, TotalSum, SlotData;
    var s' := Take(s, i, off, hint);
    assert DevOk(s.devs[i]);
    ClearFlip(s.devs[i].bits, s.devs[i].nslots, off);
    SumUpdate(s.devs, i, s'.devs[i]);
    forall j | 0 <= j < |s'.devs| ensures DevOk(s'.devs[j]) { assert DevOk(s.devs[j]); }
    var held' := held[Encode(i, off) := SlotData(s', Encode(i, off))];
    forall j: nat, o: nat | Taken(s', j, o) ensures Encode(j, o) in held' {
      if (j, o) != (i, off) { assert Taken(s, j, o); }
    }
  }

  /** Allocations until no device has a free slot. */
  lemma {:induction false} ReserveAll(s: Sys, held: map<nat, seq<nat>>)
    returns (tr: seq<(Sys, map<nat, seq<nat>>)>, ops: seq<Op>)
    requires Counted(s) && Booked(s, held)
    ensures Goes(tr, ops) && tr[0] == (s, held) && var (t, h) := tr[|tr| - 1];
      Counted(t) && Booked(t, h) && SameDevs(s, t) && NoRoomLeft(t)
    decreases FreeSum(s.devs)
  {
    hide Counted, Booked, Encode, SlotData, FreeSum, AllocFrom;
    var i, off, hint := AllocEffect(s, 0);
    var (s1, r) := AllocFrom(s, 0);
    if r.None? {
      tr, ops := [(s, held)], [];
    } else {
      CountedShaped(s);
      TakeBooked(s, held, i, off, hint);
      var held1 := held[r.value := SlotData(s1, r.value)];
      var tr1, ops1 := ReserveAll(s1, held1);
      tr, ops := GoesFirst(s, held, DoAlloc, tr1, ops1);
    }
  }

  lemma CountedShaped(s: Sys)
    requires Counted(s)
    ensures Shaped(s)
  {
  }

  lemma GoesFirst(s: Sys, held: map<nat, seq<nat>>, op: Op, tr: seq<(Sys, map<nat, seq<nat>>)>, ops: seq<Op>)
    returns (tr': seq<(Sys, map<nat, seq<nat>>)>, ops': seq<Op>)
    requires Goes(tr, ops) && Next(s, held, op, tr[0].0, tr[0].1)
    ensures Goes(tr', ops') && tr'[0] == (s, held) && tr'[|tr'| - 1] == tr[|tr| - 1]
  {
    hide Next;
    tr', ops' := [(s, held)] + tr, [op] + ops;
    forall i | 0 <= i < |ops'| ensures Next(tr'[i].0, tr'[i].1, ops'[i], tr'[i + 1].0, tr'[i + 1].1) {
      if i > 0 { assert Next(tr[i - 1].0, tr[i - 1].1, ops[i - 1], tr[i - 1 + 1].0, tr[i - 1 + 1].1); }
    }
  }

  lemma GoesOn(tr: seq<(Sys, map<nat, seq<nat>>)>, ops: seq<Op>, op: Op, s': Sys, held': map<nat, seq<nat>>)
    returns (tr': seq<(Sys, map<nat, seq<nat>>)>, ops': seq<Op>)
    requires Goes(tr, ops) && var (s, held) := tr[|tr| - 1]; Next(s, held, op, s', held')
    ensures Goes(tr', ops') && tr'[0] == tr[0] && tr'[|tr'| - 1] == (s', held')
  {
    hide Next;
    tr', ops' := tr + [(s', held')], ops + [op];
    forall i | 0 <= i < |ops'| ensures Next(tr'[i].0, tr'[i].1, ops'[i], tr'[i + 1].0, tr'[i + 1].1) {
      if i < |ops| { assert Next(tr[i].0, tr[i].1, ops[i], tr[i + 1].0, tr[i + 1].1); }
    }
  }

  /** With no room left every slot is taken. */
  lemma AllTaken(s: Sys, i: nat, off: nat)
    requires Counted(s) && NoRoomLeft(s) && i < |s.devs| && s.devs[i].active && off < s.devs[i].nslots
    ensures Taken(s, i, off)
  {
    assert DevOk(s.devs[i]);
    assert !Room(s, i);
    ClearZero(s.devs[i].bits, s.devs[i].nslots);
  }

  // ---------------------------------------------------------------- two slots on one sector

  lemma {:induction false} ReadAt(disk: Disk, bdev: nat, lba: nat, count: nat, j: nat)
    requires j < count
    ensures ReadSectors(disk, bdev, lba, count)[j] == if Loc(bdev, lba + j) in disk then disk[Loc(bdev, lba + j)] else 0
    decreases count
  {
    if j > 0 { ReadAt(disk, bdev, lba + 1, count - 1, j - 1); }
  }

  lemma {:induction false} WriteAt(disk: Disk, bdev: nat, lba: nat, data: seq<nat>, j: nat)
    requires j < |data|
    ensures var d := WriteSectors(disk, bdev, lba, data); Loc(bdev, lba + j) in d && d[Loc(bdev, lba + j)] == data[j]
    decreases |data|
  {
    var d1 := disk[Loc(bdev, lba) := data[0]];
    if j == 0 {
      WriteElsewhere(d1, bdev, lba + 1, data[1..], Loc(bdev, lba));
    } else {
      WriteAt(d1, bdev, lba + 1, data[1..], j - 1);
    }
  }

  /** A write over one sector of a slot shows when the slot is read. */
  lemma OverwriteShows(disk: Disk, bdev: nat, a: nat, b: nat, x: nat, data: seq<nat>)
    requires |data| == 8 && a <= x < a + 8 && b <= x < b + 8
    ensures ReadSectors(WriteSectors(disk, bdev, b, data), bdev, a, 8)[x - a] == data[x - b]
  {
    hide ReadSectors, WriteSectors;
    WriteAt(disk, bdev, b, data, x - b);
    ReadAt(WriteSectors(disk, bdev, b, data), bdev, a, 8, x - a);
  }

  const BEFORE: seq<nat> := [0, 0, 0, 0, 0, 0, 0, 0]
  const AFTER: seq<nat> := [1, 1, 1, 1, 1, 1, 1, 1]

  /** Two entries whose slots share sector `x`: what is written to the second shows in the first. */
  lemma SecondShows(s: Sys, i: nat, o: nat, j: nat, p: nat, x: nat)
    requires |s.devs| <= MAX_DEVS && i < |s.devs| && j < |s.devs| && s.devs[i].active && s.devs[j].active
    requires o < s.devs[i].nslots <= MAX_SLOTS && p < s.devs[j].nslots <= MAX_SLOTS && s.devs[i].bdev == s.devs[j].bdev
    requires Lba(s.devs[i], o) <= x < Lba(s.devs[i], o) + 8 && Lba(s.devs[j], p) <= x < Lba(s.devs[j], p) + 8
    ensures SlotData(WriteSlot(WriteSlot(s, Encode(i, o), BEFORE), Encode(j, p), AFTER), Encode(i, o)) != BEFORE
  {
    hide ReadSectors, WriteSectors, Encode, Decode;
    FindEncode(s, i, o);
    FindEncode(s, j, p);
    var s1 := WriteSlot(s, Encode(i, o), BEFORE);
    FindEncode(s1, j, p);
    var s2 := WriteSlot(s1, Encode(j, p), AFTER);
    FindEncode(s2, i, o);
    var bdev, a, b := s.devs[i].bdev, Lba(s.devs[i], o), Lba(s.devs[j], p);
    OverwriteShows(s1.disk, bdev, a, b, x, AFTER);
    assert SlotData(s2, Encode(i, o))[x - a] == 1 && BEFORE[x - a] == 0;
  }

  /** Both slots are reserved and written, and the first then reads back wrong. */
  lemma LosingEnd(tr: seq<(Sys, map<nat, seq<nat>>)>, ops: seq<Op>, i: nat, o: nat, j: nat, p: nat, x: nat)
    returns (tr': seq<(Sys, map<nat, seq<nat>>)>, ops': seq<Op>)
    requires Goes(tr, ops) && var (s, held) := tr[|tr| - 1];
      && Shaped(s) && i < |s.devs| && j < |s.devs| && i != j && s.devs[i].active && s.devs[j].active
      && o < s.devs[i].nslots <= MAX_SLOTS && p < s.devs[j].nslots <= MAX_SLOTS && s.devs[i].bdev == s.devs[j].bdev
      && Lba(s.devs[i], o) <= x < Lba(s.devs[i], o) + 8 && Lba(s.devs[j], p) <= x < Lba(s.devs[j], p) + 8
      && Encode(i, o) in held && Encode(j, p) in held
    ensures Goes(tr', ops') && tr'[0] == tr[0] && var (s', held') := tr'[|tr'| - 1]; !ReadsBack(s', held')
  {
    hide Encode, Decode, WriteSectors, SlotData, Goes;
    GoesSome(tr, ops);
    var (s, held) := tr[|tr| - 1];
    var a, b := Encode(i, o), Encode(j, p);
    FindEncode(s, i, o);
    FindEncode(s, j, p);
    SecondShows(s, i, o, j, p, x);
    var s1, held1 := WriteSlot(s, a, BEFORE), held[a := BEFORE];
    var s2, held2 := WriteSlot(s1, b, AFTER), held1[b := AFTER];
    var tr1, ops1 := GoesOn(tr, ops, DoWrite(a, BEFORE), s1, held1);
    tr', ops' := GoesOn(tr1, ops1, DoWrite(b, AFTER), s2, held2);
    assert a in held2 && held2[a] == BEFORE;
  }

  lemma GoesSome(tr: seq<(Sys, map<nat, seq<nat>>)>, ops: seq<Op>)
    requires Goes(tr, ops)
    ensures tr != []
  {
  }

  // ---------------------------------------------------------------- adding a device

  lemma AddedBooked(s: Sys, held: map<nat, seq<nat>>, bdev: nat, start: nat, n: nat, memOk: bool)
    requires Inv(s, held) && Shaped(s) && AddDev(s, bdev, start, n, memOk).1.Some? && n <= MAX_SLOTS
    ensures var s' := AddDev(s, bdev, start, n, memOk).0; Counted(s') && Booked(s', held)
  {
    hide Encode, Decode, ReadSectors, FreeSum, TotalSum, Clear, Find;
    var s' := AddDev(s, bdev, start, n, memOk).0;
    ClearAll(s'.devs[|s.devs|].bits, n);
    forall j | 0 <= j < |s'.devs| ensures DevOk(s'.devs[j]) { if j < |s.devs| { assert DevOk(s.devs[j]); } }
    forall j: nat, o: nat | Taken(s', j, o) ensures Encode(j, o) in held {
      assert Taken(s, j, o);
      assert HeldOk(s, held, j, o);
    }
  }

  /** Some sector belongs to a slot of both devices. */
  lemma SharedSector(d: Dev, e: Dev) returns (o: nat, p: nat, x: nat)
    requires d.nslots > 0 && e.nslots > 0 && !Disjoint(d.start, 8 * d.nslots, e.start, 8 * e.nslots)
    ensures o < d.nslots && p < e.nslots
    ensures Lba(d, o) <= x < Lba(d, o) + 8 && Lba(e, p) <= x < Lba(e, p) + 8
  {
    x := if d.start > e.start then d.start else e.start;
    o, p := (x - d.start) / 8, (x - e.start) / 8;
  }

  lemma OverlapFails(s: Sys, held: map<nat, seq<nat>>, bdev: nat, start: nat, n: nat, memOk: bool)
    requires Inv(s, held) && Shaped(s) && n <= MAX_SLOTS && AddDev(s, bdev, start, n, memOk).1.Some?
    requires !Vacant(s, bdev, start, n)
    ensures !SafeFrom(AddDev(s, bdev, start, n, memOk).0, held)
  {
    hide Inv, Counted, Booked, Encode, Next, ReadsBack;
    var s', k := AddDev(s, bdev, start, n, memOk).0, |s.devs|;
    var i :| 0 <= i < k && s.devs[i].active && s.devs[i].bdev == bdev
      && !Disjoint(s.devs[i].start, 8 * s.devs[i].nslots, start, 8 * n);
    AddedBooked(s, held, bdev, start, n, memOk);
    var tr, ops := ReserveAll(s', held);
    var (t, h) := tr[|tr| - 1];
    ActiveSlots(t, i);
    var o, p, x := SharedSector(t.devs[i], t.devs[k]);
    TakenHeld(t, h, i, o);
    TakenHeld(t, h, k, p);
    var tr', ops' := LosingEnd(tr, ops, i, o, k, p, x);
    assert !ReadsBack(tr'[|tr'| - 1].0, tr'[|tr'| - 1].1);
  }

  lemma ActiveSlots(s: Sys, i: nat)
    requires Counted(s) && i < |s.devs| && s.devs[i].active
    ensures s.devs[i].nslots > 0
  {
    assert DevOk(s.devs[i]);
  }

  lemma TakenHeld(s: Sys, held: map<nat, seq<nat>>, i: nat, off: nat)
    requires Counted(s) && Booked(s, held) && NoRoomLeft(s)
    requires i < |s.devs| && s.devs[i].active && off < s.devs[i].nslots
    ensures Encode(i, off) in held && s.devs[i].nslots <= MAX_SLOTS && Shaped(s)
  {
    hide Encode;
    AllTaken(s, i, off);
    assert DevOk(s.devs[i]);
  }

  /** After a device is added, every entry reads back what was last written to it in all that may follow, exactly when
      the sectors of the new device are nobody else's. */
  lemma AddExact(s: Sys, held: map<nat, seq<nat>>, bdev: nat, start: nat, n: nat, memOk: bool)
    requires Inv(s, held) && (memOk ==> n <= MAX_SLOTS)
    ensures Shaped(s) && var (s', r) := AddDev(s, bdev, start, n, memOk);
      && (r.Some? <==> |s.devs| < 4 && n > 0 && memOk)
      && (SafeFrom(s', held) <==> r.None? || Vacant(s, bdev, start, n))
  {
    hide Inv, Vacant, SafeFrom;
    InvShaped(s, held);
    var (s', r) := AddDev(s, bdev, start, n, memOk);
    if r.None? {
      SoundIsSafe(s, held);
    } else if Vacant(s, bdev, start, n) {
      AddInv(s, held, bdev, start, n, memOk);
      SoundIsSafe(s', held);
    } else {
      OverlapFails(s, held, bdev, start, n, memOk);
    }
  }
}
