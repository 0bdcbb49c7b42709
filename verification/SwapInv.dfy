/** The swap subsystem as a state machine over its locked sections and device transfers, and what every run of them
    keeps, however the calls of several CPUs interleave. */
module SwapInv {
  import opened Options
  import opened Swap

  const MAX_DEVS: nat := 4
  const MAX_SLOTS: nat := 0x800_0000

  datatype Dev = Dev(bdev: nat, start: nat, nslots: nat, freeCount: nat, bits: seq<bool>, hint: nat, active: bool)

  datatype Sys = Sys(devs: seq<Dev>, total: int, free: int, on: bool, disk: Disk)

  predicate DevShaped(d: Dev) { |d.bits| == 64 * Words(d.nslots) && d.nslots <= |d.bits| }

  predicate Shaped(s: Sys) { |s.devs| <= MAX_DEVS && forall i | 0 <= i < |s.devs| :: DevShaped(s.devs[i]) }

  /** First sector of a slot. */
  function Lba(d: Dev, off: nat): nat { d.start + off * 8 }

  // ---------------------------------------------------------------- the operations

  /** `slot_alloc_dev`; an inactive device has no bitmap. */
  function AllocDev(d: Dev): (r: Option<(Dev, nat)>)
    requires DevShaped(d)
    ensures r.Some? ==> DevShaped(r.value.0) && r.value.1 < d.nslots
  {
    if !d.active || d.freeCount == 0 || Words(d.nslots) == 0 then None
    else
      match Scan(d.bits, d.nslots, d.hint / 64, 0)
      case None => None
      case Some(i) => Some((d.(bits := d.bits[i := true], freeCount := d.freeCount - 1, hint := (i + 1) % d.nslots), i))
  }

  /** `swap_alloc_slot` from device `i` on. */
  function AllocFrom(s: Sys, i: nat): (r: (Sys, Option<nat>))
    requires Shaped(s)
    ensures Shaped(r.0)
    decreases |s.devs| - i
  {
    if i >= |s.devs| then (s, None)
    else
      match AllocDev(s.devs[i])
      case None => AllocFrom(s, i + 1)
      case Some(v) => (s.(devs := s.devs[i := v.0], free := s.free - 1), Some(Encode(i, v.1)))
  }

  /** The slot an entry names, if it is one of an active device. */
  function Find(s: Sys, pte: nat): (r: Option<(nat, nat)>)
    ensures r.Some? ==> r.value.0 < |s.devs| && s.devs[r.value.0].active && r.value.1 < s.devs[r.value.0].nslots
  {
    match Decode(pte)
    case None => None
    case Some(v) => if v.0 < |s.devs| && s.devs[v.0].active && v.1 < s.devs[v.0].nslots then Some(v) else None
  }

  /** `swap_free_slot`. */
  function FreeSlot(s: Sys, pte: nat): (r: Sys)
    requires Shaped(s)
    ensures Shaped(r)
  {
    match Find(s, pte)
    case None => s
    case Some((i, off)) =>
      var d := s.devs[i];
      s.(devs := s.devs[i := d.(bits := d.bits[off := false], freeCount := d.freeCount + 1)], free := s.free + 1)
  }

  function WriteSlot(s: Sys, pte: nat, page: seq<nat>): Sys {
    match Find(s, pte)
    case None => s
    case Some((i, off)) => s.(disk := WriteSectors(s.disk, s.devs[i].bdev, Lba(s.devs[i], off), page))
  }

  /** What `swap_read_page` finds. */
  function SlotData(s: Sys, pte: nat): seq<nat> {
    match Find(s, pte)
    case None => []
    case Some((i, off)) => ReadSectors(s.disk, s.devs[i].bdev, Lba(s.devs[i], off), 8)
  }

  /** `swap_out_page`, undisturbed; if the device fails the write, the slot's sectors hold `junk` and the slot is
      freed. */
  function Out(s: Sys, page: seq<nat>, ioOk: bool, junk: seq<nat>): (r: (Sys, Option<nat>))
    requires Shaped(s)
    ensures Shaped(r.0)
  {
    if !s.on || s.free == 0 then (s, None)
    else
      match AllocFrom(s, 0)
      case (_, None) => (s, None)
      case (s1, Some(pte)) =>
        if Find(s1, pte) == None then (FreeSlot(s1, pte), None)
        else if ioOk then (WriteSlot(s1, pte, page), Some(pte))
        else (FreeSlot(WriteSlot(s1, pte, junk), pte), None)
  }

  /** `swap_in_page`, undisturbed; `memOk` and `ioOk` say whether the page can be allocated and read. */
  function In(s: Sys, pte: nat, memOk: bool, ioOk: bool): (r: (Sys, Option<seq<nat>>))
    requires Shaped(s)
    ensures Shaped(r.0)
  {
    if !s.on || !memOk then (s, None)
    else
      match Find(s, pte)
      case None => (s, None)
      case Some((i, off)) =>
        if !ioOk then (s, None)
        else (FreeSlot(s, pte), Some(ReadSectors(s.disk, s.devs[i].bdev, Lba(s.devs[i], off), 8)))
  }

  /** `swap_add_dev`; the bitmap of an empty device cannot be allocated. */
  function AddDev(s: Sys, bdev: nat, start: nat, n: nat, memOk: bool): (r: (Sys, Option<nat>))
    requires Shaped(s)
    ensures Shaped(r.0)
  {
    if |s.devs| >= MAX_DEVS || n == 0 || !memOk then (s, None)
    else
      (s.(devs := s.devs + [Dev(bdev, start, n, n, seq(64 * Words(n), _ => false), 0, true)],
          total := s.total + n, free := s.free + n, on := true), Some(|s.devs|))
  }

  /** `swap_remove_dev`. */
  function RemoveDev(s: Sys, i: int): (r: (Sys, bool))
    requires Shaped(s)
    ensures Shaped(r.0)
  {
    if i < 0 || i >= |s.devs| || !s.devs[i].active then (s, false)
    else
      var d := s.devs[i];
      (s.(devs := s.devs[i := d.(active := false)], total := s.total - d.nslots, free := s.free - d.freeCount,
          on := s.total - d.nslots > 0), true)
  }

  // ---------------------------------------------------------------- the invariant

  function FreeSum(devs: seq<Dev>): nat {
    if devs == [] then 0 else (if devs[0].active then devs[0].freeCount else 0) + FreeSum(devs[1..])
  }

  function TotalSum(devs: seq<Dev>): nat {
    if devs == [] then 0 else (if devs[0].active then devs[0].nslots else 0) + TotalSum(devs[1..])
  }

  predicate DevOk(d: Dev) {
    && DevShaped(d)
    && (d.active ==> 0 < d.nslots <= MAX_SLOTS && d.freeCount == Clear(d.bits, d.nslots))
  }

  predicate Apart(d: Dev, e: Dev) {
    d.active && e.active && d.bdev == e.bdev ==> Disjoint(d.start, 8 * d.nslots, e.start, 8 * e.nslots)
  }

  /** A page that is out: its slot is taken and its sectors hold its bytes. */
  ghost predicate HeldOk(s: Sys, held: map<nat, seq<nat>>, i: nat, off: nat) {
    && i < |s.devs| && off < s.devs[i].nslots && s.devs[i].active && off < |s.devs[i].bits| && s.devs[i].bits[off]
    && Encode(i, off) in held && held[Encode(i, off)] == ReadSectors(s.disk, s.devs[i].bdev, Lba(s.devs[i], off), 8)
  }

  ghost predicate Taken(s: Sys, i: nat, off: nat) {
    i < |s.devs| && s.devs[i].active && off < s.devs[i].nslots && off < |s.devs[i].bits| && s.devs[i].bits[off]
  }

  ghost predicate PteOk(s: Sys, pte: nat) {
    Find(s, pte).Some? && pte == Encode(Find(s, pte).value.0, Find(s, pte).value.1)
      && Taken(s, Find(s, pte).value.0, Find(s, pte).value.1)
  }

  /** `held` are the pages that are out, by their entries. */
  ghost predicate Inv(s: Sys, held: map<nat, seq<nat>>) {
    && Counted(s)
    && s.free == FreeSum(s.devs) && s.total == TotalSum(s.devs) && (s.on <==> s.total > 0)
    && (forall i, j {:trigger Apart(s.devs[i], s.devs[j])} | 0 <= i < |s.devs| && 0 <= j < |s.devs| && i != j ::
          Apart(s.devs[i], s.devs[j]))
    && (forall pte {:trigger PteOk(s, pte)} | pte in held :: PteOk(s, pte))
    && (forall i: nat, off: nat {:trigger Taken(s, i, off)} | Taken(s, i, off) :: HeldOk(s, held, i, off))
  }

  lemma FindEncode(s: Sys, i: nat, off: nat)
    requires i < |s.devs| <= MAX_DEVS && s.devs[i].active && off < s.devs[i].nslots <= MAX_SLOTS
    ensures Find(s, Encode(i, off)) == Some((i, off))
  {
    hide Encode, Decode;
    EncodeExact(i, off);
  }

  lemma {:induction false} SumUpdate(devs: seq<Dev>, i: nat, d: Dev)
    requires i < |devs|
    ensures FreeSum(devs[i := d]) == FreeSum(devs) - (if devs[i].active then devs[i].freeCount else 0)
      + if d.active then d.freeCount else 0
    ensures TotalSum(devs[i := d]) == TotalSum(devs) - (if devs[i].active then devs[i].nslots else 0)
      + if d.active then d.nslots else 0
  {
    if i > 0 {
      SumUpdate(devs[1..], i - 1, d);
      assert devs[i := d][1..] == devs[1..][i - 1 := d];
    } else {
      assert devs[i := d][1..] == devs[1..];
    }
  }

  lemma {:induction false} SumAppend(devs: seq<Dev>, d: Dev)
    ensures FreeSum(devs + [d]) == FreeSum(devs) + if d.active then d.freeCount else 0
    ensures TotalSum(devs + [d]) == TotalSum(devs) + if d.active then d.nslots else 0
  {
    if devs != [] {
      SumAppend(devs[1..], d);
      assert (devs + [d])[1..] == devs[1..] + [d];
    }
  }

  /** The scan of a device finds a free slot exactly when its counter says there is one. */
  lemma AllocDevExact(d: Dev)
    requires DevOk(d)
    ensures AllocDev(d).Some? <==> d.active && d.freeCount > 0
    ensures AllocDev(d).Some? ==> var (d', off) := AllocDev(d).value;
      && !d.bits[off]
      && d' == d.(bits := d.bits[off := true], freeCount := d.freeCount - 1, hint := (off + 1) % d.nslots)
      && DevOk(d')
  {
    hide Scan, Clear;
    if d.active {
      ScanComplete(d.bits, d.nslots, d.hint / 64);
      ClearZero(d.bits, d.nslots);
      if AllocDev(d).Some? { ClearFlip(d.bits, d.nslots, AllocDev(d).value.1); }
    }
  }

  /** The slot found is the first free one from the word of the hint on, around the end, and the next search starts
      behind it. */
  lemma AllocNextFit(d: Dev) returns (k: nat)
    requires DevOk(d) && d.active && d.freeCount > 0
    ensures AllocDev(d).Some?
    ensures var (d', off) := AllocDev(d).value; var words := (d.nslots + 63) / 64; var w := (d.hint / 64 + k) % words;
      && k < words && w * 64 <= off < w * 64 + 64 && (forall j | w * 64 <= j < off :: d.bits[j])
      && (forall m | 0 <= m < k :: FullAfter(d, m)) && d'.hint == (off + 1) % d.nslots
  {
    hide Scan, Clear, WordFull;
    AllocDevExact(d);
    k := ScanFirst(d.bits, d.nslots, d.hint / 64, 0);
    forall m | 0 <= m < k ensures FullAfter(d, m) {
      assert WordFull(d.bits, d.nslots, Turn(m, d.hint / 64, Words(d.nslots)));
    }
  }

  /** No slot is free in the word `m` steps after the word of the hint. */
  predicate FullAfter(d: Dev, m: nat)
    requires DevShaped(d) && d.nslots > 0
  {
    WordFull(d.bits, d.nslots, (d.hint / 64 + m) % ((d.nslots + 63) / 64))
  }

  /** Slot `off` of device `i` is free, and becomes taken with the given hint. */
  ghost function Take(s: Sys, i: nat, off: nat, hint: nat): Sys
    requires i < |s.devs| && off < |s.devs[i].bits| && s.devs[i].freeCount > 0
  {
    var d := s.devs[i];
    s.(devs := s.devs[i := d.(bits := d.bits[off := true], freeCount := d.freeCount - 1, hint := hint)],
        free := s.free - 1)
  }

  ghost predicate Room(s: Sys, i: nat) { i < |s.devs| && s.devs[i].active && s.devs[i].freeCount > 0 }

  /** Every counter is the number of clear bits. */
  ghost predicate Counted(s: Sys) {
    Shaped(s) && forall i {:trigger DevOk(s.devs[i])} | 0 <= i < |s.devs| :: DevOk(s.devs[i])
  }

  /** Allocation succeeds exactly when an active device has a free slot, and takes one of the first such device. */
  lemma {:induction false} AllocEffect(s: Sys, k: nat) returns (i: nat, off: nat, hint: nat)
    requires Counted(s)
    ensures Shaped(s) && (AllocFrom(s, k).1.Some? <==> exists j | k <= j < |s.devs| :: Room(s, j))
    ensures AllocFrom(s, k).1.Some? ==>
      && k <= i && Room(s, i) && (forall j | k <= j < i :: !Room(s, j))
      && off < s.devs[i].nslots && off < |s.devs[i].bits| && !s.devs[i].bits[off]
      && AllocFrom(s, k) == (Take(s, i, off, hint), Some(Encode(i, off)))
    ensures AllocFrom(s, k).1.None? ==> AllocFrom(s, k).0 == s
    decreases |s.devs| - k
  {
    hide Encode, Clear, AllocDev, FreeSum, TotalSum, ReadSectors;
    i, off, hint := 0, 0, 0;
    if k < |s.devs| {
      assert DevOk(s.devs[k]);
      AllocDevExact(s.devs[k]);
      if AllocDev(s.devs[k]).Some? {
        i, off, hint := k, AllocDev(s.devs[k]).value.1, AllocDev(s.devs[k]).value.0.hint;
        assert Room(s, k);
      } else {
        assert !Room(s, k);
        i, off, hint := AllocEffect(s, k + 1);
      }
    }
  }

  /** Different slots of active devices have different sectors. */
  lemma SlotsApart(s: Sys, held: map<nat, seq<nat>>, i: nat, off: nat, j: nat, off': nat)
    requires Inv(s, held) && i < |s.devs| && j < |s.devs| && s.devs[i].active && s.devs[j].active
    requires off < s.devs[i].nslots && off' < s.devs[j].nslots && (i, off) != (j, off')
    ensures s.devs[i].bdev != s.devs[j].bdev || Disjoint(Lba(s.devs[i], off), 8, Lba(s.devs[j], off'), 8)
  {
    if i != j { assert Apart(s.devs[i], s.devs[j]); }
  }

  /** Taking a free slot reserves a new entry, and no page that is out is touched. */
  lemma TakeInv(s: Sys, held: map<nat, seq<nat>>, i: nat, off: nat, hint: nat)
    requires Inv(s, held) && Room(s, i) && off < s.devs[i].nslots && !s.devs[i].bits[off]
    ensures var s', pte := Take(s, i, off, hint), Encode(i, off);
      pte !in held && Find(s', pte) == Some((i, off)) && Inv(s', held[pte := SlotData(s', pte)])
  {
    hide Encode, Decode, ReadSectors, FreeSum, TotalSum, Clear, Find;
    var s', pte := Take(s, i, off, hint), Encode(i, off);
    assert DevOk(s.devs[i]);
    FindEncode(s, i, off);
    FindEncode(s', i, off);
    var held' := held[pte := SlotData(s', pte)];
    assert pte in held ==> PteOk(s, pte);
    ClearFlip(s.devs[i].bits, s.devs[i].nslots, off);
    SumUpdate(s.devs, i, s'.devs[i]);
    forall j | 0 <= j < |s'.devs| ensures DevOk(s'.devs[j]) { assert DevOk(s.devs[j]); }
    forall j, k | 0 <= j < |s'.devs| && 0 <= k < |s'.devs| && j != k ensures Apart(s'.devs[j], s'.devs[k]) {
      assert Apart(s.devs[j], s.devs[k]);
    }
    forall p | p in held' ensures PteOk(s', p) {
      if p in held { assert PteOk(s, p); SameFind(s, s', p); } else { assert Taken(s', i, off); }
    }
    forall j: nat, o: nat | Taken(s', j, o) ensures HeldOk(s', held', j, o) {
      if (j, o) != (i, off) {
        assert Taken(s, j, o);
        assert HeldOk(s, held, j, o);
        assert DevOk(s.devs[j]);
        FindEncode(s, j, o);
      }
    }
  }

  /** The page of slot `off` lies in the eight sectors from `start + 8 * off` on, and a write touches no others. */
  lemma WriteLands(s: Sys, i: nat, off: nat, data: seq<nat>)
    requires i < |s.devs| <= MAX_DEVS && s.devs[i].active && off < s.devs[i].nslots <= MAX_SLOTS && |data| == 8
    ensures var s', d := WriteSlot(s, Encode(i, off), data), s.devs[i];
      && s' == s.(disk := s'.disk)
      && (forall j | 0 <= j < 8 :: Stores(s'.disk, d.bdev, d.start + 8 * off + j, data[j]))
      && (forall l: Loc | l.bdev != d.bdev || l.sector < d.start + 8 * off || d.start + 8 * off + 8 <= l.sector ::
           SameAt(s.disk, s'.disk, l))
  {
    hide Encode, Decode, ReadSectors, WriteSectors;
    FindEncode(s, i, off);
    var d, s' := s.devs[i], WriteSlot(s, Encode(i, off), data);
    forall j | 0 <= j < 8 ensures Stores(s'.disk, d.bdev, d.start + 8 * off + j, data[j]) {
      WriteAt(s.disk, d.bdev, Lba(d, off), data, j);
    }
    forall l: Loc | l.bdev != d.bdev || l.sector < d.start + 8 * off || d.start + 8 * off + 8 <= l.sector
      ensures SameAt(s.disk, s'.disk, l)
    {
      WriteElsewhere(s.disk, d.bdev, Lba(d, off), data, l);
    }
  }

  predicate Stores(disk: Disk, bdev: nat, sector: nat, v: nat) {
    Loc(bdev, sector) in disk && disk[Loc(bdev, sector)] == v
  }

  predicate SameAt(disk: Disk, disk': Disk, l: Loc) {
    (l in disk' <==> l in disk) && (l in disk ==> disk'[l] == disk[l])
  }

  /** Writing to the slot of an entry changes what that entry holds and nothing else. */
  lemma WriteInv(s: Sys, held: map<nat, seq<nat>>, pte: nat, data: seq<nat>)
    requires Inv(s, held) && pte in held && |data| == 8
    ensures Inv(WriteSlot(s, pte, data), held[pte := data])
  {
    hide Encode, Decode, ReadSectors, WriteSectors, FreeSum, TotalSum, Clear, Find;
    assert PteOk(s, pte);
    var (i, off) := Find(s, pte).value;
    var s', held' := WriteSlot(s, pte, data), held[pte := data];
    forall j | 0 <= j < |s'.devs| ensures DevOk(s'.devs[j]) { assert DevOk(s.devs[j]); }
    forall j, k | 0 <= j < |s'.devs| && 0 <= k < |s'.devs| && j != k ensures Apart(s'.devs[j], s'.devs[k]) {
      assert Apart(s.devs[j], s.devs[k]);
    }
    forall p | p in held' ensures PteOk(s', p) { assert PteOk(s, p); SameFind(s, s', p); }
    forall j: nat, o: nat | Taken(s', j, o) ensures HeldOk(s', held', j, o) {
      assert Taken(s, j, o);
      WrittenHeld(s, held, pte, data, i, off, j, o);
    }
  }

  lemma WrittenHeld(s: Sys, held: map<nat, seq<nat>>, pte: nat, data: seq<nat>, i: nat, off: nat, j: nat, o: nat)
    requires Inv(s, held) && pte in held && PteOk(s, pte) && Find(s, pte) == Some((i, off)) && Taken(s, j, o)
      && |data| == 8
    ensures HeldOk(WriteSlot(s, pte, data), held[pte := data], j, o)
  {
    hide Encode, Decode, ReadSectors, WriteSectors, FreeSum, TotalSum, Clear, Find;
    var lba := Lba(s.devs[i], off);
    if (j, o) == (i, off) {
      ReadBack(s.disk, s.devs[i].bdev, lba, data);
    } else {
      assert HeldOk(s, held, j, o);
      assert DevOk(s.devs[i]) && DevOk(s.devs[j]);
      SlotsApart(s, held, i, off, j, o);
      ReadElsewhere(s.disk, s.devs[i].bdev, lba, data, s.devs[j].bdev, Lba(s.devs[j], o), 8);
      FindEncode(s, i, off);
      FindEncode(s, j, o);
    }
  }

  /** Which slot an entry names depends only on the devices' sizes and whether they are active. */
  lemma SameFind(s: Sys, s': Sys, pte: nat)
    requires |s'.devs| == |s.devs|
    requires forall i | 0 <= i < |s.devs| ::
      s'.devs[i].nslots == s.devs[i].nslots && s'.devs[i].active == s.devs[i].active
    ensures Find(s', pte) == Find(s, pte)
  {
  }

  /** Freeing a slot that is taken gives up exactly the page that was out there; the search goes on where it was. */
  lemma FreeInv(s: Sys, held: map<nat, seq<nat>>, pte: nat)
    requires Inv(s, held) && pte in held
    ensures Shaped(s) && Inv(FreeSlot(s, pte), held - {pte})
    ensures Find(s, pte).Some? && var s', (i, off) := FreeSlot(s, pte), Find(s, pte).value; var d := s.devs[i];
      && off < |d.bits| && s'.disk == s.disk && s'.total == s.total && s'.free == s.free + 1
      && s'.devs == s.devs[i := d.(bits := d.bits[off := false], freeCount := d.freeCount + 1)]
  {
    hide Encode, Decode, ReadSectors, WriteSectors, FreeSum, TotalSum, Clear, Find;
    assert PteOk(s, pte);
    var (i, off) := Find(s, pte).value;
    var s', held' := FreeSlot(s, pte), held - {pte};
    assert DevOk(s.devs[i]);
    ClearFlip(s.devs[i].bits, s.devs[i].nslots, off);
    SumUpdate(s.devs, i, s'.devs[i]);
    forall j | 0 <= j < |s'.devs| ensures DevOk(s'.devs[j]) { assert DevOk(s.devs[j]); }
    forall j, k | 0 <= j < |s'.devs| && 0 <= k < |s'.devs| && j != k ensures Apart(s'.devs[j], s'.devs[k]) {
      assert Apart(s.devs[j], s.devs[k]);
    }
    forall p | p in held' ensures PteOk(s', p) { assert PteOk(s, p); SameFind(s, s', p); }
    forall j: nat, o: nat | Taken(s', j, o) ensures HeldOk(s', held', j, o) {
      assert Taken(s, j, o);
      assert HeldOk(s, held, j, o);
      assert DevOk(s.devs[j]);
      FindEncode(s, j, o);
    }
  }

  // ---------------------------------------------------------------- pages out and in

  /** `swap_alloc_slot` reserves a new entry, exactly when some active device has a free slot. */
  lemma AllocInv(s: Sys, held: map<nat, seq<nat>>)
    requires Inv(s, held)
    ensures Shaped(s) && var (s', r) := AllocFrom(s, 0);
      && (r.Some? <==> exists i | 0 <= i < |s.devs| :: Room(s, i))
      && (r.None? ==> s' == s)
      && (r.Some? ==> r.value !in held && Find(s', r.value).Some? && Inv(s', held[r.value := SlotData(s', r.value)]))
  {
    hide Encode, Decode, ReadSectors, FreeSum, TotalSum, Clear, Find, AllocFrom, Inv, SlotData;
    InvShaped(s, held);
    var i, off, hint := AllocEffect(s, 0);
    if AllocFrom(s, 0).1.Some? { TakeInv(s, held, i, off, hint); }
  }

  /** Swapping out succeeds exactly when swap is on, some active device has a free slot and the write goes through; the
      entry is then a new one for exactly this page, and otherwise no page that is out changes. */
  lemma OutInv(s: Sys, held: map<nat, seq<nat>>, page: seq<nat>, ioOk: bool, junk: seq<nat>)
    requires Inv(s, held) && |page| == 8 && |junk| == 8
    ensures Shaped(s) && var (s', r) := Out(s, page, ioOk, junk);
      && (r.Some? <==> ioOk && exists i | 0 <= i < |s.devs| :: Room(s, i))
      && (r.Some? ==> r.value !in held && Inv(s', held[r.value := page]))
      && (r.None? ==> Inv(s', held))
  {
    hide Encode, Decode, ReadSectors, WriteSectors, FreeSum, TotalSum, Clear, Find, WriteSlot, FreeSlot, AllocFrom, Inv,
      SlotData;
    InvShaped(s, held);
    RoomCounted(s, held);
    if s.on && s.free != 0 {
      AllocInv(s, held);
      var (s1, r) := AllocFrom(s, 0);
      if r.Some? {
        var pte := r.value;
        var held1 := held[pte := SlotData(s1, pte)];
        WriteInv(s1, held1, pte, page);
        WriteInv(s1, held1, pte, junk);
        assert held1[pte := page] == held[pte := page];
        if !ioOk {
          FreeInv(WriteSlot(s1, pte, junk), held1[pte := junk], pte);
          assert held1[pte := junk] - {pte} == held;
        }
      }
    }
  }

  lemma InvShaped(s: Sys, held: map<nat, seq<nat>>)
    requires Inv(s, held)
    ensures Shaped(s) && Counted(s)
  {
  }

  /** The global counter is positive exactly when some active device has a free slot. */
  lemma RoomCounted(s: Sys, held: map<nat, seq<nat>>)
    requires Inv(s, held)
    ensures (exists i | 0 <= i < |s.devs| :: Room(s, i)) <==> s.free > 0
    ensures s.free > 0 ==> s.on
  {
    hide Encode, Decode, ReadSectors, Clear, Find, FreeSum, TotalSum, Taken, HeldOk, PteOk, Apart;
    forall i | 0 <= i < |s.devs| && s.devs[i].active ensures s.devs[i].freeCount <= s.devs[i].nslots {
      assert DevOk(s.devs[i]);
      ClearBound(s.devs[i].bits, s.devs[i].nslots);
    }
    SumPositive(s.devs);
    assert forall i | 0 <= i < |s.devs| :: Room(s, i) <==> s.devs[i].active && s.devs[i].freeCount > 0;
  }

  lemma {:induction false} ClearBound(bits: seq<bool>, n: nat)
    requires n <= |bits|
    ensures Clear(bits, n) <= n
  {
    if n > 0 { ClearBound(bits, n - 1); }
  }

  lemma {:induction false} SumPositive(devs: seq<Dev>)
    requires forall i | 0 <= i < |devs| && devs[i].active :: devs[i].freeCount <= devs[i].nslots
    ensures FreeSum(devs) > 0 <==> exists i | 0 <= i < |devs| :: devs[i].active && devs[i].freeCount > 0
    ensures FreeSum(devs) <= TotalSum(devs)
  {
    if devs != [] {
      SumPositive(devs[1..]);
      assert forall i | 1 <= i < |devs| :: devs[i] == devs[1..][i - 1];
      if exists i | 0 <= i < |devs| :: devs[i].active && devs[i].freeCount > 0 {
        var i :| 0 <= i < |devs| && devs[i].active && devs[i].freeCount > 0;
        if i > 0 { assert devs[1..][i - 1].active && devs[1..][i - 1].freeCount > 0; }
      }
    }
  }

  /** Swapping in a page that is out returns the bytes that went out, if memory and device cooperate, and frees its
      slot. */
  lemma InInv(s: Sys, held: map<nat, seq<nat>>, pte: nat, memOk: bool, ioOk: bool)
    requires Inv(s, held) && pte in held
    ensures Shaped(s) && var (s', r) := In(s, pte, memOk, ioOk);
      && (r.Some? <==> memOk && ioOk)
      && (r.Some? ==> r.value == held[pte] && Inv(s', held - {pte}))
      && (r.None? ==> s' == s)
  {
    hide Encode, Decode, ReadSectors, WriteSectors, FreeSum, TotalSum, Clear, Find, FreeSlot;
    assert PteOk(s, pte);
    var (i, off) := Find(s, pte).value;
    assert HeldOk(s, held, i, off);
    OnWhenHeld(s.devs, i);
    FreeInv(s, held, pte);
  }

  lemma {:induction false} OnWhenHeld(devs: seq<Dev>, i: nat)
    requires i < |devs| && devs[i].active && devs[i].nslots > 0
    ensures TotalSum(devs) > 0
  {
    if i > 0 { OnWhenHeld(devs[1..], i - 1); }
  }

  // ---------------------------------------------------------------- devices

  /** The new device's sectors are nobody else's. */
  predicate Vacant(s: Sys, bdev: nat, start: nat, n: nat) {
    forall i | 0 <= i < |s.devs| && s.devs[i].active && s.devs[i].bdev == bdev ::
      Disjoint(s.devs[i].start, 8 * s.devs[i].nslots, start, 8 * n)
  }

  /** A device whose sectors are nobody else's keeps what is out intact. */
  lemma AddInv(s: Sys, held: map<nat, seq<nat>>, bdev: nat, start: nat, n: nat, memOk: bool)
    requires Inv(s, held) && Vacant(s, bdev, start, n) && (memOk ==> n <= MAX_SLOTS)
    ensures Shaped(s) && Inv(AddDev(s, bdev, start, n, memOk).0, held)
  {
    hide Encode, Decode, ReadSectors, FreeSum, TotalSum, Clear, Find;
    var s' := AddDev(s, bdev, start, n, memOk).0;
    if s' != s {
      var d := s'.devs[|s.devs|];
      ClearAll(d.bits, n);
      SumAppend(s.devs, d);
      forall j | 0 <= j < |s'.devs| ensures DevOk(s'.devs[j]) { if j < |s.devs| { assert DevOk(s.devs[j]); } }
      forall j, k | 0 <= j < |s'.devs| && 0 <= k < |s'.devs| && j != k ensures Apart(s'.devs[j], s'.devs[k]) {
        if j < |s.devs| && k < |s.devs| { assert Apart(s.devs[j], s.devs[k]); }
      }
      forall p | p in held ensures PteOk(s', p) { assert PteOk(s, p); FoundStill(s, s', p); }
      forall j: nat, o: nat | Taken(s', j, o) ensures HeldOk(s', held, j, o) {
        assert Taken(s, j, o);
        assert HeldOk(s, held, j, o);
      }
    }
  }

  /** With two devices on the same sectors, the second page out overwrites the first. */
  lemma OverlapLoses(disk: Disk, page: seq<nat>, other: seq<nat>)
    requires |page| == 8 && |other| == 8
    ensures var s0 := Sys([], 0, 0, false, disk);
      var s2 := AddDev(AddDev(s0, 0, 0, 1, true).0, 0, 0, 1, true).0;
      var s3 := Out(s2, page, true, page);
      var s4 := Out(s3.0, other, true, other);
      s3.1.Some? && s4.1.Some? && In(s4.0, s3.1.value, true, true).1 == Some(other)
  {
    hide ReadSectors, WriteSectors, Encode, Decode, Scan;
    var s0 := Sys([], 0, 0, false, disk);
    var s2 := AddDev(AddDev(s0, 0, 0, 1, true).0, 0, 0, 1, true).0;
    var d := Dev(0, 0, 1, 1, seq(64, _ => false), 0, true);
    assert s2 == Sys([d, d], 2, 2, true, disk);
    OneSlot();
    var d' := d.(bits := d.bits[0 := true], freeCount := 0, hint := 0);
    assert AllocDev(d) == Some((d', 0)) && AllocDev(d') == None;
    assert [d, d][0 := d'] == [d', d] && [d', d][1 := d'] == [d', d'];
    assert AllocFrom(s2, 0) == (Sys([d', d], 2, 1, true, disk), Some(Encode(0, 0)));
    FindEncode(AllocFrom(s2, 0).0, 0, 0);
    var disk3 := WriteSectors(disk, 0, 0, page);
    var s3 := Sys([d', d], 2, 1, true, disk3);
    assert Out(s2, page, true, page) == (s3, Some(Encode(0, 0)));
    assert AllocFrom(s3, 0) == AllocFrom(s3, 1) == (Sys([d', d'], 2, 0, true, disk3), Some(Encode(1, 0)));
    var disk4 := WriteSectors(disk3, 0, 0, other);
    var s4 := Sys([d', d'], 2, 0, true, disk4);
    FindEncode(AllocFrom(s3, 0).0, 1, 0);
    assert Out(s3, other, true, other) == (s4, Some(Encode(1, 0)));
    FindEncode(s4, 0, 0);
    ReadBack(disk3, 0, 0, other);
  }

  lemma OneSlot()
    ensures Scan(seq(64, _ => false), 1, 0, 0) == Some(0)
  {
    var bits := seq(64, _ => false);
    assert Turn(0, 0, 1) == 0 && !bits[0];
    assert WordScan(bits, 1, 0, 0) == Some(0);
  }

  lemma FoundStill(s: Sys, s': Sys, p: nat)
    requires Find(s, p).Some? && |s.devs| <= |s'.devs| && s'.devs[..|s.devs|] == s.devs
    ensures Find(s', p) == Find(s, p)
  {
    hide Decode;
    var i := Find(s, p).value.0;
    assert s'.devs[i] == s'.devs[..|s.devs|][i];
  }

  /** The pages left when device `i` goes. */
  ghost function Without(s: Sys, held: map<nat, seq<nat>>, i: int): map<nat, seq<nat>> {
    map p | p in held && (Find(s, p).None? || Find(s, p).value.0 != i) :: held[p]
  }

  /** An add succeeds exactly when there is a place in the table, a slot and memory for the bitmap. It then has the next
      number, all its slots are free and counted, and nothing else changes. */
  lemma AddEffect(s: Sys, bdev: nat, start: nat, n: nat, memOk: bool)
    requires Shaped(s)
    ensures var (s', r) := AddDev(s, bdev, start, n, memOk);
      && (r.Some? <==> |s.devs| < 4 && n > 0 && memOk) && (r.None? ==> s' == s)
      && (r.Some? ==>
        && r == Some(|s.devs|) && |s'.devs| == |s.devs| + 1 && s'.devs[..|s.devs|] == s.devs && s'.disk == s.disk
        && s'.total == s.total + n && s'.free == s.free + n && s'.on
        && var d := s'.devs[|s.devs|];
        && d.bdev == bdev && d.start == start && d.nslots == d.freeCount == n && d.active && d.hint == 0
        && n <= |d.bits| && forall off | 0 <= off < n :: !d.bits[off])
  {
  }

  /** A removal succeeds exactly for an active device; its slots are no longer counted, and the other devices stay. */
  lemma RemoveEffect(s: Sys, i: int)
    requires Shaped(s)
    ensures var (s', ok) := RemoveDev(s, i);
      && (ok <==> 0 <= i < |s.devs| && s.devs[i].active) && (!ok ==> s' == s)
      && (ok ==>
        && |s'.devs| == |s.devs| && !s'.devs[i].active && s'.disk == s.disk
        && (forall j | 0 <= j < |s.devs| && j != i :: s'.devs[j] == s.devs[j])
        && s'.total == s.total - s.devs[i].nslots && s'.free == s.free - s.devs[i].freeCount
        && (s'.on <==> s'.total > 0))
  {
  }

  /** Removing a device loses the pages on it and no others. */
  lemma RemoveInv(s: Sys, held: map<nat, seq<nat>>, i: int)
    requires Inv(s, held)
    ensures Shaped(s) && var (s', ok) := RemoveDev(s, i);
      if ok then Inv(s', Without(s, held, i)) else s' == s
  {
    hide Encode, Decode, ReadSectors, FreeSum, TotalSum, Clear, Find;
    var (s', ok) := RemoveDev(s, i);
    if ok {
      var left := Without(s, held, i);
      SumUpdate(s.devs, i, s'.devs[i]);
      forall j | 0 <= j < |s'.devs| ensures DevOk(s'.devs[j]) { assert DevOk(s.devs[j]); }
      forall j, k | 0 <= j < |s'.devs| && 0 <= k < |s'.devs| && j != k ensures Apart(s'.devs[j], s'.devs[k]) {
        assert Apart(s.devs[j], s.devs[k]);
      }
      forall p | p in left ensures PteOk(s', p) { assert PteOk(s, p); FoundBeside(s, s', i, p); }
      forall j: nat, o: nat | Taken(s', j, o) ensures HeldOk(s', left, j, o) {
        assert Taken(s, j, o);
        assert HeldOk(s, held, j, o);
        assert DevOk(s.devs[j]);
        FindEncode(s, j, o);
      }
    }
  }

  lemma FoundBeside(s: Sys, s': Sys, i: int, p: nat)
    requires Find(s, p).Some? && Find(s, p).value.0 != i && |s.devs| == |s'.devs|
    requires forall j | 0 <= j < |s.devs| && j != i :: s'.devs[j] == s.devs[j]
    ensures Find(s', p) == Find(s, p)
  {
    hide Decode;
  }

  // ---------------------------------------------------------------- runs

  datatype Op =
    | DoAlloc
    | DoWrite(pte: nat, data: seq<nat>)
    | DoFree(gone: nat)
    | DoAdd(bdev: nat, start: nat, n: nat, bitsOk: bool)
    | DoRemove(i: int)

  /** Whoever uses an entry got it from `swap_alloc_slot` and has not freed it since; the device it names may be
      gone. */
  ghost predicate Usable(s: Sys, held: map<nat, seq<nat>>, pte: nat) { pte in held || Find(s, pte).None? }

  /** One locked section or one transfer to a device, of any call: `swap_out_page` is a `DoAlloc` and a `DoWrite`, of
      the page or, if the device fails, of anything, and then a `DoFree`; `swap_in_page` reads and then does a `DoFree`.
      Other steps may come in between. `held` says what each reserved slot holds. Devices are given sectors of their
      own. */
  ghost predicate Next(s: Sys, held: map<nat, seq<nat>>, op: Op, s': Sys, held': map<nat, seq<nat>>) {
    && Shaped(s)
    && match op
       case DoAlloc =>
         var r := AllocFrom(s, 0);
         s' == r.0 && held' == if r.1.Some? then held[r.1.value := SlotData(r.0, r.1.value)] else held
       case DoWrite(pte, data) =>
         && Usable(s, held, pte) && |data| == 8
         && s' == WriteSlot(s, pte, data) && held' == if pte in held then held[pte := data] else held
       case DoFree(gone) => Usable(s, held, gone) && s' == FreeSlot(s, gone) && held' == held - {gone}
       case DoAdd(bdev, start, n, bitsOk) =>
         && Vacant(s, bdev, start, n) && (bitsOk ==> n <= MAX_SLOTS)
         && s' == AddDev(s, bdev, start, n, bitsOk).0 && held' == held
       case DoRemove(i) =>
         var r := RemoveDev(s, i);
         s' == r.0 && held' == if r.1 then Without(s, held, i) else held
  }

  lemma StepInv(s: Sys, held: map<nat, seq<nat>>, op: Op, s': Sys, held': map<nat, seq<nat>>)
    requires Inv(s, held) && Next(s, held, op, s', held')
    ensures Inv(s', held')
  {
    hide Inv, AllocFrom, SlotData, AddDev, RemoveDev, Without, Find;
    match op
    case DoAlloc => AllocInv(s, held);
    case DoWrite(pte, data) => if pte in held { WriteInv(s, held, pte, data); }
    case DoFree(gone) => if gone in held { FreeInv(s, held, gone); } else { assert held - {gone} == held; }
    case DoAdd(bdev, start, n, bitsOk) => AddInv(s, held, bdev, start, n, bitsOk);
    case DoRemove(i) => RemoveInv(s, held, i);
  }

  /** `swap_init`, on any disk contents. */
  ghost predicate Initial(s: Sys) { s.devs == [] && s.total == 0 && s.free == 0 && !s.on }

  ghost predicate Run(tr: seq<(Sys, map<nat, seq<nat>>)>, ops: seq<Op>) {
    && |tr| == |ops| + 1 && Initial(tr[0].0) && tr[0].1 == map[]
    && forall i | 0 <= i < |ops| :: Next(tr[i].0, tr[i].1, ops[i], tr[i + 1].0, tr[i + 1].1)
  }

  /** In every reachable state the counters are the clear bits, and every reserved slot holds what was last written. */
  lemma {:induction false} RunInv(tr: seq<(Sys, map<nat, seq<nat>>)>, ops: seq<Op>, i: nat)
    requires Run(tr, ops) && i < |tr|
    ensures Inv(tr[i].0, tr[i].1)
  {
    if i > 0 {
      RunInv(tr, ops, i - 1);
      StepInv(tr[i - 1].0, tr[i - 1].1, ops[i - 1], tr[i].0, tr[i].1);
    }
  }

  /** What an entry holds is what its slot contains. */
  lemma HeldData(s: Sys, held: map<nat, seq<nat>>, pte: nat)
    requires Inv(s, held) && pte in held
    ensures SlotData(s, pte) == held[pte]
  {
    hide Encode, Decode, ReadSectors, FreeSum, TotalSum, Clear, Find;
    assert PteOk(s, pte);
    assert HeldOk(s, held, Find(s, pte).value.0, Find(s, pte).value.1);
  }

  /** The entry stays reserved from step `i` on to state `k`, and its holder writes to it no more. */
  ghost predicate Undisturbed(tr: seq<(Sys, map<nat, seq<nat>>)>, ops: seq<Op>, i: nat, k: nat, pte: nat) {
    && i < k < |tr| == |ops| + 1 && (forall j | i <= j <= k :: pte in tr[j].1)
    && forall j | i < j < k :: ops[j].DoWrite? ==> ops[j].pte != pte
  }

  /** However other CPUs allocate, write, free, add and remove in between, a page read from its entry is the page that
      was written, and swapping it in returns it. */
  lemma {:induction false} PageComesBack(tr: seq<(Sys, map<nat, seq<nat>>)>, ops: seq<Op>, i: nat, k: nat, pte: nat)
    requires Run(tr, ops) && Undisturbed(tr, ops, i, k, pte) && ops[i].DoWrite? && ops[i].pte == pte
    ensures Shaped(tr[k].0) && SlotData(tr[k].0, pte) == ops[i].data
      && In(tr[k].0, pte, true, true).1 == Some(ops[i].data)
  {
    hide Inv, In, Next, SlotData;
    RunInv(tr, ops, k);
    StillOut(tr, ops, i, k, pte);
    HeldData(tr[k].0, tr[k].1, pte);
    InInv(tr[k].0, tr[k].1, pte, true, true);
  }

  lemma {:induction false} StillOut(tr: seq<(Sys, map<nat, seq<nat>>)>, ops: seq<Op>, i: nat, k: nat, pte: nat)
    requires Run(tr, ops) && Undisturbed(tr, ops, i, k, pte) && ops[i].DoWrite? && ops[i].pte == pte
    ensures tr[k].1[pte] == ops[i].data
  {
    hide Inv, AllocFrom, WriteSlot, FreeSlot, AddDev, RemoveDev;
    assert Next(tr[k - 1].0, tr[k - 1].1, ops[k - 1], tr[k - 1 + 1].0, tr[k - 1 + 1].1);
    if k > i + 1 {
      StillOut(tr, ops, i, k - 1, pte);
      RunInv(tr, ops, k - 1);
      if ops[k - 1].DoAlloc? { AllocInv(tr[k - 1].0, tr[k - 1].1); }
    }
  }
}
