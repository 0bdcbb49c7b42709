/** The swap subsystem as swap.c keeps it: device table, bitmaps, hints and counters updated in place. */
module SwapSystem {
  import opened Options
  import opened Swap
  import opened SwapInv
  import opened SwapOverlap

  /** A word whose 64 bits are all set has no free slot. */
  lemma {:induction false} FullWord(bits: seq<bool>, n: nat, w: nat, b: nat)
    requires n <= |bits| && w * 64 + 64 <= |bits| && b <= 64 && forall i | w * 64 <= i < w * 64 + 64 :: bits[i]
    ensures WordScan(bits, n, w, b) == None
    decreases 64 - b
  {
    if b < 64 && w * 64 + b < n {
      assert bits[w * 64 + b];
      FullWord(bits, n, w, b + 1);
    }
  }

  lemma WordInside(n: nat, w: nat)
    requires w < Words(n)
    ensures w * 64 + 64 <= 64 * Words(n)
  {
  }

  class Swapper {
    var devs: seq<Dev>
    var total: int
    var free: int
    var on: bool
    var disk: Disk
    /** The pages that are out. */
    ghost var held: map<nat, seq<nat>>

    ghost function State(): Sys
      reads this
    {
      Sys(devs, total, free, on, disk)
    }

    ghost predicate Valid()
      reads this
    {
      Inv(State(), held)
    }

    /** `swap_init`. */
    constructor ()
      ensures Initial(State()) && Valid() && held == map[]
    {
      devs, total, free, on, disk, held := [], 0, 0, false, map[], map[];
    }

    /** The scan loops of `slot_alloc_dev`. */
    method FindFree(d: Dev) returns (r: Option<nat>)
      requires DevShaped(d) && Words(d.nslots) > 0
      ensures r == Scan(d.bits, d.nslots, d.hint / 64, 0)
    {
      hide DevShaped, Words, Turn;
      var words, start := Words(d.nslots), d.hint / 64;
      DevSize(d);
      var wi := 0;
      while wi < words
        invariant 0 <= wi <= words && Scan(d.bits, d.nslots, start, wi) == Scan(d.bits, d.nslots, start, 0)
      {
        r := FindInWord(d.bits, d.nslots, Turn(wi, start, words));
        if r.Some? { return; }
        wi := wi + 1;
      }
      r := None;
    }

    lemma DevSize(d: Dev)
      requires DevShaped(d)
      ensures |d.bits| == 64 * Words(d.nslots) && d.nslots <= |d.bits|
    {
    }

    method FindInWord(bits: seq<bool>, n: nat, w: nat) returns (r: Option<nat>)
      requires n <= |bits| == 64 * Words(n) && w < Words(n)
      ensures r == WordScan(bits, n, w, 0)
    {
      hide Words;
      WordInside(n, w);
      if forall i | w * 64 <= i < w * 64 + 64 :: bits[i] {
        FullWord(bits, n, w, 0);
        return None;
      }
      var b := 0;
      while b < 64
        invariant 0 <= b <= 64 && WordScan(bits, n, w, b) == WordScan(bits, n, w, 0)
      {
        if w * 64 + b >= n { break; }
        if !bits[w * 64 + b] { return Some(w * 64 + b); }
        b := b + 1;
      }
      r := None;
    }

    /** `slot_alloc_dev`. */
    method AllocOn(i: nat) returns (r: Option<nat>)
      requires Shaped(State()) && i < |devs|
      modifies this`devs
      ensures match AllocDev(old(devs)[i])
        case None => r == None && devs == old(devs)
        case Some(v) => r == Some(Encode(i, v.1)) && devs == old(devs)[i := v.0]
    {
      hide Encode, Scan;
      var d := devs[i];
      if !d.active || d.freeCount == 0 || Words(d.nslots) == 0 { return None; }
      var hit := FindFree(d);
      if hit.None? { return None; }
      var off := hit.value;
      devs := devs[i := d.(bits := d.bits[off := true], freeCount := d.freeCount - 1, hint := (off + 1) % d.nslots)];
      r := Some(Encode(i, off));
    }

    /** `swap_alloc_slot`, under the lock: a new entry is reserved, whenever a slot is free, and none in use is
        touched. */
    method AllocSlot() returns (r: Option<nat>)
      requires Shaped(State())
      modifies this`devs, this`free, this`held
      ensures Shaped(old(State())) && (State(), r) == AllocFrom(old(State()), 0)
      ensures held == if r.Some? then old(held)[r.value := SlotData(State(), r.value)] else old(held)
      ensures old(Valid()) ==>
        && Valid() && (r.Some? <==> old(free) > 0) && (r.Some? ==> r.value !in old(held))
        && (r.None? ==> State() == old(State()))
    {
      hide Encode, AllocDev, Inv, SlotData;
      if Valid() { AllocInv(State(), held); RoomCounted(State(), held); }
      var i := 0;
      while i < |devs|
        invariant 0 <= i <= |devs| && State() == old(State()) && held == old(held)
        invariant AllocFrom(State(), i) == AllocFrom(old(State()), 0)
      {
        r := AllocOn(i);
        if r.Some? {
          free := free - 1;
          held := held[r.value := SlotData(State(), r.value)];
          return;
        }
        i := i + 1;
      }
      r := None;
    }

    /** `swap_free_slot`: the entry and what it held are given up, and everything else stays as it is. */
    method ReleaseSlot(pte: nat)
      requires Shaped(State())
      modifies this`devs, this`free, this`held
      ensures Shaped(old(State())) && State() == FreeSlot(old(State()), pte) && held == old(held) - {pte}
      ensures old(Valid() && Usable(State(), held, pte)) ==> Valid()
    {
      hide Inv;
      ghost var s, h := State(), held;
      held := held - {pte};
      if Inv(s, h) && Usable(s, h, pte) { StepInv(s, h, DoFree(pte), FreeSlot(s, pte), held); }
      var at := Decode(pte);
      if at.None? { return; }
      var (i, off) := at.value;
      if i >= |devs| || !devs[i].active || off >= devs[i].nslots { return; }
      devs := devs[i := devs[i].(bits := devs[i].bits[off := false], freeCount := devs[i].freeCount + 1)];
      free := free + 1;
    }

    /** `swap_write_page`: the slot of the entry holds the page, or `junk` if the device fails; no other slot
        changes. */
    method WritePage(pte: nat, page: seq<nat>, ioOk: bool, junk: seq<nat>) returns (ok: bool)
      requires Shaped(State()) && |page| == 8 && |junk| == 8
      modifies this`disk, this`held
      ensures var data := if ioOk then page else junk;
        && State() == WriteSlot(old(State()), pte, data)
        && held == if pte in old(held) then old(held)[pte := data] else old(held)
      ensures ok <==> ioOk && Find(old(State()), pte).Some?
      ensures old(Valid() && Usable(State(), held, pte)) ==> Valid()
    {
      hide Inv, Decode, WriteSectors;
      ghost var s, h := State(), held;
      var data := if ioOk then page else junk;
      held := if pte in held then held[pte := data] else held;
      if Inv(s, h) && Usable(s, h, pte) { StepInv(s, h, DoWrite(pte, data), WriteSlot(s, pte, data), held); }
      var at := FindSlot(pte);
      if at.None? { return false; }
      var d, off := devs[at.value.0], at.value.1;
      disk := WriteSectors(disk, d.bdev, Lba(d, off), data);
      ok := ioOk;
    }

    /** `swap_read_page`: what was last written to a reserved entry, if the device delivers. */
    method ReadPage(pte: nat, ioOk: bool) returns (r: Option<seq<nat>>)
      ensures r == if ioOk && Find(State(), pte).Some? then Some(SlotData(State(), pte)) else None
      ensures Valid() && pte in held && ioOk ==> r == Some(held[pte])
    {
      hide Inv, Decode, ReadSectors;
      if Valid() && pte in held {
        HeldData(State(), held, pte);
        InInv(State(), held, pte, true, true);
      }
      var at := FindSlot(pte);
      if at.None? || !ioOk { return None; }
      var d, off := devs[at.value.0], at.value.1;
      r := Some(ReadSectors(disk, d.bdev, Lba(d, off), 8));
    }

    method FindSlot(pte: nat) returns (r: Option<(nat, nat)>)
      ensures r == Find(State(), pte)
    {
      r := Decode(pte);
      if r.Some? && !(r.value.0 < |devs| && devs[r.value.0].active && r.value.1 < devs[r.value.0].nslots) { r := None; }
    }

    /** `swap_out_page`, undisturbed: the page is out under a new entry, or nothing that is out has changed. */
    method SwapOut(page: seq<nat>, ioOk: bool, junk: seq<nat>) returns (r: Option<nat>)
      requires Valid() && |page| == 8 && |junk| == 8
      modifies this`devs, this`free, this`disk, this`held
      ensures Valid() && Shaped(old(State())) && (State(), r) == Out(old(State()), page, ioOk, junk)
      ensures r.Some? ==> r.value !in old(held)
      ensures held == if r.Some? then old(held)[r.value := page] else old(held)
    {
      hide Inv, AllocFrom, WriteSlot, FreeSlot, Find, SlotData;
      ghost var s := State();
      OutInv(s, held, page, ioOk, junk);
      if !on || free == 0 { return None; }
      var slot := AllocSlot();
      if slot.None? { return None; }
      var pte := slot.value;
      Unfound(State(), pte, if ioOk then page else junk);
      var ok := WritePage(pte, page, ioOk, junk);
      if !ok {
        ReleaseSlot(pte);
        assert held == old(held);
        return None;
      }
      r := Some(pte);
    }

    lemma Unfound(s: Sys, pte: nat, data: seq<nat>)
      ensures Find(s, pte).None? ==> WriteSlot(s, pte, data) == s
    {
    }

    /** `swap_in_page`, undisturbed: the page comes back as it went out. */
    method SwapIn(pte: nat, memOk: bool, ioOk: bool) returns (r: Option<seq<nat>>)
      requires Valid() && pte in held
      modifies this`devs, this`free, this`held
      ensures Valid() && Shaped(old(State())) && (State(), r) == In(old(State()), pte, memOk, ioOk)
      ensures r == if memOk && ioOk then Some(old(held)[pte]) else None
      ensures held == if r.Some? then old(held) - {pte} else old(held)
    {
      hide Inv, FreeSlot, Encode, Decode, ReadSectors;
      InvShaped(State(), held);
      InInv(State(), held, pte, memOk, ioOk);
      if !on || !memOk { return None; }
      var page := ReadPage(pte, ioOk);
      if page.None? { return None; }
      ReleaseSlot(pte);
      r := page;
    }

    /** `swap_add_dev`, on any sectors: the device gets the next number, and its slots are counted. What is out, now and
        later, reads back in all that may follow exactly when the sectors are nobody else's. */
    method Add(bdev: nat, start: nat, n: nat, memOk: bool) returns (r: Option<nat>)
      requires Valid() && (memOk ==> n <= MAX_SLOTS)
      modifies this`devs, this`total, this`free, this`on
      ensures Shaped(old(State())) && (State(), r) == AddDev(old(State()), bdev, start, n, memOk)
      ensures r.Some? <==> |old(devs)| < 4 && n > 0 && memOk
      ensures r.Some? ==>
        && r == Some(|old(devs)|) && |devs| == |old(devs)| + 1 && devs[..|old(devs)|] == old(devs)
        && total == old(total) + n && free == old(free) + n && on
      ensures r.None? || Vacant(old(State()), bdev, start, n) ==> Valid()
      ensures SafeFrom(State(), held) <==> r.None? || Vacant(old(State()), bdev, start, n)
    {
      hide Inv, SafeFrom, Vacant;
      ghost var s := State();
      InvShaped(s, held);
      if Vacant(s, bdev, start, n) { AddInv(s, held, bdev, start, n, memOk); }
      AddExact(s, held, bdev, start, n, memOk);
      if |devs| >= MAX_DEVS || n == 0 || !memOk { return None; }
      var idx := |devs|;
      devs := devs + [Dev(bdev, start, n, n, seq(64 * Words(n), _ => false), 0, true)];
      total, free, on := total + n, free + n, true;
      r := Some(idx);
    }

    /** `swap_remove_dev`: succeeds exactly for an active device, and loses the pages on it and no others. */
    method Remove(i: int) returns (ok: bool)
      requires Valid()
      modifies this
      ensures Valid() && Shaped(old(State())) && (State(), ok) == RemoveDev(old(State()), i)
      ensures ok <==> 0 <= i < |old(devs)| && old(devs)[i].active
      ensures held == if ok then Without(old(State()), old(held), i) else old(held)
    {
      hide Inv, Without;
      InvShaped(State(), held);
      RemoveInv(State(), held, i);
      if i < 0 || i >= |devs| || !devs[i].active { return false; }
      held := Without(State(), held, i);
      total, free := total - devs[i].nslots, free - devs[i].freeCount;
      devs := devs[i := devs[i].(active := false)];
      on := total > 0;
      ok := true;
    }
  }
}
