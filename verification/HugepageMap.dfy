/** hugepage_map_cr3 and hugepage_unmap on page tables in memory, against the processor's walk. */
module HugepageMap {
  import opened Options
  import opened Hugepage

  /** The address walks to its place in the physical page, with the attributes asked for, as far as an entry can hold
      them; `TargetExact` says that is all of them exactly for addresses of at most 52 bits. */
  ghost predicate WalksTo(mem: Mem, root: nat, v: nat, phys: nat, o: Order, f: Flags) {
    var t := Walk(mem, root, v);
    && t.Mapped? && t.phys == Bits52(phys) / PageSize(o) * PageSize(o) + v % PageSize(o)
    && Attr(t.entry) == FlagBits(Carried(phys, f))
  }

  predicate At(q: Pos, v: nat, o: Order) {
    if o.Large1G? then q == P3(Idx4(v)) else q == P2(Idx4(v), Idx3(v))
  }

  function LastIdx(v: nat, o: Order): nat { if o.Large1G? then Idx3(v) else Idx2(v) }

  lemma SameReads(v: nat, w: nat, q: Pos, o: Order)
    requires At(q, w, o)
    ensures !q.P1? && (Reads(v, q, LastIdx(w, o)) <==> SamePage(v, w, o))
  {
    hide Idx4, Idx3, Idx2;
  }

  /** A huge-page entry in the table that covers an address maps the whole page around it and nothing else. */
  lemma PutPage(mem: Mem, root: nat, q: Pos, frame: nat, w: nat, phys: nat, o: Order, f: Flags)
    requires TreeShaped(mem, root) && Table(mem, root, q) == Some(frame) && At(q, w, o)
      && phys < 0x1_0000_0000_0000_0000
    ensures var mem' := Put(mem, frame, LastIdx(w, o), LeafEntry(phys, o, f));
      && TreeShaped(mem', root)
      && (forall v | SamePage(v, w, o) :: WalksTo(mem', root, v, phys, o, f))
      && (forall v | !SamePage(v, w, o) :: Walk(mem', root, v) == Walk(mem, root, v))
  {
    hide Put, Table, TreeShaped, Idx4, Idx3, Idx2, LeafEntry, Present, Leaf, Walk, WalksTo, Bits52, Carried;
    IdxRange(w);
    var i, e := LastIdx(w, o), LeafEntry(phys, o, f);
    LeafEntryParts(phys, o, f);
    PutTree(mem, root, q, frame, i, e);
    forall v | SamePage(v, w, o) ensures WalksTo(Put(mem, frame, i, e), root, v, phys, o, f) {
      PageWalk(mem, root, q, frame, w, phys, o, f, v);
    }
    forall v | !SamePage(v, w, o) ensures Walk(Put(mem, frame, i, e), root, v) == Walk(mem, root, v) {
      SameReads(v, w, q, o);
      PutWalk(mem, root, q, frame, i, e, v);
    }
  }

  lemma PageWalk(mem: Mem, root: nat, q: Pos, frame: nat, w: nat, phys: nat, o: Order, f: Flags, v: nat)
    requires TreeShaped(mem, root) && Table(mem, root, q) == Some(frame) && At(q, w, o) && SamePage(v, w, o)
      && phys < 0x1_0000_0000_0000_0000
    ensures WalksTo(Put(mem, frame, LastIdx(w, o), LeafEntry(phys, o, f)), root, v, phys, o, f)
  {
    hide Table, TreeShaped, Idx4, Idx3, Idx2, Idx1, LeafEntry, Present, Leaf, FrameOf, Attr, FlagBits, Bits52, Carried;
    IdxRange(w);
    var i, e := LastIdx(w, o), LeafEntry(phys, o, f);
    LeafEntryParts(phys, o, f);
    PutTables(mem, root, q, frame, i, e, q);
    PutCut(mem, root, q, frame, i, e, Under(q, i));
    if o.Small2M? {
      ParentTable(mem, root, Idx4(w), Idx3(w));
      PutTables(mem, root, q, frame, i, e, P3(Idx4(w)));
    }
  }

  lemma ParentTable(mem: Mem, root: nat, i: nat, j: nat)
    requires Table(mem, root, P2(i, j)).Some?
    ensures Table(mem, root, P3(i)).Some?
  {
    hide Present, Leaf, FrameOf, Get;
  }

  /** Clearing the low bits of an address keeps the indices that select the page. */
  lemma AlignedIdx(v: nat, o: Order)
    ensures var w := v / PageSize(o) * PageSize(o);
      Idx4(w) == Idx4(v) && Idx3(w) == Idx3(v) && (o.Small2M? ==> Idx2(w) == Idx2(v))
  {
    if o.Small2M? { Aligned2M(v / 0x20_0000); Split2M(v); } else { Aligned1G(v / 0x4000_0000); Split1G(v); }
  }

  lemma Aligned2M(q: nat)
    ensures (q * 0x20_0000) / 0x20_0000 == q && (q * 0x20_0000) / 0x4000_0000 == q / 0x200
      && (q * 0x20_0000) / 0x80_0000_0000 == q / 0x4_0000
  {
  }

  lemma Split2M(v: nat)
    ensures v / 0x4000_0000 == (v / 0x20_0000) / 0x200 && v / 0x80_0000_0000 == (v / 0x20_0000) / 0x4_0000
  {
  }

  lemma Aligned1G(q: nat)
    ensures (q * 0x4000_0000) / 0x4000_0000 == q && (q * 0x4000_0000) / 0x80_0000_0000 == q / 0x200
  {
  }

  lemma Split1G(v: nat)
    ensures v / 0x80_0000_0000 == (v / 0x4000_0000) / 0x200
  {
  }

  /** A frame the kernel's allocator may return: a page that is no table's. */
  ghost predicate Fresh(mem: Mem, root: nat, f: nat) {
    0 < f < 0x10_0000_0000_0000 && f % 0x1000 == 0 && Unused(mem, root, f)
  }

  /** `ensure_table` can follow or create the table under an entry. */
  predicate Ensurable(mem: Mem, parent: nat, i: nat, alloc: nat) {
    var e := Get(mem, parent, i);
    if Present(e) then !Leaf(e) && FrameOf(e) != 0 else alloc != 0
  }

  predicate Mappable(mem: Mem, root: nat, v: nat, o: Order, has1G: bool, alloc1: nat, alloc2: nat) {
    && Ensurable(mem, root, Idx4(v), alloc1)
    && if o.Large1G? then has1G
       else
         var e := Get(mem, root, Idx4(v));
         if Present(e) then Ensurable(mem, FrameOf(e), Idx3(v), alloc2) else alloc2 != 0
  }

  lemma ChildTable(mem: Mem, root: nat, q: Pos, frame: nat, i: nat)
    requires (q.P4? || q.P3?) && Table(mem, root, q) == Some(frame)
    requires Present(Get(mem, frame, i)) && !Leaf(Get(mem, frame, i))
    ensures Table(mem, root, Under(q, i)) == Some(FrameOf(Get(mem, frame, i)))
  {
    hide Present, Leaf, FrameOf, Get;
  }

  class PageTables {
    var mem: Mem
    /** Whether the processor has 1G pages. */
    const has1G: bool

    constructor (has1G: bool)
      ensures mem == map[] && this.has1G == has1G
    {
      mem := map[];
      this.has1G := has1G;
    }

    method Clear(f: nat)
      modifies this
      ensures Cleared(old(mem), mem, f)
    {
      for i := 0 to 512
        invariant forall g: nat, j: nat {:trigger Get(mem, g, j)} ::
          Get(mem, g, j) == if g == f && j < i then 0 else Get(old(mem), g, j)
      {
        ghost var m := mem;
        mem := Put(mem, f, i, 0);
        forall g: nat, j: nat ensures Get(mem, g, j) == if g == f && j < i + 1 then 0 else Get(old(mem), g, j) {
          assert Get(m, g, j) == if g == f && j < i then 0 else Get(old(mem), g, j);
        }
      }
    }

    /** `ensure_table`; `alloc` is what kmalloc returns if it is called, 0 for failure. */
    method EnsureTable(parent: nat, i: nat, alloc: nat, ghost root: nat, ghost q: Pos) returns (t: nat)
      requires TreeShaped(mem, root) && (q.P4? || q.P3?) && InRange(q) && Table(mem, root, q) == Some(parent) && i < 512
      requires alloc != 0 ==> Fresh(mem, root, alloc)
      modifies this
      ensures TreeShaped(mem, root) && forall v :: Walk(mem, root, v) == Walk(old(mem), root, v)
      ensures t != 0 <==> Ensurable(old(mem), parent, i, alloc)
      ensures t != 0 ==> Table(mem, root, Under(q, i)) == Some(t)
      ensures if Present(Get(old(mem), parent, i)) || alloc == 0 then mem == old(mem)
        else
          && (forall j | 0 <= j < 512 :: Get(mem, t, j) == 0)
          && forall g | Unused(old(mem), root, g) && g != alloc :: Unused(mem, root, g)
    {
      hide Table, TreeShaped, Unused, Walk, Present, Leaf, FrameOf, TableEntry, Cleared, Put, Get;
      var e := Get(mem, parent, i);
      if Present(e) {
        if Leaf(e) { return 0; }
        ChildTable(mem, root, q, parent, i);
        return FrameOf(e);
      }
      if alloc == 0 { return 0; }
      ghost var m := mem;
      Clear(alloc);
      ghost var m1 := mem;
      LinkTable(m, m1, root, q, parent, i, alloc);
      mem := Put(mem, parent, i, TableEntry(alloc));
      NewTable(m, m1, root, q, parent, i, alloc);
      t := alloc;
    }

    /** `hugepage_map_cr3`; `alloc1` and `alloc2` are what kmalloc returns for the two tables that may be missing.
        Success maps exactly the page; failure changes no translation. */
    method MapCr3(cr3: nat, virt: nat, phys: nat, o: Order, f: Flags, alloc1: nat, alloc2: nat) returns (ok: bool)
      requires TreeShaped(mem, FrameOf(cr3)) && phys < 0x1_0000_0000_0000_0000
      requires alloc1 != 0 ==> Fresh(mem, FrameOf(cr3), alloc1)
      requires alloc2 != 0 ==> Fresh(mem, FrameOf(cr3), alloc2) && alloc2 != alloc1
      modifies this
      ensures TreeShaped(mem, FrameOf(cr3))
      ensures ok <==> Mappable(old(mem), FrameOf(cr3), virt, o, has1G, alloc1, alloc2)
      ensures ok ==> forall v | SamePage(v, virt, o) :: WalksTo(mem, FrameOf(cr3), v, phys, o, f)
      ensures forall v | !ok || !SamePage(v, virt, o) :: Walk(mem, FrameOf(cr3), v) == Walk(old(mem), FrameOf(cr3), v)
    {
      hide Table, TreeShaped, Unused, Walk, WalksTo, Present, Leaf, FrameOf, LeafEntry, Put, Get, Idx4, Idx3, Idx2,
        Idx1, PageSize;
      AlignedIdx(virt, o);
      IdxRange(virt);
      var v := virt / PageSize(o) * PageSize(o);
      var pml4 := FrameOf(cr3);
      RootTable(mem, pml4);
      var pdp := EnsureTable(pml4, Idx4(v), alloc1, pml4, P4);
      if pdp == 0 { return false; }
      var di := Idx3(v);
      if o.Large1G? {
        if !has1G { return false; }
        PutPage(mem, pml4, P3(Idx4(virt)), pdp, virt, phys, o, f);
        mem := Put(mem, pdp, di, LeafEntry(phys, o, f));
        return true;
      }
      ghost var m1 := mem;
      var pd := EnsureTable(pdp, di, alloc2, pml4, P3(Idx4(v)));
      SecondTable(old(mem), m1, pml4, virt, pdp, alloc1, alloc2);
      if pd == 0 { return false; }
      PutPage(mem, pml4, P2(Idx4(virt), Idx3(virt)), pd, virt, phys, o, f);
      mem := Put(mem, pd, Idx2(v), LeafEntry(phys, o, f));
      return true;
    }

    /** `hugepage_unmap` under the page tables of `cr3`: what it does to every translation, and when the page is gone
        afterwards. */
    method Unmap(cr3: nat, virt: nat, o: Order) returns (ok: bool)
      modifies this
      ensures (mem, ok) == UnmapStep(old(mem), FrameOf(cr3), virt, o) && (!ok ==> mem == old(mem))
      ensures TreeShaped(old(mem), FrameOf(cr3)) ==> var root := FrameOf(cr3);
        && TreeShaped(mem, root)
        && (forall v :: Walk(mem, root, v) == if ok && Hit(old(mem), root, virt, o, v) then Fault
                                              else Walk(old(mem), root, v))
        && ((forall v | SamePage(v, virt, o) :: Walk(mem, root, v) == Fault) <==>
              !Inside1G(old(mem), root, virt, o)
              || (ok && forall v | SamePage(v, virt, o) :: Hit(old(mem), root, virt, o, v)))
    {
      hide TreeShaped, Walk, FrameOf, Present, Leaf, Get, Put, Idx4, Idx3, Idx2, Idx1, Hit, Inside1G, SamePage;
      if TreeShaped(mem, FrameOf(cr3)) {
        UnmapEffect(mem, FrameOf(cr3), virt, o);
        UnmapExact(mem, FrameOf(cr3), virt, o);
      }
      var pml4 := FrameOf(cr3);
      var e4 := Get(mem, pml4, Idx4(virt));
      if !Present(e4) { return false; }
      var pdp := FrameOf(e4);
      var e3 := Get(mem, pdp, Idx3(virt));
      if !Present(e3) { return false; }
      if o.Large1G? {
        mem := Put(mem, pdp, Idx3(virt), 0);
        return true;
      }
      var pd := FrameOf(e3);
      if !Present(Get(mem, pd, Idx2(virt))) { return false; }
      mem := Put(mem, pd, Idx2(virt), 0);
      return true;
    }
  }

  /** Whether the second table can be had, in terms of the tables before the call. */
  lemma SecondTable(m: Mem, m1: Mem, root: nat, v: nat, pdp: nat, alloc1: nat, alloc2: nat)
    requires Table(m1, root, P3(Idx4(v))) == Some(pdp)
    requires
      if Present(Get(m, root, Idx4(v))) || alloc1 == 0 then m1 == m
      else forall j | 0 <= j < 512 :: Get(m1, pdp, j) == 0
    requires Ensurable(m, root, Idx4(v), alloc1)
    ensures Ensurable(m1, pdp, Idx3(v), alloc2) <==>
      var e := Get(m, root, Idx4(v));
      if Present(e) then Ensurable(m, FrameOf(e), Idx3(v), alloc2) else alloc2 != 0
  {
    hide FrameOf, Get, Leaf;
    IdxRange(v);
  }

  /** What `hugepage_unmap` does to memory: it follows present entries without looking at their page-size bit. */
  function UnmapStep(mem: Mem, root: nat, v: nat, o: Order): (Mem, bool) {
    var e4 := Get(mem, root, Idx4(v));
    var pdp := FrameOf(e4);
    var e3 := Get(mem, pdp, Idx3(v));
    var pd := FrameOf(e3);
    if !Present(e4) || !Present(e3) then (mem, false)
    else if o.Large1G? then (Put(mem, pdp, Idx3(v), 0), true)
    else if !Present(Get(mem, pd, Idx2(v))) then (mem, false)
    else (Put(mem, pd, Idx2(v), 0), true)
  }

  /** The table that would hold the page's entry is reached through tables only. */
  predicate Covered(mem: Mem, root: nat, v: nat, o: Order) {
    Table(mem, root, if o.Large1G? then P3(Idx4(v)) else P2(Idx4(v), Idx3(v))).Some?
  }

  /** The frame `hugepage_unmap` takes for the table that holds the page's entry. */
  function Target(mem: Mem, root: nat, v: nat, o: Order): nat {
    var pdp := FrameOf(Get(mem, root, Idx4(v)));
    if o.Large1G? then pdp else FrameOf(Get(mem, pdp, Idx3(v)))
  }

  /** The walk of `v` reads the entry that `hugepage_unmap` of `w` clears. */
  ghost predicate Hit(mem: Mem, root: nat, w: nat, o: Order, v: nat) {
    exists p :: InRange(p) && Table(mem, root, p) == Some(Target(mem, root, w, o)) && Through(v, p, LastIdx(w, o))
  }

  /** The 2M page is part of a 1G page. */
  predicate Inside1G(mem: Mem, root: nat, v: nat, o: Order) {
    && o.Small2M? && Table(mem, root, P3(Idx4(v))).Some?
    && var e := Get(mem, Table(mem, root, P3(Idx4(v))).value, Idx3(v));
    Present(e) && Leaf(e)
  }

  /** Where the covering table exists, the page faults afterwards and every other translation stays as it was. */
  lemma UnmapPage(mem: Mem, root: nat, w: nat, o: Order)
    requires TreeShaped(mem, root) && Covered(mem, root, w, o)
    ensures var (mem', ok) := UnmapStep(mem, root, w, o);
      && TreeShaped(mem', root) && (!ok ==> mem' == mem)
      && (forall v | SamePage(v, w, o) :: Walk(mem', root, v) == Fault)
      && (forall v | !SamePage(v, w, o) :: Walk(mem', root, v) == Walk(mem, root, v))
  {
    hide TreeShaped, Idx4, Idx3, Idx2, Idx1, Present, Leaf, FrameOf, Put, Get, Walk;
    IdxRange(w);
    var q := if o.Large1G? then P3(Idx4(w)) else P2(Idx4(w), Idx3(w));
    var frame, i := Table(mem, root, q).value, LastIdx(w, o);
    ZeroAbsent();
    PutTree(mem, root, q, frame, i, 0);
    forall v | SamePage(v, w, o) ensures Walk(UnmapStep(mem, root, w, o).0, root, v) == Fault {
      if UnmapStep(mem, root, w, o).1 {
        PutTables(mem, root, q, frame, i, 0, q);
        GetPut(mem, frame, i, 0);
        GoneFaults(Put(mem, frame, i, 0), root, q, frame, v, w, o);
      } else {
        GoneFaults(mem, root, q, frame, v, w, o);
      }
    }
    forall v | !SamePage(v, w, o) ensures Walk(UnmapStep(mem, root, w, o).0, root, v) == Walk(mem, root, v) {
      SameReads(v, w, q, o);
      PutWalk(mem, root, q, frame, i, 0, v);
    }
  }

  /** Whatever it takes for the covering table: a successful unmap makes exactly the addresses fault whose walks read
      the entry it clears, and a failed one changes nothing. */
  lemma UnmapEffect(mem: Mem, root: nat, w: nat, o: Order)
    requires TreeShaped(mem, root)
    ensures var (mem', ok) := UnmapStep(mem, root, w, o);
      && TreeShaped(mem', root) && (!ok ==> mem' == mem)
      && forall v :: Walk(mem', root, v) == if ok && Hit(mem, root, w, o, v) then Fault else Walk(mem, root, v)
  {
    hide TreeShaped, Table, Through, InRange, Idx4, Idx3, Idx2, Idx1, Present, Leaf, FrameOf, Put, Get, Walk;
    var (mem', ok) := UnmapStep(mem, root, w, o);
    if ok {
      var f, i := Target(mem, root, w, o), LastIdx(w, o);
      IdxRange(w);
      if q :| InRange(q) && Table(mem, root, q) == Some(f) {
        ClearEntry(mem, root, q, f, i);
        forall v ensures Hit(mem, root, w, o, v) <==> Through(v, q, i) { OneHit(mem, root, w, o, v, q); }
      } else {
        PutOff(mem, f, i, 0);
        OffTree(mem, mem', root, f);
        forall v ensures Walk(mem', root, v) == Walk(mem, root, v) && !Hit(mem, root, w, o, v) {
          OffWalk(mem, mem', root, f, v);
        }
      }
    }
  }

  /** In a tree only one table can be hit. */
  lemma OneHit(mem: Mem, root: nat, w: nat, o: Order, v: nat, q: Pos)
    requires TreeShaped(mem, root) && InRange(q) && Table(mem, root, q) == Some(Target(mem, root, w, o))
    ensures Hit(mem, root, w, o, v) <==> Through(v, q, LastIdx(w, o))
  {
    hide Table, Through, InRange, Target, LastIdx;
  }

  lemma PutOff(mem: Mem, f: nat, i: nat, e: nat)
    ensures SameOff(mem, Put(mem, f, i, e), f)
  {
  }

  /** The page of an address that no table covers faults already, unless it is part of a 1G page, and then it does
      not. */
  lemma UncoveredWalk(mem: Mem, root: nat, w: nat, o: Order, v: nat)
    requires !Covered(mem, root, w, o) && SamePage(v, w, o)
    ensures Walk(mem, root, v) == Fault <==> !Inside1G(mem, root, w, o)
  {
    hide Idx4, Idx3, Idx2, Idx1, Present, Leaf, FrameOf, Get;
  }

  /** For every page: all its addresses fault afterwards exactly when it is not part of a 1G page, or the unmap
      happened to clear an entry that all of them are translated through. Outside 1G pages no address of another page
      is affected when the covering table exists. */
  lemma UnmapExact(mem: Mem, root: nat, w: nat, o: Order)
    requires TreeShaped(mem, root)
    ensures var (mem', ok) := UnmapStep(mem, root, w, o);
      && ((forall v | SamePage(v, w, o) :: Walk(mem', root, v) == Fault) <==>
            !Inside1G(mem, root, w, o) || (ok && forall v | SamePage(v, w, o) :: Hit(mem, root, w, o, v)))
      && (Covered(mem, root, w, o) ==>
            forall v | !SamePage(v, w, o) :: Walk(mem', root, v) == Walk(mem, root, v))
  {
    hide TreeShaped, Idx4, Idx3, Idx2, Idx1, Present, Leaf, FrameOf, Put, Get, Walk, UnmapStep, Hit, Inside1G, Covered;
    UnmapEffect(mem, root, w, o);
    if Covered(mem, root, w, o) {
      CoveredOutside(mem, root, w, o);
      UnmapPage(mem, root, w, o);
    } else {
      forall v | SamePage(v, w, o) ensures Walk(mem, root, v) == Fault <==> !Inside1G(mem, root, w, o) {
        UncoveredWalk(mem, root, w, o, v);
      }
      assert SamePage(w, w, o);
    }
  }

  lemma CoveredOutside(mem: Mem, root: nat, w: nat, o: Order)
    requires Covered(mem, root, w, o)
    ensures !Inside1G(mem, root, w, o)
  {
    hide Idx4, Idx3, Idx2, Idx1, Present, FrameOf, Get;
  }

  const WITNESS: Mem := map[Cell(0x1000, 0) := 0x2007, Cell(0x2000, 0) := 0x4000_0083, Cell(0x4000_0000, 0) := 1]

  /** Such a page: a 1G entry, and a present word where the table would be. The unmap reports success and the page
      stays. */
  lemma UnmapInside1G()
    ensures Inside1G(WITNESS, 0x1000, 0, Small2M) && UnmapStep(WITNESS, 0x1000, 0, Small2M).1
    ensures Walk(UnmapStep(WITNESS, 0x1000, 0, Small2M).0, 0x1000, 0) != Fault
  {
    WitnessWords(WITNESS);
    ZeroIdx();
    var mem' := Put(WITNESS, 0x4000_0000, 0, 0);
    WitnessWords(mem');
    WitnessWalk(WITNESS);
    WitnessWalk(mem');
  }

  lemma ZeroIdx()
    ensures Idx4(0) == Idx3(0) == Idx2(0) == 0
  {
  }

  lemma WitnessWords(mem: Mem)
    requires mem == WITNESS || mem == Put(WITNESS, 0x4000_0000, 0, 0)
    ensures Get(mem, 0x1000, 0) == 0x2007 && Get(mem, 0x2000, 0) == 0x4000_0083
    ensures mem == WITNESS ==> Get(mem, 0x4000_0000, 0) == 1
  {
  }

  lemma WitnessWalk(mem: Mem)
    requires Get(mem, 0x1000, 0) == 0x2007 && Get(mem, 0x2000, 0) == 0x4000_0083
    ensures Table(mem, 0x1000, P3(0)) == Some(0x2000) && Walk(mem, 0x1000, 0) != Fault
    ensures Present(0x2007) && FrameOf(0x2007) == 0x2000 && Present(0x4000_0083) && Leaf(0x4000_0083)
    ensures FrameOf(0x4000_0083) == 0x4000_0000 && Present(1)
  {
    hide Get;
    ZeroIdx();
  }

  lemma ZeroAbsent()
    ensures !Present(0)
  {
  }

  lemma GetPut(mem: Mem, frame: nat, i: nat, e: nat)
    ensures Get(Put(mem, frame, i, e), frame, i) == e
  {
  }

  lemma GoneFaults(mem: Mem, root: nat, q: Pos, frame: nat, v: nat, w: nat, o: Order)
    requires At(q, w, o) && Table(mem, root, q) == Some(frame) && SamePage(v, w, o)
      && !Present(Get(mem, frame, LastIdx(w, o)))
    ensures Walk(mem, root, v) == Fault
  {
    hide Idx4, Idx3, Idx2, Idx1, Present, Leaf, FrameOf, Get;
  }

  /** Mapping a page and unmapping it again leaves its addresses faulting and all others as they were. */
  lemma MapThenUnmap(mem: Mem, root: nat, q: Pos, frame: nat, w: nat, phys: nat, o: Order, f: Flags)
    requires TreeShaped(mem, root) && Table(mem, root, q) == Some(frame) && At(q, w, o)
      && phys < 0x1_0000_0000_0000_0000
    ensures var (mem', ok) := UnmapStep(Put(mem, frame, LastIdx(w, o), LeafEntry(phys, o, f)), root, w, o);
      && ok && TreeShaped(mem', root)
      && (forall v | SamePage(v, w, o) :: Walk(mem', root, v) == Fault)
      && (forall v | !SamePage(v, w, o) :: Walk(mem', root, v) == Walk(mem, root, v))
  {
    hide TreeShaped, Idx4, Idx3, Idx2, Idx1, LeafEntry, Present, Leaf, FrameOf, Put, Get, Walk, WalksTo;
    IdxRange(w);
    var i, e := LastIdx(w, o), LeafEntry(phys, o, f);
    var m1 := Put(mem, frame, i, e);
    LeafEntryParts(phys, o, f);
    PutPage(mem, root, q, frame, w, phys, o, f);
    PutTables(mem, root, q, frame, i, e, q);
    GetPut(mem, frame, i, e);
    UnmapPage(m1, root, w, o);
  }

  lemma NewTable(m: Mem, m1: Mem, root: nat, q: Pos, parent: nat, i: nat, f: nat)
    requires TreeShaped(m, root) && (q.P4? || q.P3?) && InRange(q) && Table(m, root, q) == Some(parent) && i < 512
    requires Fresh(m, root, f) && Cleared(m, m1, f)
    ensures var m2 := Put(m1, parent, i, TableEntry(f));
      && (forall j | 0 <= j < 512 :: Get(m2, f, j) == 0)
      && (forall g | Unused(m, root, g) && g != f :: Unused(m2, root, g))
  {
    hide Table, TreeShaped, Walk, TableEntry, Cleared, Put, Get;
    var m2 := Put(m1, parent, i, TableEntry(f));
    UnusedFrame(m, root, q, f);
    forall j | 0 <= j < 512 ensures Get(m2, f, j) == 0 { EmptyChild(m, m1, parent, i, TableEntry(f), f, j); }
    forall g | Unused(m, root, g) && g != f ensures Unused(m2, root, g) {
      forall p | InRange(p) ensures Table(m2, root, p) != Some(g) {
        LinkedTables(m, m1, root, q, parent, i, f, p);
        UnusedFrame(m, root, p, g);
      }
    }
  }
}
