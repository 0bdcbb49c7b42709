/** Huge-page mappings (src/mm/hugepage.c) over four-level page tables. Memory is the words of the table frames;
    the processor's walk is the specification. */
module Hugepage {
  import opened Bits
  import opened Options

  datatype Cell = Cell(frame: nat, idx: nat)

  /** Word `idx` of a frame; words never written are zero. */
  type Mem = map<Cell, nat>

  function Get(mem: Mem, frame: nat, i: nat): nat {
    if Cell(frame, i) in mem then mem[Cell(frame, i)] else 0
  }

  // ---------------------------------------------------------------- words

  predicate Present(e: nat) { e % 2 == 1 }

  /** The page-size bit. */
  predicate Leaf(e: nat) { (e / 0x80) % 2 == 1 }

  /** Bits 12 to 51. */
  function FrameOf(e: nat): nat { (e / 0x1000) % 0x100_0000_0000 * 0x1000 }

  /** The low twelve bits and the no-execute bit. */
  function Attr(e: nat): nat { e % 0x1000 + (e / 0x8000_0000_0000_0000) % 2 * 0x8000_0000_0000_0000 }

  function Idx4(v: nat): nat { (v / 0x80_0000_0000) % 512 }
  function Idx3(v: nat): nat { (v / 0x4000_0000) % 512 }
  function Idx2(v: nat): nat { (v / 0x20_0000) % 512 }
  function Idx1(v: nat): nat { (v / 0x1000) % 512 }

  datatype Order = Small2M | Large1G

  function PageSize(o: Order): (n: nat)
    ensures n > 0
  {
    if o.Small2M? then 0x20_0000 else 0x4000_0000
  }

  // ---------------------------------------------------------------- the walk

  /** The table an entry points to. */
  function Child(mem: Mem, table: Option<nat>, i: nat): Option<nat> {
    if table.None? then None
    else
      var e := Get(mem, table.value, i);
      if Present(e) && !Leaf(e) then Some(FrameOf(e)) else None
  }

  /** A position in the tree of tables, from the root. */
  datatype Pos = P4 | P3(i: nat) | P2(i: nat, j: nat) | P1(i: nat, j: nat, k: nat)

  function Table(mem: Mem, root: nat, p: Pos): Option<nat> {
    match p
    case P4 => Some(root)
    case P3(i) => Child(mem, Some(root), i)
    case P2(i, j) => Child(mem, Child(mem, Some(root), i), j)
    case P1(i, j, k) => Child(mem, Child(mem, Child(mem, Some(root), i), j), k)
  }

  predicate InRange(p: Pos) {
    match p
    case P4 => true
    case P3(i) => i < 512
    case P2(i, j) => i < 512 && j < 512
    case P1(i, j, k) => i < 512 && j < 512 && k < 512
  }

  /** Tree-shaped: no frame serves as the table of two positions. */
  ghost predicate TreeShaped(mem: Mem, root: nat) {
    forall p, q {:trigger Table(mem, root, p), Table(mem, root, q)} | InRange(p) && InRange(q) ::
      Table(mem, root, p).Some? && Table(mem, root, p) == Table(mem, root, q) ==> p == q
  }

  /** `entry` is the entry that ends the walk, `above` are the entries of the tables over it (which may restrict
      access). */
  datatype Translation = Fault | Mapped(phys: nat, entry: nat, above: seq<nat>)

  /** The page an entry of the last table of a walk maps, if it is present; `size` is its size. */
  function Page(e: nat, size: nat, v: nat, above: seq<nat>): Translation
    requires size > 0
  {
    if Present(e) then Mapped(FrameOf(e) / size * size + v % size, e, above) else Fault
  }

  /** What the processor makes of an address. */
  function Walk(mem: Mem, root: nat, v: nat): Translation {
    var e4 := Get(mem, root, Idx4(v));
    match Table(mem, root, P3(Idx4(v)))
    case None => Fault
    case Some(pdp) =>
      var e3 := Get(mem, pdp, Idx3(v));
      match Table(mem, root, P2(Idx4(v), Idx3(v)))
      case None => Page(e3, 0x4000_0000, v, [e4])
      case Some(pd) =>
        var e2 := Get(mem, pd, Idx2(v));
        match Table(mem, root, P1(Idx4(v), Idx3(v), Idx2(v)))
        case None => Page(e2, 0x20_0000, v, [e4, e3])
        case Some(pt) => Page(Get(mem, pt, Idx1(v)), 0x1000, v, [e4, e3, e2])
  }

  /** The two addresses lie in the same page of the order. */
  predicate SamePage(v: nat, w: nat, o: Order) {
    Idx4(v) == Idx4(w) && Idx3(v) == Idx3(w) && (o.Small2M? ==> Idx2(v) == Idx2(w))
  }

  /** The indices of the four levels, from the root down, and the place in a 4K page are the low 48 bits of the
      address. */
  lemma IndexDigits(v: nat)
    ensures v % 0x1_0000_0000_0000 ==
      Idx4(v) * 0x80_0000_0000 + Idx3(v) * 0x4000_0000 + Idx2(v) * 0x20_0000 + Idx1(v) * 0x1000 + v % 0x1000
  {
    ModAddScale(v % 0x1000, v / 0x1000, 512, 0x1000, 0x20_0000);
    ModAddScale(v % 0x20_0000, v / 0x20_0000, 512, 0x20_0000, 0x4000_0000);
    ModAddScale(v % 0x4000_0000, v / 0x4000_0000, 512, 0x4000_0000, 0x80_0000_0000);
    ModAddScale(v % 0x80_0000_0000, v / 0x80_0000_0000, 512, 0x80_0000_0000, 0x1_0000_0000_0000);
  }

  /** Pages are what the low 48 bits say. */
  lemma SamePageExact(v: nat, w: nat, o: Order)
    ensures SamePage(v, w, o) <==>
      (v % 0x1_0000_0000_0000) / PageSize(o) == (w % 0x1_0000_0000_0000) / PageSize(o)
  {
    hide Idx4, Idx3, Idx2, Idx1;
    PageNumber(v, o);
    PageNumber(w, o);
    IdxRange(v);
    IdxRange(w);
  }

  lemma PageNumber(v: nat, o: Order)
    ensures (v % 0x1_0000_0000_0000) / PageSize(o) ==
      if o.Small2M? then Idx4(v) * 0x4_0000 + Idx3(v) * 0x200 + Idx2(v) else Idx4(v) * 0x200 + Idx3(v)
  {
    hide Idx4, Idx3, Idx2, Idx1;
    IndexDigits(v);
    IdxRange(v);
  }

  // ---------------------------------------------------------------- changing one entry

  function Put(mem: Mem, frame: nat, i: nat, e: nat): Mem { mem[Cell(frame, i) := e] }

  /** `mem'` is `mem` with one frame cleared. */
  ghost predicate Cleared(mem: Mem, mem': Mem, frame: nat) {
    forall f, i {:trigger Get(mem', f, i)} | i < 512 :: Get(mem', f, i) == if f == frame then 0 else Get(mem, f, i)
  }

  /** The two memories differ at most in one frame. */
  ghost predicate SameOff(mem: Mem, mem': Mem, frame: nat) {
    forall f, i {:trigger Get(mem', f, i)} | i < 512 && f != frame :: Get(mem', f, i) == Get(mem, f, i)
  }

  /** The frame is no table's. */
  ghost predicate Unused(mem: Mem, root: nat, frame: nat) {
    forall p {:trigger Table(mem, root, p)} | InRange(p) :: Table(mem, root, p) != Some(frame)
  }

  lemma OffTables(mem: Mem, mem': Mem, root: nat, frame: nat, p: Pos)
    requires SameOff(mem, mem', frame) && Unused(mem, root, frame) && InRange(p)
    ensures Table(mem', root, p) == Table(mem, root, p)
  {
    hide Get, Present, Leaf, FrameOf;
    assert Table(mem, root, P4) != Some(frame);
    match p
    case P4 =>
    case P3(i) =>
    case P2(i, j) => assert Table(mem, root, P3(i)) != Some(frame);
    case P1(i, j, k) => assert Table(mem, root, P3(i)) != Some(frame) && Table(mem, root, P2(i, j)) != Some(frame);
  }

  lemma IdxRange(v: nat)
    ensures Idx4(v) < 512 && Idx3(v) < 512 && Idx2(v) < 512 && Idx1(v) < 512
  {
  }

  lemma OffWalk(mem: Mem, mem': Mem, root: nat, frame: nat, v: nat)
    requires SameOff(mem, mem', frame) && Unused(mem, root, frame)
    ensures Walk(mem', root, v) == Walk(mem, root, v)
  {
    hide Get, Page, Table, Idx4, Idx3, Idx2, Idx1;
    IdxRange(v);
    var p3, p2, p1 := P3(Idx4(v)), P2(Idx4(v), Idx3(v)), P1(Idx4(v), Idx3(v), Idx2(v));
    RootTable(mem, root);
    assert Table(mem, root, P4) != Some(frame);
    assert Table(mem, root, p3) != Some(frame) && Table(mem, root, p2) != Some(frame)
      && Table(mem, root, p1) != Some(frame);
    OffTables(mem, mem', root, frame, p3);
    OffTables(mem, mem', root, frame, p2);
    OffTables(mem, mem', root, frame, p1);
  }

  lemma RootTable(mem: Mem, root: nat)
    ensures Table(mem, root, P4) == Some(root)
  {
  }

  /** The position under entry `i` of the table at `q`. */
  function Under(q: Pos, i: nat): Pos
    requires !q.P1?
  {
    match q case P4 => P3(i) case P3(a) => P2(a, i) case P2(a, b) => P1(a, b, i)
  }

  predicate Passes(p: Pos, q: Pos, i: nat)
    requires !q.P1?
  {
    match q
    case P4 => (p.P3? || p.P2? || p.P1?) && p.i == i
    case P3(a) => (p.P2? || p.P1?) && p.i == a && p.j == i
    case P2(a, b) => p.P1? && p.i == a && p.j == b && p.k == i
  }

  /** The walk of `v` reads entry `i` of the table at `q`, if it gets there. */
  predicate Reads(v: nat, q: Pos, i: nat)
    requires !q.P1?
  {
    match q
    case P4 => Idx4(v) == i
    case P3(a) => Idx4(v) == a && Idx3(v) == i
    case P2(a, b) => Idx4(v) == a && Idx3(v) == b && Idx2(v) == i
  }

  /** Writing one entry moves no table that is not under it. */
  lemma PutTables(mem: Mem, root: nat, q: Pos, frame: nat, i: nat, e: nat, p: Pos)
    requires TreeShaped(mem, root) && !q.P1? && InRange(q) && Table(mem, root, q) == Some(frame) && i < 512
    requires InRange(p) && !Passes(p, q, i)
    ensures Table(Put(mem, frame, i, e), root, p) == Table(mem, root, p)
  {
    hide Child, Put;
    assert Table(mem, root, P4) == Table(mem, root, q) ==> q == P4;
    match p
    case P4 =>
    case P3(a) => PutChild(mem, frame, i, e, Some(root), a);
    case P2(a, b) =>
      assert Table(mem, root, P3(a)) == Table(mem, root, q) ==> q == P3(a);
      PutChild(mem, frame, i, e, Some(root), a);
      PutChild(mem, frame, i, e, Table(mem, root, P3(a)), b);
    case P1(a, b, c) =>
      assert Table(mem, root, P3(a)) == Table(mem, root, q) ==> q == P3(a);
      assert Table(mem, root, P2(a, b)) == Table(mem, root, q) ==> q == P2(a, b);
      PutChild(mem, frame, i, e, Some(root), a);
      PutChild(mem, frame, i, e, Table(mem, root, P3(a)), b);
      PutChild(mem, frame, i, e, Table(mem, root, P2(a, b)), c);
  }

  lemma PutChild(mem: Mem, frame: nat, i: nat, e: nat, t: Option<nat>, j: nat)
    ensures (t, j) != (Some(frame), i) ==> Child(Put(mem, frame, i, e), t, j) == Child(mem, t, j)
    ensures Child(Put(mem, frame, i, e), Some(frame), i) == if Present(e) && !Leaf(e) then Some(FrameOf(e)) else None
  {
    hide Present, Leaf, FrameOf;
  }

  lemma PutEntry(mem: Mem, root: nat, q: Pos, frame: nat, i: nat, e: nat, p: Pos, j: nat)
    requires TreeShaped(mem, root) && InRange(q) && Table(mem, root, q) == Some(frame)
    requires InRange(p) && Table(mem, root, p).Some? && (p, j) != (q, i)
    ensures Get(Put(mem, frame, i, e), Table(mem, root, p).value, j) == Get(mem, Table(mem, root, p).value, j)
  {
    hide Table;
  }

  /** Writing one entry leaves every walk alone that does not read it. */
  lemma PutWalk(mem: Mem, root: nat, q: Pos, frame: nat, i: nat, e: nat, v: nat)
    requires TreeShaped(mem, root) && !q.P1? && InRange(q) && Table(mem, root, q) == Some(frame) && i < 512
      && !Reads(v, q, i)
    ensures Walk(Put(mem, frame, i, e), root, v) == Walk(mem, root, v)
  {
    hide Get, Page, Table, Idx4, Idx3, Idx2, Idx1, Put;
    IdxRange(v);
    RootTable(mem, root);
    var p3, p2, p1 := P3(Idx4(v)), P2(Idx4(v), Idx3(v)), P1(Idx4(v), Idx3(v), Idx2(v));
    PutTables(mem, root, q, frame, i, e, p3);
    PutTables(mem, root, q, frame, i, e, p2);
    PutTables(mem, root, q, frame, i, e, p1);
    PutEntry(mem, root, q, frame, i, e, P4, Idx4(v));
    if Table(mem, root, p3).Some? { PutEntry(mem, root, q, frame, i, e, p3, Idx3(v)); }
    if Table(mem, root, p2).Some? { PutEntry(mem, root, q, frame, i, e, p2, Idx2(v)); }
    if Table(mem, root, p1).Some? { PutEntry(mem, root, q, frame, i, e, p1, Idx1(v)); }
  }

  /** Replacing an entry by a page, or by nothing, keeps the tables a tree. */
  lemma PutTree(mem: Mem, root: nat, q: Pos, frame: nat, i: nat, e: nat)
    requires TreeShaped(mem, root) && !q.P1? && InRange(q) && Table(mem, root, q) == Some(frame) && i < 512
    requires !Present(e) || Leaf(e)
    ensures TreeShaped(Put(mem, frame, i, e), root)
  {
    hide Table, Put, Present, Leaf;
    var mem' := Put(mem, frame, i, e);
    forall p | InRange(p) ensures Table(mem', root, p) == if Passes(p, q, i) then None else Table(mem, root, p) {
      if Passes(p, q, i) { PutCut(mem, root, q, frame, i, e, p); } else { PutTables(mem, root, q, frame, i, e, p); }
    }
  }

  lemma PutCut(mem: Mem, root: nat, q: Pos, frame: nat, i: nat, e: nat, p: Pos)
    requires TreeShaped(mem, root) && !q.P1? && InRange(q) && Table(mem, root, q) == Some(frame) && i < 512
    requires (!Present(e) || Leaf(e)) && InRange(p) && Passes(p, q, i)
    ensures Table(Put(mem, frame, i, e), root, p) == None
  {
    hide Present, Leaf, FrameOf;
    PutTables(mem, root, q, frame, i, e, q);
  }

  // ---------------------------------------------------------------- clearing any entry

  /** The walk of `v` reads entry `i` of the table at `q`, the last level included, if it gets there. */
  predicate Through(v: nat, q: Pos, i: nat) {
    if q.P1? then Idx4(v) == q.i && Idx3(v) == q.j && Idx2(v) == q.k && Idx1(v) == i else Reads(v, q, i)
  }

  /** Entries of the last level lead to no table. */
  lemma LastTables(mem: Mem, root: nat, q: Pos, frame: nat, i: nat, e: nat, p: Pos)
    requires TreeShaped(mem, root) && q.P1? && InRange(q) && Table(mem, root, q) == Some(frame) && InRange(p)
    ensures Table(Put(mem, frame, i, e), root, p) == Table(mem, root, p)
  {
    hide Child, Put;
    assert Table(mem, root, P4) != Some(frame);
    match p
    case P4 =>
    case P3(a) => PutChild(mem, frame, i, e, Some(root), a);
    case P2(a, b) =>
      assert Table(mem, root, P3(a)) != Some(frame);
      PutChild(mem, frame, i, e, Some(root), a);
      PutChild(mem, frame, i, e, Table(mem, root, P3(a)), b);
    case P1(a, b, c) =>
      assert Table(mem, root, P3(a)) != Some(frame) && Table(mem, root, P2(a, b)) != Some(frame);
      PutChild(mem, frame, i, e, Some(root), a);
      PutChild(mem, frame, i, e, Table(mem, root, P3(a)), b);
      PutChild(mem, frame, i, e, Table(mem, root, P2(a, b)), c);
  }

  lemma LastTree(mem: Mem, root: nat, q: Pos, frame: nat, i: nat, e: nat)
    requires TreeShaped(mem, root) && q.P1? && InRange(q) && Table(mem, root, q) == Some(frame)
    ensures TreeShaped(Put(mem, frame, i, e), root)
  {
    hide Table, Put;
    var mem' := Put(mem, frame, i, e);
    forall p | InRange(p) ensures Table(mem', root, p) == Table(mem, root, p) {
      LastTables(mem, root, q, frame, i, e, p);
    }
  }

  lemma LastWalk(mem: Mem, root: nat, q: Pos, frame: nat, i: nat, e: nat, v: nat)
    requires TreeShaped(mem, root) && q.P1? && InRange(q) && Table(mem, root, q) == Some(frame) && !Through(v, q, i)
    ensures Walk(Put(mem, frame, i, e), root, v) == Walk(mem, root, v)
  {
    hide Get, Page, Table, Idx4, Idx3, Idx2, Idx1, Put;
    IdxRange(v);
    RootTable(mem, root);
    var p3, p2, p1 := P3(Idx4(v)), P2(Idx4(v), Idx3(v)), P1(Idx4(v), Idx3(v), Idx2(v));
    LastTables(mem, root, q, frame, i, e, p3);
    LastTables(mem, root, q, frame, i, e, p2);
    LastTables(mem, root, q, frame, i, e, p1);
    PutEntry(mem, root, q, frame, i, e, P4, Idx4(v));
    if Table(mem, root, p3).Some? { PutEntry(mem, root, q, frame, i, e, p3, Idx3(v)); }
    if Table(mem, root, p2).Some? { PutEntry(mem, root, q, frame, i, e, p2, Idx2(v)); }
    if Table(mem, root, p1).Some? { PutEntry(mem, root, q, frame, i, e, p1, Idx1(v)); }
  }

  lemma AbsentThrough(mem: Mem, root: nat, q: Pos, frame: nat, i: nat, v: nat)
    requires Table(mem, root, q) == Some(frame) && Through(v, q, i) && !Present(Get(mem, frame, i))
    ensures Walk(mem, root, v) == Fault
  {
    hide Get, Present, Leaf, FrameOf, Idx4, Idx3, Idx2, Idx1;
  }

  /** Clearing one entry of any table makes exactly the addresses fault whose walks read it. */
  lemma ClearEntry(mem: Mem, root: nat, q: Pos, frame: nat, i: nat)
    requires TreeShaped(mem, root) && InRange(q) && Table(mem, root, q) == Some(frame) && i < 512
    ensures TreeShaped(Put(mem, frame, i, 0), root)
    ensures forall v :: Walk(Put(mem, frame, i, 0), root, v) == if Through(v, q, i) then Fault else Walk(mem, root, v)
  {
    hide Table, Put, Get, Present, TreeShaped, Walk, Idx4, Idx3, Idx2, Idx1;
    var mem' := Put(mem, frame, i, 0);
    ZeroThere(mem, frame, i);
    if q.P1? {
      LastTree(mem, root, q, frame, i, 0);
      LastTables(mem, root, q, frame, i, 0, q);
    } else {
      PutTree(mem, root, q, frame, i, 0);
      PutTables(mem, root, q, frame, i, 0, q);
    }
    forall v ensures Walk(mem', root, v) == if Through(v, q, i) then Fault else Walk(mem, root, v) {
      if Through(v, q, i) {
        AbsentThrough(mem', root, q, frame, i, v);
      } else if q.P1? {
        LastWalk(mem, root, q, frame, i, 0, v);
      } else {
        PutWalk(mem, root, q, frame, i, 0, v);
      }
    }
  }

  lemma ZeroThere(mem: Mem, frame: nat, i: nat)
    ensures Get(Put(mem, frame, i, 0), frame, i) == 0 && !Present(0)
  {
  }

  // ---------------------------------------------------------------- linking in an empty table

  /** The entry `ensure_table` writes for a new table. */
  function TableEntry(f: nat): nat { Or(Or(Or(f, 1), 2), 4) }

  lemma TableEntryParts(f: nat)
    requires f % 0x1000 == 0 && f < 0x10_0000_0000_0000
    ensures Present(TableEntry(f)) && !Leaf(TableEntry(f)) && FrameOf(TableEntry(f)) == f
    ensures Attr(TableEntry(f)) == 7 && BitSet(7, 0x1) && BitSet(7, 0x2) && BitSet(7, 0x4)
  {
    hide Or, Present, Leaf, FrameOf, Attr;
    DivMod(f, 0x1000);
    OrBit((f / 0x1000) * 0x200);
    PartsOfTable(f / 0x1000);
  }

  lemma PartsOfTable(u: nat)
    requires u < 0x100_0000_0000
    ensures var e := u * 0x1000 + 7; Present(e) && !Leaf(e) && FrameOf(e) == u * 0x1000 && Attr(e) == 7
  {
    var e := u * 0x1000 + 7;
    ModUnique(e, 2, u * 0x800 + 3, 1);
    ModUnique(e, 0x80, u * 0x20, 7);
    ModUnique(u * 0x20, 2, u * 0x10, 0);
    ModUnique(e, 0x1000, u, 7);
    ModUnique(u, 0x100_0000_0000, 0, u);
  }

  lemma OrBit(x: nat)
    ensures Or(8 * x, 1) == 8 * x + 1 && Or(8 * x + 1, 2) == 8 * x + 3 && Or(8 * x + 3, 4) == 8 * x + 7
  {
    hide Or;
    OrZero(x);
    OrZero(2 * x);
    OrZero(4 * x);
    OrBits(4 * x, 0, 0, 1);
    OrBits(2 * x, 0, 0, 1);
    OrBits(x, 0, 0, 1);
    OrBits(4 * x, 1, 1, 0);
    OrBits(2 * x, 1, 1, 0);
    OrBits(4 * x + 1, 1, 2, 0);
  }

  /** A cleared, unused frame linked in under an absent entry changes no translation and keeps the tables a tree. */
  lemma LinkTable(mem: Mem, mem1: Mem, root: nat, q: Pos, frame: nat, i: nat, f: nat)
    requires TreeShaped(mem, root) && (q.P4? || q.P3?) && InRange(q) && Table(mem, root, q) == Some(frame) && i < 512
    requires !Present(Get(mem, frame, i)) && Unused(mem, root, f) && Cleared(mem, mem1, f)
    requires f % 0x1000 == 0 && f < 0x10_0000_0000_0000
    ensures var mem2 := Put(mem1, frame, i, TableEntry(f));
      && TreeShaped(mem2, root) && Table(mem2, root, Under(q, i)) == Some(f)
      && (forall v :: Walk(mem2, root, v) == Walk(mem, root, v))
  {
    hide Table, Walk, Get, Put, Present, TreeShaped, TableEntry, Child;
    LinkTree(mem, mem1, root, q, frame, i, f);
    var mem2 := Put(mem1, frame, i, TableEntry(f));
    forall v ensures Walk(mem2, root, v) == Walk(mem, root, v) {
      OffWalk(mem, mem1, root, f, v);
      OffTables(mem, mem1, root, f, q);
      OffTree(mem, mem1, root, f);
      if Reads(v, q, i) {
        AbsentFaults(mem, root, q, frame, i, v);
        EmptyFaults(mem, mem1, root, q, frame, i, f, v);
      } else {
        PutWalk(mem1, root, q, frame, i, TableEntry(f), v);
      }
    }
  }

  lemma OffTree(mem: Mem, mem1: Mem, root: nat, f: nat)
    requires TreeShaped(mem, root) && Unused(mem, root, f) && SameOff(mem, mem1, f)
    ensures TreeShaped(mem1, root)
  {
    hide Table;
    forall p | InRange(p) ensures Table(mem1, root, p) == Table(mem, root, p) { OffTables(mem, mem1, root, f, p); }
  }

  /** The tables after linking: the new one, empty, and the old ones. */
  lemma LinkedTables(mem: Mem, mem1: Mem, root: nat, q: Pos, frame: nat, i: nat, f: nat, p: Pos)
    requires TreeShaped(mem, root) && (q.P4? || q.P3?) && InRange(q) && Table(mem, root, q) == Some(frame) && i < 512
    requires Unused(mem, root, f) && Cleared(mem, mem1, f) && InRange(p)
    requires f % 0x1000 == 0 && f < 0x10_0000_0000_0000
    ensures Table(Put(mem1, frame, i, TableEntry(f)), root, p)
      == if p == Under(q, i) then Some(f) else if Passes(p, q, i) then None else Table(mem, root, p)
  {
    hide Get, Put, Present, Leaf, FrameOf, TableEntry, TreeShaped, Child;
    var e, mem2 := TableEntry(f), Put(mem1, frame, i, TableEntry(f));
    TableEntryParts(f);
    OffTree(mem, mem1, root, f);
    OffTables(mem, mem1, root, f, q);
    OffTables(mem, mem1, root, f, p);
    if !Passes(p, q, i) {
      PutTables(mem1, root, q, frame, i, e, p);
    } else {
      PutTables(mem1, root, q, frame, i, e, q);
      PutChild(mem1, frame, i, e, None, 0);
      assert Table(mem2, root, Under(q, i)) == Some(f);
      assert Table(mem, root, q) != Some(f);
      forall j | 0 <= j < 512 ensures Child(mem2, Some(f), j) == None { EmptyChild(mem, mem1, frame, i, e, f, j); }
      NoChild(mem2);
    }
  }

  lemma EmptyChild(mem: Mem, mem1: Mem, frame: nat, i: nat, e: nat, f: nat, j: nat)
    requires Cleared(mem, mem1, f) && f != frame && j < 512
    ensures Get(Put(mem1, frame, i, e), f, j) == 0 && Child(Put(mem1, frame, i, e), Some(f), j) == None
  {
    assert Get(mem1, f, j) == 0;
  }

  lemma NoChild(mem: Mem)
    ensures forall j :: Child(mem, None, j) == None
  {
  }

  lemma LinkTree(mem: Mem, mem1: Mem, root: nat, q: Pos, frame: nat, i: nat, f: nat)
    requires TreeShaped(mem, root) && (q.P4? || q.P3?) && InRange(q) && Table(mem, root, q) == Some(frame) && i < 512
    requires Unused(mem, root, f) && Cleared(mem, mem1, f)
    requires f % 0x1000 == 0 && f < 0x10_0000_0000_0000
    ensures var mem2 := Put(mem1, frame, i, TableEntry(f));
      TreeShaped(mem2, root) && Table(mem2, root, Under(q, i)) == Some(f)
  {
    hide Table, Put, TableEntry, Cleared;
    var mem2 := Put(mem1, frame, i, TableEntry(f));
    forall p | InRange(p)
      ensures Table(mem2, root, p)
        == if p == Under(q, i) then Some(f) else if Passes(p, q, i) then None else Table(mem, root, p)
      ensures Table(mem, root, p) != Some(f)
    {
      LinkedTables(mem, mem1, root, q, frame, i, f, p);
    }
  }

  lemma AbsentFaults(mem: Mem, root: nat, q: Pos, frame: nat, i: nat, v: nat)
    requires (q.P4? || q.P3?) && Table(mem, root, q) == Some(frame) && Reads(v, q, i) && !Present(Get(mem, frame, i))
    ensures Walk(mem, root, v) == Fault
  {
    hide Get, Present, Leaf, FrameOf, Idx4, Idx3, Idx2, Idx1;
  }

  lemma EmptyFaults(mem: Mem, mem1: Mem, root: nat, q: Pos, frame: nat, i: nat, f: nat, v: nat)
    requires TreeShaped(mem, root) && (q.P4? || q.P3?) && InRange(q) && Table(mem, root, q) == Some(frame) && i < 512
    requires Unused(mem, root, f) && Cleared(mem, mem1, f) && Reads(v, q, i)
    requires f % 0x1000 == 0 && f < 0x10_0000_0000_0000
    ensures Walk(Put(mem1, frame, i, TableEntry(f)), root, v) == Fault
  {
    hide Get, Put, Table, TableEntry, Cleared, TreeShaped, Unused, Idx4, Idx3, Idx2, Idx1;
    IdxRange(v);
    var p3, p2, p1 := P3(Idx4(v)), P2(Idx4(v), Idx3(v)), P1(Idx4(v), Idx3(v), Idx2(v));
    LinkedTables(mem, mem1, root, q, frame, i, f, p3);
    LinkedTables(mem, mem1, root, q, frame, i, f, p2);
    LinkedTables(mem, mem1, root, q, frame, i, f, p1);
    UnusedFrame(mem, root, q, f);
    EmptyChild(mem, mem1, frame, i, TableEntry(f), f, Idx3(v));
    EmptyChild(mem, mem1, frame, i, TableEntry(f), f, Idx2(v));
  }

  lemma UnusedFrame(mem: Mem, root: nat, q: Pos, f: nat)
    requires Unused(mem, root, f) && InRange(q)
    ensures Table(mem, root, q) != Some(f)
  {
  }

  // ---------------------------------------------------------------- huge-page entries

  datatype Flags = Flags(rw: bool, user: bool, nx: bool, global: bool, wc: bool, uc: bool)

  function Bit(b: bool, n: nat): nat { if b then n else 0 }

  function LowBits(f: Flags): nat {
    0x81 + Bit(f.rw, 2) + Bit(f.user, 4) + Bit(f.wc || f.uc, 8) + Bit(f.uc, 0x10) + Bit(f.global, 0x100)
  }

  /** `hp_flags_to_pte`; the bits it sets are distinct, so setting them is adding them. */
  function FlagBits(f: Flags): nat { LowBits(f) + Bit(f.nx, 0x8000_0000_0000_0000) }

  predicate BitSet(e: nat, n: nat)
    requires n > 0
  {
    (e / n) % 2 == 1
  }

  /** Which attribute of the page each flag controls: present and huge always; write-combining is write-through, and
      uncached is write-through with caching off. */
  lemma FlagMeaning(f: Flags)
    ensures var e := FlagBits(f);
      && BitSet(e, 0x1) && BitSet(e, 0x80) && !BitSet(e, 0x20) && !BitSet(e, 0x40)
      && (BitSet(e, 0x2) <==> f.rw) && (BitSet(e, 0x4) <==> f.user)
      && (BitSet(e, 0x8) <==> f.wc || f.uc) && (BitSet(e, 0x10) <==> f.uc)
      && (BitSet(e, 0x100) <==> f.global) && (BitSet(e, 0x8000_0000_0000_0000) <==> f.nx)
  {
    hide FlagBits, LowBits;
    FlagLow(f);
    FlagRest(f);
  }

  lemma FlagLow(f: Flags)
    ensures var e := FlagBits(f);
      && BitSet(e, 0x1) && (BitSet(e, 0x2) <==> f.rw) && (BitSet(e, 0x4) <==> f.user)
        && (BitSet(e, 0x8) <==> f.wc || f.uc)
  {
  }

  lemma FlagRest(f: Flags)
    ensures var e := FlagBits(f);
      && (BitSet(e, 0x10) <==> f.uc) && !BitSet(e, 0x20) && !BitSet(e, 0x40) && BitSet(e, 0x80)
      && (BitSet(e, 0x100) <==> f.global) && (BitSet(e, 0x8000_0000_0000_0000) <==> f.nx)
  {
  }

  /** The entry written for a huge page. */
  function LeafEntry(phys: nat, o: Order, f: Flags): nat { Or(phys / PageSize(o) * PageSize(o), FlagBits(f)) }

  /** The part of an address an entry can hold. */
  function Bits52(phys: nat): nat { phys % 0x10_0000_0000_0000 }

  /** Bit 63 of the address ends up as the no-execute bit. */
  function Carried(phys: nat, f: Flags): Flags { f.(nx := f.nx || phys >= 0x8000_0000_0000_0000) }

  lemma HugePowers()
    ensures Pow2(21) == 0x20_0000 && Pow2(30) == 0x4000_0000 && Pow2(42) == 0x400_0000_0000 && Pow2(33) == 0x2_0000_0000
  {
    Pow2Literals();
    assert Pow2(21) == 0x20_0000;
    assert Pow2(30) == 0x4000_0000;
    assert Pow2(33) == 0x2_0000_0000;
    assert Pow2(38) == 0x40_0000_0000;
    assert Pow2(42) == 0x400_0000_0000;
  }

  lemma TopBit(t: nat, top: nat)
    requires t < 2 && top < 2
    ensures Or(t, top) == if t == 1 || top == 1 then 1 else 0
  {
    OrStep(t, top);
  }

  /** Flags below bit `k`, a page number from bit `k` on and bit `k + n` meet only in that last bit. */
  lemma OrFields(q: nat, t: nat, low: nat, k: nat, size: nat, n: nat, count: nat, top: nat)
    requires size == Pow2(k) && count == Pow2(n) && low < size && q < count && t < 2 && top < 2
    ensures Or((q + t * count) * size, low + (top * count) * size)
      == low + (q + (if t == 1 || top == 1 then 1 else 0) * count) * size
  {
    hide Or, Pow2;
    OrSplit(0, q + t * count, low, top * count, k);
    OrSplit(q, t, 0, top, n);
    OrZero(low);
    OrZero(q);
    TopBit(t, top);
  }

  lemma LeafEntrySum(phys: nat, o: Order, f: Flags)
    requires phys < 0x1_0000_0000_0000_0000
    ensures var q := (phys % 0x8000_0000_0000_0000) / PageSize(o);
      LeafEntry(phys, o, f) == q * PageSize(o) + FlagBits(Carried(phys, f))
  {
    hide Or, FlagBits, Carried;
    var t := if phys >= 0x8000_0000_0000_0000 then 1 else 0;
    SplitTop(phys, t, o);
    EntryFrom(phys / PageSize(o), (phys % 0x8000_0000_0000_0000) / PageSize(o), t, o, f);
    CarriedTop(phys, f);
  }

  lemma CarriedTop(phys: nat, f: Flags)
    ensures Carried(phys, f) == f.(nx := f.nx || phys >= 0x8000_0000_0000_0000)
  {
  }

  /** The entry for page number `n`, which is `q` under its top bit `t`. */
  lemma EntryFrom(n: nat, q: nat, t: nat, o: Order, f: Flags)
    requires t < 2
    requires
      if o.Small2M? then q < 0x400_0000_0000 && n == q + t * 0x400_0000_0000
      else q < 0x2_0000_0000 && n == q + t * 0x2_0000_0000
    ensures Or(n * PageSize(o), FlagBits(f)) == q * PageSize(o) + FlagBits(f.(nx := f.nx || t == 1))
  {
    hide Or, Pow2, LowBits;
    HugePowers();
    LowBitsShape(f);
    var top := Bit(f.nx, 1);
    SameLow(f, f.nx || t == 1);
    if o.Small2M? {
      OrFields(q, t, LowBits(f), 21, 0x20_0000, 42, 0x400_0000_0000, top);
    } else {
      OrFields(q, t, LowBits(f), 30, 0x4000_0000, 33, 0x2_0000_0000, top);
    }
  }

  lemma SameLow(f: Flags, nx: bool)
    ensures LowBits(f.(nx := nx)) == LowBits(f)
  {
  }

  lemma SplitTop(phys: nat, t: nat, o: Order)
    requires phys < 0x1_0000_0000_0000_0000 && t == if phys >= 0x8000_0000_0000_0000 then 1 else 0
    ensures var q := (phys % 0x8000_0000_0000_0000) / PageSize(o);
      if o.Small2M? then q < 0x400_0000_0000 && phys / PageSize(o) == q + t * 0x400_0000_0000
      else q < 0x2_0000_0000 && phys / PageSize(o) == q + t * 0x2_0000_0000
  {
    var r := phys - t * 0x8000_0000_0000_0000;
    ModUnique(phys, 0x8000_0000_0000_0000, t, r);
    DivMod(r, PageSize(o));
    ModUnique(phys, PageSize(o), r / PageSize(o) + t * (if o.Small2M? then 0x400_0000_0000 else 0x2_0000_0000),
        r % PageSize(o));
  }

  /** The entry gives back the flags and the 52-bit part of the page address; bit 63 of the address sets no-execute. */
  lemma LeafEntryParts(phys: nat, o: Order, f: Flags)
    requires phys < 0x1_0000_0000_0000_0000
    ensures var e := LeafEntry(phys, o, f);
      && Present(e) && Leaf(e) && Attr(e) == FlagBits(Carried(phys, f))
      && FrameOf(e) / PageSize(o) * PageSize(o) == Bits52(phys) / PageSize(o) * PageSize(o)
  {
    hide LeafEntry, LowBits, Present, Leaf, FrameOf, Attr;
    LeafEntrySum(phys, o, f);
    LowBitsShape(Carried(phys, f));
    var q, units := (phys % 0x8000_0000_0000_0000) / PageSize(o), if o.Small2M? then 0x200 else 0x4_0000;
    PageUnits(phys, o);
    PartsOf(q * units, LowBits(Carried(phys, f)), Bit(Carried(phys, f).nx, 1));
  }

  /** That is the page and the flags asked for exactly when the address has at most 52 bits. */
  lemma TargetExact(phys: nat, o: Order, f: Flags)
    requires phys < 0x1_0000_0000_0000_0000
    ensures Bits52(phys) / PageSize(o) * PageSize(o) == phys / PageSize(o) * PageSize(o) && Carried(phys, f) == f
      <==> phys < 0x10_0000_0000_0000
  {
    if phys < 0x10_0000_0000_0000 {
      ModUnique(phys, 0x10_0000_0000_0000, 0, phys);
    } else {
      assert if o.Small2M? then phys / 0x20_0000 >= 0x8000_0000 else phys / 0x4000_0000 >= 0x40_0000;
      DivMod(Bits52(phys), PageSize(o));
    }
  }

  lemma PageUnits(phys: nat, o: Order)
    ensures var q, units := (phys % 0x8000_0000_0000_0000) / PageSize(o), if o.Small2M? then 0x200 else 0x4_0000;
      && q * units < 0x8_0000_0000_0000 && (q * units) % 0x200 == 0 && q * units * 0x1000 == q * PageSize(o)
      && ((q * units) % 0x100_0000_0000) * 0x1000 / PageSize(o) * PageSize(o)
        == Bits52(phys) / PageSize(o) * PageSize(o)
  {
    var r := phys % 0x8000_0000_0000_0000;
    var q := r / PageSize(o);
    DivMod(phys, 0x8000_0000_0000_0000);
    DivMod(r, PageSize(o));
    var m := if o.Small2M? then 0x8000_0000 else 0x40_0000;
    var units := if o.Small2M? then 0x200 else 0x4_0000;
    DivMod(q, m);
    var a, b := q % m, q / m;
    ModUnique(q * units, 0x200, if o.Small2M? then q else q * 0x200, 0);
    ModUnique(q * units, 0x100_0000_0000, b, a * units);
    ModUnique(a * PageSize(o), PageSize(o), a, 0);
    ModUnique(phys, 0x10_0000_0000_0000, b + (phys / 0x8000_0000_0000_0000) * 0x800, a * PageSize(o) + r % PageSize(o));
    ModUnique(a * PageSize(o) + r % PageSize(o), PageSize(o), a, r % PageSize(o));
  }

  lemma LowBitsShape(f: Flags)
    ensures LowBits(f) < 0x200 && LowBits(f) % 2 == 1 && (LowBits(f) / 0x80) % 2 == 1
  {
  }

  lemma PartsOf(u: nat, low: nat, top: nat)
    requires u < 0x8_0000_0000_0000 && u % 0x200 == 0 && low < 0x200 && low % 2 == 1 && (low / 0x80) % 2 == 1 && top < 2
    ensures var e := u * 0x1000 + low + top * 0x8000_0000_0000_0000;
      Present(e) && Leaf(e) && FrameOf(e) == (u % 0x100_0000_0000) * 0x1000
        && Attr(e) == low + top * 0x8000_0000_0000_0000
  {
    var e := u * 0x1000 + low + top * 0x8000_0000_0000_0000;
    DivMod(u, 0x100_0000_0000);
    ModUnique(e, 0x1000, u + top * 0x8_0000_0000_0000, low);
    ModUnique(e, 0x8000_0000_0000_0000, top, u * 0x1000 + low);
    ModUnique(u + top * 0x8_0000_0000_0000, 0x100_0000_0000, u / 0x100_0000_0000 + top * 0x800, u % 0x100_0000_0000);
    ModUnique(top, 2, 0, top);
    DivMod(low, 0x80);
    DivMod(low / 0x80, 2);
    DivMod(low, 2);
    ModUnique(e, 2, u * 0x800 + low / 2 + top * 0x4000_0000_0000_0000, 1);
    ModUnique(e, 0x80, u * 0x20 + low / 0x80 + top * 0x100_0000_0000_0000, low % 0x80);
    ModUnique(u * 0x20 + low / 0x80 + top * 0x100_0000_0000_0000, 2,
        u * 0x10 + (low / 0x80) / 2 + top * 0x80_0000_0000_0000, 1);
  }
}
