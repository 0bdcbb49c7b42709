/** The allocator as kmalloc.c writes it: links stored in the free objects, counters, bump pointers and owner tags
    updated in place. Every method is a step of the state machine. */
module KmallocHeap {
  import opened KmallocLayout
  import opened Kmalloc
  import opened KmallocInv
  import opened KmallocFree

  /** Owner tags once the nodes before `n`, and the first `ci` caches of node `n`, are laid out. */
  ghost predicate TagsTo(owner: seq<nat>, per: nat, n: nat, ci: nat)
    requires ci <= 9
  {
    && |owner| == GRANULES
    && (forall m, cj, g | 0 <= m <= n && 0 <= cj < 9 && (m < n || cj < ci)
          && NodeGran(per, m) + Off(cj) / 16 <= g < NodeGran(per, m) + Off(cj + 1) / 16 && g < |owner| ::
          owner[g] == Tag(m, cj))
    && (forall m, g | 0 <= m < n && NodeGran(per, m) + 34816 <= g < NodeGran(per, m + 1) && g < |owner| ::
          owner[g] == Tag(m, 15))
    && (forall g | NodeGran(per, n) + Off(ci) / 16 <= g < |owner| :: owner[g] == INVALID)
  }

  ghost predicate Filled(o: seq<nat>, o': seq<nat>, first: nat, end: nat, tag: nat) {
    && |o'| == |o|
    && (forall g | 0 <= g < |o| :: o'[g] == if first <= g < end then tag else o[g])
  }

  lemma GranMonotone(per: nat, n: nat, m: nat)
    requires n <= m
    ensures NodeGran(per, n) <= NodeGran(per, m)
  {
    hide NodeBase;
    NodeBaseMonotone(per, n, m);
  }

  /** Regions of a node end before the next node starts. */
  lemma GranEnd(nodes: nat, per: nat, n: nat)
    requires Split(nodes, per) && n < nodes
    ensures NodeGran(per, n) + 34816 <= NodeGran(per, n + 1) <= GRANULES
  {
    hide NodeBase;
    NodeEnd(nodes, per, n);
  }

  lemma TagsCache(o: seq<nat>, o': seq<nat>, nodes: nat, per: nat, n: nat, ci: nat)
    requires Split(nodes, per) && n < nodes && ci < 9 && TagsTo(o, per, n, ci)
    requires Filled(o, o', NodeGran(per, n) + Off(ci) / 16, NodeGran(per, n) + Off(ci + 1) / 16, Tag(n, ci))
    ensures TagsTo(o', per, n, ci + 1)
  {
    hide NodeGran, Off, Tag;
    GranEnd(nodes, per, n);
    OffMonotone(ci, ci + 1);
    forall m, cj, g | 0 <= m <= n && 0 <= cj < 9 && (m < n || cj < ci + 1)
        && NodeGran(per, m) + Off(cj) / 16 <= g < NodeGran(per, m) + Off(cj + 1) / 16 && g < |o'|
      ensures o'[g] == Tag(m, cj)
    {
      TagsBefore(nodes, per, m, cj, n, ci, g);
    }
    forall m, g | 0 <= m < n && NodeGran(per, m) + 34816 <= g < NodeGran(per, m + 1) && g < |o'|
      ensures o'[g] == Tag(m, 15)
    {
      GranMonotone(per, m + 1, n);
    }
  }

  /** A region laid out earlier lies before the granules laid out now. */
  lemma TagsBefore(nodes: nat, per: nat, m: nat, cj: nat, n: nat, ci: nat, g: int)
    requires Split(nodes, per) && m <= n < nodes && cj < 9 && ci < 9 && (m < n || cj <= ci)
    requires NodeGran(per, m) + Off(cj) / 16 <= g < NodeGran(per, m) + Off(cj + 1) / 16
    ensures m < n || cj < ci ==> g < NodeGran(per, n) + Off(ci) / 16
  {
    hide NodeGran, Off;
    if m < n {
      GranEnd(nodes, per, m);
      GranMonotone(per, m + 1, n);
      OffMonotone(cj + 1, 9);
      OffFacts(9);
    } else if cj < ci {
      OffMonotone(cj + 1, ci);
    }
  }

  lemma TagsNode(o: seq<nat>, o': seq<nat>, nodes: nat, per: nat, n: nat)
    requires Split(nodes, per) && n < nodes && TagsTo(o, per, n, 9)
    requires Filled(o, o', NodeGran(per, n) + 34816, NodeGran(per, n + 1), Tag(n, 15))
    ensures TagsTo(o', per, n + 1, 0)
  {
    hide NodeGran, Off, Tag;
    GranEnd(nodes, per, n);
    OffAt(0);
    OffAt(9);
    forall m, cj, g | 0 <= m <= n + 1 && 0 <= cj < 9 && (m < n + 1 || cj < 0)
        && NodeGran(per, m) + Off(cj) / 16 <= g < NodeGran(per, m) + Off(cj + 1) / 16 && g < |o'|
      ensures o'[g] == Tag(m, cj)
    {
      OffMonotone(cj + 1, 9);
      if m < n { GranEnd(nodes, per, m); GranMonotone(per, m + 1, n); }
    }
    forall m, g | 0 <= m < n + 1 && NodeGran(per, m) + 34816 <= g < NodeGran(per, m + 1) && g < |o'|
      ensures o'[g] == Tag(m, 15)
    {
      if m < n { GranMonotone(per, m + 1, n); }
    }
  }

  /** Writing the link of one object leaves those of all others alone. */
  lemma LinkFrame(mem: map<int, Ptr>, nodes: nat, per: nat, k: Key, j: nat, v: Ptr, k': Key, i: nat)
    requires Split(nodes, per) && k.ci < 9 && k'.ci < 9 && j < Quota(k.ci) && i < Quota(k'.ci) && (k, j) != (k', i)
    ensures LinkAt(mem[Slot(per, k, j) := v], per, k', i) == LinkAt(mem, per, k', i)
  {
    hide SizeOf, Quota, Slot;
    SlotsApart(nodes, per, k, j, k', i);
  }

  class Allocator {
    const addr: nat
    const nodes: nat
    const per: nat
    const owner: array<nat>
    var mem: map<int, Ptr>
    var caches: map<Key, Cache>
    var bump: seq<int>
    var bumpEnd: seq<int>
    /** The blocks clients hold. */
    ghost var live: map<int, nat>

    ghost function State(): Heap
      reads this, owner
    {
      Heap(addr, nodes, per, mem, caches, bump, bumpEnd, owner[..])
    }

    ghost predicate Valid()
      reads this, owner
    {
      Inv(State(), live)
    }

    ghost predicate Laid(k: Key)
      reads this
    {
      Linked(mem, per, k) && k in caches && caches[k] == FullCache(per, k)
    }

    /** Nodes before `n` are laid out, and so are the first `ci` caches of node `n`. */
    ghost predicate LaidTo(n: nat, ci: nat)
      requires ci <= 9
      reads this, owner
    {
      && Split(nodes, per) && |bump| == nodes && |bumpEnd| == nodes && owner.Length == GRANULES
      && TagsTo(owner[..], per, n, ci)
      && (forall k | k in caches :: k.ci < 9 && caches[k] == FullCache(per, k))
      && (forall k: Key {:trigger Laid(k)} | k.ci < 9 && (k.node < n || (k.node == n && k.ci < ci)) :: Laid(k))
      && (forall m | 0 <= m < n && m < nodes ::
            bump[m] == NodeBase(per, m) + 557056 && bumpEnd[m] == NodeBase(per, m + 1))
    }

    /** `kmalloc_init`, for a pool at address `a` and `count` NUMA nodes reported. */
    constructor (a: nat, count: nat)
      requires a % 4096 == 0 && 0 < a && a + 0x100_1000 <= TWO64
      ensures nodes == (if 1 <= count <= 8 then count else 1) && addr == a && fresh(owner)
      ensures Initial(State()) && live == map[] && Valid()
    {
      hide LaidTo, Initial, Inv, State;
      addr := a;
      nodes := if 1 <= count <= 8 then count else 1;
      per := 0x100_0000 / (if 1 <= count <= 8 then count else 1);
      owner := new nat[GRANULES](_ => INVALID);
      mem, caches, live := map[], map[], map[];
      bump := seq(if 1 <= count <= 8 then count else 1, _ => 0);
      bumpEnd := seq(if 1 <= count <= 8 then count else 1, _ => 0);
      new;
      NoneLaid();
      var n := 0;
      while n < nodes
        invariant 0 <= n <= nodes && LaidTo(n, 0) && live == map[]
      {
        InitNode(n);
        n := n + 1;
      }
      AllLaid();
      InitialInv(State());
    }

    lemma NoneLaid()
      requires Split(nodes, per) && |bump| == nodes && |bumpEnd| == nodes && owner.Length == GRANULES && caches == map[]
      requires forall g | 0 <= g < owner.Length :: owner[g] == INVALID
      ensures LaidTo(0, 0)
    {
    }

    lemma AllLaid()
      requires LaidTo(nodes, 0) && addr % 4096 == 0 && 0 < addr && addr + 0x100_1000 <= TWO64
      ensures Initial(State())
    {
      hide Off, NodeGran, Linked, SizeOf, Quota, Slot, Tag, NodeBase;
      OffAt(0);
      forall k | InRange(k, nodes) ensures Linked(mem, per, k) && k in caches && caches[k] == FullCache(per, k) {
        assert Laid(k);
      }
      forall k | k in caches ensures caches[k].objSize > 0 { }
      forall n, ci | 0 <= n < nodes && 0 <= ci < 9 ensures Key(n, ci) in caches { assert Laid(Key(n, ci)); }
    }

    /** `init_node`. */
    method InitNode(n: nat)
      requires LaidTo(n, 0) && n < nodes
      modifies this, owner
      ensures LaidTo(n + 1, 0) && live == old(live)
    {
      hide LaidTo, Off, SizeOf, Quota, NodeQuota;
      var off := 0;
      LaidSplit(n, 0);
      Stretch(nodes, per);
      OffAt(0);
      for ci := 0 to 9
        invariant LaidTo(n, ci) && off == Off(ci) && live == old(live)
      {
        var objSize, count := SizeOf(ci), NodeQuota(ci, per);
        FullQuota(ci, per);
        OffFacts(ci);
        InitCache(n, ci, off, count);
        off := off + objSize * count;
      }
      InitBump(n, off);
    }

    lemma LaidSplit(n: nat, ci: nat)
      requires ci <= 9 && LaidTo(n, ci)
      ensures Split(nodes, per)
    {
    }

    method InitBump(n: nat, off: nat)
      requires n < nodes && LaidTo(n, 9) && off == Off(9)
      modifies this`bump, this`bumpEnd, owner
      ensures LaidTo(n + 1, 0)
    {
      hide Linked, SizeOf, Quota, Slot, Tag, NodeBase, Off, NodeGran, TagsTo, Filled;
      OffFacts(9);
      NodeGranules(n);
      ghost var o := owner[..];
      FillTags((NodeBase(per, n) + off) / 16, (NodeBase(per, n) + per) / 16, n * 16 + 15);
      TagsNode(o, owner[..], nodes, per, n);
      bump, bumpEnd := bump[n := NodeBase(per, n) + off], bumpEnd[n := NodeBase(per, n) + per];
      forall x: Key | x.ci < 9 && (x.node < n + 1 || (x.node == n + 1 && x.ci < 0)) ensures Laid(x) {
        assert old(Laid(x));
      }
    }

    lemma NodeGranules(n: nat)
      requires Split(nodes, per) && n < nodes
      ensures (NodeBase(per, n) + 557056) / 16 == NodeGran(per, n) + 34816 <= NodeGran(per, n + 1)
      ensures NodeBase(per, n) + per == NodeBase(per, n + 1)
        && (NodeBase(per, n) + per) / 16 == NodeGran(per, n + 1) <= GRANULES
      ensures n * 16 + 15 == Tag(n, 15)
    {
      GranEnd(nodes, per, n);
      NodeBaseStep(per, n);
      Granule(NodeBase(per, n), 557056);
    }

    /** The loop over a region's objects, last to first. */
    method LinkObjects(k: Key, count: nat) returns (next: Ptr)
      requires Split(nodes, per) && k.ci < 9 && count == Quota(k.ci)
      modifies this`mem
      ensures next == At(Slot(per, k, 0)) && Linked(mem, per, k)
      ensures forall k': Key | k' != k && Linked(old(mem), per, k') :: Linked(mem, per, k')
    {
      hide SizeOf, Slot, LinkAt, Quota;
      next := Null;
      var j := count;
      while j > 0
        invariant 0 <= j <= count && next == if j < count then At(Slot(per, k, j)) else Null
        invariant forall i: nat | j <= i < count :: LinkAt(mem, per, k, i)
        invariant forall k': Key | k' != k && Linked(old(mem), per, k') :: Linked(mem, per, k')
      {
        j := j - 1;
        ghost var was := mem;
        mem := mem[Slot(per, k, j) := next];
        forall i: nat | j <= i < count ensures LinkAt(mem, per, k, i) {
          if i == j { LinkHere(was, per, k, j, next); } else { LinkFrame(was, nodes, per, k, j, next, k, i); }
        }
        forall k': Key | k' != k && Linked(was, per, k') ensures Linked(mem, per, k') {
          forall i: nat | i < Quota(k'.ci) ensures LinkAt(mem, per, k', i) {
            LinkFrame(was, nodes, per, k, j, next, k', i);
          }
        }
        next := At(Slot(per, k, j));
      }
    }

    lemma LinkHere(was: map<int, Ptr>, per: nat, k: Key, j: nat, v: Ptr)
      requires k.ci < 9 && v == if j + 1 < Quota(k.ci) then At(Slot(per, k, j + 1)) else Null
      ensures LinkAt(was[Slot(per, k, j) := v], per, k, j)
    {
    }

    method FillTags(first: nat, end: nat, tag: nat)
      requires first <= end <= owner.Length
      modifies owner
      ensures Filled(old(owner[..]), owner[..], first, end, tag)
    {
      var g := first;
      while g < end
        invariant first <= g <= end
        invariant forall i | 0 <= i < owner.Length :: owner[i] == if first <= i < g then tag else old(owner[i])
      {
        owner[g] := tag;
        g := g + 1;
      }
    }

    method InitCache(n: nat, ci: nat, off: nat, count: nat)
      requires n < nodes && ci < 9 && LaidTo(n, ci) && off == Off(ci) && count == Quota(ci)
      modifies this`mem, this`caches, owner
      ensures LaidTo(n, ci + 1)
    {
      hide Linked, SizeOf, Quota, Slot, Tag, NodeBase, Off, NodeGran, TagsTo, Filled;
      var k := Key(n, ci);
      var head := LinkObjects(k, count);
      CacheGranules(n, ci);
      caches := caches[k := Cache(SizeOf(ci), head, count, count, NodeBase(per, n) + off)];
      var first := (NodeBase(per, n) + off) / 16;
      var grans := SizeOf(ci) * count / 16;
      ghost var o := owner[..];
      FillTags(first, first + grans, n * 16 + ci);
      TagsCache(o, owner[..], nodes, per, n, ci);
      forall x: Key | x.ci < 9 && (x.node < n || (x.node == n && x.ci < ci + 1)) ensures Laid(x) {
        if x != k { assert old(Laid(x)); }
      }
    }

    lemma CacheGranules(n: nat, ci: nat)
      requires Split(nodes, per) && n < nodes && ci < 9
      ensures (NodeBase(per, n) + Off(ci)) / 16 == NodeGran(per, n) + Off(ci) / 16
      ensures (NodeBase(per, n) + Off(ci)) / 16 + SizeOf(ci) * Quota(ci) / 16
        == NodeGran(per, n) + Off(ci + 1) / 16 <= GRANULES
      ensures NodeBase(per, n) + Off(ci) == Slot(per, Key(n, ci), 0)
      ensures n * 16 + ci == Tag(n, ci)
    {
      hide Off, SizeOf, Quota, NodeBase;
      GranEnd(nodes, per, n);
      OffFacts(ci);
      OffFacts(ci + 1);
      Granule(NodeBase(per, n), Off(ci));
      RegionGranules(Off(ci), SizeOf(ci) * Quota(ci));
    }

    // ---------------------------------------------------------------- allocation

    /** `alloc_from_node`, under the node's lock: nothing, or a block nobody held, in the pool and apart from the rest.
        A freelist head outside the pool, which a sound heap never has, empties the list. */
    method TakeObject(ci: nat, n: nat, ghost size: nat) returns (p: Ptr)
      requires Shaped(State()) && ci < 9 && n < nodes && 0 < size <= SizeOf(ci)
      modifies this`caches, this`live
      ensures (State(), p) == AllocFromNode(old(State()), Key(n, ci)) && live == HandOut(old(live), p, size)
      ensures old(Valid()) ==>
        && Valid() && (p == Null ==> State() == old(State()))
        && (p != Null ==> p.off !in old(live) && 0 <= p.off && p.off + size <= 0x100_0000)
    {
      hide Inv, SizeOf;
      ghost var h, l := State(), live;
      if Inv(h, l) { SlabSection(h, l, ci, n, size); }
      var c := caches[Key(n, ci)];
      if c.freelist == Null { return Null; }
      if !InPool(c.freelist) {
        caches := caches[Key(n, ci) := c.(freelist := Null, freeCount := 0)];
        return Null;
      }
      p := c.freelist;
      caches := caches[Key(n, ci) := c.(freelist := Load(mem, p.off),
                                        freeCount := (c.freeCount + 0xffff_ffff_ffff_ffff) % TWO64)];
      live := HandOut(live, p, size);
    }

    /** `bump_alloc`, under the node's lock: the heap stays sound exactly when the end of the block does not slip
        through, and then nothing changed or the block is one nobody held, in the pool and apart from the rest, and the
        bump part goes on right behind it. */
    method TakeBump(size: nat, n: nat) returns (p: Ptr)
      requires Shaped(State()) && n < nodes && 0 < size < TWO64
      modifies this`bump, this`live
      ensures (State(), p) == BumpAlloc(old(State()), n, size) && live == HandOut(old(live), p, size)
      ensures old(Valid()) ==>
        && (Valid() <==> !Slips(old(State()), n, size))
        && (p == Null <==> NoRoom(old(State()), n, size) && !Slips(old(State()), n, size))
        && (p == Null ==> State() == old(State()))
        && (p != Null && Valid() ==>
          && p.off !in old(live) && 0 <= p.off && p.off + size <= 0x100_0000 && p.off % 64 == 0
          && n < |old(bump)| && old(bump)[n] <= p.off < old(bump)[n] + 64 && bump == old(bump)[n := p.off + size])
    {
      hide Inv, NoRoom, Slips;
      ghost var h, l := State(), live;
      if Inv(h, l) { BumpSection(h, l, n, size); }
      var a := Align64(bump[n]);
      var end := (addr + a + size) % TWO64 - addr;
      if end > bumpEnd[n] { return Null; }
      bump := bump[n := end];
      p := At(a);
      live := HandOut(live, p, size);
    }

    method TakeObjectAnywhere(ci: nat, node: nat, ghost size: nat) returns (p: Ptr)
      requires Valid() && Shaped(State()) && ci < 9 && node < nodes && 0 < size <= SizeOf(ci)
      modifies this`caches, this`live
      ensures Valid() && (State(), p) == SlabAnywhere(old(State()), ci, node) && live == HandOut(old(live), p, size)
      ensures p == Null ==> State() == old(State())
      ensures p != Null ==> p.off !in old(live)
    {
      hide Shaped, AllocFromNode, Inv, SizeOf;
      ghost var h := State();
      p := TakeObject(ci, node, size);
      if p != Null { return; }
      var n := 0;
      while n < nodes
        invariant 0 <= n <= nodes && State() == h && live == old(live)
        invariant SlabElsewhere(h, ci, node, n) == SlabElsewhere(h, ci, node, 0)
      {
        if n != node {
          p := TakeObject(ci, n, size);
          if p != Null { return; }
        }
        n := n + 1;
      }
      p := Null;
    }

    /** Nothing is written until a node grants the block, so what each section needs is known before the call. */
    method TakeBumpAnywhere(size: nat, node: nat) returns (p: Ptr)
      requires Valid() && Shaped(State()) && node < nodes && 0 < size < TWO64
      modifies this`bump, this`live
      ensures (State(), p) == BumpAnywhere(old(State()), size, node) && live == HandOut(old(live), p, size)
    {
      hide Shaped, BumpAlloc, Inv, NoRoom, Slips;
      ghost var h := State();
      p := TakeBump(size, node);
      if p != Null { return; }
      var n := 0;
      while n < nodes
        invariant 0 <= n <= nodes && State() == h && live == old(live)
        invariant BumpElsewhere(h, size, node, n) == BumpElsewhere(h, size, node, 0)
      {
        if n != node {
          p := TakeBump(size, n);
          if p != Null { return; }
        }
        n := n + 1;
      }
      p := Null;
    }

    /** `cidx_for`. */
    method CacheFor(size: nat) returns (ci: nat)
      ensures ci == CidxFrom(size, 0) <= 9
    {
      ci := 0;
      while ci < 9
        invariant 0 <= ci <= 9 && CidxFrom(size, ci) == CidxFrom(size, 0)
      {
        if size <= SizeOf(ci) { return; }
        ci := ci + 1;
      }
    }

    /** `kmalloc_node`, undisturbed: a fresh block of the asked size, or null. The heap stays sound exactly when the
        node that grants the block has no slipping end. */
    method KmallocNode(size: nat, wanted: nat) returns (p: Ptr)
      requires Valid() && size < TWO64
      modifies this`caches, this`bump, this`live
      ensures Shaped(old(State())) && (State(), p) == Alloc(old(State()), size, wanted)
      ensures live == HandOut(old(live), p, size)
      ensures Valid() <==> !WildCall(old(State()), size, wanted)
      ensures Valid() && p != Null ==> p.off !in old(live)
    {
      hide Shaped, SlabAnywhere, BumpAnywhere, CidxFrom, SizeOf, Inv, WildCall;
      InvShaped(State(), live);
      CallExact(State(), live, size, wanted);
      BestCache(size);
      if size == 0 { return Null; }
      var node := if wanted >= nodes then 0 else wanted;
      var ci := CacheFor(size);
      p := Null;
      if ci < 9 { p := TakeObjectAnywhere(ci, node, size); }
      if p == Null { p := TakeBumpAnywhere(size, node); }
    }

    /** `kfree` of any pointer: the block is given up, and the heap stays sound exactly when no object that nobody held
        was pushed on a freelist. */
    method Kfree(p: Ptr)
      requires Valid()
      modifies this`mem, this`caches, this`live
      ensures Shaped(old(State())) && State() == Free(old(State()), p)
      ensures live == if p.At? then old(live) - {p.off} else old(live)
      ensures Valid() <==> !(Pushable(old(State()), p) && p.off !in old(live))
    {
      hide Inv, Tagged, Pushable;
      InvShaped(State(), live);
      FreeExact(State(), live, p);
      live := if p.At? then live - {p.off} else live;
      if !InPool(p) { return; }
      var ow := owner[p.off / 16];
      var k := Key(ow / 16, ow % 16);
      if ow == INVALID || k.ci == 15 || k.node >= nodes || k !in caches { return; }
      var c := caches[k];
      if ((p.off - c.cbase) % TWO64) % c.objSize != 0 { return; }
      if c.freeCount >= c.total { return; }
      mem := mem[p.off := c.freelist];
      caches := caches[k := c.(freelist := p, freeCount := c.freeCount + 1)];
    }
  }

  lemma InvShaped(h: Heap, live: map<int, nat>)
    requires Inv(h, live)
    ensures Shaped(h) && h.nodes >= 1
  {
    hide Ok;
    var g :| Ok(h, g) && g.live == live;
    OkShaped(h, g);
  }

  lemma SlabSection(h: Heap, live: map<int, nat>, ci: nat, n: nat, size: nat)
    requires Inv(h, live) && ci < 9 && n < h.nodes && 0 < size <= SizeOf(ci)
    ensures Shaped(h) && var (h', p) := AllocFromNode(h, Key(n, ci));
      && Inv(h', HandOut(live, p, size)) && (p == Null ==> h' == h)
      && (p != Null ==> p.off !in live && 0 <= p.off && p.off + size <= 0x100_0000)
  {
    hide Ok, SizeOf, AllocFromNode;
    var g :| Ok(h, g) && g.live == live;
    OkShaped(h, g);
    var g' := SlabInv(h, g, Key(n, ci), size);
    var (h', p) := AllocFromNode(h, Key(n, ci));
    assert Ok(h', g') && g'.live == HandOut(live, p, size);
    if p != Null { LiveInPool(h', g', p.off); }
  }

  lemma BumpSection(h: Heap, live: map<int, nat>, n: nat, size: nat)
    requires Inv(h, live) && n < h.nodes && 0 < size < TWO64
    ensures Shaped(h) && var (h', p) := BumpAlloc(h, n, size);
      && (Inv(h', HandOut(live, p, size)) <==> !Slips(h, n, size)) && (p == Null ==> h' == h)
      && (p == Null <==> NoRoom(h, n, size) && !Slips(h, n, size))
      && (p != Null && !Slips(h, n, size) ==>
        p.off !in live && 0 <= p.off && p.off + size <= 0x100_0000 && CutOff(h, n, size, (h', p)))
  {
    hide Ok, NoRoom, Slips, Align64;
    BumpExact(h, live, size, n);
    var g :| Ok(h, g) && g.live == live;
    OkShaped(h, g);
    var g' := BumpInv(h, g, n, size);
    var (h', p) := BumpAlloc(h, n, size);
    if p != Null && !Slips(h, n, size) { LiveInPool(h', g', p.off); }
  }

  lemma RegionGranules(a: nat, r: nat)
    requires a % 16 == 0 && (a + r) % 16 == 0
    ensures a / 16 + r / 16 == (a + r) / 16
  {
  }
}
