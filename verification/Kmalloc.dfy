/** kmalloc and kfree (src/mm/kmalloc.c) as functions on the heap: the locked sections, and `Alloc`, the row of them
    that one undisturbed call makes. Addresses are relative to the heap pool. */
module Kmalloc {
  import opened KmallocLayout

  datatype Ptr = Null | At(off: int)

  datatype Cache = Cache(objSize: nat, freelist: Ptr, total: nat, freeCount: nat, cbase: nat)

  /** `mem[o]` is the pointer-sized word at `o`; memory that was never written reads as zero, the null pointer. */
  datatype Heap = Heap(
    addr: nat, nodes: nat, per: nat,
    mem: map<int, Ptr>, caches: map<Key, Cache>, bump: seq<int>, bumpEnd: seq<int>, owner: seq<nat>)

  const TWO64: nat := 0x1_0000_0000_0000_0000

  function Load(mem: map<int, Ptr>, o: int): Ptr { if o in mem then mem[o] else Null }

  predicate InPool(p: Ptr) { p.At? && 0 <= p.off < 0x100_0000 }

  predicate Shaped(h: Heap) {
    && Split(h.nodes, h.per) && h.addr % 4096 == 0 && 0 < h.addr && h.addr + 0x100_1000 <= TWO64
    && |h.bump| == h.nodes && |h.bumpEnd| == h.nodes && |h.owner| == GRANULES
    && (forall n, ci | 0 <= n < h.nodes && 0 <= ci < 9 :: Key(n, ci) in h.caches)
    && (forall k | k in h.caches :: h.caches[k].objSize > 0)
  }

  // ---------------------------------------------------------------- the operations

  function CidxFrom(size: nat, i: nat): (r: nat)
    requires i <= 9
    decreases 9 - i
  {
    if i == 9 then 9 else if size <= SizeOf(i) then i else CidxFrom(size, i + 1)
  }

  /** `cidx_for` finds the smallest object size that fits, if any does. */
  lemma {:induction false} CidxBest(size: nat, i: nat)
    requires i <= 9
    ensures i <= CidxFrom(size, i) <= 9
    ensures CidxFrom(size, i) < 9 ==> size <= SizeOf(CidxFrom(size, i))
    ensures forall j | i <= j < CidxFrom(size, i) :: SizeOf(j) < size
    decreases 9 - i
  {
    if i < 9 && size > SizeOf(i) { CidxBest(size, i + 1); }
  }

  lemma SizesDouble(ci: nat)
    requires ci < 8
    ensures SizeOf(0) == 16 && SizeOf(ci + 1) == 2 * SizeOf(ci) && SizeOf(8) == 4096
  {
  }

  /** An object is big enough, and less than half of it is wasted, unless it is one of the smallest. */
  lemma CidxTight(size: nat)
    ensures var ci := CidxFrom(size, 0);
      && ci <= 9 && (ci == 9 <==> size > 4096)
      && (ci < 9 ==> size <= SizeOf(ci) && (SizeOf(ci) == 16 || SizeOf(ci) < 2 * size))
  {
    CidxBest(size, 0);
    var ci := CidxFrom(size, 0);
    if 0 < ci < 9 { SizesDouble(ci - 1); }
    assert ci == 9 ==> SizeOf(8) < size;
  }

  /** `alloc_from_node`. */
  function AllocFromNode(h: Heap, k: Key): (r: (Heap, Ptr))
    requires Shaped(h) && InRange(k, h.nodes)
    ensures Shaped(r.0) && r.0.nodes == h.nodes
  {
    var c := h.caches[k];
    if c.freelist == Null then (h, Null)
    else if !InPool(c.freelist) then (h.(caches := h.caches[k := c.(freelist := Null, freeCount := 0)]), Null)
    else
      (h.(caches := h.caches[k := c.(freelist := Load(h.mem, c.freelist.off),
                                     freeCount := (c.freeCount + 0xffff_ffff_ffff_ffff) % TWO64)]),
       c.freelist)
  }

  /** Up to the next multiple of 64; the pool itself is aligned, so this is what the mask does to the address. */
  function Align64(a: int): int { (a + 63) / 64 * 64 }

  /** `bump_alloc`; the end of the block is computed in 64-bit addresses. */
  function BumpAlloc(h: Heap, n: nat, size: nat): (r: (Heap, Ptr))
    requires Shaped(h) && n < h.nodes
    ensures Shaped(r.0)
  {
    var a := Align64(h.bump[n]);
    var end := (h.addr + a + size) % TWO64 - h.addr;
    if end > h.bumpEnd[n] then (h, Null) else (h.(bump := h.bump[n := end]), At(a))
  }

  /** The nodes tried after `node`, in order, from `n` on. */
  function SlabElsewhere(h: Heap, ci: nat, node: nat, n: nat): (r: (Heap, Ptr))
    requires Shaped(h) && ci < 9
    ensures Shaped(r.0)
    decreases h.nodes - n
  {
    if n >= h.nodes then (h, Null)
    else if n == node then SlabElsewhere(h, ci, node, n + 1)
    else
      var (h', p) := AllocFromNode(h, Key(n, ci));
      if p != Null then (h', p) else SlabElsewhere(h', ci, node, n + 1)
  }

  function BumpElsewhere(h: Heap, size: nat, node: nat, n: nat): (r: (Heap, Ptr))
    requires Shaped(h)
    ensures Shaped(r.0)
    decreases h.nodes - n
  {
    if n >= h.nodes then (h, Null)
    else if n == node then BumpElsewhere(h, size, node, n + 1)
    else
      var (h', p) := BumpAlloc(h, n, size);
      if p != Null then (h', p) else BumpElsewhere(h', size, node, n + 1)
  }

  function SlabAnywhere(h: Heap, ci: nat, node: nat): (r: (Heap, Ptr))
    requires Shaped(h) && ci < 9 && node < h.nodes
    ensures Shaped(r.0) && r.0.nodes == h.nodes
  {
    var (h', p) := AllocFromNode(h, Key(node, ci));
    if p != Null then (h', p) else SlabElsewhereNodes(h', ci, node, 0); SlabElsewhere(h', ci, node, 0)
  }

  lemma {:induction false} SlabElsewhereNodes(h: Heap, ci: nat, node: nat, n: nat)
    requires Shaped(h) && ci < 9
    ensures SlabElsewhere(h, ci, node, n).0.nodes == h.nodes
    decreases h.nodes - n
  {
    hide AllocFromNode, Shaped;
    if n < h.nodes {
      if n == node {
        SlabElsewhereNodes(h, ci, node, n + 1);
      } else {
        SlabElsewhereNodes(AllocFromNode(h, Key(n, ci)).0, ci, node, n + 1);
      }
    }
  }

  function BumpAnywhere(h: Heap, size: nat, node: nat): (r: (Heap, Ptr))
    requires Shaped(h) && node < h.nodes
    ensures Shaped(r.0)
  {
    var (h', p) := BumpAlloc(h, node, size);
    if p != Null then (h', p) else BumpElsewhere(h', size, node, 0)
  }

  /** `kmalloc_node`. */
  function Alloc(h: Heap, size: nat, wanted: nat): (r: (Heap, Ptr))
    requires Shaped(h)
    ensures Shaped(r.0)
  {
    if size == 0 then (h, Null)
    else
      var node := if wanted >= h.nodes then 0 else wanted;
      CidxBest(size, 0);
      var ci := CidxFrom(size, 0);
      if ci == 9 then BumpAnywhere(h, size, node)
      else
        var (h', p) := SlabAnywhere(h, ci, node);
        if p != Null then (h', p) else BumpAnywhere(h', size, node)
  }

  /** `kfree`. */
  function Free(h: Heap, p: Ptr): (r: Heap)
    requires Shaped(h)
    ensures Shaped(r)
  {
    if !InPool(p) then h
    else
      var ow := h.owner[p.off / 16];
      var k := Key(ow / 16, ow % 16);
      if ow == INVALID || k.ci == 15 || k.node >= h.nodes || k !in h.caches then h
      else
        var c := h.caches[k];
        if ((p.off - c.cbase) % TWO64) % c.objSize != 0 || c.freeCount >= c.total then h
        else h.(mem := h.mem[p.off := c.freelist],
                caches := h.caches[k := c.(freelist := p, freeCount := c.freeCount + 1)])
  }
}
