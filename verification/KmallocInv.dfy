/** Heap safety: what every run of kmalloc and kfree keeps. */
module KmallocInv {
  import opened Bits
  import opened Counting
  import opened OrderedSeq
  import opened KmallocLayout
  import opened Kmalloc

  /** What a live block occupies: an object of a cache, or a piece of a node's bump part. */
  datatype Home = InSlot(k: Key, j: nat) | InBump(n: nat)

  /** `free[k]` are the objects on the freelist of cache `k`, in order; `live` gives the size of each block handed
      out. */
  datatype Ledger = Ledger(free: map<Key, seq<nat>>, live: map<int, nat>, home: map<int, Home>)

  /** The links stored in free objects, from `head` on, run through the objects `js` and end in null. */
  ghost predicate Chain(mem: map<int, Ptr>, per: nat, k: Key, head: Ptr, js: seq<nat>)
    requires k.ci < 9
    decreases |js|
  {
    if js == [] then head == Null
    else head == At(Slot(per, k, js[0])) && Chain(mem, per, k, Load(mem, Slot(per, k, js[0])), js[1..])
  }

  ghost predicate CacheOk(h: Heap, g: Ledger, k: Key) {
    && k.ci < 9 && k in h.caches && k in g.free
    && var c, js := h.caches[k], g.free[k];
    && c.objSize == SizeOf(k.ci) && c.total == Quota(k.ci) && c.cbase == Slot(h.per, k, 0)
    && c.freeCount == |js| && NoDup(js) && (forall j | j in js :: j < Quota(k.ci))
    && Chain(h.mem, h.per, k, c.freelist, js)
  }

  ghost predicate NodeOk(h: Heap, n: nat) {
    n < |h.bump| && n < |h.bumpEnd|
    && NodeBase(h.per, n) + 557056 <= h.bump[n] <= h.bumpEnd[n] == NodeBase(h.per, n + 1)
  }

  ghost predicate HomeOk(h: Heap, g: Ledger, a: int) {
    && a in g.live && a in g.home && g.live[a] > 0
    && match g.home[a]
       case InSlot(k, j) =>
         && InRange(k, h.nodes) && k in g.free && j < Quota(k.ci) && a == Slot(h.per, k, j)
         && g.live[a] <= SizeOf(k.ci) && j !in g.free[k]
       case InBump(n) => n < |h.bump| && a % 64 == 0 && NodeBase(h.per, n) + 557056 <= a && a + g.live[a] <= h.bump[n]
  }

  ghost predicate SlotOk(h: Heap, g: Ledger, k: Key, j: nat)
    requires k.ci < 9
  {
    k in g.free && (j in g.free[k] || (Slot(h.per, k, j) in g.home && g.home[Slot(h.per, k, j)] == InSlot(k, j)))
  }

  ghost predicate BumpsApart(g: Ledger, a: int, b: int) {
    a in g.live && a in g.home && b in g.home && a < b && g.home[a].InBump? && g.home[a] == g.home[b] ==>
      a + g.live[a] <= b
  }

  ghost predicate Ok(h: Heap, g: Ledger) {
    && Shaped(h) && Tagged(h.owner, h.nodes, h.per) && g.live.Keys == g.home.Keys
    && (forall k {:trigger CacheOk(h, g, k)} | InRange(k, h.nodes) :: CacheOk(h, g, k))
    && (forall n {:trigger NodeOk(h, n)} | 0 <= n < h.nodes :: NodeOk(h, n))
    && (forall a {:trigger HomeOk(h, g, a)} | a in g.live :: HomeOk(h, g, a))
    && (forall k: Key, j: nat {:trigger SlotOk(h, g, k, j)} | InRange(k, h.nodes) && j < Quota(k.ci) ::
          SlotOk(h, g, k, j))
    && (forall a, b {:trigger BumpsApart(g, a, b)} | a in g.live && b in g.live :: BumpsApart(g, a, b))
  }

  // ---------------------------------------------------------------- geometry of the live blocks

  /** An object and a bump block never overlap. */
  lemma SlotBumpApart(h: Heap, k: Key, j: nat, n: nat, a: int, size: nat)
    requires Split(h.nodes, h.per) && InRange(k, h.nodes) && j < Quota(k.ci) && n < h.nodes && NodeOk(h, n)
    requires NodeBase(h.per, n) + 557056 <= a && a + size <= h.bump[n]
    ensures Apart(Slot(h.per, k, j), SizeOf(k.ci), a, size)
  {
    hide SizeOf, Quota, NodeBase, Slot;
    SlotInNode(h.per, k, j);
    NodeEnd(h.nodes, h.per, k.node);
    if k.node < n {
      NodeBaseMonotone(h.per, k.node + 1, n);
    } else if n < k.node {
      NodeBaseMonotone(h.per, n + 1, k.node);
    }
  }

  lemma BumpBumpApart(h: Heap, n: nat, a: int, x: nat, m: nat, b: int, y: nat)
    requires Split(h.nodes, h.per) && n < m < h.nodes && NodeOk(h, n) && NodeOk(h, m)
    requires NodeBase(h.per, n) + 557056 <= a && a + x <= h.bump[n]
    requires NodeBase(h.per, m) + 557056 <= b && b + y <= h.bump[m]
    ensures a + x <= b
  {
    hide NodeBase;
    NodeBaseMonotone(h.per, n + 1, m);
  }

  /** An object that is not the home of a live block does not overlap it. */
  lemma SlotLiveApart(h: Heap, g: Ledger, k: Key, j: nat, a: int)
    requires Ok(h, g) && InRange(k, h.nodes) && j < Quota(k.ci) && a in g.live && g.home[a] != InSlot(k, j)
    ensures Apart(Slot(h.per, k, j), SizeOf(k.ci), a, g.live[a])
  {
    hide SizeOf, Quota, NodeBase, Slot, Tagged, Chain;
    assert HomeOk(h, g, a);
    match g.home[a]
    case InSlot(k', j') => SlotsApart(h.nodes, h.per, k, j, k', j');
    case InBump(n) =>
      assert NodeOk(h, n);
      SlotBumpApart(h, k, j, n, a, g.live[a]);
  }

  /** Live blocks are pairwise disjoint. */
  lemma LiveApart(h: Heap, g: Ledger, a: int, b: int)
    requires Ok(h, g) && a in g.live && b in g.live && a != b
    ensures Apart(a, g.live[a], b, g.live[b])
  {
    hide SizeOf, Quota, NodeBase, Slot, Tagged, Chain;
    assert HomeOk(h, g, a) && HomeOk(h, g, b);
    if g.home[a].InSlot? {
      SlotLiveApart(h, g, g.home[a].k, g.home[a].j, b);
    } else if g.home[b].InSlot? {
      SlotLiveApart(h, g, g.home[b].k, g.home[b].j, a);
    } else if g.home[a] == g.home[b] {
      assert BumpsApart(g, a, b) && BumpsApart(g, b, a);
    } else {
      var n, m := g.home[a].n, g.home[b].n;
      assert NodeOk(h, n) && NodeOk(h, m);
      if n < m { BumpBumpApart(h, n, a, g.live[a], m, b, g.live[b]); }
      else { BumpBumpApart(h, m, b, g.live[b], n, a, g.live[a]); }
    }
  }

  lemma LiveInPool(h: Heap, g: Ledger, a: int)
    requires Ok(h, g) && a in g.live
    ensures 0 <= a && a + g.live[a] <= 0x100_0000 && g.live[a] > 0
  {
    hide SizeOf, Quota, NodeBase, Slot, Tagged, Chain;
    assert HomeOk(h, g, a);
    match g.home[a]
    case InSlot(k, j) =>
      SlotInNode(h.per, k, j);
      NodeEnd(h.nodes, h.per, k.node);
    case InBump(n) =>
      assert NodeOk(h, n);
      NodeEnd(h.nodes, h.per, n);
  }

  // ---------------------------------------------------------------- freelists

  lemma {:induction false} ChainFrame(mem: map<int, Ptr>, mem': map<int, Ptr>, per: nat, k: Key, head: Ptr,
      js: seq<nat>)
    requires k.ci < 9 && Chain(mem, per, k, head, js)
    requires forall j | j in js :: Load(mem', Slot(per, k, j)) == Load(mem, Slot(per, k, j))
    ensures Chain(mem', per, k, head, js)
    decreases |js|
  {
    if js != [] { ChainFrame(mem, mem', per, k, Load(mem, Slot(per, k, js[0])), js[1..]); }
  }

  /** The objects of cache `k` that are handed out. */
  ghost function LiveSlots(h: Heap, g: Ledger, k: Key): set<nat>
    requires k.ci < 9
  {
    set j | j in Below(Quota(k.ci)) && Slot(h.per, k, j) in g.home && g.home[Slot(h.per, k, j)] == InSlot(k, j)
  }

  /** Free and live objects of a cache add up to all of them. */
  lemma Conservation(h: Heap, g: Ledger, k: Key)
    requires Ok(h, g) && InRange(k, h.nodes)
    ensures CacheOk(h, g, k) && h.caches[k].freeCount + |LiveSlots(h, g, k)| == h.caches[k].total
  {
    hide SizeOf, Quota, NodeBase, Slot, Tagged, Chain, Below, Elements;
    assert CacheOk(h, g, k);
    var all, free := Below(Quota(k.ci)), Elements(g.free[k]);
    ElementsSize(g.free[k]);
    SubsetSize(free, all);
    forall j | j in all ensures j in LiveSlots(h, g, k) <==> j !in free {
      assert SlotOk(h, g, k, j);
      if Slot(h.per, k, j) in g.home { assert HomeOk(h, g, Slot(h.per, k, j)); }
    }
    assert LiveSlots(h, g, k) == all - free;
  }

  /** A word outside every live block keeps its value, whatever the clients write into their blocks. */
  ghost predicate WritesOnlyLive(live: map<int, nat>, mem: map<int, Ptr>, mem': map<int, Ptr>) {
    forall o | (forall a | a in live :: Apart(o, 8, a, live[a])) :: Load(mem', o) == Load(mem, o)
  }

  lemma WriteInv(h: Heap, g: Ledger, mem': map<int, Ptr>)
    requires Ok(h, g) && WritesOnlyLive(g.live, h.mem, mem')
    ensures Ok(h.(mem := mem'), g)
  {
    hide SizeOf, Quota, NodeBase, Slot, Tagged, Chain;
    var h' := h.(mem := mem');
    forall k | InRange(k, h.nodes) ensures CacheOk(h', g, k) {
      assert CacheOk(h, g, k);
      forall j | j in g.free[k] ensures Load(mem', Slot(h.per, k, j)) == Load(h.mem, Slot(h.per, k, j)) {
        FreeUntouched(h, g, k, j);
      }
      ChainFrame(h.mem, mem', h.per, k, h.caches[k].freelist, g.free[k]);
    }
    Kept(h, g, h');
  }

  lemma FreeUntouched(h: Heap, g: Ledger, k: Key, j: nat)
    requires Ok(h, g) && InRange(k, h.nodes) && k in g.free && j in g.free[k]
    ensures forall a | a in g.live :: Apart(Slot(h.per, k, j), 8, a, g.live[a])
  {
    hide Quota, NodeBase, Slot, Tagged, Chain;
    assert CacheOk(h, g, k);
    forall a | a in g.live ensures Apart(Slot(h.per, k, j), 8, a, g.live[a]) {
      assert HomeOk(h, g, a);
      SlotLiveApart(h, g, k, j, a);
    }
  }

  /** What the ledger says about live blocks depends only on the layout and the bump pointers. */
  lemma Kept(h: Heap, g: Ledger, h': Heap)
    requires Ok(h, g) && h'.per == h.per && h'.nodes == h.nodes && h'.bump == h.bump && h'.bumpEnd == h.bumpEnd
    ensures forall n | 0 <= n < h.nodes :: NodeOk(h', n)
    ensures forall a | a in g.live :: HomeOk(h', g, a)
    ensures forall k: Key, j: nat | InRange(k, h.nodes) && j < Quota(k.ci) :: SlotOk(h', g, k, j)
  {
    hide SizeOf, Quota, NodeBase, Slot, Tagged, Chain;
    forall n | 0 <= n < h.nodes ensures NodeOk(h', n) { assert NodeOk(h, n); }
    forall a | a in g.live ensures HomeOk(h', g, a) { assert HomeOk(h, g, a); }
    forall k: Key, j: nat | InRange(k, h.nodes) && j < Quota(k.ci) ensures SlotOk(h', g, k, j) {
      assert SlotOk(h, g, k, j);
    }
  }

  // ---------------------------------------------------------------- the steps

  ghost function Taken(g: Ledger, k: Key, a: int, size: nat): Ledger
    requires k in g.free && g.free[k] != []
  {
    Ledger(g.free[k := g.free[k][1..]], g.live[a := size], g.home[a := InSlot(k, g.free[k][0])])
  }

  /** The head of the freelist is a valid object that no live block overlaps. */
  lemma HeadFresh(h: Heap, g: Ledger, k: Key)
    requires Ok(h, g) && InRange(k, h.nodes) && k in g.free && g.free[k] != []
    ensures var a := Slot(h.per, k, g.free[k][0]);
      CacheOk(h, g, k) && h.caches[k].freelist == At(a) && 0 <= a < 0x100_0000 && a !in g.live
  {
    hide Quota, NodeBase, Slot, Tagged;
    assert CacheOk(h, g, k);
    var j := g.free[k][0];
    assert j in g.free[k];
    SlotInNode(h.per, k, j);
    NodeEnd(h.nodes, h.per, k.node);
    if Slot(h.per, k, j) in g.live {
      assert HomeOk(h, g, Slot(h.per, k, j));
      SlotLiveApart(h, g, k, j, Slot(h.per, k, j));
    }
  }

  /** Taking the head of a freelist touches no other cache, no memory and no bump part. */
  lemma SlabInv(h: Heap, g: Ledger, k: Key, size: nat) returns (g': Ledger)
    requires Ok(h, g) && InRange(k, h.nodes) && 0 < size <= SizeOf(k.ci)
    ensures Granted(h, g, AllocFromNode(h, k), g', size) && k in g.free
    ensures g.free[k] != [] ==> var (h', p) := AllocFromNode(h, k);
      && p == At(Slot(h.per, k, g.free[k][0])) && g'.free == g.free[k := g.free[k][1..]]
      && k in h'.caches && h' == h.(caches := h.caches[k := h'.caches[k]])
  {
    hide Quota, NodeBase, Slot, Tagged, SizeOf;
    assert CacheOk(h, g, k);
    if g.free[k] == [] {
      g' := g;
    } else {
      HeadFresh(h, g, k);
      var j, a := g.free[k][0], Slot(h.per, k, g.free[k][0]);
      g' := Taken(g, k, a, size);
      var h' := AllocFromNode(h, k).0;
      TakenCaches(h, g, k, size);
      TakenHomes(h, g, k, size);
      assert Ok(h', g');
    }
  }

  /** Either nothing is handed out and nothing changes, or a fresh block of the asked size is. */
  ghost predicate Granted(h: Heap, g: Ledger, r: (Heap, Ptr), g': Ledger, size: nat) {
    && Ok(r.0, g')
    && if r.1 == Null then r.0 == h && g' == g
       else r.1.off !in g.live && g'.live == g.live[r.1.off := size]
  }

  lemma TakenCaches(h: Heap, g: Ledger, k: Key, size: nat)
    requires Ok(h, g) && InRange(k, h.nodes) && k in g.free && g.free[k] != []
    ensures var (h', g') := (AllocFromNode(h, k).0, Taken(g, k, Slot(h.per, k, g.free[k][0]), size));
      forall k' | InRange(k', h.nodes) :: CacheOk(h', g', k')
  {
    hide Quota, NodeBase, Slot, Tagged, SizeOf;
    HeadFresh(h, g, k);
    var js := g.free[k];
    var (h', g') := (AllocFromNode(h, k).0, Taken(g, k, Slot(h.per, k, js[0]), size));
    Counted(h, g, k);
    forall k' | InRange(k', h.nodes) ensures CacheOk(h', g', k') {
      assert CacheOk(h, g, k');
      if k' == k { assert forall j | j in js[1..] :: j in js; }
    }
  }

  /** A freelist is never longer than its cache. */
  lemma Counted(h: Heap, g: Ledger, k: Key)
    requires Ok(h, g) && InRange(k, h.nodes) && k in g.free
    ensures CacheOk(h, g, k) && |g.free[k]| <= Quota(k.ci) <= 1024
  {
    hide SizeOf, NodeBase, Slot, Tagged, Chain;
    Conservation(h, g, k);
  }

  lemma TakenHomes(h: Heap, g: Ledger, k: Key, size: nat)
    requires Ok(h, g) && InRange(k, h.nodes) && k in g.free && g.free[k] != [] && 0 < size <= SizeOf(k.ci)
    ensures var (h', g') := (AllocFromNode(h, k).0, Taken(g, k, Slot(h.per, k, g.free[k][0]), size));
      && (forall n | 0 <= n < h.nodes :: NodeOk(h', n))
      && (forall a | a in g'.live :: HomeOk(h', g', a))
      && (forall k': Key, j: nat | InRange(k', h.nodes) && j < Quota(k'.ci) :: SlotOk(h', g', k', j))
      && (forall a, b | a in g'.live && b in g'.live :: BumpsApart(g', a, b))
  {
    hide Quota, NodeBase, Slot, Tagged, SizeOf, Chain;
    HeadFresh(h, g, k);
    var js, a0 := g.free[k], Slot(h.per, k, g.free[k][0]);
    var (h', g') := (AllocFromNode(h, k).0, Taken(g, k, a0, size));
    assert js == [js[0]] + js[1..] && js[0] in js && js[0] !in js[1..];
    forall n | 0 <= n < h.nodes ensures NodeOk(h', n) { assert NodeOk(h, n); }
    forall a | a in g'.live ensures HomeOk(h', g', a) {
      if a != a0 { assert HomeOk(h, g, a); }
    }
    forall k': Key, j: nat | InRange(k', h.nodes) && j < Quota(k'.ci) ensures SlotOk(h', g', k', j) {
      assert SlotOk(h, g, k', j);
    }
    forall a, b | a in g'.live && b in g'.live ensures BumpsApart(g', a, b) {
      if a != a0 && b != a0 { assert BumpsApart(g, a, b); }
    }
  }

  predicate NoRoom(h: Heap, n: nat, size: nat) {
    n < |h.bump| && n < |h.bumpEnd| && Align64(h.bump[n]) + size > h.bumpEnd[n]
  }

  /** The block does not fit, but its 64-bit end address wraps around to one that `bump_alloc` accepts. */
  predicate Slips(h: Heap, n: nat, size: nat) {
    n < |h.bump| && n < |h.bumpEnd| && var end := h.addr + Align64(h.bump[n]) + size;
    TWO64 <= end && end - TWO64 <= h.addr + h.bumpEnd[n]
  }

  predicate Outside(p: Ptr, size: nat) { p.At? && p.off + size > 0x100_0000 }

  /** Sizes for which no end address wraps around, whatever is allocated. */
  predicate NoWrap(h: Heap, size: nat) { h.addr + 0x100_0000 + size < TWO64 }

  ghost function Bumped(g: Ledger, n: nat, a: int, size: nat): Ledger {
    g.(live := g.live[a := size], home := g.home[a := InBump(n)])
  }

  lemma Aligned(a: int, end: nat)
    requires 0 <= a <= end && end % 64 == 0
    ensures a <= Align64(a) <= end && Align64(a) % 64 == 0 && Align64(a) < a + 64
  {
  }

  lemma BumpFresh(h: Heap, g: Ledger, n: nat, a: int)
    requires Ok(h, g) && n < h.nodes && NodeOk(h, n) && h.bump[n] <= a < h.bumpEnd[n]
    ensures a !in g.live
  {
    hide NodeBase, Slot, Tagged, SizeOf, Chain, Quota;
    if a in g.live {
      assert HomeOk(h, g, a);
      var h2 := h.(bump := h.bump[n := a + 1]);
      match g.home[a]
      case InSlot(k, j) => SlotBumpApart(h2, k, j, n, a, 1);
      case InBump(m) =>
        assert NodeOk(h, m);
        if m < n { BumpBumpApart(h2, m, a, g.live[a], n, a, 1); }
        else if n < m { BumpBumpApart(h2, n, a, 1, m, a, g.live[a]); }
    }
  }

  /** A block at the next multiple of 64 is cut off the bump part of node `n`, which then starts right behind it;
      nothing else changes. */
  predicate CutOff(h: Heap, n: nat, size: nat, r: (Heap, Ptr)) {
    n < |h.bump| && n < |h.bumpEnd| && r.1.At? && var a := r.1.off;
    && a % 64 == 0 && h.bump[n] <= a < h.bump[n] + 64 && a + size <= h.bumpEnd[n]
    && r.0 == h.(bump := h.bump[n := a + size])
  }

  /** `bump_alloc` for any size: it fails exactly when the block does not fit and its end does not slip through, it
      grants a block outside the pool exactly when the end slips through, and otherwise a fresh one that uses up no more
      than its size and the gap before it. */
  lemma BumpInv(h: Heap, g: Ledger, n: nat, size: nat) returns (g': Ledger)
    requires Ok(h, g) && n < h.nodes && 0 < size < TWO64
    ensures BumpAlloc(h, n, size).1 == Null <==> NoRoom(h, n, size) && !Slips(h, n, size)
    ensures Outside(BumpAlloc(h, n, size).1, size) <==> Slips(h, n, size)
    ensures !Slips(h, n, size) ==> Granted(h, g, BumpAlloc(h, n, size), g', size)
    ensures !Slips(h, n, size) && !NoRoom(h, n, size) ==> CutOff(h, n, size, BumpAlloc(h, n, size))
  {
    hide NodeBase, Slot, Tagged, SizeOf, Chain, Quota, Align64, Granted;
    assert NodeOk(h, n);
    NodeEnd(h.nodes, h.per, n);
    var a := Align64(h.bump[n]);
    Aligned(h.bump[n], 0x100_0000);
    BumpEnd(h.addr, a, size, h.bumpEnd[n]);
    g' := g;
    if !NoRoom(h, n, size) {
      BumpFresh(h, g, n, a);
      g' := Bumped(g, n, a, size);
      BumpedOk(h, g, n, a, size);
    }
    if !Slips(h, n, size) { BumpGranted(h, g, n, size, g'); }
  }

  lemma BumpGranted(h: Heap, g: Ledger, n: nat, size: nat, g': Ledger)
    requires Ok(h, g) && n < h.nodes && n < |h.bump| && !Slips(h, n, size) && 0 <= Align64(h.bump[n])
    requires BumpAlloc(h, n, size).1 == Null <==> NoRoom(h, n, size) && !Slips(h, n, size)
    requires h.addr + Align64(h.bump[n]) + size < TWO64 || NoRoom(h, n, size)
    requires if NoRoom(h, n, size) then g' == g
      else g' == Bumped(g, n, Align64(h.bump[n]), size) && Align64(h.bump[n]) !in g.live
           && Ok(h.(bump := h.bump[n := Align64(h.bump[n]) + size]), g')
    ensures Granted(h, g, BumpAlloc(h, n, size), g', size)
  {
    hide Ok, Align64;
    OkShaped(h, g);
    var end := h.addr + Align64(h.bump[n]) + size;
    assert !NoRoom(h, n, size) && 0 <= end < TWO64 ==> end % TWO64 == end;
  }

  /** A request that fits at the next multiple of 64 is granted there. */
  lemma BumpAt(h: Heap, g: Ledger, n: nat, size: nat, b: int)
    requires Ok(h, g) && n < h.nodes && 0 < size < TWO64 && n < |h.bump| && n < |h.bumpEnd|
    requires b % 64 == 0 && h.bump[n] <= b < h.bump[n] + 64 && b + size <= h.bumpEnd[n]
    ensures !NoRoom(h, n, size) && !Slips(h, n, size) && BumpAlloc(h, n, size).1 == At(b)
  {
    hide Ok, BumpAlloc, Align64;
    OkShaped(h, g);
    NodeFacts(h, g, n);
    Aligned(h.bump[n], 0x100_0000);
    SameMultiple(h.bump[n], Align64(h.bump[n]), b);
    var g' := BumpInv(h, g, n, size);
    SameMultiple(h.bump[n], BumpAlloc(h, n, size).1.off, b);
  }

  lemma SameMultiple(a: int, x: int, y: int)
    requires x % 64 == 0 && y % 64 == 0 && a <= x < a + 64 && a <= y < a + 64
    ensures x == y
  {
  }

  lemma NodeFacts(h: Heap, g: Ledger, n: nat)
    requires Ok(h, g) && n < h.nodes
    ensures n < |h.bump| && n < |h.bumpEnd| && 0 <= h.bump[n] <= h.bumpEnd[n] <= 0x100_0000
  {
    hide NodeBase, Slot, Tagged, SizeOf, Chain, Quota;
    assert NodeOk(h, n);
    NodeEnd(h.nodes, h.per, n);
  }

  /** So another request that fits behind a block is granted there, at the next multiple of 64. */
  lemma BumpNext(h: Heap, g: Ledger, n: nat, size: nat, size': nat, b: int)
    requires Ok(h, g) && n < h.nodes && 0 < size < TWO64 && 0 < size' < TWO64
    requires !Slips(h, n, size) && !NoRoom(h, n, size)
    requires n < |h.bumpEnd| && b % 64 == 0 && b + size' <= h.bumpEnd[n]
    requires var r := BumpAlloc(h, n, size); r.1.At? && r.1.off + size <= b < r.1.off + size + 64
    ensures var h' := BumpAlloc(h, n, size).0; n < h'.nodes && BumpAlloc(h', n, size').1 == At(b)
  {
    hide Ok, Align64, BumpAlloc, NoRoom, Slips;
    OkShaped(h, g);
    var g' := BumpInv(h, g, n, size);
    BumpAt(BumpAlloc(h, n, size).0, g', n, size', b);
  }

  lemma BumpEnd(addr: nat, a: int, size: nat, limit: int)
    requires 0 < addr && addr + 0x100_1000 <= TWO64 && 0 <= a <= 0x100_0000 && 0 <= limit <= 0x100_0000 && size < TWO64
    ensures var end := addr + a + size;
      && end % TWO64 == (if end < TWO64 then end else end - TWO64)
      && (end >= TWO64 ==> a + size > limit && a + size > 0x100_0000)
  {
  }

  lemma BumpedOk(h: Heap, g: Ledger, n: nat, a0: int, size: nat)
    requires Ok(h, g) && n < h.nodes && size > 0 && NodeOk(h, n) && a0 !in g.live
    requires h.bump[n] <= a0 && a0 + size <= h.bumpEnd[n] && a0 % 64 == 0
    ensures Ok(h.(bump := h.bump[n := a0 + size]), Bumped(g, n, a0, size))
  {
    hide NodeBase, Slot, Tagged, SizeOf, Chain, Quota;
    var h', g' := h.(bump := h.bump[n := a0 + size]), Bumped(g, n, a0, size);
    forall k | InRange(k, h.nodes) ensures CacheOk(h', g', k) { assert CacheOk(h, g, k); }
    forall m | 0 <= m < h.nodes ensures NodeOk(h', m) { assert NodeOk(h, m); }
    forall a | a in g'.live ensures HomeOk(h', g', a) {
      if a != a0 { assert HomeOk(h, g, a); }
    }
    forall k: Key, j: nat | InRange(k, h.nodes) && j < Quota(k.ci) ensures SlotOk(h', g', k, j) {
      assert SlotOk(h, g, k, j);
    }
    forall a, b | a in g'.live && b in g'.live ensures BumpsApart(g', a, b) {
      if a != a0 { assert HomeOk(h, g, a); }
      if b != a0 { assert HomeOk(h, g, b); }
      if a != a0 && b != a0 { assert BumpsApart(g, a, b); }
    }
  }

  predicate SlabEmpty(h: Heap, n: nat, ci: nat) { Key(n, ci) in h.caches && h.caches[Key(n, ci)].freelist == Null }

  lemma SlabFails(h: Heap, g: Ledger, k: Key)
    requires Ok(h, g) && InRange(k, h.nodes)
    ensures AllocFromNode(h, k).1 == Null <==> SlabEmpty(h, k.node, k.ci)
    ensures k in g.free && (SlabEmpty(h, k.node, k.ci) <==> g.free[k] == [])
  {
    hide Quota, NodeBase, Slot, Tagged, SizeOf;
    assert CacheOk(h, g, k);
    if g.free[k] != [] { HeadFresh(h, g, k); }
    assert k == Key(k.node, k.ci);
  }

  lemma {:induction false} SlabElsewhereInv(h: Heap, g: Ledger, ci: nat, node: nat, n: nat, size: nat)
    returns (g': Ledger)
    requires Ok(h, g) && ci < 9 && 0 < size <= SizeOf(ci)
    ensures Granted(h, g, SlabElsewhere(h, ci, node, n), g', size)
    ensures SlabElsewhere(h, ci, node, n).1 == Null <==> forall m | n <= m < h.nodes && m != node :: SlabEmpty(h, m, ci)
    decreases h.nodes - n
  {
    hide Ok, SizeOf, AllocFromNode;
    OkShaped(h, g);
    if n >= h.nodes {
      g' := g;
    } else if n == node {
      g' := SlabElsewhereInv(h, g, ci, node, n + 1, size);
    } else {
      SlabFails(h, g, Key(n, ci));
      g' := SlabInv(h, g, Key(n, ci), size);
      if AllocFromNode(h, Key(n, ci)).1 == Null { g' := SlabElsewhereInv(h, g, ci, node, n + 1, size); }
    }
  }

  lemma OkShaped(h: Heap, g: Ledger)
    requires Ok(h, g)
    ensures Shaped(h)
  {
  }

  /** The first of the nodes from `n` on that does not refuse grants a block outside the pool. */
  ghost predicate WildFrom(h: Heap, size: nat, node: nat, n: nat) {
    exists m :: n <= m < h.nodes && m != node && Slips(h, m, size)
      && forall l | n <= l < m && l != node :: NoRoom(h, l, size)
  }

  lemma {:induction false} BumpElsewhereInv(h: Heap, g: Ledger, size: nat, node: nat, n: nat) returns (g': Ledger)
    requires Ok(h, g) && 0 < size < TWO64
    ensures var r := BumpElsewhere(h, size, node, n);
      && (r.1 == Null <==> forall m | n <= m < h.nodes && m != node :: NoRoom(h, m, size) && !Slips(h, m, size))
      && (Outside(r.1, size) <==> WildFrom(h, size, node, n))
      && (!WildFrom(h, size, node, n) ==> Granted(h, g, r, g', size))
    decreases h.nodes - n
  {
    hide Ok, NoRoom, Slips, BumpAlloc, Outside, WildFrom;
    OkShaped(h, g);
    if n >= h.nodes {
      g' := g;
      WildNone(h, size, node, n);
    } else if n == node {
      WildSkip(h, size, node, n);
      g' := BumpElsewhereInv(h, g, size, node, n + 1);
    } else {
      g' := BumpInv(h, g, n, size);
      WildStep(h, size, node, n);
      if BumpAlloc(h, n, size).1 == Null { g' := BumpElsewhereInv(h, g, size, node, n + 1); }
    }
  }

  lemma WildNone(h: Heap, size: nat, node: nat, n: nat)
    requires n >= h.nodes
    ensures !WildFrom(h, size, node, n) && !Outside(Null, size)
  {
  }

  lemma WildSkip(h: Heap, size: nat, node: nat, n: nat)
    requires n == node
    ensures WildFrom(h, size, node, n) <==> WildFrom(h, size, node, n + 1)
  {
  }

  lemma WildStep(h: Heap, size: nat, node: nat, n: nat)
    requires n < h.nodes && n != node
    ensures Slips(h, n, size) ==> WildFrom(h, size, node, n)
    ensures !Slips(h, n, size) && !NoRoom(h, n, size) ==> !WildFrom(h, size, node, n)
    ensures !Slips(h, n, size) && NoRoom(h, n, size) ==>
      (WildFrom(h, size, node, n) <==> WildFrom(h, size, node, n + 1))
  {
    hide Slips, NoRoom;
    if !Slips(h, n, size) && NoRoom(h, n, size) && WildFrom(h, size, node, n + 1) {
      var m :| n + 1 <= m < h.nodes && m != node && Slips(h, m, size)
        && forall l | n + 1 <= l < m && l != node :: NoRoom(h, l, size);
      assert forall l | n <= l < m && l != node :: NoRoom(h, l, size);
    }
  }

  lemma SlabAnywhereInv(h: Heap, g: Ledger, ci: nat, node: nat, size: nat) returns (g': Ledger)
    requires Ok(h, g) && ci < 9 && 0 < size <= SizeOf(ci) && node < h.nodes
    ensures Granted(h, g, SlabAnywhere(h, ci, node), g', size)
    ensures SlabAnywhere(h, ci, node).1 == Null <==> forall m | 0 <= m < h.nodes :: SlabEmpty(h, m, ci)
  {
    hide Ok, SizeOf, AllocFromNode, SlabElsewhere;
    OkShaped(h, g);
    SlabFails(h, g, Key(node, ci));
    g' := SlabInv(h, g, Key(node, ci), size);
    if AllocFromNode(h, Key(node, ci)).1 == Null { g' := SlabElsewhereInv(h, g, ci, node, 0, size); }
  }

  /** Of the nodes in the order tried, `node` first, the first that does not refuse has a slipping end. */
  ghost predicate Wild(h: Heap, size: nat, node: nat) {
    Slips(h, node, size) || (NoRoom(h, node, size) && WildFrom(h, size, node, 0))
  }

  lemma BumpAnywhereInv(h: Heap, g: Ledger, size: nat, node: nat) returns (g': Ledger)
    requires Ok(h, g) && 0 < size < TWO64 && node < h.nodes
    ensures var r := BumpAnywhere(h, size, node);
      && (r.1 == Null <==> forall m | 0 <= m < h.nodes :: NoRoom(h, m, size) && !Slips(h, m, size))
      && (Outside(r.1, size) <==> Wild(h, size, node))
      && (!Wild(h, size, node) ==> Granted(h, g, r, g', size))
  {
    hide Ok, NoRoom, Slips, BumpAlloc, BumpElsewhere, Outside, WildFrom;
    OkShaped(h, g);
    g' := BumpInv(h, g, node, size);
    if BumpAlloc(h, node, size).1 == Null { g' := BumpElsewhereInv(h, g, size, node, 0); }
  }

  /** The node a call starts with. */
  function Home0(h: Heap, wanted: nat): nat { if wanted >= h.nodes then 0 else wanted }

  ghost predicate NoObjects(h: Heap, size: nat) {
    size <= 4096 ==> forall m | 0 <= m < h.nodes :: SlabEmpty(h, m, CidxFrom(size, 0))
  }

  /** The nodes tried leave it to one with a slipping end. */
  ghost predicate WildCall(h: Heap, size: nat, wanted: nat) { NoObjects(h, size) && Wild(h, size, Home0(h, wanted)) }

  /** `kmalloc_node` for any size. It fails exactly when the size is zero, or every node is out of objects of the best
      size and refuses to bump. It hands out a block outside the pool exactly when `WildCall` holds of the nodes tried,
      and otherwise a fresh block of the asked size. */
  lemma AllocExact(h: Heap, g: Ledger, size: nat, wanted: nat) returns (g': Ledger)
    requires Ok(h, g) && size < TWO64
    ensures Shaped(h) && var r := Alloc(h, size, wanted);
      && (r.1 == Null <==>
            || size == 0
            || (NoObjects(h, size) && forall m | 0 <= m < h.nodes :: NoRoom(h, m, size) && !Slips(h, m, size)))
      && (Outside(r.1, size) <==> WildCall(h, size, wanted))
      && (!WildCall(h, size, wanted) ==> Granted(h, g, r, g', size))
  {
    hide Ok, NoRoom, Slips, Outside, Wild, SlabAnywhere, BumpAnywhere, CidxFrom, Granted, SizeOf, SlabEmpty;
    OkShaped(h, g);
    var node := Home0(h, wanted);
    if size == 0 {
      g' := g;
      GrantedNone(h, g, size);
      NoWrapTame(h, g, size, node);
    } else {
      BestCache(size);
      var ci := CidxFrom(size, 0);
      if ci == 9 {
        g' := BumpAnywhereInv(h, g, size, node);
      } else {
        g' := SlabAnywhereInv(h, g, ci, node, size);
        var (h', p) := SlabAnywhere(h, ci, node);
        GrantedInPool(h, g, (h', p), g', size);
        if p == Null { g' := BumpAnywhereInv(h, g, size, node); }
      }
    }
  }

  lemma BestCache(size: nat)
    ensures CidxFrom(size, 0) <= 9 && (CidxFrom(size, 0) == 9 <==> size > 4096)
    ensures CidxFrom(size, 0) < 9 ==> size <= SizeOf(CidxFrom(size, 0))
  {
    CidxBest(size, 0);
    assert CidxFrom(size, 0) == 9 ==> SizeOf(8) < size;
  }

  lemma GrantedNone(h: Heap, g: Ledger, size: nat)
    requires Ok(h, g)
    ensures Granted(h, g, (h, Null), g, size) && !Outside(Null, size)
  {
  }

  lemma GrantedInPool(h: Heap, g: Ledger, r: (Heap, Ptr), g': Ledger, size: nat)
    requires Granted(h, g, r, g', size)
    ensures !Outside(r.1, size) && (r.1 == Null ==> r.0 == h && g' == g)
  {
    hide Ok;
    if r.1 != Null { LiveInPool(r.0, g', r.1.off); }
  }

  /** A condition on the size alone that rules slipping ends out. */
  lemma NoWrapTame(h: Heap, g: Ledger, size: nat, node: nat)
    requires Ok(h, g) && size < TWO64 && node < h.nodes
    ensures NoWrap(h, size) || size == 0 ==> !Wild(h, size, node)
  {
    hide Ok, NoRoom, Slips;
    forall m | 0 <= m < h.nodes ensures NoWrap(h, size) || size == 0 ==> !Slips(h, m, size) { EndTame(h, g, m, size); }
  }

  lemma EndTame(h: Heap, g: Ledger, n: nat, size: nat)
    requires Ok(h, g) && n < h.nodes && size < TWO64
    ensures NoWrap(h, size) || size == 0 ==> !Slips(h, n, size)
  {
    hide NodeBase, Slot, Tagged, SizeOf, Chain, Quota, Align64;
    assert NodeOk(h, n);
    NodeEnd(h.nodes, h.per, n);
    Aligned(h.bump[n], 0x100_0000);
  }

  // ---------------------------------------------------------------- freeing

  ghost function Freed(g: Ledger, a: int): Ledger
    requires a in g.home && (g.home[a].InSlot? ==> g.home[a].k in g.free)
  {
    Ledger(match g.home[a]
           case InSlot(k, j) => g.free[k := [j] + g.free[k]]
           case InBump(_) => g.free,
           g.live - {a}, g.home - {a})
  }

  /** A bump block is recognised by its tag, or by its misalignment in the next node's first cache: kfree ignores it. */
  lemma FreeBump(h: Heap, g: Ledger, a: int)
    requires Ok(h, g) && a in g.live && g.home[a].InBump?
    ensures Free(h, At(a)) == h
  {
    hide NodeBase, Tagged, Chain, SlotOff, Off;
    assert HomeOk(h, g, a);
    var n := g.home[a].n;
    assert NodeOk(h, n);
    BumpTag(h.owner, h.nodes, h.per, n, a);
    var ow := h.owner[a / 16];
    if n + 1 < h.nodes && ow == Tag(n + 1, 0) {
      var k := Key(n + 1, 0);
      assert CacheOk(h, g, k);
      FirstSlot(h.per, k);
      Misaligned(NodeBase(h.per, n + 1) - a);
    }
  }

  lemma FirstSlot(per: nat, k: Key)
    requires k.ci < 9
    ensures Slot(per, k, 0) == NodeBase(per, k.node) + Off(k.ci)
    ensures k.ci == 0 ==> Off(k.ci) == 0
  {
  }

  lemma Misaligned(r: int)
    requires 0 < r < 16
    ensures (-r % TWO64) % 16 != 0
  {
    assert -r % TWO64 == TWO64 - r;
  }

  /** The owner tag of an object leads back to its cache, which has room for it. */
  lemma FreeSlot(h: Heap, g: Ledger, a: int)
    requires Ok(h, g) && a in g.live && g.home[a].InSlot?
    ensures var k := g.home[a].k;
      && k in h.caches && k in g.free
      && Free(h, At(a)) == h.(mem := h.mem[a := h.caches[k].freelist],
                              caches := h.caches[k := h.caches[k].(freelist := At(a),
                                                                   freeCount := h.caches[k].freeCount + 1)])
  {
    hide NodeBase, Tagged, Chain, Off, Quota, SizeOf;
    assert HomeOk(h, g, a);
    var k, j := g.home[a].k, g.home[a].j;
    SlotTag(h.owner, h.nodes, h.per, k, j);
    assert Tag(k.node, k.ci) / 16 == k.node && Tag(k.node, k.ci) % 16 == k.ci;
    assert CacheOk(h, g, k);
    Conservation(h, g, k);
    assert j in LiveSlots(h, g, k);
    SlotDistance(h.per, k, j);
  }

  lemma SlotDistance(per: nat, k: Key, j: nat)
    requires k.ci < 9 && j < Quota(k.ci)
    ensures ((Slot(per, k, j) - Slot(per, k, 0)) % TWO64) % SizeOf(k.ci) == 0
  {
    hide NodeBase, Off, SizeOf, Quota;
    OffsetBound(j, SizeOf(k.ci));
  }

  lemma OffsetBound(j: nat, s: nat)
    requires 0 < s <= 4096 && j <= 1024
    ensures ((j * s) % TWO64) % s == 0
  {
    assert j * s <= 1024 * s;
    ModUnique(j * s, TWO64, 0, j * s);
    ModUnique(j * s, s, j, 0);
  }

  /** Writing the link of an object that is being freed leaves every freelist's links alone. */
  lemma FreeFrame(h: Heap, g: Ledger, a: int, v: Ptr, k: Key)
    requires Ok(h, g) && a in g.live && InRange(k, h.nodes)
    ensures CacheOk(h, g, k) && Chain(h.mem[a := v], h.per, k, h.caches[k].freelist, g.free[k])
  {
    hide NodeBase, Tagged, Chain, Off, Quota, Slot;
    assert CacheOk(h, g, k) && HomeOk(h, g, a);
    forall j | j in g.free[k] ensures Slot(h.per, k, j) != a { SlotLiveApart(h, g, k, j, a); }
    ChainFrame(h.mem, h.mem[a := v], h.per, k, h.caches[k].freelist, g.free[k]);
  }

  lemma FreedCaches(h: Heap, g: Ledger, a: int)
    requires Ok(h, g) && a in g.live && HomeOk(h, g, a)
    ensures forall k | InRange(k, h.nodes) :: CacheOk(Free(h, At(a)), Freed(g, a), k)
  {
    hide NodeBase, Tagged, Off, Quota, Slot, Free;
    var h', g' := Free(h, At(a)), Freed(g, a);
    if g.home[a].InBump? {
      FreeBump(h, g, a);
      forall k | InRange(k, h.nodes) ensures CacheOk(h', g', k) { assert CacheOk(h, g, k); }
    } else {
      FreeSlot(h, g, a);
      var k0, j0 := g.home[a].k, g.home[a].j;
      forall k | InRange(k, h.nodes) ensures CacheOk(h', g', k) {
        FreeFrame(h, g, a, h.caches[k0].freelist, k);
        if k == k0 { Pushed(h'.mem, h.per, k, j0, g.free[k]); }
      }
    }
  }

  lemma Pushed(mem: map<int, Ptr>, per: nat, k: Key, j: nat, js: seq<nat>)
    requires k.ci < 9 && NoDup(js) && j !in js && j < Quota(k.ci) && (forall i | i in js :: i < Quota(k.ci))
    requires Chain(mem, per, k, Load(mem, Slot(per, k, j)), js)
    ensures NoDup([j] + js) && (forall i | i in [j] + js :: i < Quota(k.ci))
      && Chain(mem, per, k, At(Slot(per, k, j)), [j] + js)
  {
    hide Slot, Quota;
    assert ([j] + js)[1..] == js;
  }

  /** Freeing a live block gives its object back to its cache, or gives up its piece of the bump part. */
  lemma FreeInv(h: Heap, g: Ledger, a: int)
    requires Ok(h, g) && a in g.live
    ensures Shaped(h) && HomeOk(h, g, a) && Ok(Free(h, At(a)), Freed(g, a))
  {
    hide NodeBase, Tagged, Off, Quota, Slot, Free, Chain;
    assert HomeOk(h, g, a);
    FreedCaches(h, g, a);
    var h', g' := Free(h, At(a)), Freed(g, a);
    assert h' == h.(mem := h'.mem, caches := h'.caches) by {
      if g.home[a].InBump? { FreeBump(h, g, a); } else { FreeSlot(h, g, a); }
    }
    forall n | 0 <= n < h.nodes ensures NodeOk(h', n) { assert NodeOk(h, n); }
    forall b | b in g'.live ensures HomeOk(h', g', b) { FreedHome(h, g, a, b); }
    forall k: Key, j: nat | InRange(k, h.nodes) && j < Quota(k.ci) ensures SlotOk(h', g', k, j) {
      assert SlotOk(h, g, k, j);
    }
    forall b, c | b in g'.live && c in g'.live ensures BumpsApart(g', b, c) { assert BumpsApart(g, b, c); }
  }

  lemma FreedHome(h: Heap, g: Ledger, a: int, b: int)
    requires Ok(h, g) && a in g.live && b in g.live && a != b && HomeOk(h, g, a)
    ensures HomeOk(h, Freed(g, a), b)
  {
    hide NodeBase, Tagged, Off, Quota, Slot, Free, Chain;
    assert HomeOk(h, g, b);
    if g.home[a].InSlot? && g.home[b].InSlot? {
      assert (g.home[a].k, g.home[a].j) != (g.home[b].k, g.home[b].j);
    }
  }

  // ---------------------------------------------------------------- runs

  /** The heap is sound for clients that hold the blocks `live`. */
  ghost predicate Inv(h: Heap, live: map<int, nat>) { exists g :: Ok(h, g) && g.live == live }

  datatype Op =
    | TakeSlab(size: nat, node: nat) | TakeBump(size: nat, node: nat) | Kfree(p: Ptr) | Write(mem: map<int, Ptr>)

  /** What clients hold after `p` was handed out, if it was. */
  function HandOut(live: map<int, nat>, p: Ptr, size: nat): map<int, nat> {
    if p == Null then live else live[p.off := size]
  }

  /** One locked section, of any call on any CPU: `kmalloc_node` is a row of them, one per node tried, and others may
      come in between. Clients free only null, pointers outside the pool, or blocks they hold, and they write only into
      blocks they hold. */
  ghost predicate Next(h: Heap, live: map<int, nat>, op: Op, h': Heap, live': map<int, nat>) {
    Shaped(h) &&
    match op
    case TakeSlab(size, n) =>
      && n < h.nodes && 0 < size <= 4096 && CidxFrom(size, 0) < 9
      && var r := AllocFromNode(h, Key(n, CidxFrom(size, 0))); h' == r.0 && live' == HandOut(live, r.1, size)
    case TakeBump(size, n) =>
      && n < h.nodes && 0 < size < TWO64
      && var r := BumpAlloc(h, n, size); h' == r.0 && live' == HandOut(live, r.1, size)
    case Kfree(p) =>
      (InPool(p) ==> p.off in live) && h' == Free(h, p) && live' == if InPool(p) then live - {p.off} else live
    case Write(mem) => WritesOnlyLive(live, h.mem, mem) && h' == h.(mem := mem) && live' == live
  }

  /** A bump section for a size whose end slips through. */
  predicate SlipStep(h: Heap, op: Op) { op.TakeBump? && Slips(h, op.node, op.size) }

  lemma StepInv(h: Heap, live: map<int, nat>, op: Op, h': Heap, live': map<int, nat>)
    requires Inv(h, live) && Next(h, live, op, h', live') && !SlipStep(h, op)
    ensures Inv(h', live')
  {
    hide Ok, AllocFromNode, BumpAlloc, Slips, Free, WritesOnlyLive, CidxFrom, SizeOf;
    var g :| Ok(h, g) && g.live == live;
    match op
    case TakeSlab(size, n) =>
      BestCache(size);
      var g' := SlabInv(h, g, Key(n, CidxFrom(size, 0)), size);
      assert Ok(h', g');
    case TakeBump(size, n) =>
      var g' := BumpInv(h, g, n, size);
      assert Ok(h', g');
    case Kfree(p) =>
      if InPool(p) { FreeInv(h, g, p.off); assert p == At(p.off); assert Freed(g, p.off).live == live'; }
      else { FreeForeign(h, p); }
    case Write(mem) => WriteInv(h, g, mem);
  }

  /** The bump section keeps the heap sound exactly when the end of the block does not slip through. */
  lemma BumpExact(h: Heap, live: map<int, nat>, size: nat, n: nat)
    requires Inv(h, live) && n < h.nodes && 0 < size < TWO64
    ensures Shaped(h) && var r := BumpAlloc(h, n, size);
      Inv(r.0, HandOut(live, r.1, size)) <==> !Slips(h, n, size)
  {
    hide Ok, BumpAlloc, Slips;
    var g :| Ok(h, g) && g.live == live;
    OkShaped(h, g);
    var g' := BumpInv(h, g, n, size);
    var (h', p) := BumpAlloc(h, n, size);
    if Slips(h, n, size) {
      NoneOutside(h', HandOut(live, p, size), p, size);
    } else {
      assert Ok(h', g') && g'.live == HandOut(live, p, size);
    }
  }

  lemma NoneOutside(h: Heap, live: map<int, nat>, p: Ptr, size: nat)
    requires Outside(p, size) && p.off in live && live[p.off] == size
    ensures !Inv(h, live)
  {
    hide Ok;
    if Inv(h, live) {
      var g :| Ok(h, g) && g.live == live;
      LiveInPool(h, g, p.off);
    }
  }

  /** The same for a whole call that no other section interrupts. */
  lemma CallExact(h: Heap, live: map<int, nat>, size: nat, wanted: nat)
    requires Inv(h, live) && size < TWO64
    ensures Shaped(h) && var r := Alloc(h, size, wanted);
      && (Inv(r.0, HandOut(live, r.1, size)) <==> !WildCall(h, size, wanted))
      && (!WildCall(h, size, wanted) && r.1 != Null ==> r.1.off !in live)
  {
    hide Ok, Alloc, WildCall;
    var g :| Ok(h, g) && g.live == live;
    OkShaped(h, g);
    var g' := AllocExact(h, g, size, wanted);
    var (h', p) := Alloc(h, size, wanted);
    if WildCall(h, size, wanted) {
      NoneOutside(h', HandOut(live, p, size), p, size);
    } else {
      assert Ok(h', g') && g'.live == HandOut(live, p, size);
    }
  }

  lemma FreeForeign(h: Heap, p: Ptr)
    requires Shaped(h) && !InPool(p)
    ensures Free(h, p) == h
  {
  }

  predicate Within(live: map<int, nat>, a: int)
    requires a in live
  {
    0 <= a && a + live[a] <= 0x100_0000
  }

  /** Live blocks lie in the pool and do not overlap; every freelist is a chain of distinct objects of its cache that
      no live block overlaps, as long as its counter says; and these and the live objects are all there are. */
  ghost predicate Safe(h: Heap, live: map<int, nat>) {
    && Shaped(h)
    && (forall a | a in live :: Within(live, a))
    && (forall a, b | a in live && b in live && a != b :: Apart(a, live[a], b, live[b]))
    && (forall k | InRange(k, h.nodes) :: exists js, held :: FreelistSafe(h, live, k, js, held))
  }

  ghost predicate FreelistSafe(h: Heap, live: map<int, nat>, k: Key, js: seq<nat>, held: set<nat>) {
    && InRange(k, h.nodes) && k in h.caches && NoDup(js)
    && var c := h.caches[k];
    && Chain(h.mem, h.per, k, c.freelist, js) && |js| == c.freeCount && |js| + |held| == c.total == Quota(k.ci)
    && (forall j | j in js :: j < c.total && forall a | a in live :: Apart(Slot(h.per, k, j), SizeOf(k.ci), a, live[a]))
    && (forall j: nat | j in held ::
          j < c.total && j !in js && Slot(h.per, k, j) in live && live[Slot(h.per, k, j)] <= SizeOf(k.ci))
  }

  lemma FreelistsSafe(h: Heap, g: Ledger, k: Key)
    requires Ok(h, g) && InRange(k, h.nodes)
    ensures k in g.free && FreelistSafe(h, g.live, k, g.free[k], LiveSlots(h, g, k))
  {
    hide NodeBase, Tagged, Off, Quota, Slot, Chain, SizeOf, Below;
    assert CacheOk(h, g, k);
    Conservation(h, g, k);
    forall j | j in g.free[k] ensures forall a | a in g.live :: Apart(Slot(h.per, k, j), SizeOf(k.ci), a, g.live[a]) {
      forall a | a in g.live ensures Apart(Slot(h.per, k, j), SizeOf(k.ci), a, g.live[a]) {
        assert HomeOk(h, g, a);
        SlotLiveApart(h, g, k, j, a);
      }
    }
    forall j: nat | j in LiveSlots(h, g, k)
      ensures j < Quota(k.ci) && j !in g.free[k] && Slot(h.per, k, j) in g.live
        && g.live[Slot(h.per, k, j)] <= SizeOf(k.ci)
    {
      assert HomeOk(h, g, Slot(h.per, k, j));
    }
  }

  lemma InvSafe(h: Heap, live: map<int, nat>)
    requires Inv(h, live)
    ensures Safe(h, live)
  {
    hide Ok, FreelistSafe;
    var g :| Ok(h, g) && g.live == live;
    OkShaped(h, g);
    forall a | a in live ensures Within(live, a) { LiveInPool(h, g, a); }
    forall a, b | a in live && b in live && a != b ensures Apart(a, live[a], b, live[b]) { LiveApart(h, g, a, b); }
    forall k | InRange(k, h.nodes) ensures exists js, held :: FreelistSafe(h, live, k, js, held) {
      FreelistsSafe(h, g, k);
    }
  }

  /** What kmalloc_init leaves behind. */
  ghost predicate Initial(h: Heap) {
    && Shaped(h) && Tagged(h.owner, h.nodes, h.per)
    && (forall n | 0 <= n < h.nodes ::
          h.bump[n] == NodeBase(h.per, n) + 557056 && h.bumpEnd[n] == NodeBase(h.per, n + 1))
    && (forall k {:trigger Linked(h.mem, h.per, k)} | InRange(k, h.nodes) ::
          Linked(h.mem, h.per, k) && k in h.caches && h.caches[k] == FullCache(h.per, k))
  }

  function FullCache(per: nat, k: Key): Cache
    requires k.ci < 9
  {
    Cache(SizeOf(k.ci), At(Slot(per, k, 0)), Quota(k.ci), Quota(k.ci), Slot(per, k, 0))
  }

  /** Every object of the cache links to the next one, the last to null. */
  ghost predicate Linked(mem: map<int, Ptr>, per: nat, k: Key) {
    k.ci < 9 && forall j: nat | j < Quota(k.ci) :: LinkAt(mem, per, k, j)
  }

  ghost predicate LinkAt(mem: map<int, Ptr>, per: nat, k: Key, j: nat)
    requires k.ci < 9
  {
    Load(mem, Slot(per, k, j)) == if j + 1 < Quota(k.ci) then At(Slot(per, k, j + 1)) else Null
  }

  lemma {:induction false} LinkedChain(mem: map<int, Ptr>, per: nat, k: Key, j: nat)
    requires k.ci < 9 && Linked(mem, per, k) && j <= Quota(k.ci)
    ensures Chain(mem, per, k, if j < Quota(k.ci) then At(Slot(per, k, j)) else Null, From(j, Quota(k.ci)))
    decreases Quota(k.ci) - j
  {
    hide Slot, Quota;
    if j < Quota(k.ci) {
      assert LinkAt(mem, per, k, j);
      LinkedChain(mem, per, k, j + 1);
      assert From(j, Quota(k.ci))[1..] == From(j + 1, Quota(k.ci));
    }
  }

  ghost function FullLedger(nodes: nat): Ledger {
    Ledger(map k: Key | k in Keys(nodes) :: From(0, Quota(k.ci)), map[], map[])
  }

  ghost function Keys(nodes: nat): (s: set<Key>)
    ensures forall k :: k in s <==> InRange(k, nodes)
  {
    if nodes == 0 then {}
    else Keys(nodes - 1) + {Key(nodes - 1, 0), Key(nodes - 1, 1), Key(nodes - 1, 2), Key(nodes - 1, 3),
                            Key(nodes - 1, 4), Key(nodes - 1, 5), Key(nodes - 1, 6), Key(nodes - 1, 7),
                            Key(nodes - 1, 8)}
  }

  lemma InitialInv(h: Heap)
    requires Initial(h)
    ensures Inv(h, map[])
  {
    hide NodeBase, Tagged, Off, Quota, Slot, Chain, SizeOf, Keys, Linked;
    var g := FullLedger(h.nodes);
    forall k | InRange(k, h.nodes) ensures CacheOk(h, g, k) {
      assert Linked(h.mem, h.per, k);
      LinkedChain(h.mem, h.per, k, 0);
    }
    forall n | 0 <= n < h.nodes ensures NodeOk(h, n) { NodeEnd(h.nodes, h.per, n); }
    forall k: Key, j: nat | InRange(k, h.nodes) && j < Quota(k.ci) ensures SlotOk(h, g, k, j) {
      assert From(0, Quota(k.ci))[j] == j;
    }
    assert Ok(h, g);
  }

  ghost predicate Run(tr: seq<(Heap, map<int, nat>)>, ops: seq<Op>) {
    && |tr| == |ops| + 1 && Initial(tr[0].0) && tr[0].1 == map[]
    && forall i | 0 <= i < |ops| :: Next(tr[i].0, tr[i].1, ops[i], tr[i + 1].0, tr[i + 1].1)
  }

  /** Until an end slips through, every state of a run is safe. */
  lemma {:induction false} RunSafe(tr: seq<(Heap, map<int, nat>)>, ops: seq<Op>, i: nat)
    requires Run(tr, ops) && i < |tr| && forall j | 0 <= j < i :: !SlipStep(tr[j].0, ops[j])
    ensures Inv(tr[i].0, tr[i].1) && Safe(tr[i].0, tr[i].1)
  {
    hide Inv, Safe, Next, Initial, SlipStep;
    if i == 0 {
      InitialInv(tr[0].0);
    } else {
      RunSafe(tr, ops, i - 1);
      StepInv(tr[i - 1].0, tr[i - 1].1, ops[i - 1], tr[i].0, tr[i].1);
    }
    InvSafe(tr[i].0, tr[i].1);
  }

  /** The first states of a run are all safe exactly when no end slipped through before them. */
  lemma {:induction false} RunExact(tr: seq<(Heap, map<int, nat>)>, ops: seq<Op>, i: nat)
    requires Run(tr, ops) && i < |tr|
    ensures (forall j | 0 <= j <= i :: Safe(tr[j].0, tr[j].1)) <==> forall j | 0 <= j < i :: !SlipStep(tr[j].0, ops[j])
  {
    hide Inv, Safe, Next, Initial, SlipStep;
    if forall j | 0 <= j < i :: !SlipStep(tr[j].0, ops[j]) {
      forall j | 0 <= j <= i ensures Safe(tr[j].0, tr[j].1) { RunSafe(tr, ops, j); }
    } else {
      var k := FirstSlip(tr, ops, i);
      RunSafe(tr, ops, k);
      assert Next(tr[k].0, tr[k].1, ops[k], tr[k + 1].0, tr[k + 1].1);
      SlipUnsafe(tr[k].0, tr[k].1, ops[k], tr[k + 1].0, tr[k + 1].1);
      assert 0 <= k + 1 <= i && !Safe(tr[k + 1].0, tr[k + 1].1);
    }
  }

  lemma {:induction false} FirstSlip(tr: seq<(Heap, map<int, nat>)>, ops: seq<Op>, i: nat) returns (k: nat)
    requires i <= |ops| < |tr| && exists j | 0 <= j < i :: SlipStep(tr[j].0, ops[j])
    ensures k < i && SlipStep(tr[k].0, ops[k]) && forall j | 0 <= j < k :: !SlipStep(tr[j].0, ops[j])
  {
    hide SlipStep;
    if exists j | 0 <= j < i - 1 :: SlipStep(tr[j].0, ops[j]) { k := FirstSlip(tr, ops, i - 1); } else { k := i - 1; }
  }

  lemma SlipUnsafe(h: Heap, live: map<int, nat>, op: Op, h': Heap, live': map<int, nat>)
    requires Inv(h, live) && SlipStep(h, op) && Next(h, live, op, h', live')
    ensures !Safe(h', live')
  {
    hide Ok, BumpAlloc, Slips, FreelistSafe;
    var g :| Ok(h, g) && g.live == live;
    var g' := BumpInv(h, g, op.node, op.size);
    var p := BumpAlloc(h, op.node, op.size).1;
    assert !Within(live', p.off);
  }

  /** The size check relies on the end of the block not wrapping: right after start-up, a request that reaches exactly
      around the address space is granted a block far longer than the pool. */
  lemma OversizeGranted(h: Heap)
    requires Initial(h)
    ensures var size := TWO64 - h.addr - 557056;
      WildCall(h, size, 0) && Alloc(h, size, 0).1 == At(557056) && Outside(At(557056), size)
  {
    hide Tagged, Off, Quota, Slot, SizeOf, Linked, CidxFrom;
    var size := TWO64 - h.addr - 557056;
    CidxBest(size, 0);
    assert CidxFrom(size, 0) < 9 ==> size <= 4096;
    assert h.bump[0] == 557056;
    NodeEnd(h.nodes, h.per, 0);
  }

  /** The wanted node comes first: its freelist's head if it has one, else, with no object left anywhere, its bump
      part. */
  lemma AllocPrefers(h: Heap, g: Ledger, size: nat, wanted: nat)
    requires Ok(h, g) && 0 < size < TWO64
    ensures Shaped(h) && var node, ci, p := Home0(h, wanted), CidxFrom(size, 0), Alloc(h, size, wanted).1;
      && (size <= 4096 ==> ci < 9)
      && (size <= 4096 && !SlabEmpty(h, node, ci) ==>
            Key(node, ci) in g.free && g.free[Key(node, ci)] != []
              && p == At(Slot(h.per, Key(node, ci), g.free[Key(node, ci)][0])))
      && (!NoRoom(h, node, size) && NoObjects(h, size) ==> node < |h.bump| && p == At(Align64(h.bump[node])))
  {
    hide Ok, NoRoom, Slips, SlabEmpty, SlabElsewhere, BumpElsewhere, CidxFrom, Slot, Align64, SizeOf;
    OkShaped(h, g);
    var node := Home0(h, wanted);
    BestCache(size);
    var ci := CidxFrom(size, 0);
    var g1 := BumpInv(h, g, node, size);
    if ci < 9 {
      SlabFails(h, g, Key(node, ci));
      if g.free[Key(node, ci)] != [] { HeadFresh(h, g, Key(node, ci)); }
      var g' := SlabAnywhereInv(h, g, ci, node, size);
    }
  }

  /** The wanted node is tried first, then the others from 0 up. */
  predicate Earlier(l: nat, m: nat, node: nat) { l != m && (l == node || (m != node && l < m)) }

  lemma {:induction false} SlabElsewhereFirst(h: Heap, g: Ledger, ci: nat, node: nat, n: nat, m: nat)
    requires Ok(h, g) && ci < 9 && n <= m < h.nodes && m != node && !SlabEmpty(h, m, ci)
    requires forall l | n <= l < m && l != node :: SlabEmpty(h, l, ci)
    ensures SlabElsewhere(h, ci, node, n) == AllocFromNode(h, Key(m, ci))
    decreases m - n
  {
    hide Ok, AllocFromNode;
    if n != node {
      SlabFails(h, g, Key(n, ci));
      if n < m { Untaken(h, g, Key(n, ci)); }
    }
    if n < m { SlabElsewhereFirst(h, g, ci, node, n + 1, m); }
  }

  lemma Untaken(h: Heap, g: Ledger, k: Key)
    requires Ok(h, g) && InRange(k, h.nodes) && SlabEmpty(h, k.node, k.ci)
    ensures AllocFromNode(h, k) == (h, Null)
  {
    hide Ok;
    assert k == Key(k.node, k.ci);
  }

  /** A small request is served by the freelist of the first node in this order that has an object left. */
  lemma ServedBySlab(h: Heap, g: Ledger, size: nat, wanted: nat, m: nat)
    requires Ok(h, g) && 0 < size <= 4096 && m < h.nodes && CidxFrom(size, 0) < 9 && !SlabEmpty(h, m, CidxFrom(size, 0))
    requires forall l | 0 <= l < h.nodes && Earlier(l, m, Home0(h, wanted)) :: SlabEmpty(h, l, CidxFrom(size, 0))
    ensures Alloc(h, size, wanted) == AllocFromNode(h, Key(m, CidxFrom(size, 0)))
  {
    hide Ok, AllocFromNode, SlabElsewhere, CidxFrom, SlabEmpty;
    OkShaped(h, g);
    var node, ci := Home0(h, wanted), CidxFrom(size, 0);
    SlabFails(h, g, Key(m, ci));
    if m != node {
      assert SlabEmpty(h, node, ci);
      Untaken(h, g, Key(node, ci));
      SlabElsewhereFirst(h, g, ci, node, 0, m);
    }
  }

  lemma {:induction false} BumpElsewhereFirst(h: Heap, g: Ledger, size: nat, node: nat, n: nat, m: nat)
    requires Ok(h, g) && 0 < size < TWO64 && n <= m < h.nodes && m != node
    requires !NoRoom(h, m, size) || Slips(h, m, size)
    requires forall l | n <= l < m && l != node :: NoRoom(h, l, size) && !Slips(h, l, size)
    ensures BumpElsewhere(h, size, node, n) == BumpAlloc(h, m, size)
    decreases m - n
  {
    hide Ok, BumpAlloc, NoRoom, Slips;
    OkShaped(h, g);
    if n != node {
      var g' := BumpInv(h, g, n, size);
      if n < m { Uncut(h, n, size); }
    }
    if n < m { BumpElsewhereFirst(h, g, size, node, n + 1, m); }
  }

  lemma Uncut(h: Heap, n: nat, size: nat)
    requires Shaped(h) && n < h.nodes && BumpAlloc(h, n, size).1 == Null
    ensures BumpAlloc(h, n, size) == (h, Null)
  {
  }

  /** Any other request is served by the bump part of the first node in this order that does not refuse. */
  lemma ServedByBump(h: Heap, g: Ledger, size: nat, wanted: nat, m: nat)
    requires Ok(h, g) && 0 < size < TWO64 && m < h.nodes && NoObjects(h, size)
    requires !NoRoom(h, m, size) || Slips(h, m, size)
    requires forall l | 0 <= l < h.nodes && Earlier(l, m, Home0(h, wanted)) :: NoRoom(h, l, size) && !Slips(h, l, size)
    ensures Shaped(h) && Alloc(h, size, wanted) == BumpAlloc(h, m, size)
  {
    hide Ok, SlabAnywhere, BumpElsewhere, BumpAlloc, CidxFrom, SlabEmpty, NoRoom, Slips, SizeOf;
    OkShaped(h, g);
    var node, ci := Home0(h, wanted), CidxFrom(size, 0);
    BestCache(size);
    if ci < 9 {
      var g' := SlabAnywhereInv(h, g, ci, node, size);
      GrantedInPool(h, g, SlabAnywhere(h, ci, node), g', size);
    }
    var g' := BumpInv(h, g, node, size);
    if m != node {
      Uncut(h, node, size);
      BumpElsewhereFirst(h, g, size, node, 0, m);
    }
  }

  // ---------------------------------------------------------------- what a sound heap never has

  /** A freelist whose head lies outside the pool, which only a stray write can bring about, is given up. */
  lemma StrayHead(h: Heap, k: Key)
    requires Shaped(h) && InRange(k, h.nodes) && k in h.caches && h.caches[k].freelist.At?
    requires !(0 <= h.caches[k].freelist.off < 0x100_0000)
    ensures var (h', p) := AllocFromNode(h, k);
      && p == Null && k in h'.caches && h' == h.(caches := h.caches[k := h'.caches[k]])
      && h'.caches[k] == h.caches[k].(freelist := Null, freeCount := 0)
  {
  }

  /** Freeing a pointer that leads to no cache changes nothing. */
  lemma FreeUntagged(h: Heap, p: Ptr)
    requires Shaped(h)
    requires !InPool(p) || h.owner[p.off / 16] == 255 || h.owner[p.off / 16] % 16 == 15
      || h.owner[p.off / 16] / 16 >= h.nodes
    ensures Free(h, p) == h
  {
  }
}
