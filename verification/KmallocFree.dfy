/** kfree of any pointer: exactly when it keeps the heap sound. */
module KmallocFree {
  import opened Bits
  import opened OrderedSeq
  import opened KmallocLayout
  import opened Kmalloc
  import opened KmallocInv

  // ---------------------------------------------------------------- which object a pointer leads to

  /** The stretch a granule lies in, if any. */
  lemma {:induction false} Stretched(nodes: nat, per: nat, g: nat, m: nat) returns (n: nat)
    requires m <= nodes && g < NodeGran(per, m)
    ensures n < m && NodeGran(per, n) <= g < NodeGran(per, n + 1)
    decreases m
  {
    hide NodeBase;
    if m == 0 {
      assert NodeBase(per, 0) == 0 by { FirstBase(per); }
      assert false;
    } else if NodeGran(per, m - 1) <= g {
      n := m - 1;
    } else {
      n := Stretched(nodes, per, g, m - 1);
    }
  }

  lemma FirstBase(per: nat)
    ensures NodeBase(per, 0) == 0
  {
  }

  /** The region of a stretch, counted in granules from its start. */
  lemma Region(x: nat) returns (ci: nat)
    requires x < 34816
    ensures ci < 9 && Off(ci) / 16 <= x < Off(ci + 1) / 16
  {
    hide Off;
    ci := if x < 1024 then 0 else if x < 2048 then 1 else if x < 4096 then 2 else if x < 6144 then 3
      else if x < 10240 then 4 else if x < 14336 then 5 else if x < 18432 then 6 else if x < 26624 then 7 else 8;
    OffAt(ci);
    OffAt(ci + 1);
  }

  lemma BumpMarked(owner: seq<nat>, nodes: nat, per: nat, n: nat, g: nat)
    requires Tagged(owner, nodes, per) && n < nodes && g < |owner|
    requires NodeGran(per, n) + 34816 <= g < NodeGran(per, n + 1)
    ensures owner[g] % 16 == 15
  {
    hide NodeGran;
    assert owner[g] == Tag(n, 15);
  }

  /** A tag that names a cache stands only on the granules of that cache. */
  lemma TagMeans(owner: seq<nat>, nodes: nat, per: nat, g: nat)
    requires Split(nodes, per) && Tagged(owner, nodes, per) && g < |owner|
    requires owner[g] != INVALID && owner[g] % 16 != 15
    ensures var k := Key(owner[g] / 16, owner[g] % 16);
      && InRange(k, nodes)
      && NodeGran(per, k.node) + Off(k.ci) / 16 <= g < NodeGran(per, k.node) + Off(k.ci + 1) / 16
  {
    hide Off, NodeGran;
    if g < NodeGran(per, nodes) {
      var n := Stretched(nodes, per, g, nodes);
      if g >= NodeGran(per, n) + 34816 { BumpMarked(owner, nodes, per, n, g); }
      var ci := Region(g - NodeGran(per, n));
      assert owner[g] == Tag(n, ci) && Tag(n, ci) / 16 == n && Tag(n, ci) % 16 == ci;
    }
  }

  lemma Inside(s: nat, q: nat, d: nat)
    requires s > 0 && d < s * q && d % s == 0
    ensures d / s < q && d == (d / s) * s
  {
    DivMod(d, s);
    Smaller(s, d / s, q);
  }

  /** If kfree does anything with a pointer into the pool, it is the address of an object. */
  lemma FreeTarget(h: Heap, g: Ledger, p: Ptr) returns (k: Key, j: nat)
    requires Ok(h, g) && InPool(p) && Free(h, p) != h
    ensures InRange(k, h.nodes) && j < Quota(k.ci) && p == At(Slot(h.per, k, j))
    ensures k in h.caches && h.caches[k].freeCount < h.caches[k].total
  {
    hide Tagged, Chain, SizeOf, Quota, Off, NodeBase;
    var ow := h.owner[p.off / 16];
    k := Key(ow / 16, ow % 16);
    TagMeans(h.owner, h.nodes, h.per, p.off / 16);
    assert CacheOk(h, g, k);
    OffFacts(k.ci);
    OffFacts(k.ci + 1);
    FirstSlot(h.per, k);
    var d, s := p.off - h.caches[k].cbase, SizeOf(k.ci);
    Offset(NodeBase(h.per, k.node), Off(k.ci), Off(k.ci + 1), p.off);
    if d < 0 {
      BeforeRegion(k.ci, -d);
      assert false;
    } else {
      ModUnique(d, TWO64, 0, d);
      Inside(s, Quota(k.ci), d);
      j := d / s;
    }
  }

  lemma BeforeRegion(ci: nat, r: int)
    requires ci < 9 && 0 < r < 16
    ensures (-r % TWO64) % SizeOf(ci) != 0
  {
    assert -r % TWO64 == TWO64 - r;
  }

  lemma InteriorOffset(j: nat, s: nat, d: nat)
    requires 0 < d < s <= 4096 && j <= 1024
    ensures ((j * s + d) % TWO64) % s == d
  {
    assert j * s <= 1024 * s;
    ModUnique(j * s + d, TWO64, 0, j * s + d);
    ModUnique(j * s + d, s, j, d);
  }

  lemma Offset(base: nat, lo: nat, hi: nat, p: int)
    requires lo % 16 == 0 && hi % 16 == 0 && 0 <= p && base / 16 + lo / 16 <= p / 16 < base / 16 + hi / 16
    ensures -16 < p - (base + lo) < hi - lo
  {
  }

  // ---------------------------------------------------------------- freeing twice

  lemma SameSlot(per: nat, k: Key, a: nat, b: nat)
    requires k.ci < 9 && Slot(per, k, a) == Slot(per, k, b)
    ensures a == b
  {
    hide SizeOf, Off, NodeBase;
    if a < b { SlotStep(k.ci, a, b); }
    if b < a { SlotStep(k.ci, b, a); }
  }

  /** What pushing an object on the freelist of its cache does, whoever holds it. */
  lemma FreePushes(h: Heap, g: Ledger, k: Key, j: nat)
    requires Ok(h, g) && InRange(k, h.nodes) && j < Quota(k.ci) && k in h.caches
    requires h.caches[k].freeCount < h.caches[k].total
    ensures var a := Slot(h.per, k, j);
      Free(h, At(a)) == h.(mem := h.mem[a := h.caches[k].freelist],
                           caches := h.caches[k := h.caches[k].(freelist := At(a),
                                                                freeCount := h.caches[k].freeCount + 1)])
  {
    hide NodeBase, Tagged, Chain, Off, Quota, SizeOf;
    SlotTag(h.owner, h.nodes, h.per, k, j);
    assert Tag(k.node, k.ci) / 16 == k.node && Tag(k.node, k.ci) % 16 == k.ci;
    assert CacheOk(h, g, k);
    SlotDistance(h.per, k, j);
  }

  /** Two chains from the same head run through the same objects until they meet the one whose link differs. */
  lemma {:induction false} ChainsMeet(mem: map<int, Ptr>, mem': map<int, Ptr>, per: nat, k: Key, head: Ptr,
      js: seq<nat>, js': seq<nat>, j: nat)
    requires k.ci < 9 && Chain(mem, per, k, head, js) && Chain(mem', per, k, head, js') && j in js
    requires forall i | i in js && i != j :: Load(mem', Slot(per, k, i)) == Load(mem, Slot(per, k, i))
    ensures j in js'
    decreases |js|
  {
    hide Slot, Load;
    assert js' != [];
    SameSlot(per, k, js[0], js'[0]);
    if js[0] != j {
      assert j in js[1..] && js[0] in js;
      ChainsMeet(mem, mem', per, k, Load(mem, Slot(per, k, js[0])), js[1..], js'[1..], j);
    }
  }

  /** An object that is free already is pushed a second time: its freelist is a circle, and no longer sound. */
  lemma FreeTwice(h: Heap, g: Ledger, k: Key, j: nat, live: map<int, nat>)
    requires Ok(h, g) && InRange(k, h.nodes) && k in g.free && j in g.free[k] && k in h.caches
    requires h.caches[k].freeCount < h.caches[k].total
    ensures j < Quota(k.ci) && !Inv(Free(h, At(Slot(h.per, k, j))), live)
  {
    hide Ok, Chain, Slot, Quota;
    OkShaped(h, g);
    CacheFacts(h, g, k);
    FreePushes(h, g, k, j);
    var h', a := Free(h, At(Slot(h.per, k, j))), Slot(h.per, k, j);
    if Inv(h', live) {
      var g' :| Ok(h', g') && g'.live == live;
      CacheFacts(h', g', k);
      var js' := g'.free[k];
      ChainHead(h'.mem, h.per, k, j, js');
      forall i | i in g.free[k] && i != j ensures Load(h'.mem, Slot(h.per, k, i)) == Load(h.mem, Slot(h.per, k, i)) {
        if Slot(h.per, k, i) == a { SameSlot(h.per, k, i, j); }
      }
      ChainsMeet(h.mem, h'.mem, h.per, k, h.caches[k].freelist, g.free[k], js'[1..], j);
    }
  }

  lemma CacheFacts(h: Heap, g: Ledger, k: Key)
    requires Ok(h, g) && InRange(k, h.nodes)
    ensures k in h.caches && k in g.free && NoDup(g.free[k]) && (forall j | j in g.free[k] :: j < Quota(k.ci))
    ensures Chain(h.mem, h.per, k, h.caches[k].freelist, g.free[k])
  {
    assert CacheOk(h, g, k);
  }

  lemma ChainHead(mem: map<int, Ptr>, per: nat, k: Key, j: nat, js: seq<nat>)
    requires k.ci < 9 && Chain(mem, per, k, At(Slot(per, k, j)), js)
    ensures js != [] && js[0] == j && Chain(mem, per, k, Load(mem, Slot(per, k, j)), js[1..])
  {
    hide Slot;
    SameSlot(per, k, js[0], j);
  }

  // ---------------------------------------------------------------- every pointer

  /** `p` is the address of an object of a cache that has room on its freelist. */
  ghost predicate Pushable(h: Heap, p: Ptr) {
    exists k: Key, j: nat :: InRange(k, h.nodes) && j < Quota(k.ci) && p == At(Slot(h.per, k, j))
      && k in h.caches && h.caches[k].freeCount < h.caches[k].total
  }

  /** kfree does something exactly with such a pointer. Null, pointers outside the pool, bump blocks, pointers into the
      middle of an object and objects of a cache that is all free are ignored. */
  lemma FreeEffect(h: Heap, g: Ledger, p: Ptr)
    requires Ok(h, g)
    ensures Shaped(h) && (Free(h, p) != h <==> Pushable(h, p))
  {
    hide Ok, Free, Slot, Quota;
    OkShaped(h, g);
    if Pushable(h, p) {
      var k: Key, j: nat :| InRange(k, h.nodes) && j < Quota(k.ci) && p == At(Slot(h.per, k, j))
        && k in h.caches && h.caches[k].freeCount < h.caches[k].total;
      FreePushes(h, g, k, j);
    } else if !InPool(p) {
      FreeUntagged(h, p);
    } else if Free(h, p) != h {
      var k, j := FreeTarget(h, g, p);
    }
  }

  /** kfree of any pointer at all keeps the heap sound exactly when it does not push an object that nobody holds. */
  lemma FreeExact(h: Heap, live: map<int, nat>, p: Ptr)
    requires Inv(h, live)
    ensures Shaped(h)
    ensures Inv(Free(h, p), if p.At? then live - {p.off} else live) <==> !(Pushable(h, p) && p.off !in live)
  {
    hide Ok, Free, Slot, Quota;
    var g :| Ok(h, g) && g.live == live;
    OkShaped(h, g);
    FreeEffect(h, g, p);
    if p.At? && p.off in live {
      FreeInv(h, g, p.off);
    } else if Pushable(h, p) {
      var k: Key, j: nat :| InRange(k, h.nodes) && j < Quota(k.ci) && p == At(Slot(h.per, k, j))
        && k in h.caches && h.caches[k].freeCount < h.caches[k].total;
      NotLive(h, g, k, j);
      FreeTwice(h, g, k, j, live - {p.off});
    } else {
      assert p.At? ==> live - {p.off} == live;
    }
  }

  lemma NotLive(h: Heap, g: Ledger, k: Key, j: nat)
    requires Ok(h, g) && InRange(k, h.nodes) && j < Quota(k.ci) && Slot(h.per, k, j) !in g.live
    ensures k in g.free && j in g.free[k]
  {
    hide Slot, Quota, Chain, Tagged;
    assert SlotOk(h, g, k, j);
  }
}
