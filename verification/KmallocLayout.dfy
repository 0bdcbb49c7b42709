/** The layout kmalloc_init gives the heap pool (src/mm/kmalloc.c): one stretch per NUMA node, in it one
    region per object size, and after the regions the stretch the bump allocator hands out. */
module KmallocLayout {
  const GRANULES: nat := 0x10_0000
  const INVALID: nat := 255

  function SizeOf(ci: nat): (s: nat)
    requires ci < 9
    ensures 16 <= s <= 4096 && s % 16 == 0
  {
    match ci
    case 0 => 16 case 1 => 32 case 2 => 64 case 3 => 128 case 4 => 256
    case 5 => 512 case 6 => 1024 case 7 => 2048 case _ => 4096
  }

  function Quota(ci: nat): (q: nat)
    requires ci < 9
    ensures 32 <= q <= 1024
  {
    match ci
    case 0 => 1024 case 1 => 512 case 2 => 512 case 3 => 256 case 4 => 256
    case 5 => 128 case 6 => 64 case 7 => 64 case _ => 32
  }

  /** `node_quota`. */
  function NodeQuota(ci: nat, size: nat): nat
    requires ci < 9
  {
    var target := size * 3 / 4;
    var q := Quota(ci) * target / 557056;
    var capped := if q > Quota(ci) then Quota(ci) else q;
    if capped != 0 then capped else 1
  }

  /** With at most eight nodes every stretch is big enough for the full quotas. */
  lemma FullQuota(ci: nat, size: nat)
    requires ci < 9 && size >= 0x20_0000
    ensures NodeQuota(ci, size) == Quota(ci)
  {
    var target := size * 3 / 4;
    assert target >= 557056;
    Scaled(Quota(ci), target);
  }

  lemma Scaled(q: nat, target: nat)
    requires target >= 557056
    ensures q * target / 557056 >= q
  {
    var extra := target - 557056;
    assert q * target == q * 557056 + q * extra;
    assert q * extra >= 0;
  }

  /** Where the region of cache `ci` starts in a node's stretch. */
  function Off(ci: nat): nat
    requires ci <= 9
  {
    if ci == 0 then 0 else Off(ci - 1) + SizeOf(ci - 1) * Quota(ci - 1)
  }

  lemma {:induction false} OffAt(ci: nat)
    requires ci <= 9
    ensures Off(ci) == match ci
      case 0 => 0 case 1 => 16384 case 2 => 32768 case 3 => 65536 case 4 => 98304
      case 5 => 163840 case 6 => 229376 case 7 => 294912 case 8 => 425984 case _ => 557056
  {
    if ci > 0 { OffAt(ci - 1); }
  }

  /** The regions follow one another and fill exactly the slab share of the stretch. */
  lemma OffFacts(ci: nat)
    requires ci <= 9
    ensures Off(ci) % 16 == 0 && Off(ci) <= 557056 && Off(9) == 557056
    ensures ci < 9 ==> Off(ci + 1) == Off(ci) + SizeOf(ci) * Quota(ci)
  {
    hide Off;
    OffAt(ci);
    OffAt(9);
    if ci < 9 { OffAt(ci + 1); }
  }

  lemma OffMonotone(ci: nat, ci': nat)
    requires ci <= ci' <= 9
    ensures Off(ci) <= Off(ci')
  {
    hide Off;
    OffAt(ci);
    OffAt(ci');
  }

  datatype Key = Key(node: nat, ci: nat)

  predicate InRange(k: Key, nodes: nat) { k.node < nodes && k.ci < 9 }

  function NodeBase(per: nat, n: nat): nat { n * per }

  function SlotOff(ci: nat, j: nat): nat
    requires ci < 9
  {
    Off(ci) + j * SizeOf(ci)
  }

  /** The address, relative to the pool, of object `j` of a cache. */
  function Slot(per: nat, k: Key, j: nat): nat
    requires k.ci < 9
  {
    NodeBase(per, k.node) + SlotOff(k.ci, j)
  }

  predicate Split(nodes: nat, per: nat) { 1 <= nodes <= 8 && per == 0x100_0000 / nodes }

  lemma Stretch(nodes: nat, per: nat)
    requires Split(nodes, per)
    ensures per >= 0x20_0000 && NodeBase(per, nodes) <= 0x100_0000
  {
    match nodes
    case 1 => case 2 => case 3 => case 4 => case 5 => case 6 => case 7 => case _ =>
  }

  lemma NodeBaseStep(per: nat, n: nat)
    ensures NodeBase(per, n + 1) == NodeBase(per, n) + per
  {
  }

  lemma NodeBaseMonotone(per: nat, n: nat, m: nat)
    requires n <= m
    ensures NodeBase(per, n) <= NodeBase(per, m)
  {
    assert (m - n) * per >= 0;
    assert m * per == n * per + (m - n) * per;
  }

  lemma SlotStep(ci: nat, j: nat, j': nat)
    requires ci < 9 && j < j'
    ensures SlotOff(ci, j) + SizeOf(ci) <= SlotOff(ci, j')
  {
    var s := SizeOf(ci);
    assert (j' - j - 1) * s >= 0;
    assert j' * s == j * s + s + (j' - j - 1) * s;
  }

  lemma SlotInRegion(ci: nat, j: nat)
    requires ci < 9 && j < Quota(ci)
    ensures Off(ci) <= SlotOff(ci, j) && SlotOff(ci, j) + SizeOf(ci) <= Off(ci + 1) <= 557056
  {
    hide SizeOf, Quota, Off;
    OffFacts(ci);
    OffFacts(ci + 1);
    Within(SizeOf(ci), Quota(ci), j);
  }

  lemma Within(s: nat, q: nat, j: nat)
    requires j < q
    ensures 0 <= j * s && j * s + s <= s * q
  {
    assert (q - j - 1) * s >= 0;
    assert s * q == j * s + s + (q - j - 1) * s;
  }

  /** A slot lies inside its node's stretch, before the bump part. */
  lemma SlotInNode(per: nat, k: Key, j: nat)
    requires k.ci < 9 && j < Quota(k.ci)
    ensures NodeBase(per, k.node) <= Slot(per, k, j)
    ensures Slot(per, k, j) + SizeOf(k.ci) <= NodeBase(per, k.node) + 557056
  {
    hide SizeOf, Quota, Off, SlotOff, NodeBase;
    SlotInRegion(k.ci, j);
    OffFacts(k.ci);
  }

  predicate Apart(a: int, n: int, b: int, m: int) { a + n <= b || b + m <= a }

  /** Different objects never overlap. */
  lemma SlotsApart(nodes: nat, per: nat, k: Key, j: nat, k': Key, j': nat)
    requires Split(nodes, per) && k.ci < 9 && k'.ci < 9 && j < Quota(k.ci) && j' < Quota(k'.ci) && (k, j) != (k', j')
    ensures Apart(Slot(per, k, j), SizeOf(k.ci), Slot(per, k', j'), SizeOf(k'.ci))
  {
    if k.node < k'.node {
      NodesApart(nodes, per, k, j, k', j');
    } else if k'.node < k.node {
      NodesApart(nodes, per, k', j', k, j);
    } else if k.ci < k'.ci {
      CachesApart(per, k, j, k', j');
    } else if k'.ci < k.ci {
      CachesApart(per, k', j', k, j);
    } else if j < j' {
      SlotStep(k.ci, j, j');
    } else {
      SlotStep(k.ci, j', j);
    }
  }

  lemma NodesApart(nodes: nat, per: nat, k: Key, j: nat, k': Key, j': nat)
    requires Split(nodes, per) && k.ci < 9 && k'.ci < 9 && j < Quota(k.ci) && j' < Quota(k'.ci) && k.node < k'.node
    ensures Slot(per, k, j) + SizeOf(k.ci) <= Slot(per, k', j')
  {
    hide SizeOf, Quota, Off, SlotOff, NodeBase, Slot;
    Stretch(nodes, per);
    SlotInNode(per, k, j);
    SlotInNode(per, k', j');
    NodeBaseStep(per, k.node);
    NodeBaseMonotone(per, k.node + 1, k'.node);
  }

  lemma CachesApart(per: nat, k: Key, j: nat, k': Key, j': nat)
    requires k.ci < 9 && k'.ci < 9 && j < Quota(k.ci) && j' < Quota(k'.ci) && k.node == k'.node && k.ci < k'.ci
    ensures Slot(per, k, j) + SizeOf(k.ci) <= Slot(per, k', j')
  {
    hide SizeOf, Quota, Off, SlotOff, NodeBase;
    SlotInRegion(k.ci, j);
    SlotInRegion(k'.ci, j');
    OffMonotone(k.ci + 1, k'.ci);
  }

  // ---------------------------------------------------------------- owner tags

  /** First owner entry of a node's stretch. */
  function NodeGran(per: nat, n: nat): nat { NodeBase(per, n) / 16 }

  function Tag(n: nat, ci: nat): nat { n * 16 + ci }

  /** What init_node leaves in slab_owner: the granules of each region carry its node and cache, those of
      the bump part the bump mark, and those after the last stretch stay invalid. */
  ghost predicate Tagged(owner: seq<nat>, nodes: nat, per: nat) {
    && |owner| == GRANULES
    && (forall n, ci, g | 0 <= n < nodes && 0 <= ci < 9
        && NodeGran(per, n) + Off(ci) / 16 <= g < NodeGran(per, n) + Off(ci + 1) / 16
          && g < |owner| :: owner[g] == Tag(n, ci))
    && (forall n, g | 0 <= n < nodes && NodeGran(per, n) + 34816 <= g < NodeGran(per, n + 1) && g < |owner| ::
          owner[g] == Tag(n, 15))
    && (forall g | NodeGran(per, nodes) <= g < |owner| :: owner[g] == INVALID)
  }

  lemma Granule(b: nat, x: nat)
    requires x % 16 == 0
    ensures (b + x) / 16 == b / 16 + x / 16
  {
  }

  lemma SlotAligned(ci: nat, j: nat)
    requires ci < 9
    ensures SlotOff(ci, j) % 16 == 0
  {
    hide SizeOf, Off;
    OffFacts(ci);
    Multiple(j, SizeOf(ci) / 16);
  }

  lemma Multiple(j: nat, u: nat)
    ensures j * (16 * u) == 16 * (j * u) && (j * (16 * u)) % 16 == 0
  {
    assert (16 * (j * u)) % 16 == 0;
  }

  /** The granule of a slab object carries the tag of the very cache the object belongs to. */
  lemma SlotTag(owner: seq<nat>, nodes: nat, per: nat, k: Key, j: nat)
    requires Split(nodes, per) && Tagged(owner, nodes, per) && InRange(k, nodes) && j < Quota(k.ci)
    ensures Slot(per, k, j) < 0x100_0000 && owner[Slot(per, k, j) / 16] == Tag(k.node, k.ci)
  {
    hide SizeOf, Quota, Off, SlotOff, NodeBase;
    SlotInNode(per, k, j);
    SlotInRegion(k.ci, j);
    SlotAligned(k.ci, j);
    NodeEnd(nodes, per, k.node);
    Granule(NodeBase(per, k.node), SlotOff(k.ci, j));
    OffFacts(k.ci);
    OffFacts(k.ci + 1);
  }

  /** The stretch of a node holds all its slabs and ends inside the pool. */
  lemma NodeEnd(nodes: nat, per: nat, n: nat)
    requires Split(nodes, per) && n < nodes
    ensures NodeBase(per, n) + 557056 < NodeBase(per, n + 1) <= 0x100_0000
  {
    hide NodeBase;
    Stretch(nodes, per);
    NodeBaseStep(per, n);
    NodeBaseMonotone(per, n + 1, nodes);
  }

  /** The granule of a 16-aligned address in the bump part carries the bump mark; only where the stretch ends inside
      a granule can it be the first granule of the next stretch, or the invalid one after the last. */
  lemma BumpTag(owner: seq<nat>, nodes: nat, per: nat, n: nat, a: nat)
    requires Split(nodes, per) && Tagged(owner, nodes, per) && n < nodes && a % 16 == 0
    requires NodeBase(per, n) + 557056 <= a < NodeBase(per, n + 1)
    ensures a < 0x100_0000
    ensures
      var ow := owner[a / 16];
      || ow == Tag(n, 15)
      || (n + 1 == nodes && ow == INVALID)
      || (n + 1 < nodes && ow == Tag(n + 1, 0) && 0 < NodeBase(per, n + 1) - a < 16)
  {
    hide NodeBase, Off;
    NodeEnd(nodes, per, n);
    var g := a / 16;
    assert g >= NodeGran(per, n) + 34816;
    if g >= NodeGran(per, n + 1) {
      assert g == NodeGran(per, n + 1);
      if n + 1 < nodes {
        OffAt(0);
        OffAt(1);
        assert NodeGran(per, n + 1) + Off(0) / 16 <= g < NodeGran(per, n + 1) + Off(0 + 1) / 16;
      }
    }
  }
}
