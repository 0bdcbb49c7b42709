/** The transmit virtqueue of src/drivers/virtio/virtio_net.c, with the device on the other side: who owns each
    descriptor, and what the two rings hold (section 2.6 of OASIS VIRTIO 1.1). */
module Virtq {
  import opened Bits

  /** Which of the driver's buffers a descriptor points to. */
  datatype Addr = NoBuf | Header(i: nat) | Payload(i: nat)

  /** `more` is the NEXT flag. */
  datatype Desc = Desc(addr: Addr, len: nat, next: nat, more: bool)

  /** Queue memory and the driver's fields; ring indices are 16 bits wide. */
  datatype Queue = Queue(
    desc: seq<Desc>, payload: seq<seq<nat>>, freeHead: nat, numFree: nat,
    avail: seq<nat>, availIdx: nat, used: seq<nat>, usedIdx: nat, lastUsed: nat)

  /** The queue, and what the device knows: how far it has read the available ring and the heads it works on. */
  datatype State = State(q: Queue, devIdx: nat, held: seq<nat>)

  const WRAP: nat := 0x1_0000
  const HEADER_LEN: nat := 12

  predicate Shaped(q: Queue) {
    && 0 < |q.desc| <= 256 && |q.payload| == |q.avail| == |q.used| == |q.desc|
    && q.freeHead < |q.desc| && (forall i | 0 <= i < |q.desc| :: q.desc[i].next < |q.desc|)
  }

  function Min(a: nat, b: nat): nat { if a < b then a else b }

  /** What fits of a frame in a payload buffer. */
  function Cut(data: seq<nat>): seq<nat> { data[..Min(|data|, 1536)] }

  /** `virtio_net_send`. */
  function Send(q: Queue, data: seq<nat>): (r: (Queue, bool))
    requires Shaped(q)
    ensures Shaped(r.0) && |r.0.desc| == |q.desc|
  {
    if q.numFree < 2 then (q, false)
    else
      var h := q.freeHead;
      var d := q.desc[h].next;
      var rest := q.desc[d].next;
      var desc := q.desc[h := Desc(Header(h), HEADER_LEN, d, true)];
      var slot := Place(q.availIdx, |q.avail|);
      (q.(desc := desc[d := Desc(Payload(d), |Cut(data)|, 0, false)],
          payload := q.payload[d := Cut(data) + Rest(q.payload[d], |Cut(data)|)],
          freeHead := rest, numFree := q.numFree - 2,
          avail := q.avail[slot := h], availIdx := (q.availIdx + 1) % WRAP), true)
  }

  /** The bytes of a buffer after the first `k`, which stay. */
  function Rest(buf: seq<nat>, k: nat): seq<nat> { if k <= |buf| then buf[k..] else [] }

  /** The device takes the next available head. */
  function Take(s: State): (r: State)
    requires Shaped(s.q)
    ensures Shaped(r.q) && |r.q.desc| == |s.q.desc|
  {
    if s.devIdx == s.q.availIdx then s
    else State(s.q, (s.devIdx + 1) % WRAP, s.held + [s.q.avail[Place(s.devIdx, |s.q.avail|)]])
  }

  /** The device returns the head at position `k` of those it works on. */
  function Return(s: State, k: nat): (r: State)
    requires Shaped(s.q) && k < |s.held|
    ensures Shaped(r.q) && |r.q.desc| == |s.q.desc|
  {
    State(s.q.(used := s.q.used[Place(s.q.usedIdx, |s.q.used|) := s.held[k]], usedIdx := (s.q.usedIdx + 1) % WRAP),
          s.devIdx, s.held[..k] + s.held[k + 1..])
  }

  /** The inner loop of `virtio_net_poll`: the chain from `i` on goes to the front of the free list, descriptor by
      descriptor; `fuel` bounds the walk. */
  function Reclaim(q: Queue, i: nat, fuel: nat): (r: Queue)
    requires Shaped(q) && i < |q.desc|
    ensures Shaped(r) && |r.desc| == |q.desc|
    decreases fuel
  {
    var next, more := q.desc[i].next, q.desc[i].more;
    var q' := q.(desc := q.desc[i := q.desc[i].(next := q.freeHead, more := true)], freeHead := i,
        numFree := q.numFree + 1);
    if !more || fuel == 0 then q' else Reclaim(q', next, fuel - 1)
  }

  /** One round of the transmit half of `virtio_net_poll`. */
  function Reap(q: Queue): (r: Queue)
    requires Shaped(q)
    ensures Shaped(r) && |r.desc| == |q.desc|
  {
    if q.lastUsed == q.usedIdx then q
    else
      var id := q.used[Place(q.lastUsed, |q.used|)];
      if id < |q.desc| then Reclaim(q.(lastUsed := (q.lastUsed + 1) % WRAP), id, |q.desc|)
      else q.(lastUsed := (q.lastUsed + 1) % WRAP)
  }

  // ---------------------------------------------------------------- rings

  /** The slot an index selects. */
  function Place(idx: nat, n: nat): (i: nat)
    requires n > 0
    ensures i < n
  {
    idx % n
  }

  /** The slot of entry number `count`: only 16 bits of the count are kept. */
  ghost function Slot(count: nat, n: nat): (i: nat)
    requires n > 0
    ensures i < n
  {
    Place(count % WRAP, n)
  }

  /** The entries of a ring from number `from` on are `s`. */
  ghost predicate Ring(ring: seq<nat>, from: nat, s: seq<nat>)
    requires |ring| > 0
  {
    |s| <= |ring| && forall p | from <= p < from + |s| :: ring[Slot(p, |ring|)] == s[p - from]
  }

  lemma Distinct(a: nat, b: nat, n: nat)
    requires n > 0 && a < b < a + n
    ensures Place(a, n) != Place(b, n)
  {
    var r, t := a % n, b - a;
    DivMod(a, n);
    if r + t < n {
      ModUnique(b, n, a / n, r + t);
    } else {
      assert n * (a / n + 1) == n * (a / n) + n;
      ModUnique(b, n, a / n + 1, r + t - n);
    }
  }

  /** Entries less than a ring apart share a slot exactly when the index wraps between them and they are as far apart
      as what is left of 2^16 after whole rings. */
  lemma SlotsMeet(a: nat, b: nat, n: nat)
    requires 0 < n < WRAP && a < b < a + n
    ensures Slot(a, n) == Slot(b, n) <==> a / WRAP != b / WRAP && b - a == WRAP % n
  {
    hide Place;
    var x, y := a % WRAP, b % WRAP;
    if a / WRAP == b / WRAP {
      Distinct(x, y, n);
    } else {
      assert b / WRAP == a / WRAP + 1 && y + WRAP - x == b - a;
      WrapMeet(WRAP, n, WRAP - x, y);
    }
  }

  lemma WrapMeet(w: nat, n: nat, x: nat, y: nat)
    requires 0 < x <= w && x + y < n < w
    ensures Place(w - x, n) == Place(y, n) <==> x + y == w % n
  {
    DivMod(w, n);
    ModUnique(y, n, 0, y);
    if w % n >= x {
      ModUnique(w - x, n, w / n, w % n - x);
    } else {
      assert n * (w / n - 1) == n * (w / n) - n;
      ModUnique(w - x, n, w / n - 1, w % n - x + n);
    }
  }

  /** No entry among the `len` from number `from` on sits in the slot of the entry after them. */
  ghost predicate FreshSlot(from: nat, len: nat, n: nat)
    requires n > 0
  {
    forall p | from <= p < from + len :: Slot(p, n) != Slot(from + len, n)
  }

  /** No two of `cap` consecutive entries share a slot, wherever the index wraps. */
  predicate Holds(n: nat, cap: nat)
    requires n > 0
  {
    WRAP % n == 0 || WRAP % n >= cap
  }

  lemma Fresh(from: nat, len: nat, n: nat, cap: nat)
    requires 0 < n < WRAP && len < cap <= n && Holds(n, cap)
    ensures FreshSlot(from, len, n)
  {
    hide Slot;
    forall p | from <= p < from + len ensures Slot(p, n) != Slot(from + len, n) { SlotsMeet(p, from + len, n); }
  }

  lemma RingPush(ring: seq<nat>, from: nat, s: seq<nat>, x: nat)
    requires |ring| > 0 && Ring(ring, from, s) && |s| < |ring| && FreshSlot(from, |s|, |ring|)
    ensures Ring(ring[Slot(from + |s|, |ring|) := x], from, s + [x])
  {
    hide Slot;
  }

  /** An entry written into a slot that is not fresh replaces one that has not been read. */
  lemma RingSpoilt(ring: seq<nat>, from: nat, s: seq<nat>, x: nat)
    requires |ring| > 0 && |s| < |ring| && !FreshSlot(from, |s|, |ring|) && x !in s
    ensures !Ring(ring[Slot(from + |s|, |ring|) := x], from, s + [x])
  {
    hide Slot;
    var p :| from <= p < from + |s| && Slot(p, |ring|) == Slot(from + |s|, |ring|);
    assert (s + [x])[p - from] == s[p - from] && s[p - from] in s;
  }

  lemma RingPop(ring: seq<nat>, from: nat, s: seq<nat>)
    requires |ring| > 0 && Ring(ring, from, s) && s != []
    ensures ring[Slot(from, |ring|)] == s[0] && Ring(ring, from + 1, s[1..])
  {
    hide Slot;
    assert ring[Slot(from, |ring|)] == s[from - from];
  }

  /** A 16-bit index selects the slot of the count it stands for exactly for sizes that divide 2^16. */
  lemma SlotExact(n: nat)
    requires 0 < n < WRAP
    ensures (forall count: nat :: Slot(count, n) == Place(count, n)) <==> WRAP % n == 0
  {
    if WRAP % n == 0 {
      DivMod(WRAP, n);
      forall count: nat ensures Slot(count, n) == Place(count, n) { ModMod(count, n, WRAP / n, WRAP); }
    } else {
      assert Slot(WRAP, n) == 0;
    }
  }

  /** The sizes the standard allows are such. */
  lemma StandardSizes(n: nat)
    requires n in {1, 2, 4, 8, 16, 32, 64, 128, 256}
    ensures WRAP % n == 0
  {
  }

  /** Equal 16-bit indices mean equal counts when the counts are less than 2^16 apart. */
  lemma SameIndex(a: nat, b: nat)
    requires a <= b < a + WRAP
    ensures a % WRAP == b % WRAP <==> a == b
  {
    if a < b { Distinct(a, b, WRAP); }
  }

  lemma NextIndex(count: nat)
    ensures (count % WRAP + 1) % WRAP == (count + 1) % WRAP
  {
  }
}
