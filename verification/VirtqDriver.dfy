/** The transmit queue as the driver keeps it, updated in place by virtq_init, virtio_net_send and virtio_net_poll. */
module VirtqDriver {
  import opened Virtq
  import opened VirtqInv

  class TxQueue {
    var desc: seq<Desc>
    var payload: seq<seq<nat>>
    var freeHead: nat
    var numFree: nat
    var avail: seq<nat>
    var availIdx: nat
    var used: seq<nat>
    var usedIdx: nat
    var lastUsed: nat
    /** What the device has taken and not returned, and how descriptors are shared out. */
    ghost var devIdx: nat
    ghost var held: seq<nat>
    ghost var g: Ledger

    ghost function Q(): Queue
      reads this
    {
      Queue(desc, payload, freeHead, numFree, avail, availIdx, used, usedIdx, lastUsed)
    }

    ghost predicate Buffers()
      reads this
    {
      forall d | 0 <= d < |payload| :: |payload[d]| == 1536
    }

    ghost predicate Valid()
      reads this
    {
      Ok(State(Q(), devIdx, held), g) && Buffers()
    }

    /** Everything on the free list, in order. */
    constructor (size: nat)
      requires 0 < size <= 256
      ensures |desc| == |payload| == |avail| == |used| == size && Buffers()
      ensures forall i | 0 <= i < size :: desc[i].next == if i + 1 < size then i + 1 else 0
      ensures freeHead == availIdx == usedIdx == lastUsed == devIdx == 0 && numFree == size && held == []
      ensures Valid() && Initial(State(Q(), devIdx, held)) && g.pend == [] && g.done == []
    {
      hide Ok;
      desc := seq(size, _ => Desc(NoBuf, 0, 0, false));
      payload := seq(size, _ => seq(1536, _ => 0));
      avail, used := seq(size, _ => 0), seq(size, _ => 0);
      availIdx, usedIdx, lastUsed, freeHead, numFree := 0, 0, 0, 0, size;
      devIdx, held := 0, [];
      new;
      LinkAll(size);
      g := InitialLedger(State(Q(), devIdx, held));
    }

    method LinkAll(size: nat)
      requires |desc| == size > 0
      modifies this`desc
      ensures |desc| == size && forall i | 0 <= i < size :: desc[i].next == if i + 1 < size then i + 1 else 0
    {
      var i := 0;
      while i < size - 1
        invariant 0 <= i <= size - 1 && |desc| == size
        invariant forall j | 0 <= j < i :: desc[j].next == j + 1
      {
        desc := desc[i := desc[i].(more := true, next := i + 1)];
        i := i + 1;
      }
      desc := desc[size - 1 := desc[size - 1].(more := false, next := 0)];
    }

    /** The copy loop of `virtio_net_send`. */
    method FillBuffer(d: nat, data: seq<nat>, len: nat)
      requires d < |payload| && Buffers() && len <= |data| && len <= 1536
      modifies this`payload
      ensures Buffers() && payload == old(payload)[d := data[..len] + old(payload)[d][len..]]
    {
      ghost var buf := payload[d];
      assert data[..0] + buf[0..] == buf;
      var i := 0;
      while i < len
        invariant 0 <= i <= len && payload == old(payload)[d := data[..i] + buf[i..]]
      {
        CopyOne(buf, data, i);
        payload := payload[d := payload[d][i := data[i]]];
        i := i + 1;
      }
    }

    /** `virtio_net_send`: accepted exactly when two descriptors are free, and then posted behind the others. The queue
        stays sound exactly when no unread entry sat in the slot, as at sizes that fit. */
    method SendFrame(data: seq<nat>) returns (ok: bool)
      requires Valid()
      modifies this
      ensures Shaped(old(Q())) && (Q(), ok) == Send(old(Q()), data)
      ensures ok <==> old(numFree) >= 2
      ensures Valid() <==> !ok || FreshSlot(old(g.taken), |old(g.pend)|, |desc|)
      ensures Holds(|desc|, |desc| / 2) ==> Valid()
      ensures held == old(held) && if ok then g.pend == old(g.pend) + [old(freeHead)] else g == old(g)
    {
      hide Ok, Send, Shaped, FreshSlot, Holds;
      ghost var s := State(Q(), devIdx, held);
      OkShaped(s, g);
      QueueSize(s.q);
      if Holds(|desc|, |desc| / 2) { Roomy(s, g); }
      ghost var g' := SendInv(s, g, data);
      if numFree < 2 { return false; }
      Post(data);
      g := g';
      return true;
    }

    method Post(data: seq<nat>)
      requires Shaped(Q()) && Buffers() && numFree >= 2
      modifies this`desc, this`payload, this`freeHead, this`numFree, this`avail, this`availIdx
      ensures Buffers() && (Q(), true) == Send(old(Q()), data)
    {
      hide Place, Cut, Rest, Min;
      var h := freeHead;
      freeHead := desc[h].next;
      numFree := numFree - 1;
      var d := freeHead;
      freeHead := desc[d].next;
      numFree := numFree - 1;
      desc := desc[h := Desc(Addr.Header(h), HEADER_LEN, d, true)];
      var len := Min(|data|, 1536);
      CutRest(payload[d], data);
      FillBuffer(d, data, len);
      desc := desc[d := Desc(Addr.Payload(d), len, 0, false)];
      avail := avail[Place(availIdx, |avail|) := h];
      availIdx := (availIdx + 1) % WRAP;
    }

    /** The transmit half of `virtio_net_poll`: everything in the used ring is taken back. */
    method Poll()
      requires Valid()
      modifies this
      ensures Valid() && lastUsed == usedIdx && g.done == [] && g.pend == old(g.pend) && held == old(held)
      ensures numFree == old(numFree) + 2 * |old(g.done)|
    {
      hide Ok, Reap, Ring, Place;
      ghost var g' := ReapInv(State(Q(), devIdx, held), g);
      while lastUsed != usedIdx
        invariant Valid() && g.pend == old(g.pend) && held == old(held)
        invariant lastUsed != usedIdx <==> g.done != []
        invariant numFree + 2 * |g.done| == old(numFree) + 2 * |old(g.done)|
        decreases |g.done|
      {
        ReapOne();
        g' := ReapInv(State(Q(), devIdx, held), g);
      }
    }

    method ReapOne()
      requires Valid() && lastUsed != usedIdx
      modifies this
      ensures Valid() && Shaped(old(Q())) && Q() == Reap(old(Q())) && held == old(held)
      ensures g.pend == old(g.pend) && old(g.done) != [] && g.done == old(g.done)[1..] && numFree == old(numFree) + 2
    {
      hide Ok, Ring, Place, Reclaim;
      ghost var s := State(Q(), devIdx, held);
      OkShaped(s, g);
      ghost var g' := ReapInv(s, g);
      ghost var d := UsedHead(s, g);
      var id := used[Place(lastUsed, |used|)];
      lastUsed := (lastUsed + 1) % WRAP;
      TakeBack(id, d);
      g := g';
    }

    /** The inner loop: the descriptors of a chain join the free list one by one. */
    method TakeBack(id: nat, ghost d: nat)
      requires Shaped(Q()) && id < |desc| && d == desc[id].next && d != id && desc[id].more && !desc[d].more
      modifies this`desc, this`freeHead, this`numFree
      ensures Q() == Reclaim(old(Q()), id, |desc|)
    {
      hide Place;
      ghost var q0 := Q();
      var idx := id;
      while true
        invariant Shaped(Q()) && idx < |desc| == |q0.desc|
        invariant Q() == q0.(desc := desc, freeHead := freeHead, numFree := numFree)
        invariant idx == id ==> Q() == q0
        invariant idx != id ==> idx == d && !desc[d].more && Reclaim(Q(), d, |desc| - 1) == Reclaim(q0, id, |desc|)
        decreases if idx == id then 1 else 0
      {
        var more, next := desc[idx].more, desc[idx].next;
        desc := desc[idx := desc[idx].(next := freeHead, more := true)];
        freeHead := idx;
        numFree := numFree + 1;
        if !more { break; }
        idx := next;
      }
    }
  }

  lemma CopyOne(buf: seq<nat>, data: seq<nat>, i: nat)
    requires i < |data| && i < |buf|
    ensures (data[..i] + buf[i..])[i := data[i]] == data[..i + 1] + buf[i + 1..]
  {
  }

  lemma CutRest(buf: seq<nat>, data: seq<nat>)
    requires |buf| == 1536
    ensures var len := Min(|data|, 1536);
      len <= |data| && len <= 1536 && |Cut(data)| == len && Cut(data) + Rest(buf, len) == data[..len] + buf[len..]
  {
  }

  /** `virtq_init`, given the largest size the device offers; null if the device has no such queue. */
  method VirtqInit(maxSize: nat) returns (q: TxQueue?)
    ensures q == null <==> maxSize == 0
    ensures q != null ==>
      && fresh(q) && |q.desc| == q.numFree == Min(256, maxSize)
      && q.Valid() && Initial(State(q.Q(), q.devIdx, q.held))
  {
    hide Ok, Initial;
    if maxSize == 0 { return null; }
    q := new TxQueue(Min(256, maxSize));
  }

  lemma InitialLedger(s: State) returns (g: Ledger)
    requires Initial(s)
    ensures Ok(s, g) && g.pend == [] && g.done == []
  {
    InitialInv(s);
    g :| Ok(s, g) && Waiting(g, [], 0);
    if g.done != [] { UsedRingEmpty(s, g); }
  }

  lemma UsedRingEmpty(s: State, g: Ledger)
    requires Ok(s, g) && s.q.lastUsed == s.q.usedIdx
    ensures g.done == []
  {
    var g' := ReapInv(s, g);
  }

  /** The entry the driver reads is the head of a pair. */
  lemma UsedHead(s: State, g: Ledger) returns (d: nat)
    requires Ok(s, g) && s.q.lastUsed != s.q.usedIdx
    ensures var id := s.q.used[Place(s.q.lastUsed, |s.q.used|)];
      && id < |s.q.desc| && d == s.q.desc[id].next && d < |s.q.desc| && d != id && s.q.desc[id].more
        && !s.q.desc[d].more
  {
    hide FreeList, Ring, Place, Cut;
    var g' := ReapInv(s, g);
    var h := g.done[0];
    assert h in g.done;
    QueueSize(s.q);
    RingPop(s.q.used, g.reaped, g.done);
    assert PairOk(s.q, g, h);
    d := s.q.desc[h].next;
  }
}
