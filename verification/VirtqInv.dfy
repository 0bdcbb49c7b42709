/** What every step of driver and device keeps. */
module VirtqInv {
  import opened OrderedSeq
  import opened Counting
  import opened Virtq

  /** Where a head in flight is: in the available ring, with the device, or in the used ring. */
  datatype Where = Pending | Held | Done

  datatype Role = Free | Head(at: Where) | Data(head: nat)

  /** `taken` counts the heads the device has taken, `reaped` those the driver has had back; `msg` are the frames in
      flight. */
  datatype Ledger = Ledger(
    taken: nat, reaped: nat, pend: seq<nat>, done: seq<nat>, role: seq<Role>, msg: map<nat, seq<nat>>)

  /** The first `k` links of the free list. */
  ghost function FreeList(desc: seq<Desc>, head: nat, k: nat): (s: seq<nat>)
    requires head < |desc| && forall i | 0 <= i < |desc| :: desc[i].next < |desc|
    ensures |s| == k && forall x | x in s :: x < |desc|
    decreases k
  {
    if k == 0 then [] else [head] + FreeList(desc, desc[head].next, k - 1)
  }

  ghost predicate FreeOk(q: Queue, role: seq<Role>)
    requires Shaped(q)
  {
    var fl := FreeList(q.desc, q.freeHead, q.numFree);
    && |role| == |q.desc| && NoDup(fl)
    && (forall d | 0 <= d < |role| :: d in fl <==> role[d] == Free)
  }

  /** A head is followed by its data descriptor, which holds the frame. */
  ghost predicate PairOk(q: Queue, g: Ledger, h: nat) {
    && |g.role| == |q.desc| == |q.payload| && h < |g.role| && h in g.msg
    && var d := q.desc[h].next;
    && d < |g.role| && g.role[d] == Data(h)
    && q.desc[h] == Desc(Addr.Header(h), HEADER_LEN, d, true)
    && q.desc[d].addr == Addr.Payload(d) && q.desc[d].len == |Cut(g.msg[h])| && !q.desc[d].more
    && Cut(g.msg[h]) <= q.payload[d]
  }

  ghost predicate DataOk(q: Queue, role: seq<Role>, d: nat) {
    && d < |role| == |q.desc| && role[d].Data? && var h := role[d].head;
    h < |role| && role[h].Head? && q.desc[h].next == d
  }

  /** The list holds exactly the heads that are there, each once. */
  ghost predicate Listed(role: seq<Role>, at: Where, s: seq<nat>) {
    && NoDup(s) && (forall h | h in s :: h < |role|)
    && (forall h | 0 <= h < |role| :: h in s <==> role[h] == Head(at))
  }

  ghost predicate Ok(s: State, g: Ledger) {
    var q := s.q;
    && Shaped(q) && FreeOk(q, g.role)
    && (forall h {:trigger PairOk(q, g, h)} | 0 <= h < |g.role| && g.role[h].Head? :: PairOk(q, g, h))
    && (forall d {:trigger DataOk(q, g.role, d)} | 0 <= d < |g.role| && g.role[d].Data? :: DataOk(q, g.role, d))
    && Listed(g.role, Pending, g.pend) && Listed(g.role, Held, s.held) && Listed(g.role, Done, g.done)
    && RingsOk(s, g)
  }

  ghost predicate RingsOk(s: State, g: Ledger)
    requires Shaped(s.q)
  {
    var q := s.q;
    && Ring(q.avail, g.taken, g.pend) && q.availIdx == (g.taken + |g.pend|) % WRAP && s.devIdx == g.taken % WRAP
    && Ring(q.used, g.reaped, g.done) && q.usedIdx == (g.reaped + |g.done|) % WRAP && q.lastUsed == g.reaped % WRAP
  }

  lemma {:induction false} FreeFrame(desc: seq<Desc>, desc': seq<Desc>, head: nat, k: nat)
    requires head < |desc| && forall i | 0 <= i < |desc| :: desc[i].next < |desc|
    requires |desc'| == |desc| && forall i | 0 <= i < |desc'| :: desc'[i].next < |desc'|
    requires forall x | x in FreeList(desc, head, k) :: desc'[x].next == desc[x].next
    ensures FreeList(desc', head, k) == FreeList(desc, head, k)
    decreases k
  {
    if k > 0 {
      assert head in FreeList(desc, head, k);
      FreeFrame(desc, desc', desc[head].next, k - 1);
    }
  }

  lemma Room(role: seq<Role>, at: Where, s: seq<nat>, y: nat)
    requires Listed(role, at, s) && y < |role| && role[y] != Head(at)
    ensures |s| < |role|
  {
    FitsWith(s, |role|, y);
  }

  // ---------------------------------------------------------------- sending

  /** The two descriptors a send takes are the first two of the free list. */
  lemma FirstTwo(q: Queue, role: seq<Role>)
    requires Shaped(q) && FreeOk(q, role) && q.numFree >= 2
    ensures var h := q.freeHead; var d := q.desc[h].next; var rest := q.desc[d].next;
      && h < |role| && d < |role| && h != d && role[h] == Free && role[d] == Free
      && FreeList(q.desc, h, q.numFree) == [h, d] + FreeList(q.desc, rest, q.numFree - 2)
      && NoDup(FreeList(q.desc, rest, q.numFree - 2))
      && h !in FreeList(q.desc, rest, q.numFree - 2) && d !in FreeList(q.desc, rest, q.numFree - 2)
  {
    var h := q.freeHead;
    var d := q.desc[h].next;
    var tail := FreeList(q.desc, q.desc[d].next, q.numFree - 2);
    var fl := FreeList(q.desc, h, q.numFree);
    assert fl == [h] + FreeList(q.desc, d, q.numFree - 1);
    assert fl == [h, d] + tail;
    assert fl[0] == h && fl[1] == d && h in fl && d in fl;
    Drop2(fl);
    assert fl[2..] == tail;
  }

  lemma Drop2(s: seq<nat>)
    requires NoDup(s) && |s| >= 2
    ensures s[0] != s[1] && NoDup(s[2..]) && s[0] !in s[2..] && s[1] !in s[2..]
  {
  }

  ghost function Sent(g: Ledger, h: nat, d: nat, data: seq<nat>): Ledger
    requires h < |g.role| && d < |g.role|
  {
    g.(pend := g.pend + [h], role := g.role[h := Head(Pending)][d := Data(h)], msg := g.msg[h := data])
  }

  lemma SendFree(q: Queue, g: Ledger, data: seq<nat>)
    requires Shaped(q) && FreeOk(q, g.role) && q.numFree >= 2
    ensures FreeOk(Send(q, data).0, Sent(g, q.freeHead, q.desc[q.freeHead].next, data).role)
  {
    hide Place, FreeList;
    FirstTwo(q, g.role);
    var h := q.freeHead;
    var d := q.desc[h].next;
    var rest := q.desc[d].next;
    var q' := Send(q, data).0;
    FreeFrame(q.desc, q'.desc, rest, q.numFree - 2);
  }

  /** A send posts the frame at the end of the available ring, and keeps driver and device in agreement exactly when no
      unread entry sits in that slot; without two free descriptors it changes nothing. */
  lemma SendInv(s: State, g: Ledger, data: seq<nat>) returns (g': Ledger)
    requires Ok(s, g)
    ensures Shaped(s.q) && var (q', ok) := Send(s.q, data);
      && (ok <==> s.q.numFree >= 2)
      && (if ok then g' == Sent(g, s.q.freeHead, s.q.desc[s.q.freeHead].next, data) else q' == s.q && g' == g)
      && (Ok(s.(q := q'), g') <==> !ok || FreshSlot(g.taken, |g.pend|, |s.q.desc|))
  {
    hide Place, FreeList, Ring, FreshSlot;
    g' := g;
    var q := s.q;
    if q.numFree >= 2 {
      FirstTwo(q, g.role);
      var h := q.freeHead;
      var d := q.desc[h].next;
      g' := Sent(g, h, d, data);
      var s' := s.(q := Send(q, data).0);
      SendFree(q, g, data);
      SendPairs(s, g, data);
      if FreshSlot(g.taken, |g.pend|, |q.desc|) { SendRings(s, g, data); } else { SendSpoils(s, g, data); }
      Listed1(g.role, g'.role, h, d, g.pend);
      ListedSame(g.role, g'.role, h, d, Held, s.held);
      ListedSame(g.role, g'.role, h, d, Done, g.done);
    }
  }

  lemma SendPairs(s: State, g: Ledger, data: seq<nat>)
    requires Ok(s, g) && s.q.numFree >= 2
    ensures var q', g' := Send(s.q, data).0, Sent(g, s.q.freeHead, s.q.desc[s.q.freeHead].next, data);
      && (forall x | 0 <= x < |g'.role| && g'.role[x].Head? :: PairOk(q', g', x))
      && (forall x | 0 <= x < |g'.role| && g'.role[x].Data? :: DataOk(q', g'.role, x))
  {
    hide Place, FreeList, Ring, RingsOk, Listed, Cut;
    FirstTwo(s.q, g.role);
    var h := s.q.freeHead;
    var d := s.q.desc[h].next;
    var q', g' := Send(s.q, data).0, Sent(g, h, d, data);
    forall x | 0 <= x < |g'.role| && g'.role[x].Head? ensures PairOk(q', g', x) {
      if x != h { assert PairOk(s.q, g, x); }
    }
    forall x | 0 <= x < |g'.role| && g'.role[x].Data? ensures DataOk(q', g'.role, x) {
      if x != d { assert DataOk(s.q, g.role, x); }
    }
  }

  lemma SendRings(s: State, g: Ledger, data: seq<nat>)
    requires Ok(s, g) && s.q.numFree >= 2 && FreshSlot(g.taken, |g.pend|, |s.q.desc|)
    ensures RingsOk(s.(q := Send(s.q, data).0), Sent(g, s.q.freeHead, s.q.desc[s.q.freeHead].next, data))
  {
    hide Place, FreeList, Ring, FreshSlot;
    FirstTwo(s.q, g.role);
    Room(g.role, Pending, g.pend, s.q.freeHead);
    RingPush(s.q.avail, g.taken, g.pend, s.q.freeHead);
    NextIndex(g.taken + |g.pend|);
  }

  lemma SendSpoils(s: State, g: Ledger, data: seq<nat>)
    requires Ok(s, g) && s.q.numFree >= 2 && !FreshSlot(g.taken, |g.pend|, |s.q.desc|)
    ensures !RingsOk(s.(q := Send(s.q, data).0), Sent(g, s.q.freeHead, s.q.desc[s.q.freeHead].next, data))
  {
    hide Place, FreeList, Ring, FreshSlot;
    FirstTwo(s.q, g.role);
    Room(g.role, Pending, g.pend, s.q.freeHead);
    RingSpoilt(s.q.avail, g.taken, g.pend, s.q.freeHead);
  }

  lemma Listed1(role: seq<Role>, role': seq<Role>, h: nat, d: nat, s: seq<nat>)
    requires Listed(role, Pending, s) && h < |role| && d < |role| && role[h] == Free && role[d] == Free
    requires h != d && role' == role[h := Head(Pending)][d := Data(h)]
    ensures Listed(role', Pending, s + [h])
  {
  }

  lemma ListedSame(role: seq<Role>, role': seq<Role>, h: nat, d: nat, at: Where, s: seq<nat>)
    requires Listed(role, at, s) && |role'| == |role| && h < |role| && d < |role|
    requires role[h] != Head(at) && role[d] != Head(at) && role'[h] != Head(at) && role'[d] != Head(at)
    requires forall x | 0 <= x < |role| && x != h && x != d :: role'[x] == role[x]
    ensures Listed(role', at, s)
  {
  }

  // ---------------------------------------------------------------- the device

  /** A head moves from one list to another; descriptors stay as they are. */
  ghost function Moved(g: Ledger, h: nat, to: Where): Ledger
    requires h < |g.role|
  {
    g.(role := g.role[h := Head(to)])
  }

  lemma MovedOk(s: State, g: Ledger, h: nat, to: Where)
    requires Ok(s, g) && h < |g.role| && g.role[h].Head?
    ensures var g' := Moved(g, h, to);
      && FreeOk(s.q, g'.role)
      && (forall x | 0 <= x < |g'.role| && g'.role[x].Head? :: PairOk(s.q, g', x))
      && (forall x | 0 <= x < |g'.role| && g'.role[x].Data? :: DataOk(s.q, g'.role, x))
  {
    hide Place, FreeList, Ring, RingsOk, Listed, Cut;
    var g' := Moved(g, h, to);
    forall x | 0 <= x < |g'.role| && g'.role[x].Head? ensures PairOk(s.q, g', x) { assert PairOk(s.q, g, x); }
    forall x | 0 <= x < |g'.role| && g'.role[x].Data? ensures DataOk(s.q, g'.role, x) { assert DataOk(s.q, g.role, x); }
  }

  lemma Arrives(role: seq<Role>, h: nat, to: Where, s: seq<nat>)
    requires Listed(role, to, s) && h < |role| && role[h] != Head(to)
    ensures Listed(role[h := Head(to)], to, s + [h])
  {
  }

  lemma Leaves(role: seq<Role>, at: Where, s: seq<nat>, k: nat, r: Role)
    requires Listed(role, at, s) && k < |s| && r != Head(at)
    ensures s[k] < |role| && Listed(role[s[k] := r], at, s[..k] + s[k + 1..])
  {
    assert s[k] in s;
    DropAt(s, k);
    var t := s[..k] + s[k + 1..];
    forall x | 0 <= x < |role| ensures x in t <==> role[s[k] := r][x] == Head(at) {
      assert x in s <==> role[x] == Head(at);
    }
    forall x | x in t ensures x < |role| { assert x in s; }
  }

  lemma DropAt(s: seq<nat>, k: nat)
    requires NoDup(s) && k < |s|
    ensures NoDup(s[..k] + s[k + 1..]) && forall x :: x in s[..k] + s[k + 1..] <==> x in s && x != s[k]
  {
    var t := s[..k] + s[k + 1..];
    assert forall i | 0 <= i < |t| :: t[i] == s[if i < k then i else i + 1];
    assert s == s[..k] + [s[k]] + s[k + 1..];
  }

  lemma ListedAt(role: seq<Role>, at: Where, s: seq<nat>, h: nat)
    requires Listed(role, at, s) && h in s
    ensures h < |role| && role[h] == Head(at)
  {
  }

  lemma Elsewhere(role: seq<Role>, at: Where, s: seq<nat>, h: nat, r: Role)
    requires Listed(role, at, s) && h < |role| && role[h] != Head(at) && r != Head(at)
    ensures Listed(role[h := r], at, s)
  {
  }

  /** Taking the oldest head moves the front of the available ring. */
  lemma TakeRings(s: State, g: Ledger)
    requires Shaped(s.q) && RingsOk(s, g) && |g.pend| <= 256
    ensures s.devIdx != s.q.availIdx <==> g.pend != []
    ensures g.pend == [] ==> Take(s) == s
    ensures g.pend != [] ==> Take(s) == s.(devIdx := (g.taken + 1) % WRAP, held := s.held + [g.pend[0]])
    ensures g.pend != [] ==> RingsOk(Take(s), g.(taken := g.taken + 1, pend := g.pend[1..]))
  {
    hide Place, Ring, Shaped;
    QueueSize(s.q);
    SameIndex(g.taken, g.taken + |g.pend|);
    if g.pend != [] {
      RingPop(s.q.avail, g.taken, g.pend);
      NextIndex(g.taken);
    }
  }

  /** There is a head to take exactly when the 16-bit indices differ, and the one taken is the oldest posted. */
  lemma TakeInv(s: State, g: Ledger) returns (g': Ledger)
    requires Ok(s, g)
    ensures Shaped(s.q) && Ok(Take(s), g') && g'.done == g.done
    ensures s.devIdx != s.q.availIdx <==> g.pend != []
    ensures if g.pend == [] then Take(s) == s && g' == g
      else Take(s).held == s.held + [g.pend[0]] && g'.pend == g.pend[1..] && g'.msg == g.msg && g'.taken == g.taken + 1
  {
    hide Place, FreeList, Ring, RingsOk, Shaped, Listed, FreeOk, PairOk, DataOk;
    OkSize(s, g);
    TakeRings(s, g);
    g' := g;
    if g.pend != [] {
      var h := g.pend[0];
      ListedAt(g.role, Pending, g.pend, h);
      g' := Moved(g, h, Held).(taken := g.taken + 1, pend := g.pend[1..]);
      MovedOk(s, g, h, Held);
      SameMsg(s.q, Moved(g, h, Held), g');
      Leaves(g.role, Pending, g.pend, 0, Head(Held));
      assert g.pend[..0] + g.pend[0 + 1..] == g.pend[1..];
      Arrives(g.role, h, Held, s.held);
      Elsewhere(g.role, Done, g.done, h, Head(Held));
      SameRings(Take(s), g.(taken := g.taken + 1, pend := g.pend[1..]), g');
    }
  }

  lemma OkSize(s: State, g: Ledger)
    requires Ok(s, g)
    ensures |g.role| == |s.q.desc| && |g.pend| <= 256
  {
    hide FreeList, Ring, RingsOk;
    Fits(g.pend, |g.role|);
  }

  lemma SameRings(s: State, g: Ledger, g': Ledger)
    requires Shaped(s.q) && RingsOk(s, g)
    requires g'.pend == g.pend && g'.done == g.done && g'.taken == g.taken && g'.reaped == g.reaped
    ensures RingsOk(s, g')
  {
  }

  lemma QueueSize(q: Queue)
    requires Shaped(q)
    ensures 0 < |q.desc| <= 256 && |q.avail| == |q.used| == |q.desc|
  {
  }

  lemma SameMsg(q: Queue, g: Ledger, g': Ledger)
    requires g'.role == g.role && g'.msg == g.msg && forall x | 0 <= x < |g.role| && g.role[x].Head? :: PairOk(q, g, x)
    ensures forall x | 0 <= x < |g'.role| && g'.role[x].Head? :: PairOk(q, g', x)
  {
    forall x | 0 <= x < |g'.role| && g'.role[x].Head? ensures PairOk(q, g', x) { assert PairOk(q, g, x); }
  }

  /** A returned head is appended to the used ring; driver and device stay in agreement exactly when no entry the
      driver has not seen sits in that slot. */
  lemma ReturnInv(s: State, g: Ledger, k: nat) returns (g': Ledger)
    requires Ok(s, g) && k < |s.held|
    ensures Shaped(s.q) && g'.pend == g.pend && g'.done == g.done + [s.held[k]] && g'.msg == g.msg
      && g'.taken == g.taken && g'.reaped == g.reaped
    ensures Ok(Return(s, k), g') <==> FreshSlot(g.reaped, |g.done|, |s.q.desc|)
  {
    hide Place, FreeList, Ring, Shaped, FreshSlot;
    var h := s.held[k];
    assert h in s.held;
    QueueSize(s.q);
    Room(g.role, Done, g.done, h);
    if FreshSlot(g.reaped, |g.done|, |s.q.desc|) {
      RingPush(s.q.used, g.reaped, g.done, h);
    } else {
      RingSpoilt(s.q.used, g.reaped, g.done, h);
    }
    NextIndex(g.reaped + |g.done|);
    g' := Moved(g, h, Done).(done := g.done + [h]);
    MovedOk(s, g, h, Done);
    OnlyRings(s.q, Return(s, k).q, Moved(g, h, Done), g');
    Leaves(g.role, Held, s.held, k, Head(Done));
    Arrives(g.role, h, Done, g.done);
    Elsewhere(g.role, Pending, g.pend, h, Head(Done));
  }

  /** Descriptors and roles decide about pairs; the rings do not. */
  lemma OnlyRings(q: Queue, q': Queue, g: Ledger, g': Ledger)
    requires Shaped(q) && Shaped(q') && FreeOk(q, g.role)
    requires q'.desc == q.desc && q'.payload == q.payload && q'.freeHead == q.freeHead && q'.numFree == q.numFree
    requires g'.role == g.role && g'.msg == g.msg
    requires forall x | 0 <= x < |g.role| && g.role[x].Head? :: PairOk(q, g, x)
    requires forall x | 0 <= x < |g.role| && g.role[x].Data? :: DataOk(q, g.role, x)
    ensures FreeOk(q', g'.role)
    ensures forall x | 0 <= x < |g'.role| && g'.role[x].Head? :: PairOk(q', g', x)
    ensures forall x | 0 <= x < |g'.role| && g'.role[x].Data? :: DataOk(q', g'.role, x)
  {
    hide FreeList;
    forall x | 0 <= x < |g'.role| && g'.role[x].Head? ensures PairOk(q', g', x) { assert PairOk(q, g, x); }
    forall x | 0 <= x < |g'.role| && g'.role[x].Data? ensures DataOk(q', g'.role, x) { assert DataOk(q, g.role, x); }
  }

  // ---------------------------------------------------------------- reaping

  /** Both descriptors of a pair go back, the data descriptor in front. */
  lemma ReclaimPair(q: Queue, h: nat, fuel: nat)
    requires Shaped(q) && h < |q.desc| && fuel > 0 && q.desc[h].more && q.desc[h].next != h
      && !q.desc[q.desc[h].next].more
    ensures var d := q.desc[h].next;
      Reclaim(q, h, fuel)
        == q.(desc := q.desc[h := q.desc[h].(next := q.freeHead)][d := q.desc[d].(next := h, more := true)],
              freeHead := d, numFree := q.numFree + 2)
  {
    var d := q.desc[h].next;
    var q1 := q.(desc := q.desc[h := q.desc[h].(next := q.freeHead, more := true)], freeHead := h,
        numFree := q.numFree + 1);
    assert Reclaim(q, h, fuel) == Reclaim(q1, d, fuel - 1);
  }

  ghost function Reaped(g: Ledger, h: nat, d: nat): Ledger
    requires h < |g.role| && d < |g.role| && g.done != []
  {
    g.(reaped := g.reaped + 1, done := g.done[1..], role := g.role[h := Free][d := Free])
  }

  lemma ReapFree(q: Queue, q': Queue, role: seq<Role>, h: nat, d: nat)
    requires Shaped(q) && Shaped(q') && FreeOk(q, role) && h < |role| && d < |role| && h != d && role[h] != Free
      && role[d] != Free
    requires |q'.desc| == |q.desc| && q'.freeHead == d && q'.numFree == q.numFree + 2
    requires q'.desc[d].next == h && q'.desc[h].next == q.freeHead
    requires forall x | 0 <= x < |q.desc| && x != h && x != d :: q'.desc[x].next == q.desc[x].next
    ensures FreeOk(q', role[h := Free][d := Free])
  {
    var fl := FreeList(q.desc, q.freeHead, q.numFree);
    FreeFrame(q.desc, q'.desc, q.freeHead, q.numFree);
    assert FreeList(q'.desc, h, q.numFree + 1) == [h] + fl;
    assert FreeList(q'.desc, d, q.numFree + 2) == [d] + FreeList(q'.desc, h, q.numFree + 1);
    assert FreeList(q'.desc, d, q.numFree + 2) == [d, h] + fl;
    Push2(d, h, fl);
  }

  lemma Push2(d: nat, h: nat, fl: seq<nat>)
    requires NoDup(fl) && d != h && d !in fl && h !in fl
    ensures NoDup([d, h] + fl) && forall x :: x in [d, h] + fl <==> x == d || x == h || x in fl
  {
  }

  /** What is reaped is the head returned longest ago; its two descriptors become free again. */
  lemma ReapInv(s: State, g: Ledger) returns (g': Ledger)
    requires Ok(s, g)
    ensures Shaped(s.q) && Ok(s.(q := Reap(s.q)), g') && g'.pend == g.pend && g'.msg == g.msg && g'.taken == g.taken
    ensures s.q.lastUsed != s.q.usedIdx <==> g.done != []
    ensures if g.done == [] then Reap(s.q) == s.q && g' == g
      else g'.done == g.done[1..] && Reap(s.q).numFree == s.q.numFree + 2
  {
    hide Place, FreeList, Ring, Shaped, Cut;
    Fits(g.done, |g.role|);
    QueueSize(s.q);
    SameIndex(g.reaped, g.reaped + |g.done|);
    g' := g;
    if g.done != [] {
      var h := g.done[0];
      assert h in g.done;
      assert PairOk(s.q, g, h);
      var d := s.q.desc[h].next;
      RingPop(s.q.used, g.reaped, g.done);
      NextIndex(g.reaped);
      g' := Reaped(g, h, d);
      ReapEffect(s, g);
      ReapFree(s.q, Reap(s.q), g.role, h, d);
      ReapPairs(s, g, h);
      ReapLists(g.role, h, d, g.pend, s.held, g.done);
    }
  }

  lemma ReapEffect(s: State, g: Ledger)
    requires Ok(s, g) && g.done != [] && s.q.lastUsed != s.q.usedIdx
    requires s.q.used[Place(s.q.lastUsed, |s.q.used|)] == g.done[0]
    ensures var q, h := s.q, g.done[0];
      && h < |q.desc| && var d := q.desc[h].next;
      && d < |q.desc| && h != d
      && Reap(q) == q.(lastUsed := (q.lastUsed + 1) % WRAP,
                       desc := q.desc[h := q.desc[h].(next := q.freeHead)][d := q.desc[d].(next := h, more := true)],
                       freeHead := d, numFree := q.numFree + 2)
  {
    hide Place, FreeList, Ring, Reclaim, Cut;
    var h := g.done[0];
    assert h in g.done;
    assert PairOk(s.q, g, h);
    ReclaimPair(s.q.(lastUsed := (s.q.lastUsed + 1) % WRAP), h, |s.q.desc|);
  }

  lemma ReapPairs(s: State, g: Ledger, h: nat)
    requires Ok(s, g) && g.done != [] && h == g.done[0] && h < |g.role| && s.q.lastUsed != s.q.usedIdx
    requires s.q.used[Place(s.q.lastUsed, |s.q.used|)] == h
    ensures PairOk(s.q, g, h) && var q', g' := Reap(s.q), Reaped(g, h, s.q.desc[h].next);
      && (forall x | 0 <= x < |g'.role| && g'.role[x].Head? :: PairOk(q', g', x))
      && (forall x | 0 <= x < |g'.role| && g'.role[x].Data? :: DataOk(q', g'.role, x))
  {
    hide Place, FreeList, Ring, Reap, Cut, Shaped;
    assert h in g.done;
    assert PairOk(s.q, g, h);
    ReapEffect(s, g);
    var d := s.q.desc[h].next;
    var q', g' := Reap(s.q), Reaped(g, h, d);
    forall x | 0 <= x < |g'.role| && g'.role[x].Head? ensures PairOk(q', g', x) { assert PairOk(s.q, g, x); }
    forall x | 0 <= x < |g'.role| && g'.role[x].Data? ensures DataOk(q', g'.role, x) { assert DataOk(s.q, g.role, x); }
  }

  lemma ReapLists(role: seq<Role>, h: nat, d: nat, pend: seq<nat>, held: seq<nat>, done: seq<nat>)
    requires Listed(role, Pending, pend) && Listed(role, Held, held) && Listed(role, Done, done) && done != []
      && h == done[0]
    requires h < |role| && d < |role| && role[d].Data?
    ensures var role' := role[h := Free][d := Free];
      Listed(role', Pending, pend) && Listed(role', Held, held) && Listed(role', Done, done[1..])
  {
    hide Listed;
    ListedAt(role, Done, done, h);
    var r1 := role[h := Free];
    Leaves(role, Done, done, 0, Free);
    assert done[..0] + done[0 + 1..] == done[1..];
    Elsewhere(role, Pending, pend, h, Free);
    Elsewhere(role, Held, held, h, Free);
    Elsewhere(r1, Pending, pend, d, Free);
    Elsewhere(r1, Held, held, d, Free);
    Elsewhere(r1, Done, done[1..], d, Free);
  }

  // ---------------------------------------------------------------- ownership

  ghost function InFlight(s: State, g: Ledger): seq<nat> { g.pend + s.held + g.done }

  ghost function DataOf(q: Queue, heads: seq<nat>): (r: seq<nat>)
    requires forall h | h in heads :: h < |q.desc|
    ensures |r| == |heads| && forall i | 0 <= i < |r| :: heads[i] in heads && r[i] == q.desc[heads[i]].next
  {
    if heads == [] then []
    else
      assert heads[0] in heads && forall h | h in heads[1..] :: h in heads;
      [q.desc[heads[0]].next] + DataOf(q, heads[1..])
  }

  /** Free descriptors, heads in flight and their data descriptors: every descriptor is exactly one of them. */
  ghost predicate Partitioned(s: State, heads: seq<nat>)
    requires Shaped(s.q) && forall h | h in heads :: h < |s.q.desc|
  {
    var all := FreeList(s.q.desc, s.q.freeHead, s.q.numFree) + heads + DataOf(s.q, heads);
    NoDup(all) && (forall d: nat | d < |s.q.desc| :: d in all) && (forall d | d in all :: d < |s.q.desc|)
      && |all| == |s.q.desc|
  }

  lemma HeadsListed(s: State, g: Ledger)
    requires Ok(s, g)
    ensures NoDup(InFlight(s, g)) && |g.role| == |s.q.desc|
    ensures forall h | h in InFlight(s, g) :: h < |g.role| && g.role[h].Head?
    ensures forall h: nat | h < |g.role| && g.role[h].Head? :: h in InFlight(s, g)
  {
    hide FreeList, Ring, RingsOk, Place;
    var t := g.pend + s.held;
    NoDupJoin(g.pend, s.held);
    NoDupJoin(t, g.done);
    forall h: nat | h < |g.role| && g.role[h].Head? ensures h in InFlight(s, g) {
      match g.role[h].at
      case Pending => assert h in g.pend;
      case Held => assert h in s.held;
      case Done => assert h in g.done;
    }
  }

  lemma NoDupJoin(a: seq<nat>, b: seq<nat>)
    requires NoDup(a) && NoDup(b) && forall x | x in a :: x !in b
    ensures NoDup(a + b) && forall x :: x in a + b <==> x in a || x in b
  {
    var c := a + b;
    forall i, j | 0 <= i < j < |c| ensures c[i] != c[j] {
      if i < |a| <= j { assert c[i] in a && c[j] in b; }
    }
  }

  lemma DataListed(s: State, g: Ledger, heads: seq<nat>)
    requires Ok(s, g) && NoDup(heads) && |g.role| == |s.q.desc|
    requires forall h | h in heads :: h < |g.role| && g.role[h].Head?
    ensures NoDup(DataOf(s.q, heads))
    ensures forall d | d in DataOf(s.q, heads) :: d < |g.role| && g.role[d].Data?
    ensures forall d: nat | d < |g.role| && g.role[d].Data? && g.role[d].head in heads :: d in DataOf(s.q, heads)
  {
    hide FreeList, Ring, RingsOk, Place, Cut, Listed;
    var ds := DataOf(s.q, heads);
    forall i | 0 <= i < |ds| ensures ds[i] < |g.role| && g.role[ds[i]] == Data(heads[i]) {
      assert PairOk(s.q, g, heads[i]);
    }
    forall d: nat | d < |g.role| && g.role[d].Data? && g.role[d].head in heads ensures d in ds {
      assert DataOk(s.q, g.role, d);
      var i :| 0 <= i < |heads| && heads[i] == g.role[d].head;
      assert ds[i] == d;
    }
  }

  lemma Ownership(s: State, g: Ledger)
    requires Ok(s, g)
    ensures (forall h | h in InFlight(s, g) :: h < |s.q.desc|) && Partitioned(s, InFlight(s, g))
    ensures s.q.numFree + 2 * |InFlight(s, g)| == |s.q.desc|
  {
    hide FreeList, Ring, RingsOk, Place, Cut, Listed, InFlight, DataOf;
    HeadsListed(s, g);
    var heads := InFlight(s, g);
    DataListed(s, g, heads);
    var fl, ds := FreeList(s.q.desc, s.q.freeHead, s.q.numFree), DataOf(s.q, heads);
    NoDupJoin(fl, heads);
    NoDupJoin(fl + heads, ds);
    forall d: nat | d < |s.q.desc| ensures d in fl + heads + ds {
      if g.role[d].Data? { assert DataOk(s.q, g.role, d); }
    }
    Exactly(fl + heads + ds, |s.q.desc|);
  }

  lemma Exactly(s: seq<nat>, n: nat)
    requires NoDup(s) && (forall x: nat | x < n :: x in s) && (forall x | x in s :: x < n)
    ensures |s| == n
  {
    hide Below, Elements;
    ElementsSize(s);
    assert Elements(s) == Below(n);
  }

  // ---------------------------------------------------------------- runs

  datatype Op = DoSend(data: seq<nat>) | DoTake | DoReturn(k: nat) | DoReap

  predicate Enabled(s: State, op: Op) { Shaped(s.q) && (op.DoReturn? ==> op.k < |s.held|) }

  function Step(s: State, op: Op): State
    requires Enabled(s, op)
  {
    match op
    case DoSend(data) => s.(q := Send(s.q, data).0)
    case DoTake => Take(s)
    case DoReturn(k) => Return(s, k)
    case DoReap => s.(q := Reap(s.q))
  }

  /** `virtq_init`. */
  ghost predicate Initial(s: State) {
    var q := s.q;
    && 0 < |q.desc| <= 256 && |q.payload| == |q.avail| == |q.used| == |q.desc|
    && (forall i | 0 <= i < |q.desc| :: q.desc[i].next == if i + 1 < |q.desc| then i + 1 else 0)
    && q.freeHead == 0 && q.numFree == |q.desc| && q.availIdx == q.usedIdx == q.lastUsed == s.devIdx == 0
      && s.held == []
  }

  /** A queue of `n` descriptors after start-up. */
  ghost function Start(n: nat): State
    requires n > 0
  {
    State(Queue(seq(n, i requires 0 <= i < n => Desc(NoBuf, 0, if i + 1 < n then i + 1 else 0, i + 1 < n)),
                seq(n, _ => []), 0, n, seq(n, _ => 0), 0, seq(n, _ => 0), 0, 0), 0, [])
  }

  lemma Starts(n: nat)
    requires 0 < n <= 256
    ensures Initial(Start(n)) && |Start(n).q.desc| == n && Shaped(Start(n).q)
  {
  }

  lemma {:induction false} InitialFree(desc: seq<Desc>, i: nat)
    requires i < |desc| && (forall j | 0 <= j < |desc| :: desc[j].next == if j + 1 < |desc| then j + 1 else 0)
    ensures FreeList(desc, i, |desc| - i) == From(i, |desc|)
    decreases |desc| - i
  {
    if i + 1 < |desc| { InitialFree(desc, i + 1); }
  }

  /** After the frames `sent`, of which the device has taken the first `taken`: driver and device agree on every
      descriptor, and the frames not yet taken wait in order. */
  ghost predicate Inv(s: State, sent: seq<seq<nat>>, taken: nat) {
    exists g :: Ok(s, g) && Waiting(g, sent, taken)
  }

  ghost predicate Waiting(g: Ledger, sent: seq<seq<nat>>, taken: nat) {
    && g.taken == taken && |sent| == taken + |g.pend|
    && (forall i | 0 <= i < |g.pend| :: g.pend[i] in g.msg && g.msg[g.pend[i]] == sent[taken + i])
  }

  function SentAfter(s: State, sent: seq<seq<nat>>, op: Op): seq<seq<nat>>
    requires Enabled(s, op)
  {
    if op.DoSend? && Send(s.q, op.data).1 then sent + [op.data] else sent
  }

  function TakenAfter(s: State, taken: nat, op: Op): nat {
    if op.DoTake? && s.devIdx != s.q.availIdx then taken + 1 else taken
  }

  lemma InitialInv(s: State)
    requires Initial(s)
    ensures Inv(s, [], 0)
  {
    hide Place, From;
    var n := |s.q.desc|;
    InitialFree(s.q.desc, 0);
    var g := Ledger(0, 0, [], [], seq(n, _ => Free), map[]);
    forall d | 0 <= d < n ensures d in From(0, n) { assert From(0, n)[d] == d; }
    assert FreeOk(s.q, g.role);
    assert Ok(s, g) && Waiting(g, [], 0);
  }

  lemma FreshHead(s: State, g: Ledger)
    requires Ok(s, g) && s.q.numFree >= 2
    ensures s.q.freeHead !in g.pend
  {
    hide Place, Ring, RingsOk, Cut;
    FirstTwo(s.q, g.role);
  }

  /** A pair takes two descriptors, so half as many heads as descriptors are in flight at most. */
  lemma Roomy(s: State, g: Ledger)
    requires Ok(s, g) && Holds(|s.q.desc|, |s.q.desc| / 2)
    ensures s.q.numFree >= 2 ==> FreshSlot(g.taken, |g.pend|, |s.q.desc|)
    ensures s.held != [] ==> FreshSlot(g.reaped, |g.done|, |s.q.desc|)
  {
    hide Ok, Partitioned, FreshSlot, Holds;
    OkShaped(s, g);
    Ownership(s, g);
    var n := |s.q.desc|;
    if s.q.numFree >= 2 { Fresh(g.taken, |g.pend|, n, n / 2); }
    if s.held != [] { Fresh(g.reaped, |g.done|, n, n / 2); }
  }

  lemma StepInv(s: State, sent: seq<seq<nat>>, taken: nat, op: Op)
    requires Inv(s, sent, taken) && Enabled(s, op) && Holds(|s.q.desc|, |s.q.desc| / 2)
    ensures Inv(Step(s, op), SentAfter(s, sent, op), TakenAfter(s, taken, op))
  {
    hide Ok, Send, Take, Return, Reap, Holds;
    var g :| Ok(s, g) && Waiting(g, sent, taken);
    Roomy(s, g);
    match op
    case DoSend(data) =>
      var g' := SendInv(s, g, data);
      if Send(s.q, data).1 { FreshHead(s, g); }
      assert Ok(Step(s, op), g') && Waiting(g', SentAfter(s, sent, op), taken);
    case DoTake =>
      var g' := TakeInv(s, g);
      assert Ok(Step(s, op), g') && Waiting(g', sent, TakenAfter(s, taken, op));
    case DoReturn(k) =>
      var g' := ReturnInv(s, g, k);
      assert Ok(Step(s, op), g') && Waiting(g', sent, taken);
    case DoReap =>
      var g' := ReapInv(s, g);
      assert Ok(Step(s, op), g') && Waiting(g', sent, taken);
  }

  /** A run from start-up, with the frames accepted and the number taken so far. */
  ghost predicate Run(tr: seq<State>, ops: seq<Op>, sent: seq<seq<seq<nat>>>, taken: seq<nat>) {
    && |tr| == |sent| == |taken| == |ops| + 1 && Initial(tr[0]) && sent[0] == [] && taken[0] == 0
    && forall i | 0 <= i < |ops| ::
         && Enabled(tr[i], ops[i]) && tr[i + 1] == Step(tr[i], ops[i])
         && sent[i + 1] == SentAfter(tr[i], sent[i], ops[i]) && taken[i + 1] == TakenAfter(tr[i], taken[i], ops[i])
  }

  /** The size settled on at start-up lets the transmit rings wrap without harm. */
  predicate TxFits(tr: seq<State>) { tr != [] && tr[0].q.desc != [] && Holds(|tr[0].q.desc|, |tr[0].q.desc| / 2) }

  lemma {:induction false} RunSize(tr: seq<State>, ops: seq<Op>, sent: seq<seq<seq<nat>>>, taken: seq<nat>, i: nat)
    requires Run(tr, ops, sent, taken) && i < |tr|
    ensures |tr[i].q.desc| == |tr[0].q.desc|
  {
    hide Initial, Send, Take, Return, Reap, SentAfter, TakenAfter;
    if i > 0 {
      RunSize(tr, ops, sent, taken, i - 1);
      assert tr[i - 1 + 1] == Step(tr[i - 1], ops[i - 1]);
    }
  }

  lemma {:induction false} RunInv(tr: seq<State>, ops: seq<Op>, sent: seq<seq<seq<nat>>>, taken: seq<nat>, i: nat)
    requires Run(tr, ops, sent, taken) && i < |tr| && TxFits(tr)
    ensures Inv(tr[i], sent[i], taken[i])
  {
    hide Inv, Initial, Step, Enabled, SentAfter, TakenAfter, Holds;
    if i == 0 {
      InitialInv(tr[0]);
    } else {
      RunInv(tr, ops, sent, taken, i - 1);
      RunSize(tr, ops, sent, taken, i - 1);
      StepInv(tr[i - 1], sent[i - 1], taken[i - 1], ops[i - 1]);
    }
  }

  /** `g` gives the contents of both rings, and the descriptors are shared out exactly between the free list and the
      pairs whose heads are unread in the available ring, with the device, or unreaped in the used ring. */
  ghost predicate SharedOut(s: State, g: Ledger) {
    && Shaped(s.q) && RingsOk(s, g)
    && var heads := g.pend + s.held + g.done;
    && (forall h | h in heads :: h < |s.q.desc|)
    && Partitioned(s, heads) && s.q.numFree + 2 * |heads| == |s.q.desc|
  }

  /** In every reachable state no descriptor is in two hands: neither free and in flight, nor in flight twice. */
  lemma RunOwnership(tr: seq<State>, ops: seq<Op>, sent: seq<seq<seq<nat>>>, taken: seq<nat>, i: nat)
    requires Run(tr, ops, sent, taken) && i < |tr| && TxFits(tr)
    ensures exists g :: SharedOut(tr[i], g)
  {
    hide Partitioned, Step, Enabled, SentAfter, TakenAfter, Initial, FreeOk, Listed, PairOk, DataOk, RingsOk;
    RunInv(tr, ops, sent, taken, i);
    var g :| Ok(tr[i], g) && Waiting(g, sent[i], taken[i]);
    Ownership(tr[i], g);
    assert SharedOut(tr[i], g);
  }

  lemma OkShaped(s: State, g: Ledger)
    requires Ok(s, g)
    ensures Shaped(s.q)
  {
  }

  /** The indices differ exactly when a frame waits, and then the entry the device reads next leads to the oldest frame
      it has not taken: a header descriptor, then a last descriptor with exactly the bytes of that frame that fit. */
  ghost predicate Delivered(s: State, sent: seq<seq<nat>>, taken: nat) {
    && Shaped(s.q) && taken <= |sent| && (s.devIdx != s.q.availIdx <==> taken < |sent|)
    && (taken < |sent| ==>
      && var h := s.q.avail[Place(s.devIdx, |s.q.avail|)];
      && h < |s.q.desc| && Carries(s.q, h, sent[taken]))
  }

  lemma RunDelivers(tr: seq<State>, ops: seq<Op>, sent: seq<seq<seq<nat>>>, taken: seq<nat>, i: nat)
    requires Run(tr, ops, sent, taken) && i < |tr| && TxFits(tr)
    ensures Delivered(tr[i], sent[i], taken[i])
  {
    hide Ok, Carries, Step, Enabled, SentAfter, TakenAfter, Initial, Holds;
    RunInv(tr, ops, sent, taken, i);
    var g :| Ok(tr[i], g) && Waiting(g, sent[i], taken[i]);
    OkShaped(tr[i], g);
    Delivers(tr[i], g);
  }

  /** The chain at `h` is a header followed by the frame, or by its first 1536 bytes. */
  ghost predicate Carries(q: Queue, h: nat, data: seq<nat>)
    requires Shaped(q) && h < |q.desc|
  {
    var d := q.desc[h].next;
    && q.desc[h].addr == Addr.Header(h) && q.desc[h].len == 12 && q.desc[h].more
    && q.desc[d].addr == Addr.Payload(d) && !q.desc[d].more && q.desc[d].len <= |q.payload[d]|
      && q.payload[d][..q.desc[d].len] == if |data| <= 1536 then data else data[..1536]
  }

  lemma Delivers(s: State, g: Ledger)
    requires Ok(s, g)
    ensures s.devIdx != s.q.availIdx <==> g.pend != []
    ensures g.pend != [] ==> var h := s.q.avail[Place(s.devIdx, |s.q.avail|)];
      h == g.pend[0] && h in g.msg && h < |s.q.desc| && Carries(s.q, h, g.msg[h])
  {
    hide FreeList, Ring, Place;
    Fits(g.pend, |g.role|);
    QueueSize(s.q);
    SameIndex(g.taken, g.taken + |g.pend|);
    if g.pend != [] {
      assert g.pend[0] in g.pend;
      RingPop(s.q.avail, g.taken, g.pend);
      assert PairOk(s.q, g, g.pend[0]);
    }
  }
}
