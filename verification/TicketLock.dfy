/** src/inc/spinlock.h as a system of atomic steps over two wrapping 16-bit tickets. */
module TicketLock {
  import opened Counting
  import opened OrderedSeq

  const W: nat := 0x1_0000

  /** Where a CPU is: outside, in the wait loop of `spin_lock` with its ticket, between the read and the
      compare-and-swap of `spin_trylock` with the tickets it read, or inside the critical section. */
  datatype Pc = Out | Waiting(ticket: nat) | Trying(serving: nat, next: nat) | Inside

  datatype Lock = Lock(serving: nat, next: nat, cpus: seq<Pc>)

  datatype Op = Draw(i: nat) | Enter(i: nat) | TryRead(i: nat) | TryCas(i: nat) | Release(i: nat)

  function Start(n: nat): Lock { Lock(0, 0, seq(n, _ => Out)) }

  /** `Enter` is the exit of the wait loop; iterations that read another ticket change nothing. */
  predicate Enabled(l: Lock, op: Op) {
    op.i < |l.cpus| &&
    match op
    case Draw(i) => l.cpus[i] == Out
    case Enter(i) => l.cpus[i] == Waiting(l.serving)
    case TryRead(i) => l.cpus[i] == Out
    case TryCas(i) => l.cpus[i].Trying?
    case Release(i) => l.cpus[i] == Inside
  }

  predicate CasSucceeds(l: Lock, i: nat)
    requires i < |l.cpus|
  {
    l.cpus[i] == Trying(l.serving, l.next)
  }

  function Step(l: Lock, op: Op): Lock
    requires Enabled(l, op)
  {
    match op
    case Draw(i) => l.(next := (l.next + 1) % W, cpus := l.cpus[i := Waiting(l.next)])
    case Enter(i) => l.(cpus := l.cpus[i := Inside])
    case TryRead(i) => if l.serving != l.next then l else l.(cpus := l.cpus[i := Trying(l.serving, l.next)])
    case TryCas(i) =>
      if CasSucceeds(l, i) then l.(next := (l.next + 1) % W, cpus := l.cpus[i := Inside])
      else l.(cpus := l.cpus[i := Out])
    case Release(i) => l.(serving := (l.serving + 1) % W, cpus := l.cpus[i := Out])
  }

  /** CPUs that asked for the lock, in the order of their atomic update of the tickets. */
  ghost function Asked(l: Lock, op: Op): seq<nat> {
    if op.Draw? || (op.TryCas? && op.i < |l.cpus| && CasSucceeds(l, op.i)) then [op.i] else []
  }

  ghost function Granted(l: Lock, op: Op): seq<nat> {
    if op.Enter? || (op.TryCas? && op.i < |l.cpus| && CasSucceeds(l, op.i)) then [op.i] else []
  }

  /** A run of `n` CPUs: the states, and the requests and grants so far. */
  datatype Point = Point(lock: Lock, asked: seq<nat>, granted: seq<nat>)

  ghost predicate Run(n: nat, tr: seq<Point>, ops: seq<Op>) {
    && |tr| == |ops| + 1 && tr[0] == Point(Start(n), [], [])
    && forall k | 0 <= k < |ops| ::
      Enabled(tr[k].lock, ops[k]) && tr[k + 1] == Advance(tr[k], ops[k])
  }

  ghost function Advance(p: Point, op: Op): Point
    requires Enabled(p.lock, op)
  {
    Point(Step(p.lock, op), p.asked + Asked(p.lock, op), p.granted + Granted(p.lock, op))
  }

  // ---------------------------------------------------------------- the queue behind the tickets

  ghost predicate InQueue(pc: Pc) { pc.Waiting? || pc.Inside? }

  /** The ticket `j` after ticket `a`. */
  ghost function Ticket(a: nat, j: nat): nat { (a + j) % W }

  /** The CPUs of `q` hold the consecutive tickets from `serving` on, and only the first can be inside. */
  ghost predicate Queued(l: Lock, q: seq<nat>) {
    && l.serving < W && l.next < W
    && NoDup(q) && |q| <= |l.cpus| && |l.cpus| <= W
    && (forall j | 0 <= j < |q| :: q[j] < |l.cpus|)
    && l.next == Ticket(l.serving, |q|)
    && (forall j | 0 <= j < |q| :: l.cpus[q[j]] == Waiting(Ticket(l.serving, j)) || (j == 0 && l.cpus[q[j]] == Inside))
    && (forall i | 0 <= i < |l.cpus| && i !in q :: !InQueue(l.cpus[i]))
    && (forall i | 0 <= i < |l.cpus| :: l.cpus[i].Trying? ==> l.cpus[i].serving == l.cpus[i].next)
  }

  /** Requests are the departed CPUs followed by the queue; grants are the departed and the one inside. */
  ghost predicate Inv(p: Point, gone: seq<nat>, q: seq<nat>) {
    && Queued(p.lock, q) && p.asked == gone + q
    && p.granted == gone + if q != [] && p.lock.cpus[q[0]] == Inside then [q[0]] else []
  }

  lemma Room(l: Lock, q: seq<nat>, i: nat)
    requires Queued(l, q) && i < |l.cpus| && i !in q
    ensures |q| < |l.cpus|
  {
    FitsWith(q, |l.cpus|, i);
  }

  /** A waiting CPU sees its ticket served only at the head of the queue: at most W tickets are out at once. */
  lemma ServedIsHead(l: Lock, q: seq<nat>, i: nat)
    requires Queued(l, q) && i < |l.cpus| && l.cpus[i] == Waiting(l.serving)
    ensures q != [] && q[0] == i
  {
    assert InQueue(l.cpus[i]);
    var j :| 0 <= j < |q| && q[j] == i;
    assert Ticket(l.serving, j) == l.serving && j < W;
  }

  /** Equal tickets mean an empty queue, as long as the CPU that looks is not in it. */
  lemma FreeIsEmpty(l: Lock, q: seq<nat>, i: nat)
    requires Queued(l, q) && i < |l.cpus| && i !in q && l.serving == l.next
    ensures q == []
  {
    Room(l, q, i);
    assert Ticket(l.serving, |q|) == l.serving && |q| < W;
  }

  lemma InsideIsHead(l: Lock, q: seq<nat>, i: nat)
    requires Queued(l, q) && i < |l.cpus| && l.cpus[i] == Inside
    ensures q != [] && q[0] == i
  {
    assert InQueue(l.cpus[i]);
    var j :| 0 <= j < |q| && q[j] == i;
  }

  lemma JoinQueue(l: Lock, q: seq<nat>, i: nat)
    requires Queued(l, q) && i < |l.cpus| && i !in q
    ensures Queued(l.(next := (l.next + 1) % W, cpus := l.cpus[i := Waiting(l.next)]), q + [i])
    ensures q == [] ==> Queued(l.(next := (l.next + 1) % W, cpus := l.cpus[i := Inside]), [i])
  {
    hide Ticket;
    Room(l, q, i);
    OneMore(l.serving, |q|);
    if q == [] { SameTicket(l.serving); }
    assert forall j | 0 <= j < |q| :: q[j] in q;
  }

  lemma OneMore(a: nat, n: nat)
    ensures (Ticket(a, n) + 1) % W == Ticket(a, n + 1) < W
  {
  }

  lemma SameTicket(a: nat)
    requires a < W
    ensures Ticket(a, 0) == a
  {
  }

  lemma LeaveQueue(l: Lock, q: seq<nat>)
    requires Queued(l, q) && q != [] && l.cpus[q[0]] == Inside
    ensures Queued(l.(serving := (l.serving + 1) % W, cpus := l.cpus[q[0] := Out]), q[1..])
  {
    hide Ticket;
    var l', r := l.(serving := (l.serving + 1) % W, cpus := l.cpus[q[0] := Out]), q[1..];
    forall j: nat | j < |r| ensures r[j] != q[0] && l'.cpus[r[j]] == Waiting(Ticket(l'.serving, j)) {
      assert r[j] == q[j + 1];
      NextTicket(l.serving, j);
    }
    NextTicket(l.serving, |r|);
    forall i | 0 <= i < |l'.cpus| && i !in r ensures !InQueue(l'.cpus[i]) {
      if i != q[0] { assert i !in q; }
    }
  }

  lemma NextTicket(a: nat, j: nat)
    ensures Ticket((a + 1) % W, j) == Ticket(a, j + 1)
  {
  }

  /** A CPU outside the queue may start or give up a try. */
  lemma Aside(l: Lock, q: seq<nat>, i: nat, pc: Pc)
    requires Queued(l, q) && i < |l.cpus| && (l.cpus[i] == Out || l.cpus[i].Trying?)
    requires pc == Out || (pc.Trying? && pc.serving == pc.next)
    ensures Queued(l.(cpus := l.cpus[i := pc]), q) && i !in q
    ensures l.cpus[i].Trying? ==> l.cpus[i].serving == l.cpus[i].next
  {
    forall j | 0 <= j < |q| ensures q[j] != i { }
  }

  lemma EnterHead(l: Lock, q: seq<nat>)
    requires Queued(l, q) && q != []
    ensures Queued(l.(cpus := l.cpus[q[0] := Inside]), q)
  {
    assert forall j | 0 < j < |q| :: q[j] != q[0];
  }

  lemma StepInv(p: Point, gone: seq<nat>, q: seq<nat>, op: Op) returns (gone': seq<nat>, q': seq<nat>)
    requires Inv(p, gone, q) && Enabled(p.lock, op)
    ensures Inv(Advance(p, op), gone', q')
  {
    hide Queued;
    var l, i := p.lock, op.i;
    gone', q' := gone, q;
    Facts(l, q);
    match op
    case Draw(_) =>
      Aside(l, q, i, Out);
      JoinQueue(l, q, i);
      q' := q + [i];
    case Enter(_) =>
      ServedIsHead(l, q, i);
      EnterHead(l, q);
    case TryRead(_) =>
      Aside(l, q, i, if l.serving != l.next then l.cpus[i] else Trying(l.serving, l.next));
    case TryCas(_) =>
      Aside(l, q, i, Out);
      if CasSucceeds(l, i) {
        FreeIsEmpty(l, q, i);
        JoinQueue(l, q, i);
        q' := [i];
      }
    case Release(_) =>
      InsideIsHead(l, q, i);
      LeaveQueue(l, q);
      NextWaits(l, q);
      gone', q' := gone + [i], q[1..];
      assert gone + q == gone + [i] + q[1..];
  }

  lemma Facts(l: Lock, q: seq<nat>)
    requires Queued(l, q)
    ensures forall j | 0 <= j < |q| :: q[j] < |l.cpus|
  {
  }

  lemma NextWaits(l: Lock, q: seq<nat>)
    requires Queued(l, q) && |q| > 0
    ensures |q| > 1 ==> q[1] != q[0] && l.cpus[q[1]].Waiting?
  {
  }

  lemma {:induction false} RunInv(n: nat, tr: seq<Point>, ops: seq<Op>, k: nat) returns (gone: seq<nat>, q: seq<nat>)
    requires Run(n, tr, ops) && n <= W && k < |tr|
    ensures Inv(tr[k], gone, q) && |tr[k].lock.cpus| == n
    decreases k
  {
    if k == 0 {
      gone, q := [], [];
    } else {
      var g, r := RunInv(n, tr, ops, k - 1);
      gone, q := StepInv(tr[k - 1], g, r, ops[k - 1]);
    }
  }

  /** Mutual exclusion and first-come-first-served: in every state of every run of at most 2^16 CPUs at most one
      CPU is inside, and the grants so far are the first requests, in the order they were made. */
  lemma SafeRun(n: nat, tr: seq<Point>, ops: seq<Op>, k: nat)
    requires Run(n, tr, ops) && n <= W && k < |tr|
    ensures forall i, j | 0 <= i < n && 0 <= j < n && |tr[k].lock.cpus| == n &&
      tr[k].lock.cpus[i] == Inside && tr[k].lock.cpus[j] == Inside :: i == j
    ensures |tr[k].lock.cpus| == n && tr[k].granted <= tr[k].asked
  {
    var gone, q := RunInv(n, tr, ops, k);
    var l := tr[k].lock;
    forall i, j | 0 <= i < n && 0 <= j < n && l.cpus[i] == Inside && l.cpus[j] == Inside ensures i == j {
      InsideIsHead(l, q, i);
      InsideIsHead(l, q, j);
    }
    assert tr[k].granted <= gone + q;
  }

  // ---------------------------------------------------------------- nobody is kept out for nothing

  /** A `spin_trylock` of CPU `i` that no other CPU disturbs. */
  ghost function Try(l: Lock, i: nat): Lock
    requires i < |l.cpus| && l.cpus[i] == Out
  {
    var l1 := Step(l, TryRead(i));
    if l1.cpus[i].Trying? then Step(l1, TryCas(i)) else l1
  }

  ghost predicate Free(l: Lock) { forall c | 0 <= c < |l.cpus| :: !InQueue(l.cpus[c]) }

  /** It takes the lock exactly when nobody is inside or waiting, and otherwise changes nothing. */
  lemma TryExact(n: nat, tr: seq<Point>, ops: seq<Op>, k: nat, i: nat)
    requires Run(n, tr, ops) && n <= W && k < |tr| && i < n && |tr[k].lock.cpus| == n && tr[k].lock.cpus[i] == Out
    ensures var l := tr[k].lock; var l' := Try(l, i);
      && |l'.cpus| == n && (l'.cpus[i] == Inside <==> Free(l)) && (!Free(l) ==> l' == l)
  {
    var gone, q := RunInv(n, tr, ops, k);
    var l := tr[k].lock;
    assert !InQueue(l.cpus[i]);
    if l.serving == l.next {
      FreeIsEmpty(l, q, i);
    } else {
      assert InQueue(l.cpus[q[0]]);
    }
  }

  /** The lock never gets stuck: in every run, while anyone waits, some CPU is inside or may enter. */
  lemma NeverStuck(n: nat, tr: seq<Point>, ops: seq<Op>, k: nat)
    requires Run(n, tr, ops) && n <= W && k < |tr| && !Free(tr[k].lock)
    ensures var l := tr[k].lock; exists c | 0 <= c < |l.cpus| :: l.cpus[c] == Inside || Enabled(l, Enter(c))
  {
    var gone, q := RunInv(n, tr, ops, k);
    var l := tr[k].lock;
    var c :| 0 <= c < |l.cpus| && InQueue(l.cpus[c]);
    assert c in q;
    assert l.cpus[q[0]] == Inside || Enabled(l, Enter(q[0]));
  }

  // ---------------------------------------------------------------- the bound is exact

  ghost predicate Exclusive(l: Lock) {
    forall i, j | 0 <= i < |l.cpus| && 0 <= j < |l.cpus| && l.cpus[i] == Inside && l.cpus[j] == Inside :: i == j
  }

  ghost predicate SafeFor(n: nat) {
    forall tr: seq<Point>, ops: seq<Op>, k: nat | Run(n, tr, ops) && 0 <= k < |tr| :: Exclusive(tr[k].lock)
  }

  /** The first `k` CPUs have drawn a ticket. */
  ghost function Drawn(n: nat, k: nat): Lock
    requires k <= n
  {
    Lock(0, k % W, seq(n, i => if i < k then Waiting(i % W) else Out))
  }

  /** A run in which CPUs 0 to k - 1 each draw a ticket. */
  lemma {:induction false} DrawRun(n: nat, k: nat) returns (tr: seq<Point>, ops: seq<Op>)
    requires k <= n
    ensures Run(n, tr, ops) && |ops| == k && tr[k].lock == Drawn(n, k)
    decreases k
  {
    if k == 0 {
      tr, ops := [Point(Start(n), [], [])], [];
    } else {
      var tr0, ops0 := DrawRun(n, k - 1);
      var op := Draw(k - 1);
      ops := ops0 + [op];
      tr := tr0 + [Advance(tr0[k - 1], op)];
      Extend(n, tr0, ops0, op);
      assert tr[k].lock.cpus == Drawn(n, k).cpus;
    }
  }

  lemma Extend(n: nat, tr: seq<Point>, ops: seq<Op>, op: Op)
    requires Run(n, tr, ops) && Enabled(tr[|ops|].lock, op)
    ensures Run(n, tr + [Advance(tr[|ops|], op)], ops + [op])
  {
    var tr', ops' := tr + [Advance(tr[|ops|], op)], ops + [op];
    forall k | 0 <= k < |ops'| ensures Enabled(tr'[k].lock, ops'[k]) && tr'[k + 1] == Advance(tr'[k], ops'[k]) {
      if k < |ops| { assert tr'[k] == tr[k] && tr'[k + 1] == tr[k + 1] && ops'[k] == ops[k]; }
    }
  }

  /** Mutual exclusion holds in every run exactly when there are at most 2^16 CPUs: with one more, CPUs 0 and 2^16
      draw the same ticket and both enter. */
  lemma ExclusionBound(n: nat)
    ensures SafeFor(n) <==> n <= W
  {
    if n <= W {
      forall tr: seq<Point>, ops: seq<Op>, k: nat | Run(n, tr, ops) && 0 <= k < |tr| ensures Exclusive(tr[k].lock) {
        SafeRun(n, tr, ops, k);
      }
    } else {
      var tr, ops := DrawRun(n, W + 1);
      Extend(n, tr, ops, Enter(0));
      var tr1, ops1 := tr + [Advance(tr[W + 1], Enter(0))], ops + [Enter(0)];
      Extend(n, tr1, ops1, Enter(W));
      var last := Advance(tr1[W + 2], Enter(W));
      var tr2, ops2 := tr1 + [last], ops1 + [Enter(W)];
      assert last.lock.cpus[0] == Inside && last.lock.cpus[W] == Inside;
      assert !Exclusive(tr2[W + 3].lock);
    }
  }
}
