/** Progress of TLB shootdown and cross-CPU call: a request in flight always has a next step, and every step of the
    protocol brings it closer to its end. */
module IpiProgress {
  import opened Counting
  import opened Options
  import opened Ipi

  /** Steps of the protocol, as against page-table writes and TLB refills. */
  predicate Protocol(op: Op) { !op.WritePageTables? && !op.Refill? }

  /** A request is in flight, and if it is a call there is a function to call. */
  ghost predicate InFlight(s: State) {
    s.holder.Some? && s.holder.value < |s.cpus| && (s.req.kind.Call? ==> s.req.kind.fnSet)
  }

  /** The steps CPU `c` has yet to take for the request of `o`. */
  ghost function Left(s: State, o: nat, c: nat): nat
    requires o < |s.cpus| && c < |s.cpus|
  {
    var w := Work(s.req.kind);
    if c == o then
      match s.cpus[o].pc
      case Flushing(done) => 5 + if done <= w then w - done else 0
      case Sending => 4
      case Waiting => 3
      case Clearing => 2
      case _ => 1
    else if !Sent(s.cpus[o].pc) then w + 3
    else if c in s.req.acked then 0
    else
      match s.cpus[c].pc
      case Running => w + 3
      case Entered(_) => w + 2
      case Handling(_, _, done) => 1 + if done <= w then w - done else 0
      case _ => 0
  }

  ghost function LeftTo(s: State, o: nat, k: nat): nat
    requires o < |s.cpus| && k <= |s.cpus|
  {
    if k == 0 then 0 else LeftTo(s, o, k - 1) + Left(s, o, k - 1)
  }

  /** All steps the request in flight still takes; none is left once its initiator has released the lock. */
  ghost function Remaining(s: State): nat {
    if InFlight(s) then LeftTo(s, s.holder.value, |s.cpus|) else 0
  }

  lemma {:induction false} LessWork(s: State, s': State, o: nat, c: nat, k: nat)
    requires o < |s.cpus| == |s'.cpus| && c < |s.cpus| && k <= |s.cpus| && Left(s', o, c) < Left(s, o, c)
    requires forall d | 0 <= d < |s.cpus| && d != c :: Left(s', o, d) == Left(s, o, d)
    ensures LeftTo(s', o, k) <= LeftTo(s, o, k) && (c < k ==> LeftTo(s', o, k) < LeftTo(s, o, k))
  {
    hide Left;
    if k > 0 { LessWork(s, s', o, c, k - 1); }
  }

  lemma {:induction false} SameWork(s: State, s': State, o: nat, k: nat)
    requires o < |s.cpus| == |s'.cpus| && k <= |s.cpus|
    requires forall d | 0 <= d < |s.cpus| :: Left(s', o, d) == Left(s, o, d)
    ensures LeftTo(s', o, k) == LeftTo(s, o, k)
  {
    hide Left;
    if k > 0 { SameWork(s, s', o, k - 1); }
  }

  lemma {:induction false} SomeWork(s: State, o: nat, k: nat)
    requires o < k <= |s.cpus|
    ensures LeftTo(s, o, k) > 0
  {
    if o < k - 1 { SomeWork(s, o, k - 1); }
  }

  lemma OwnerMoves(s: State, op: Op, o: nat)
    requires op.FlushLocal? || op.Send? || op.SeeAcks? || op.Clear?
    requires Inv(s) && InFlight(s) && s.holder == Some(o) && Enabled(s, op) && op.c == o
    ensures var s' := Step(s, op);
      && |s'.cpus| == |s.cpus| && InFlight(s') && s'.holder == s.holder && Left(s', o, o) < Left(s, o, o)
      && forall d | 0 <= d < |s.cpus| && d != o :: Left(s', o, d) == Left(s, o, d)
  {
    Owner(s, o);
    var s' := Step(s, op);
    forall d | 0 <= d < |s.cpus| && d != o ensures Left(s', o, d) == Left(s, o, d) {
      if Sent(s.cpus[o].pc) { assert TargetOk(s, d, s.cpus[d]); }
    }
  }

  lemma TargetMoves(s: State, op: Op, o: nat, c: nat)
    requires op.Take? || op.ReadWork? || op.DoWork? || op.Ack?
    requires Inv(s) && InFlight(s) && s.holder == Some(o) && Enabled(s, op) && op.c == c
    ensures var s' := Step(s, op);
      && c != o && |s'.cpus| == |s.cpus| && InFlight(s') && s'.holder == s.holder && Left(s', o, c) < Left(s, o, c)
      && forall d | 0 <= d < |s.cpus| && d != c :: Left(s', o, d) == Left(s, o, d)
  {
    Interrupted(s, c);
  }

  /** Every step of the protocol that can be taken leaves less to do. */
  lemma StepsShrink(s: State, op: Op)
    requires Inv(s) && InFlight(s) && Enabled(s, op) && Protocol(op)
    ensures Remaining(Step(s, op)) < Remaining(s)
  {
    hide Left, Inv, Step;
    var o, n, s' := s.holder.value, |s.cpus|, Step(s, op);
    SomeWork(s, o, n);
    Actor(s, op);
    if op.Unlock? {
      Unlocked(s, op.c);
    } else if op.c == o {
      OwnerMoves(s, op, o);
      LessWork(s, s', o, o, n);
    } else {
      TargetMoves(s, op, o, op.c);
      LessWork(s, s', o, op.c, n);
    }
  }

  /** While a request is in flight its initiator takes the steps of an initiator, and the others those of a handler. */
  lemma Actor(s: State, op: Op)
    requires Inv(s) && InFlight(s) && Enabled(s, op) && Protocol(op)
    ensures !op.Begin? && op.c < |s.cpus|
    ensures op.c == s.holder.value <==> op.FlushLocal? || op.Send? || op.SeeAcks? || op.Clear? || op.Unlock?
  {
    if op.FlushLocal? || op.Send? || op.SeeAcks? || op.Clear? || op.Unlock? {
      Owner(s, op.c);
    } else if !op.Begin? {
      Interrupted(s, op.c);
    }
  }

  lemma Unlocked(s: State, c: nat)
    requires Enabled(s, Unlock(c))
    ensures Remaining(Step(s, Unlock(c))) == 0
  {
  }

  /** Page-table writes and refills do not set the request back. */
  lemma OthersKeep(s: State, op: Op)
    requires InFlight(s) && Enabled(s, op) && !Protocol(op)
    ensures Remaining(Step(s, op)) == Remaining(s)
  {
    SameWork(s, Step(s, op), s.holder.value, |s.cpus|);
  }

  /** A CPU that has not acknowledged can take its next step. */
  lemma TargetReady(s: State, o: nat, c: nat) returns (op: Op)
    requires Inv(s) && InFlight(s) && s.holder == Some(o) && Sent(s.cpus[o].pc)
    requires c < |s.cpus| && c != o && c !in s.req.acked
    ensures Enabled(s, op) && Protocol(op)
  {
    assert TargetOk(s, c, s.cpus[c]);
    match s.cpus[c].pc
    case Running => op := Take(c, VectorOf(s.req.kind));
    case Entered(_) => op := ReadWork(c);
    case Handling(_, _, done) => op := if done < Work(s.req.kind) then DoWork(c) else Ack(c);
  }

  /** There is always a next step. */
  lemma NextStep(s: State) returns (op: Op)
    requires Inv(s) && InFlight(s)
    ensures Enabled(s, op) && Protocol(op)
  {
    var o := s.holder.value;
    match s.cpus[o].pc
    case Flushing(_) => op := FlushLocal(o);
    case Sending => op := Send(o);
    case Clearing => op := Clear(o);
    case Leaving => op := Unlock(o);
    case Waiting =>
      if s.req.ack >= |s.cpus| - 1 {
        op := SeeAcks(o);
      } else {
        var others := Below(|s.cpus|) - {o};
        if others <= s.req.acked { SubsetSize(others, s.req.acked); }
        var c :| c in others && c !in s.req.acked;
        op := TargetReady(s, o, c);
      }
  }

  /** Shootdowns and calls do not get stuck: in every state of every run, while a request is in flight, some step of the
      protocol can be taken, and whichever is taken, fewer are left. */
  lemma AlwaysProgress(tr: seq<State>, ops: seq<Op>, i: nat)
    requires Run(tr, ops) && i < |tr| && InFlight(tr[i])
    ensures exists op :: Enabled(tr[i], op) && Protocol(op)
    ensures forall op | Enabled(tr[i], op) ::
      if Protocol(op) then Remaining(Step(tr[i], op)) < Remaining(tr[i])
      else Remaining(Step(tr[i], op)) == Remaining(tr[i])
  {
    hide Inv, Remaining, Step, Enabled;
    RunInv(tr, ops, i);
    var op := NextStep(tr[i]);
    forall op | Enabled(tr[i], op)
      ensures if Protocol(op) then Remaining(Step(tr[i], op)) < Remaining(tr[i])
        else Remaining(Step(tr[i], op)) == Remaining(tr[i])
    {
      if Protocol(op) { StepsShrink(tr[i], op); } else { OthersKeep(tr[i], op); }
    }
  }

  /** A call without a function never returns: in no run does its initiator leave the wait loop. */
  lemma NullCallWaits(tr: seq<State>, ops: seq<Op>, i: nat, o: nat)
    requires Run(tr, ops) && i < |tr| && tr[i].holder == Some(o) && tr[i].req.kind == Call(false)
    ensures !Done(tr[i], o)
  {
    RunInv(tr, ops, i);
    var s := tr[i];
    var c := if o == 0 then 1 else 0;
    assert c < |s.cpus| && c != o && c !in s.req.acked;
  }
}
