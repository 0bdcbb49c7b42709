/** The runqueue on its red-black tree: what sched.c does with tree nodes is what the state machine
    does with the sequence of their owners. */
module RunqueueTrees {
  import opened OrderedSeq
  import opened Options
  import opened RbShape
  import opened RbTrees
  import opened SchedModel

  ghost function Owners(s: seq<Node>): (r: seq<Tid>)
    ensures |r| == |s|
  {
    seq(|s|, i requires 0 <= i < |s| => s[i].owner)
  }

  /** `thread_cmp` on embedded nodes. */
  function NodeCmp(threads: map<Tid, Thread>): (Node, Node) -> int {
    (a: Node, b: Node) => ThreadCmp(threads, a.owner, b.owner)
  }

  /** Each thread has one node. */
  ghost predicate OneNodeEach(s: set<Node>) {
    forall a, b | a in s && b in s && a.owner == b.owner :: a == b
  }

  lemma {:induction false} OwnersInsert(threads: map<Tid, Thread>, s: seq<Node>, x: Node)
    ensures Owners(InsertBy(NodeCmp(threads), s, x)) == InsertBy(Cmp(threads), Owners(s), x.owner)
  {
    if s != [] {
      assert Owners(s)[1..] == Owners(s[1..]);
      OwnersInsert(threads, s[1..], x);
    }
  }

  lemma {:induction false} OwnersWithout(s: seq<Node>, x: Node)
    requires forall n | n in s && n.owner == x.owner :: n == x
    ensures Owners(Without(s, x)) == Without(Owners(s), x.owner)
  {
    if s != [] {
      assert Owners(s)[1..] == Owners(s[1..]);
      OwnersWithout(s[1..], x);
    }
  }

  lemma OwnersOrdered(threads: map<Tid, Thread>, s: seq<Node>)
    ensures Ordered(NodeCmp(threads), s) <==> Ordered(Cmp(threads), Owners(s))
  {
    var o := Owners(s);
    assert forall i, j | 0 <= i < j < |s| :: NodeCmp(threads)(s[j], s[i]) == Cmp(threads)(o[j], o[i]);
  }

  lemma NodePreorder(threads: map<Tid, Thread>, s: set<Node>)
    requires forall n | n in s :: n.owner in threads
    ensures Preorder(NodeCmp(threads), s)
  {
  }

  lemma NodesOwned(t: Tree, q: seq<Tid>)
    requires Owners(Inorder(t)) == q
    ensures forall n | n in Nodes(t) :: n.owner in q
  {
    forall n | n in Nodes(t) ensures n.owner in q { Member(t, n); }
  }

  class Runqueue {
    const tree: RbTree
    var nrRunning: int

    constructor ()
      ensures Valid([]) && nrRunning == 0 && Nodes(tree.shape) == {} && fresh(tree)
    {
      tree := new RbTree();
      nrRunning := 0;
    }

    /** The tree is a red-black tree whose nodes, in order, belong to the threads of `q`. */
    ghost predicate Valid(q: seq<Tid>)
      reads this, tree, Nodes(tree.shape)
    {
      tree.Valid() && Owners(Inorder(tree.shape)) == q && OneNodeEach(Nodes(tree.shape))
    }

    method RqInsert(threads: map<Tid, Thread>, node: Node, ghost q: seq<Tid>)
      requires Valid(q) && node !in Nodes(tree.shape) && node.owner in threads && node.owner !in q
      requires Ordered(Cmp(threads), q) && forall t | t in q :: t in threads
      modifies this, tree, Nodes(tree.shape), node
      ensures Valid(InsertBy(Cmp(threads), q, node.owner)) && nrRunning == old(nrRunning) + 1
      ensures Nodes(tree.shape) == old(Nodes(tree.shape)) + {node}
    {
      hide InsertBy, Ordered, Preorder, Nodes, Inorder, Owners, RbTrees.RbTree.Valid;
      ghost var s := Inorder(tree.shape);
      NodesOwned(tree.shape, q);
      NodePreorder(threads, Nodes(tree.shape) + {node});
      OwnersOrdered(threads, s);
      OwnersInsert(threads, s, node);
      tree.Insert(node, NodeCmp(threads));
      nrRunning := nrRunning + 1;
    }

    method RqRemove(node: Node, ghost q: seq<Tid>)
      requires Valid(q) && node in Nodes(tree.shape)
      modifies this, tree, Nodes(tree.shape)
      ensures Valid(Without(q, node.owner)) && nrRunning == old(nrRunning) - 1
      ensures Nodes(tree.shape) == old(Nodes(tree.shape)) - {node}
    {
      hide Without, Nodes, Inorder, Owners, RbTrees.RbTree.Valid;
      forall n | n in Inorder(tree.shape) ensures n in Nodes(tree.shape) { InorderNode(tree.shape, n); }
      OwnersWithout(Inorder(tree.shape), node);
      Member(tree.shape, node);
      tree.Erase(node);
      nrRunning := nrRunning - 1;
    }

    method Clear()
      modifies this, tree
      ensures Valid([]) && nrRunning == 0 && Nodes(tree.shape) == {}
    {
      tree.Clear();
      nrRunning := 0;
    }

    /** `rq_remove` of a node that was never linked empties the tree and still counts down. */
    method RqRemoveLoose(node: Node)
      requires Loose(node)
      modifies this, tree
      ensures Valid([]) && nrRunning == Dec(old(nrRunning)) && Nodes(tree.shape) == {}
    {
      tree.EraseLoose(node);
      nrRunning := Dec(nrRunning);
    }

    /** The last thread in the queue: the rightmost node. */
    method LastThread(ghost q: seq<Tid>) returns (t: Option<Tid>)
      requires Valid(q)
      ensures t == if q == [] then None else Some(q[|q| - 1])
    {
      var n := tree.Last();
      t := if n == null then None else Some(n.owner);
    }

    /** The scan of `rq_min_vr`, by `rb_first` and `rb_next`, from the current thread's runtime if any. */
    method LeastRuntime(threads: map<Tid, Thread>, start: Option<int>, ghost q: seq<Tid>) returns (min: Option<int>)
      requires Valid(q) && forall t | t in q :: t in threads
      ensures min == LeastVr(threads, q, start)
    {
      min := start;
      var n := tree.First();
      ghost var i := 0;
      while n != null
        invariant tree.Valid() && 0 <= i <= |q|
        invariant n == if i < |q| then Inorder(tree.shape)[i] else null
        invariant LeastVr(threads, q[i..], min) == LeastVr(threads, q, start)
        decreases |q| - i
      {
        assert n.owner == q[i] && q[i..][1..] == q[i + 1..];
        var vr := threads[n.owner].vruntime;
        if min == None || vr < min.value { min := Some(vr); }
        n := tree.Next(n, i);
        i := i + 1;
      }
    }

    /** `pick_next`: both scans run over the linked tree. */
    method PickNext(threads: map<Tid, Thread>, mvr: int, idle: Tid, ghost q: seq<Tid>) returns (next: Tid)
      requires Valid(q) && forall t | t in q :: t in threads
      ensures Some(next) == if nrRunning == 0 then Some(idle)
        else if FirstEligible(threads, q, mvr).Some? then FirstEligible(threads, q, mvr)
        else if LeastRun(threads, q, None).Some? then LeastRun(threads, q, None)
        else Some(idle)
    {
      if nrRunning == 0 { return idle; }
      var eligible := ScanEligible(threads, mvr, q);
      if eligible.Some? { return eligible.value; }
      var best := ScanLeastRun(threads, q);
      next := if best.Some? then best.value else idle;
    }

    method ScanEligible(threads: map<Tid, Thread>, mvr: int, ghost q: seq<Tid>) returns (r: Option<Tid>)
      requires Valid(q) && forall t | t in q :: t in threads
      ensures Valid(q) && r == FirstEligible(threads, q, mvr)
    {
      var n := tree.First();
      ghost var i := 0;
      while n != null
        invariant tree.Valid() && 0 <= i <= |q|
        invariant n == if i < |q| then Inorder(tree.shape)[i] else null
        invariant FirstEligible(threads, q[i..], mvr) == FirstEligible(threads, q, mvr)
        decreases |q| - i
      {
        assert n.owner == q[i] && q[i..][1..] == q[i + 1..];
        if threads[n.owner].vstart <= mvr { return Some(n.owner); }
        n := tree.Next(n, i);
        i := i + 1;
      }
      r := None;
    }

    method ScanLeastRun(threads: map<Tid, Thread>, ghost q: seq<Tid>) returns (best: Option<Tid>)
      requires Valid(q) && forall t | t in q :: t in threads
      ensures Valid(q) && best == LeastRun(threads, q, None)
    {
      best := None;
      var n := tree.First();
      ghost var i := 0;
      while n != null
        invariant tree.Valid() && 0 <= i <= |q|
        invariant n == if i < |q| then Inorder(tree.shape)[i] else null
        invariant best.Some? ==> best.value in threads
        invariant LeastRun(threads, q[i..], best) == LeastRun(threads, q, None)
        decreases |q| - i
      {
        assert n.owner == q[i] && q[i..][1..] == q[i + 1..];
        if Better(threads, n.owner, best) { best := Some(n.owner); }
        n := tree.Next(n, i);
        i := i + 1;
      }
    }
  }

  lemma Member(t: Tree, n: Node)
    requires n in Nodes(t)
    ensures n.owner in Owners(Inorder(t))
  {
    InorderNode(t, n);
    var i :| 0 <= i < |Inorder(t)| && Inorder(t)[i] == n;
    assert Owners(Inorder(t))[i] == n.owner;
  }
}
