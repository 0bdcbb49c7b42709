/** The runqueues of all CPUs and the tree node embedded in each thread. A thread's node is in at most one tree. */
module RunqueueForests {
  import opened OrderedSeq
  import opened RbShape
  import opened RbTrees
  import opened RunqueueTrees
  import opened SchedModel

  class Forest {
    const rq: seq<Runqueue>
    var nodes: map<Tid, Node>
    ghost var queues: seq<seq<Tid>>
    ghost var counts: seq<int>
    /** The threads whose nodes have been in a tree. */
    ghost var touched: set<Tid>

    ghost function Trees(): set<RbTree> { set r | r in rq :: r.tree }

    /** The nodes of the tree of `c` are those of the threads of `queues[c]`. */
    ghost predicate Holds(c: nat)
      requires c < |rq| && c < |queues| && c < |counts|
      reads this, rq, Trees(), nodes.Values
    {
      && rq[c].tree in Trees() && Nodes(rq[c].tree.shape) <= nodes.Values && rq[c].Valid(queues[c])
      && rq[c].nrRunning == counts[c] && forall t | t in queues[c] :: t in touched
    }

    ghost predicate Separate() {
      forall c, d | 0 <= c < d < |rq| :: rq[c] != rq[d] && rq[c].tree != rq[d].tree
    }

    ghost predicate OneQueueEach()
      reads this
    {
      forall c, d | 0 <= c < d < |queues| :: forall t | t in queues[c] :: t !in queues[d]
    }

    ghost predicate Valid()
      reads this, rq, Trees(), nodes.Values
    {
      && |rq| == |queues| == |counts| == MAX_CPUS && Separate() && OneQueueEach()
      && touched <= nodes.Keys && (forall t | t in nodes :: nodes[t].owner == t && (t !in touched ==> Loose(nodes[t])))
      && forall c | 0 <= c < MAX_CPUS :: Holds(c)
    }

    /** Where the node of a thread is. */
    lemma NodeAt(c: nat, n: Node)
      requires Valid() && c < MAX_CPUS && n in nodes.Values
      ensures n in Nodes(rq[c].tree.shape) <==> n.owner in queues[c]
    {
      assert Holds(c);
      var s := Inorder(rq[c].tree.shape);
      assert Owners(s) == queues[c];
      if n in Nodes(rq[c].tree.shape) {
        Member(rq[c].tree.shape, n);
      }
      if n.owner in queues[c] {
        var i :| 0 <= i < |queues[c]| && queues[c][i] == n.owner;
        InorderNode(rq[c].tree.shape, s[i]);
        assert s[i].owner == n.owner && s[i] in nodes.Values;
        assert nodes[n.owner] == n == s[i];
      }
    }

    lemma Apart(c: nat, d: nat)
      requires Valid() && c < MAX_CPUS && d < MAX_CPUS && c != d
      ensures Nodes(rq[c].tree.shape) !! Nodes(rq[d].tree.shape) && rq[c] != rq[d] && rq[c].tree != rq[d].tree
    {
      hide Nodes;
      forall n | n in Nodes(rq[c].tree.shape) ensures n !in Nodes(rq[d].tree.shape) {
        assert Holds(c);
        NodeAt(c, n);
        NodeAt(d, n);
      }
    }

    lemma OthersApart(c: nat)
      requires Valid() && c < MAX_CPUS
      ensures forall d | 0 <= d < MAX_CPUS && d != c ::
        Nodes(rq[c].tree.shape) !! Nodes(rq[d].tree.shape) && rq[c] != rq[d] && rq[c].tree != rq[d].tree
    {
      forall d | 0 <= d < MAX_CPUS && d != c
        ensures Nodes(rq[c].tree.shape) !! Nodes(rq[d].tree.shape) && rq[c] != rq[d] && rq[c].tree != rq[d].tree
      {
        Apart(c, d);
      }
    }

    /** A node that has been in no tree is in none now. */
    lemma UntouchedOut(c: nat)
      requires Valid() && c < MAX_CPUS
      ensures forall t | t in nodes && t !in touched :: nodes[t] !in Nodes(rq[c].tree.shape)
    {
      forall t | t in nodes && t !in touched ensures nodes[t] !in Nodes(rq[c].tree.shape) {
        assert Holds(c);
        NodeAt(c, nodes[t]);
      }
    }

    method Insert(c: nat, t: Tid, threads: map<Tid, Thread>)
      requires Valid() && c < MAX_CPUS && t in nodes && t in threads && forall d | 0 <= d < MAX_CPUS :: t !in queues[d]
      requires Ordered(Cmp(threads), queues[c]) && forall u | u in queues[c] :: u in threads
      modifies this`queues, this`counts, this`touched, rq, Trees(), nodes.Values
      ensures Valid() && queues == old(queues)[c := InsertBy(Cmp(threads), old(queues[c]), t)]
      ensures counts == old(counts)[c := old(counts[c]) + 1] && touched == old(touched) + {t}
    {
      hide InsertBy, Ordered, Nodes, RunqueueTrees.Runqueue.Valid;
      var n := nodes[t];
      UntouchedOut(c);
      forall d | 0 <= d < MAX_CPUS ensures n !in Nodes(rq[d].tree.shape) { NodeAt(d, n); }
      OthersApart(c);
      assert Holds(c);
      rq[c].RqInsert(threads, n, queues[c]);
      forall u ensures u in InsertBy(Cmp(threads), queues[c], t) <==> u == t || u in queues[c] {
        InsertByMember(Cmp(threads), queues[c], t, u);
      }
      queues := queues[c := InsertBy(Cmp(threads), queues[c], t)];
      counts, touched := counts[c := counts[c] + 1], touched + {t};
      forall d | 0 <= d < MAX_CPUS ensures Holds(d) {
        assert old(Holds(d));
      }
    }

    method Remove(c: nat, t: Tid)
      requires Valid() && c < MAX_CPUS && t in nodes && t in queues[c]
      modifies this`queues, this`counts, rq, Trees(), nodes.Values
      ensures Valid() && queues == old(queues)[c := Without(old(queues[c]), t)]
      ensures counts == old(counts)[c := old(counts[c]) - 1]
    {
      hide Without, Nodes, RunqueueTrees.Runqueue.Valid;
      UntouchedOut(c);
      var n := nodes[t];
      NodeAt(c, n);
      OthersApart(c);
      assert Holds(c);
      rq[c].RqRemove(n, queues[c]);
      queues, counts := queues[c := Without(queues[c], t)], counts[c := counts[c] - 1];
      forall u | u in queues[c] ensures u in old(queues[c]) {
        var k := WithoutSplit(old(queues[c]), t);
      }
      forall d | 0 <= d < MAX_CPUS ensures Holds(d) {
        assert old(Holds(d));
      }
    }

    /** A new thread brings its own node. */
    method AddNode(t: Tid)
      requires Valid() && t !in nodes
      modifies this`nodes
      ensures Valid() && nodes.Keys == old(nodes.Keys) + {t} && fresh(nodes.Values - old(nodes.Values))
    {
      hide Nodes, RunqueueTrees.Runqueue.Valid;
      var n := new Node(t);
      nodes := nodes[t := n];
      forall m | m in old(nodes.Values) ensures m in nodes.Values {
        assert old(nodes)[m.owner] == m;
        assert m.owner in nodes.Keys;
      }
      forall d | 0 <= d < MAX_CPUS ensures Holds(d) {
        assert old(Holds(d));
      }
    }

    method Clear(c: nat)
      requires Valid() && c < MAX_CPUS
      modifies this`queues, this`counts, rq, Trees()
      ensures Valid() && queues == old(queues)[c := []] && counts == old(counts)[c := 0]
    {
      hide Nodes, RunqueueTrees.Runqueue.Valid;
      OthersApart(c);
      assert Holds(c);
      rq[c].Clear();
      queues, counts := queues[c := []], counts[c := 0];
      forall d | 0 <= d < MAX_CPUS ensures Holds(d) {
        assert old(Holds(d));
      }
    }

    /** What becomes of the queue of `c` when a thread is removed from it that was never in a tree. */
    method RemoveLoose(c: nat, t: Tid)
      requires Valid() && c < MAX_CPUS && t in nodes && t !in touched
      modifies this`queues, this`counts, rq, Trees()
      ensures Valid() && queues == old(queues)[c := []] && counts == old(counts)[c := Dec(old(counts[c]))]
    {
      hide Nodes, RunqueueTrees.Runqueue.Valid;
      OthersApart(c);
      assert Holds(c);
      rq[c].RqRemoveLoose(nodes[t]);
      queues, counts := queues[c := []], counts[c := Dec(counts[c])];
      forall d | 0 <= d < MAX_CPUS ensures Holds(d) {
        assert old(Holds(d));
      }
    }

    constructor ()
      ensures Valid() && nodes == map[] && queues == seq(MAX_CPUS, _ => []) && counts == seq(MAX_CPUS, _ => 0)
      ensures fresh(rq) && fresh(Trees())
    {
      var made: seq<Runqueue> := [];
      while |made| < MAX_CPUS
        invariant |made| <= MAX_CPUS && fresh(made) && (forall r | r in made :: fresh(r.tree))
        invariant forall c | 0 <= c < |made| ::
          made[c].Valid([]) && made[c].nrRunning == 0 && Nodes(made[c].tree.shape) == {}
        invariant forall c, d | 0 <= c < d < |made| :: made[c] != made[d] && made[c].tree != made[d].tree
      {
        var r := new Runqueue();
        made := made + [r];
      }
      rq := made;
      nodes := map[];
      queues, counts, touched := seq(MAX_CPUS, _ => []), seq(MAX_CPUS, _ => 0), {};
    }
  }
}
