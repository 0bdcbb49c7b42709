/** Pure theory of the red-black tree: the shape a set of linked nodes spells out,
    a zipper ("path") that leads to any position in it, and the colour invariants. */
module RbShape {

  /** One `struct rb_node`; `__pc` packs `parent` and the colour bit. The node is embedded in the record
      of the thread `owner`, which is what `rb_entry` leads back to. */
  /** As cleared memory leaves it: without links. */
  predicate Loose(n: Node)
    reads n
  {
    n.left == n.right == n.parent == null
  }

  class Node {
    const owner: nat
    var left: Node?
    var right: Node?
    var parent: Node?
    var black: bool
    constructor (owner: nat)
      ensures this.owner == owner && Loose(this)
    {
      this.owner := owner;
      left, right, parent, black := null, null, null, false;
    }
  }

  /** The contents of one node as a value. */
  datatype Cell = Cell(left: Node?, right: Node?, parent: Node?, black: bool)

  type Mem = map<Node, Cell>

  ghost function Snap(s: set<Node>): (m: Mem)
    reads s
  {
    map n | n in s :: Cell(n.left, n.right, n.parent, n.black)
  }

  datatype Tree = Leaf | T(l: Tree, n: Node, black: bool, r: Tree)

  /** Where a subtree sits: `Top` is the root position; `Step(up, n, black, onLeft, other)`
      is the left (or right) child position of node `n`, whose other subtree is `other`. */
  datatype Path = Top | Step(up: Path, n: Node, black: bool, onLeft: bool, other: Tree)

  ghost function Root(t: Tree): (p: Node?) {
    match t case Leaf => null case T(_, n, _, _) => n
  }

  ghost function Nodes(t: Tree): set<Node> {
    match t case Leaf => {} case T(l, n, _, r) => Nodes(l) + {n} + Nodes(r)
  }

  ghost function Inorder(t: Tree): seq<Node> {
    match t case Leaf => [] case T(l, n, _, r) => Inorder(l) + [n] + Inorder(r)
  }

  ghost predicate Distinct(t: Tree) {
    match t
    case Leaf => true
    case T(l, n, _, r) =>
      Distinct(l) && Distinct(r) && n !in Nodes(l) && n !in Nodes(r) && Nodes(l) !! Nodes(r)
  }

  ghost function Join(p: Path, t: Tree): Tree
    requires p.Step?
  {
    if p.onLeft then T(t, p.n, p.black, p.other) else T(p.other, p.n, p.black, t)
  }

  ghost function Plug(p: Path, t: Tree): Tree
    decreases p
  {
    if p.Top? then t else Plug(p.up, Join(p, t))
  }

  ghost function Parent(p: Path): Node? {
    if p.Top? then null else p.n
  }

  ghost function PathLen(p: Path): nat {
    if p.Top? then 0 else 1 + PathLen(p.up)
  }

  ghost function PathNodes(p: Path): set<Node> {
    if p.Top? then {} else PathNodes(p.up) + {p.n} + Nodes(p.other)
  }

  ghost function TopOf(p: Path, hole: Node?): Node? {
    if p.Top? then hole else TopOf(p.up, p.n)
  }

  ghost function Pre(p: Path): seq<Node> {
    if p.Top? then [] else if p.onLeft then Pre(p.up) else Pre(p.up) + Inorder(p.other) + [p.n]
  }

  ghost function Post(p: Path): seq<Node> {
    if p.Top? then [] else if p.onLeft then [p.n] + Inorder(p.other) + Post(p.up) else Post(p.up)
  }

  ghost function Append(q: Path, p: Path): Path {
    if q.Top? then p else q.(up := Append(q.up, p))
  }

  // ---------------------------------------------------------------- memory

  /** The nodes of `t` hold exactly the links and colours of `t`, under parent `up`. */
  ghost predicate Holds(m: Mem, t: Tree, up: Node?) {
    match t
    case Leaf => true
    case T(l, n, b, r) =>
      n in m && m[n] == Cell(Root(l), Root(r), up, b) && Holds(m, l, n) && Holds(m, r, n)
  }

  ghost predicate HoldsPath(m: Mem, p: Path, hole: Node?)
  {
    match p
    case Top => true
    case Step(up, n, b, onLeft, other) =>
      && n in m
      && m[n] == Cell(if onLeft then hole else Root(other), if onLeft then Root(other) else hole, Parent(up), b)
      && Holds(m, other, n) && HoldsPath(m, up, n)
  }

  ghost predicate DistinctPath(p: Path) {
    match p
    case Top => true
    case Step(up, n, _, _, other) =>
      && DistinctPath(up) && Distinct(other) && n !in PathNodes(up) && n !in Nodes(other)
      && PathNodes(up) !! Nodes(other)
  }

  /** Memory `m` with root pointer `root` spells out `Plug(p, t)`, seen from the position `p`. */
  ghost predicate Rep(m: Mem, root: Node?, p: Path, t: Tree) {
    && root == TopOf(p, Root(t))
    && Holds(m, t, Parent(p)) && HoldsPath(m, p, Root(t))
    && Distinct(t) && DistinctPath(p) && Nodes(t) !! PathNodes(p)
    && m.Keys == Nodes(t) + PathNodes(p)
  }

  ghost predicate Agree(m: Mem, m': Mem, s: set<Node>) {
    forall n | n in s :: n in m && n in m' && m[n] == m'[n]
  }

  lemma {:induction false} HoldsFrame(m: Mem, m': Mem, t: Tree, up: Node?)
    requires Holds(m, t, up) && Agree(m, m', Nodes(t))
    ensures Holds(m', t, up)
  {
    if t.T? {
      HoldsFrame(m, m', t.l, t.n);
      HoldsFrame(m, m', t.r, t.n);
    }
  }

  lemma {:induction false} PathFrame(m: Mem, m': Mem, p: Path, hole: Node?)
    requires HoldsPath(m, p, hole) && Agree(m, m', PathNodes(p))
    ensures HoldsPath(m', p, hole)
  {
    if p.Step? {
      HoldsFrame(m, m', p.other, p.n);
      PathFrame(m, m', p.up, p.n);
    }
  }

  /** The whole subtree may hang below another parent once its root's parent link is rewritten. */
  lemma Reparent(m: Mem, m': Mem, t: Tree, up: Node?, up': Node?)
    requires Holds(m, t, up) && Distinct(t)
    requires t.T? ==> t.n in m' && m'[t.n] == m[t.n].(parent := up') && Agree(m, m', Nodes(t) - {t.n})
    ensures Holds(m', t, up')
  {
    if t.T? {
      HoldsFrame(m, m', t.l, t.n);
      HoldsFrame(m, m', t.r, t.n);
    }
  }

  ghost function Redirect(c: Cell, onLeft: bool, hole: Node?): Cell {
    if onLeft then c.(left := hole) else c.(right := hole)
  }

  /** The position may hold another subtree once the child link above it is rewritten. */
  lemma Rehole(m: Mem, m': Mem, p: Path, hole: Node?, hole': Node?)
    requires HoldsPath(m, p, hole) && DistinctPath(p)
    requires p.Step? ==> p.n in m' && m'[p.n] == Redirect(m[p.n], p.onLeft, hole') && Agree(m, m', PathNodes(p) - {p.n})
    ensures HoldsPath(m', p, hole')
  {
    if p.Step? {
      HoldsFrame(m, m', p.other, p.n);
      PathFrame(m, m', p.up, p.n);
    }
  }

  /** Moving the focus one node up or down changes nothing. */
  lemma RepUp(m: Mem, root: Node?, p: Path, t: Tree)
    requires p.Step?
    ensures Rep(m, root, p, t) <==> Rep(m, root, p.up, Join(p, t))
  {
  }

  lemma {:induction false} RepPlug(m: Mem, root: Node?, p: Path, t: Tree)
    ensures Rep(m, root, p, t) <==> Rep(m, root, Top, Plug(p, t))
    decreases p
  {
    if p.Step? {
      RepUp(m, root, p, t);
      RepPlug(m, root, p.up, Join(p, t));
    }
  }

  lemma {:induction false} PlugAppend(q: Path, p: Path, t: Tree)
    ensures Plug(Append(q, p), t) == Plug(p, Plug(q, t))
    decreases q
  {
    if q.Step? {
      PlugAppend(q.up, p, Join(q, t));
    }
  }

  lemma Regroup(a: seq<Node>, b: seq<Node>, n: Node, c: seq<Node>, d: seq<Node>)
    ensures (a + b + [n]) + c + d == a + (b + [n] + c) + d
    ensures a + c + ([n] + b + d) == a + (c + [n] + b) + d
  {
  }

  lemma {:induction false} InorderPlug(p: Path, t: Tree)
    ensures Inorder(Plug(p, t)) == Pre(p) + Inorder(t) + Post(p)
    decreases p
  {
    if p.Step? {
      InorderPlug(p.up, Join(p, t));
      Regroup(Pre(p.up), Inorder(p.other), p.n, Inorder(t), Post(p.up));
    } else {
      assert Pre(p) + Inorder(t) + Post(p) == Inorder(t);
    }
  }

  lemma {:induction false} NodesPlug(p: Path, t: Tree)
    ensures Nodes(Plug(p, t)) == Nodes(t) + PathNodes(p)
    decreases p
  {
    if p.Step? { NodesPlug(p.up, Join(p, t)); }
  }

  // ---------------------------------------------------------------- colours

  ghost predicate IsRed(t: Tree) { t.T? && !t.black }

  /** Number of black nodes on the leftmost path. */
  ghost function BlackHeight(t: Tree): nat {
    match t case Leaf => 0 case T(l, _, b, _) => BlackHeight(l) + if b then 1 else 0
  }

  /** Every root-to-leaf path has the same number of black nodes. */
  ghost predicate Balanced(t: Tree) {
    match t
    case Leaf => true
    case T(l, _, _, r) => Balanced(l) && Balanced(r) && BlackHeight(l) == BlackHeight(r)
  }

  /** No red node has a red child. */
  ghost predicate NoRedRed(t: Tree) {
    match t
    case Leaf => true
    case T(l, _, b, r) => NoRedRed(l) && NoRedRed(r) && (!b ==> !IsRed(l) && !IsRed(r))
  }

  ghost predicate RedBlack(t: Tree) {
    Balanced(t) && NoRedRed(t) && !IsRed(t)
  }

  /** A balanced subtree of black height `h` at `p` makes the whole tree balanced. */
  ghost predicate PathBalanced(p: Path, h: int) {
    match p
    case Top => true
    case Step(up, _, b, _, other) =>
      Balanced(other) && BlackHeight(other) == h && PathBalanced(up, h + if b then 1 else 0)
  }

  /** No red-red edge around the position, and the root is black. */
  ghost predicate PathNoRedRed(p: Path) {
    match p
    case Top => true
    case Step(up, _, b, _, other) =>
      NoRedRed(other) && PathNoRedRed(up) && (!b ==> !IsRed(other) && BlackAbove(up) && up.Step?)
  }

  ghost predicate BlackAbove(p: Path) { p.Step? ==> p.black }

  lemma {:induction false} BalancedPlug(p: Path, t: Tree)
    ensures Balanced(Plug(p, t)) <==> Balanced(t) && PathBalanced(p, BlackHeight(t))
    decreases p
  {
    if p.Step? { BalancedPlug(p.up, Join(p, t)); }
  }

  lemma {:induction false} NoRedRedPlug(p: Path, t: Tree)
    requires p.Step?
    ensures NoRedRed(Plug(p, t)) && !IsRed(Plug(p, t))
       <==> NoRedRed(t) && PathNoRedRed(p) && (IsRed(t) ==> BlackAbove(p))
    decreases p
  {
    if p.up.Step? { NoRedRedPlug(p.up, Join(p, t)); }
  }

  lemma RedBlackPlug(p: Path, t: Tree)
    ensures RedBlack(Plug(p, t)) <==>
      && Balanced(t) && PathBalanced(p, BlackHeight(t))
      && NoRedRed(t) && PathNoRedRed(p) && (IsRed(t) ==> p.Step? && p.black)
  {
    BalancedPlug(p, t);
    if p.Step? { NoRedRedPlug(p, t); }
  }

  /** Every node of a tree has a position in it. */
  lemma {:induction false} Locate(p: Path, t: Tree, n: Node) returns (q: Path, s: Tree)
    requires n in Nodes(t)
    ensures s.T? && s.n == n && Plug(q, s) == Plug(p, t)
    decreases t
  {
    if n == t.n {
      q, s := p, t;
    } else if n in Nodes(t.l) {
      q, s := Locate(Step(p, t.n, t.black, true, t.r), t.l, n);
    } else {
      q, s := Locate(Step(p, t.n, t.black, false, t.l), t.r, n);
    }
  }
}
