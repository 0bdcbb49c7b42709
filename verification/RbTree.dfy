/** src/kern/rbtree.c: the parent-pointer red-black tree, on linked nodes. */
module RbTrees {
  import opened RbShape
  import opened Bits
  import opened OrderedSeq

  ghost function RotL(t: Tree): Tree
    requires t.T? && t.r.T?
  {
    T(T(t.l, t.n, t.black, t.r.l), t.r.n, t.r.black, t.r.r)
  }

  ghost function RotR(t: Tree): Tree
    requires t.T? && t.l.T?
  {
    T(t.l.l, t.l.n, t.l.black, T(t.l.r, t.n, t.black, t.r))
  }

  lemma RootIn(t: Tree)
    ensures Root(t) == null || Root(t) in Nodes(t)
  {
  }

  lemma ParentIn(p: Path)
    ensures Parent(p) == null || Parent(p) in PathNodes(p)
  {
  }

  /** What a rotation that lifts `y` over `x` writes: `b` changes sides, `c` stays with `y`. */
  ghost predicate Rotated(m: Mem, m': Mem, p: Path, x: Node, cx: Cell, y: Node, cy: Cell, b: Node?) {
    && m'.Keys == m.Keys && x in m && y in m
    && m'[x] == cx && m'[y] == cy
    && (b != null ==> b in m && m'[b] == m[b].(parent := x))
    && (p.Step? ==> p.n in m && m'[p.n] == Redirect(m[p.n], p.onLeft, y))
    && forall n | n in m && n != x && n != y && n != b && n != Parent(p) :: m'[n] == m[n]
  }

  lemma RotatedPath(m: Mem, m': Mem, p: Path, x: Node, cx: Cell, y: Node, cy: Cell, b: Node?)
    requires Rotated(m, m', p, x, cx, y, cy, b)
    requires HoldsPath(m, p, x) && DistinctPath(p)
    requires PathNodes(p) <= m.Keys && x !in PathNodes(p) && y !in PathNodes(p) && b !in PathNodes(p)
    ensures HoldsPath(m', p, y)
  {
    Rehole(m, m', p, x, y);
  }

  lemma RotateLeftRep(m: Mem, m': Mem, root: Node?, p: Path, a: Tree, x: Node, xb: bool, b: Tree, y: Node, yb: bool,
      c: Tree)
    requires Rep(m, root, p, T(a, x, xb, T(b, y, yb, c)))
    requires Rotated(m, m', p, x, Cell(Root(a), Root(b), y, xb), y, Cell(x, Root(c), Parent(p), yb), Root(b))
    ensures Rep(m', TopOf(p, y), p, T(T(a, x, xb, b), y, yb, c))
  {
    RotationNodes(a, x, xb, b, y, yb, c);
    assert Holds(m, T(b, y, yb, c), x);
    RootIn(b);
    ParentIn(p);
    RotatedHolds(m, m', p, a, x, xb, b, y, yb, c);
    RotatedPath(m, m', p, x, Cell(Root(a), Root(b), y, xb), y, Cell(x, Root(c), Parent(p), yb), Root(b));
  }

  /** Both sides of a rotation are made of the same three subtrees and two nodes, all apart. */
  lemma RotationNodes(a: Tree, x: Node, xb: bool, b: Tree, y: Node, yb: bool, c: Tree)
    ensures Distinct(T(a, x, xb, T(b, y, yb, c))) <==> Distinct(T(T(a, x, xb, b), y, yb, c))
    ensures Nodes(T(a, x, xb, T(b, y, yb, c))) == Nodes(T(T(a, x, xb, b), y, yb, c))
      == Nodes(a) + Nodes(b) + Nodes(c) + {x, y}
    ensures Distinct(T(a, x, xb, T(b, y, yb, c))) ==>
      && Distinct(a) && Distinct(b) && Distinct(c) && x != y
      && Nodes(a) !! Nodes(b) && Nodes(b) !! Nodes(c) && Nodes(a) !! Nodes(c)
      && {x, y} !! Nodes(a) && {x, y} !! Nodes(b) && {x, y} !! Nodes(c)
  {
    var r, l := T(b, y, yb, c), T(a, x, xb, b);
    assert Nodes(r) == Nodes(b) + {y} + Nodes(c);
    assert Nodes(l) == Nodes(a) + {x} + Nodes(b);
  }

  lemma RotatedHolds(m: Mem, m': Mem, p: Path, a: Tree, x: Node, xb: bool, b: Tree, y: Node, yb: bool, c: Tree)
    requires Holds(m, a, x) && Holds(m, b, y) && Holds(m, c, y) && Distinct(b)
    requires Nodes(a) !! Nodes(b) && Nodes(b) !! Nodes(c) && Nodes(a) !! Nodes(c)
    requires {x, y} !! Nodes(a) && {x, y} !! Nodes(b) && {x, y} !! Nodes(c)
    requires Nodes(a) + Nodes(b) + Nodes(c) <= m.Keys && Parent(p) !in Nodes(a) + Nodes(b) + Nodes(c)
    requires Rotated(m, m', p, x, Cell(Root(a), Root(b), y, xb), y, Cell(x, Root(c), Parent(p), yb), Root(b))
    ensures Holds(m', T(T(a, x, xb, b), y, yb, c), Parent(p))
  {
    RootIn(b);
    HoldsFrame(m, m', a, x);
    Reparent(m, m', b, y, x);
    HoldsFrame(m, m', c, y);
    assert Holds(m', T(a, x, xb, b), y);
  }

  lemma RotateRightRep(m: Mem, m': Mem, root: Node?, p: Path, a: Tree, y: Node, yb: bool, b: Tree, x: Node, xb: bool,
      c: Tree)
    requires Rep(m, root, p, T(T(a, y, yb, b), x, xb, c))
    requires Rotated(m, m', p, x, Cell(Root(b), Root(c), y, xb), y, Cell(Root(a), x, Parent(p), yb), Root(b))
    ensures Rep(m', TopOf(p, y), p, T(a, y, yb, T(b, x, xb, c)))
  {
    RotationNodes(a, y, yb, b, x, xb, c);
    assert Holds(m, T(a, y, yb, b), x);
    RootIn(b);
    ParentIn(p);
    RotatedHoldsRight(m, m', p, a, y, yb, b, x, xb, c);
    RotatedPath(m, m', p, x, Cell(Root(b), Root(c), y, xb), y, Cell(Root(a), x, Parent(p), yb), Root(b));
  }

  lemma RotatedHoldsRight(m: Mem, m': Mem, p: Path, a: Tree, y: Node, yb: bool, b: Tree, x: Node, xb: bool, c: Tree)
    requires Holds(m, a, y) && Holds(m, b, y) && Holds(m, c, x) && Distinct(b)
    requires Nodes(a) !! Nodes(b) && Nodes(b) !! Nodes(c) && Nodes(a) !! Nodes(c)
    requires {x, y} !! Nodes(a) && {x, y} !! Nodes(b) && {x, y} !! Nodes(c)
    requires Nodes(a) + Nodes(b) + Nodes(c) <= m.Keys && Parent(p) !in Nodes(a) + Nodes(b) + Nodes(c)
    requires Rotated(m, m', p, x, Cell(Root(b), Root(c), y, xb), y, Cell(Root(a), x, Parent(p), yb), Root(b))
    ensures Holds(m', T(a, y, yb, T(b, x, xb, c)), Parent(p))
  {
    RootIn(b);
    HoldsFrame(m, m', a, y);
    Reparent(m, m', b, y, x);
    HoldsFrame(m, m', c, x);
    assert Holds(m', T(b, x, xb, c), y);
  }

  /** The cells a rotation of `x` over its child `ty` touches are all different and all in memory. */
  lemma Around(m: Mem, root: Node?, p: Path, t: Tree, ty: Tree, b: Tree)
    requires Rep(m, root, p, t) && t.T? && ty.T?
    requires (ty == t.r && b == ty.l) || (ty == t.l && b == ty.r)
    ensures t.n in m && m[t.n] == Cell(Root(t.l), Root(t.r), Parent(p), t.black)
    ensures ty.n in m && m[ty.n] == Cell(Root(ty.l), Root(ty.r), t.n, ty.black) && ty.n != t.n
    ensures b.T? ==> b.n in m && b.n != t.n && b.n != ty.n
    ensures p.Step? ==> p.n in m && p.n != t.n && p.n != ty.n && p.n != Root(b)
    ensures p.Step? ==> (m[p.n].left == t.n <==> p.onLeft) && (m[p.n].right == t.n <==> !p.onLeft)
  {
    assert Distinct(ty) && Holds(m, ty, t.n);
    RootIn(b);
    ParentIn(p);
    if p.Step? { RootIn(p.other); }
  }

  /** What the cells next to the focus hold. */
  lemma At(m: Mem, root: Node?, p: Path, t: Tree)
    requires Rep(m, root, p, t) && t.T?
    ensures t.n in m && m[t.n] == Cell(Root(t.l), Root(t.r), Parent(p), t.black)
    ensures t.l.T? ==> t.l.n in m && m[t.l.n].black == t.l.black && m[t.l.n].parent == t.n
    ensures t.r.T? ==> t.r.n in m && m[t.r.n].black == t.r.black && m[t.r.n].parent == t.n
    ensures t.l.T? && t.r.T? ==> t.l.n != t.r.n
    ensures t.n != Root(t.l) && t.n != Root(t.r)
    ensures p.Step? ==> p.n in m && m[p.n].black == p.black && m[p.n].parent == Parent(p.up)
  {
    RootIn(t.l);
    RootIn(t.r);
    assert Holds(m, t.l, t.n) && Holds(m, t.r, t.n);
  }

  lemma TopRoot(m: Mem, root: Node?, t: Tree)
    requires Rep(m, root, Top, t)
    ensures root == Root(t)
  {
  }

  lemma TopNodes(m: Mem, root: Node?, t: Tree)
    requires Rep(m, root, Top, t)
    ensures m.Keys == Nodes(t)
  {
  }

  /** The root pointer is the focus only at the top. */
  lemma AtFocus(m: Mem, root: Node?, p: Path, t: Tree)
    requires Rep(m, root, p, t)
    ensures Root(t) == root <==> p.Top?
    ensures t.T? ==> t.n in m && m[t.n].black == t.black
  {
    TopIn(p, Root(t));
    RootIn(t);
  }

  lemma {:induction false} TopIn(p: Path, hole: Node?)
    ensures p.Step? ==> TopOf(p, hole) != null && TopOf(p, hole) in PathNodes(p)
  {
    if p.Step? { TopIn(p.up, p.n); }
  }

  /** What the cells around the sibling of the focus hold. */
  lemma AtSibling(m: Mem, root: Node?, p: Path, t: Tree)
    requires Rep(m, root, p, t) && p.Step? && p.other.T?
    ensures var w := p.other;
      && Rep(m, root, Step(p.up, p.n, p.black, !p.onLeft, t), w)
      && p.n in m && m[p.n].black == p.black && m[p.n].parent == Parent(p.up)
      && m[p.n].left == (if p.onLeft then Root(t) else w.n) && m[p.n].right == (if p.onLeft then w.n else Root(t))
      && w.n != Root(t)
      && w.n in m && m[w.n] == Cell(Root(w.l), Root(w.r), p.n, w.black)
      && (w.l.T? ==> w.l.n in m && m[w.l.n].black == w.l.black)
      && (w.r.T? ==> w.r.n in m && m[w.r.n].black == w.r.black)
  {
    var q := Step(p.up, p.n, p.black, !p.onLeft, t);
    RepUp(m, root, p, t);
    RepUp(m, root, q, p.other);
    At(m, root, q, p.other);
    RootIn(p.other);
    RootIn(t);
  }

  lemma PaintRep(m: Mem, m': Mem, root: Node?, p: Path, t: Tree, black: bool)
    requires Rep(m, root, p, t) && t.T? && t.n in m
    requires m' == m[t.n := m[t.n].(black := black)]
    ensures Rep(m', root, p, t.(black := black))
  {
    HoldsFrame(m, m', t.l, t.n);
    HoldsFrame(m, m', t.r, t.n);
    PathFrame(m, m', p, t.n);
  }

  // ---------------------------------------------------------------- insertion

  /** A red subtree in an otherwise red-black tree: only the edge above it may be red-red. */
  ghost predicate RedAt(p: Path, t: Tree) {
    && IsRed(t) && Balanced(t) && NoRedRed(t)
    && PathBalanced(p, BlackHeight(t)) && PathNoRedRed(p)
  }

  ghost function PaintedChild(t: Tree, x: Node, black: bool): Tree
    requires t.T? && (x == Root(t.l) || x == Root(t.r))
  {
    if x == Root(t.l) then t.(l := t.l.(black := black)) else t.(r := t.r.(black := black))
  }

  ghost function Flipped(tg: Tree): Tree
    requires tg.T? && tg.l.T? && tg.r.T?
  {
    T(tg.l.(black := true), tg.n, false, tg.r.(black := true))
  }

  /** A red parent has a black parent of its own, whose colours are known. */
  lemma Above(p: Path, t: Tree)
    requires RedAt(p, t) && p.Step? && !p.black
    ensures p.up.Step? && p.up.black && !IsRed(p.other) && Balanced(p.other) && NoRedRed(p.other)
    ensures BlackHeight(p.other) == BlackHeight(t) == BlackHeight(p.up.other)
    ensures Balanced(p.up.other) && NoRedRed(p.up.other)
    ensures PathBalanced(p.up.up, BlackHeight(t) + 1) && PathNoRedRed(p.up.up)
    ensures PathLen(p) == PathLen(p.up.up) + 2
  {
    assert PathBalanced(p.up, BlackHeight(t)) && PathNoRedRed(p.up);
  }

  lemma FlippedInorder(tg: Tree)
    requires tg.T? && tg.l.T? && tg.r.T?
    ensures Inorder(Flipped(tg)) == Inorder(tg)
  {
    assert Inorder(tg.l.(black := true)) == Inorder(tg.l);
    assert Inorder(tg.r.(black := true)) == Inorder(tg.r);
  }

  lemma InsertUncle(p: Path, t: Tree)
    requires RedAt(p, t) && p.Step? && !p.black && p.up.Step? && IsRed(p.up.other)
    ensures var tg := Join(p.up, Join(p, t));
      RedAt(p.up.up, Flipped(tg)) && Inorder(Plug(p.up.up, Flipped(tg))) == Inorder(Plug(p, t))
  {
    Above(p, t);
    var tq := Join(p, t);
    var tg := Join(p.up, tq);
    assert Balanced(tq) && BlackHeight(tq) == BlackHeight(t);
    FlippedInorder(tg);
    SameInorder(p.up.up, tg, Flipped(tg));
  }

  /** A subtree that keeps the whole tree red-black, except that a red one may sit at the root. */
  ghost predicate Settled(p: Path, t: Tree) {
    && Balanced(t) && NoRedRed(t)
    && PathBalanced(p, BlackHeight(t)) && PathNoRedRed(p) && (IsRed(t) ==> BlackAbove(p))
  }

  lemma RedSettled(p: Path, t: Tree)
    requires RedAt(p, t) && BlackAbove(p)
    ensures Settled(p, t)
  {
  }

  lemma RotInorder(t: Tree)
    ensures t.T? && t.r.T? ==> Inorder(RotL(t)) == Inorder(t)
    ensures t.T? && t.l.T? ==> Inorder(RotR(t)) == Inorder(t)
  {
    if t.T? && t.r.T? { Assoc(Inorder(t.l), t.n, Inorder(t.r.l), t.r.n, Inorder(t.r.r)); }
    if t.T? && t.l.T? { Assoc(Inorder(t.l.l), t.l.n, Inorder(t.l.r), t.n, Inorder(t.r)); }
  }

  lemma Assoc(a: seq<Node>, x: Node, b: seq<Node>, y: Node, c: seq<Node>)
    ensures (a + [x] + b) + [y] + c == a + [x] + (b + [y] + c)
  {
  }

  /** Two trees with the same in-order sequence may replace each other at any position. */
  lemma SameInorder(p: Path, t: Tree, t': Tree)
    requires Inorder(t) == Inorder(t')
    ensures Inorder(Plug(p, t)) == Inorder(Plug(p, t'))
  {
    InorderPlug(p, t);
    InorderPlug(p, t');
  }

  lemma {:induction false} PlugRoot(p: Path, t: Tree)
    ensures Root(Plug(p, t)) == TopOf(p, Root(t))
    ensures Plug(p, t).T? <==> p.Step? || t.T?
    decreases p
  {
    if p.Step? { PlugRoot(p.up, Join(p, t)); }
  }

  lemma SettledRoot(p: Path, t: Tree)
    requires Settled(p, t) && Plug(p, t).T?
    ensures RedBlack(Plug(p, t).(black := true))
  {
    BalancedPlug(p, t);
    if p.Step? { NoRedRedPlug(p, t); }
  }

  /** Rotating the middle of three black-height-`h` neighbours to the top settles the tree. */
  lemma InsertRotated(p: Path, t: Tree, a: Tree, x: Node, b: Tree, y: Node, c: Tree, z: Node, d: Tree)
    requires RedAt(p, t) && p.Step? && !p.black && p.up.Step? && !IsRed(p.up.other)
    requires (a, b, c, d) in {(t.l, t.r, p.other, p.up.other), (p.other, t.l, t.r, p.up.other),
                              (p.up.other, p.other, t.l, t.r), (p.up.other, t.l, t.r, p.other)}
    ensures Settled(p.up.up, T(T(a, x, false, b), y, true, T(c, z, false, d)))
  {
    Above(p, t);
    forall s | s in {a, b, c, d} ensures Balanced(s) && NoRedRed(s) && !IsRed(s) && BlackHeight(s) == BlackHeight(t) {
    }
    assert Balanced(T(a, x, false, b)) && NoRedRed(T(a, x, false, b));
    assert Balanced(T(c, z, false, d)) && NoRedRed(T(c, z, false, d));
  }

  // ---------------------------------------------------------------- deletion

  ghost predicate KidsOk(t: Tree) { t.T? ==> NoRedRed(t.l) && NoRedRed(t.r) }

  /** The subtree is one black node short; all else is red-black. */
  ghost predicate ShortAt(p: Path, t: Tree) {
    && Balanced(t) && KidsOk(t)
    && PathBalanced(p, BlackHeight(t) + 1) && PathNoRedRed(p)
  }

  ghost function FixupLeft(p: Path, t: Tree): nat {
    if IsRed(t) then 0 else PathLen(p) + 1
  }

  /** The sibling of a short subtree is a node, and red only below a black parent. */
  lemma Sibling(p: Path, t: Tree)
    requires ShortAt(p, t) && p.Step?
    ensures p.other.T? && Balanced(p.other) && NoRedRed(p.other) && BlackHeight(p.other) == BlackHeight(t) + 1
    ensures !p.other.black ==> p.black && p.other.l.T? && p.other.r.T? && p.other.l.black && p.other.r.black
    ensures Balanced(p.other.l) && Balanced(p.other.r) && NoRedRed(p.other.l) && NoRedRed(p.other.r)
    ensures BlackHeight(p.other.l) == BlackHeight(p.other.r) == BlackHeight(t) + if p.other.black then 0 else 1
    ensures PathBalanced(p.up, BlackHeight(t) + 1 + if p.black then 1 else 0) && PathNoRedRed(p.up)
    ensures !p.black ==> BlackAbove(p.up) && p.up.Step?
    ensures !IsRed(t) ==> NoRedRed(t)
  {
  }

  /** Red sibling: after the rotation the short subtree has a black sibling and a red parent. */
  lemma RedSibling(p: Path, t: Tree)
    requires ShortAt(p, t) && p.Step? && IsRed(p.other)
    ensures var w := p.other;
      var near, far := if p.onLeft then w.l else w.r, if p.onLeft then w.r else w.l;
      var q := Step(Step(p.up, w.n, true, p.onLeft, far), p.n, false, p.onLeft, near);
      ShortAt(q, t) && near.T? && near.black && PathLen(q) == PathLen(p) + 1
  {
    Sibling(p, t);
  }

  /** Black sibling without red children: painting it red moves the shortage up. */
  lemma BlackSibling(p: Path, t: Tree)
    requires ShortAt(p, t) && p.Step? && !IsRed(t)
    requires p.other.T? && p.other.black && !IsRed(p.other.l) && !IsRed(p.other.r)
    ensures ShortAt(p.up, Join(p.(other := p.other.(black := false)), t))
    ensures Inorder(Plug(p.up, Join(p.(other := p.other.(black := false)), t))) == Inorder(Plug(p, t))
  {
    Sibling(p, t);
    var p' := p.(other := p.other.(black := false));
    assert Balanced(p'.other) && BlackHeight(p'.other) == BlackHeight(t);
    assert Balanced(Join(p', t)) && BlackHeight(Join(p', t)) == BlackHeight(t) + if p.black then 1 else 0;
    assert Inorder(p'.other) == Inorder(p.other);
    assert Inorder(Join(p', t)) == Inorder(Join(p, t));
    SameInorder(p.up, Join(p, t), Join(p', t));
  }

  /** The far child of the sibling is red: one rotation makes up the missing black node. */
  lemma RedNephewLeft(p: Path, t: Tree)
    requires ShortAt(p, t) && p.Step? && !IsRed(t) && p.onLeft && p.other.T? && p.other.black && IsRed(p.other.r)
    ensures Settled(p.up, T(T(t, p.n, true, p.other.l), p.other.n, p.black, p.other.r.(black := true)))
  {
    Sibling(p, t);
    var a, c := p.other.l, p.other.r.(black := true);
    assert Balanced(T(t, p.n, true, a)) && NoRedRed(T(t, p.n, true, a));
    assert Balanced(c) && NoRedRed(c);
  }

  lemma RedNephewRight(p: Path, t: Tree)
    requires ShortAt(p, t) && p.Step? && !IsRed(t) && !p.onLeft && p.other.T? && p.other.black && IsRed(p.other.l)
    ensures Settled(p.up, T(p.other.l.(black := true), p.other.n, p.black, T(p.other.r, p.n, true, t)))
  {
    Sibling(p, t);
    var a, c := p.other.r, p.other.l.(black := true);
    assert Balanced(T(a, p.n, true, t)) && NoRedRed(T(a, p.n, true, t));
    assert Balanced(c) && NoRedRed(c);
  }

  /** Only the near child of the sibling is red: rotating it over the sibling makes the far one red. */
  lemma NearNephewLeft(p: Path, t: Tree)
    requires ShortAt(p, t) && p.Step? && p.onLeft && p.other.T? && p.other.black && IsRed(p.other.l)
      && !IsRed(p.other.r)
    ensures var b := RotR(p.other.(l := p.other.l.(black := true), black := false));
      ShortAt(p.(other := b), t) && b.black && IsRed(b.r)
  {
    Sibling(p, t);
    var a := p.other.l;
    var r := T(a.r, p.other.n, false, p.other.r);
    assert Balanced(r) && NoRedRed(r) && BlackHeight(r) == BlackHeight(t);
    assert Balanced(a.l) && NoRedRed(a.l) && BlackHeight(a.l) == BlackHeight(t);
  }

  lemma NearNephewRight(p: Path, t: Tree)
    requires ShortAt(p, t) && p.Step? && !p.onLeft && p.other.T? && p.other.black && IsRed(p.other.r)
      && !IsRed(p.other.l)
    ensures var b := RotL(p.other.(r := p.other.r.(black := true), black := false));
      ShortAt(p.(other := b), t) && b.black && IsRed(b.l)
  {
    Sibling(p, t);
    var a := p.other.r;
    var l := T(p.other.l, p.other.n, false, a.l);
    assert Balanced(l) && NoRedRed(l) && BlackHeight(l) == BlackHeight(t);
    assert Balanced(a.r) && NoRedRed(a.r) && BlackHeight(a.r) == BlackHeight(t);
  }

  lemma SettledShort(p: Path, t: Tree)
    requires Settled(p, t)
    ensures ShortAt(Top, Plug(p, t))
  {
    BalancedPlug(p, t);
    if p.Step? { NoRedRedPlug(p, t); }
  }

  /** Painting a short subtree black repairs it when it is red or is the whole tree. */
  lemma ShortPainted(p: Path, t: Tree)
    requires ShortAt(p, t) && (IsRed(t) || p.Top?)
    ensures t.T? ==> RedBlack(Plug(p, t.(black := true)))
    ensures t.T? ==> Inorder(Plug(p, t.(black := true))) == Inorder(Plug(p, t))
    ensures t.Leaf? ==> RedBlack(Plug(p, t))
  {
    if t.T? {
      var t' := t.(black := true);
      assert Balanced(t') && NoRedRed(t');
      RedBlackPlug(p, t');
      SameInorder(p, t, t');
    }
  }

  /** Descending by comparison keeps all smaller-or-equal nodes before the position, all larger ones after. */
  lemma Descend(cmp: (Node, Node) -> int, x: Node, p: Path, t: Tree)
    requires t.T? && Preorder(cmp, Nodes(Plug(p, t)) + {x}) && Ordered(cmp, Inorder(Plug(p, t)))
    requires cmp(x, t.n) >= 0
    ensures forall i | 0 <= i < |Inorder(t.l)| :: cmp(x, Inorder(t.l)[i]) >= 0
  {
    hide Preorder, Ordered;
    InorderPlug(p, t);
    var a := Inorder(t.l);
    var all := Pre(p) + (a + [t.n] + Inorder(t.r)) + Post(p);
    assert all == Inorder(Plug(p, t));
    assert all[|Pre(p)| + |a|] == t.n;
    forall e | e in all ensures e in Nodes(Plug(p, t)) + {x} { InorderNode(Plug(p, t), e); }
    NotBelowPrefix(cmp, Nodes(Plug(p, t)) + {x}, all, |Pre(p)| + |a|, x);
    assert forall i | 0 <= i < |a| :: a[i] == all[|Pre(p)| + i];
  }

  lemma {:induction false} InorderNode(t: Tree, n: Node)
    ensures n in Inorder(t) <==> n in Nodes(t)
  {
    if t.T? {
      InorderNode(t.l, n);
      InorderNode(t.r, n);
    }
  }

  // ---------------------------------------------------------------- linking nodes in and out

  /** Every cell but the listed ones is unchanged. */
  ghost predicate SameBut(m: Mem, m': Mem, changed: set<Node?>) {
    forall n | n in m && n in m' && n !in changed :: m'[n] == m[n]
  }

  /** What `transplant` writes: the link at `p` leads to `v`, whose parent is the node above. */
  ghost predicate Transplanted(m: Mem, m': Mem, p: Path, v: Node?) {
    && m'.Keys == m.Keys
    && (p.Step? ==> p.n in m && m'[p.n] == Redirect(m[p.n], p.onLeft, v))
    && (v != null ==> v in m && m'[v] == m[v].(parent := Parent(p)))
    && SameBut(m, m', {Parent(p), v})
  }

  lemma AtHole(m: Mem, root: Node?, p: Path, node: Node)
    requires Rep(m, root, p, Leaf)
    ensures p.Step? ==> p.n in m && TopOf(p, node) == root
    ensures p.Top? ==> root == null && TopOf(p, node) == node
  {
    ParentIn(p);
  }

  lemma AttachRep(m: Mem, m': Mem, root: Node?, p: Path, node: Node)
    requires Rep(m, root, p, Leaf) && node !in m
    requires m'.Keys == m.Keys + {node} && m'[node] == Cell(null, null, Parent(p), false)
    requires p.Step? ==> p.n in m && m'[p.n] == Redirect(m[p.n], p.onLeft, node)
    requires SameBut(m, m', {Parent(p)})
    ensures Rep(m', TopOf(p, node), p, T(Leaf, node, false, Leaf))
  {
    ParentIn(p);
    Rehole(m, m', p, null, node);
  }

  lemma AtSplice(m: Mem, root: Node?, p: Path, t: Tree, v: Tree)
    requires Rep(m, root, p, t) && t.T? && (v == t.l || v == t.r)
    ensures t.n in m && m[t.n] == Cell(Root(t.l), Root(t.r), Parent(p), t.black)
    ensures v.T? ==> v.n in m && v.n != t.n
    ensures p.Step? ==> p.n in m && p.n != Root(v) && p.n != t.n && (m[p.n].left == t.n <==> p.onLeft)
    ensures p.Top? ==> TopOf(p, Root(v)) == Root(v)
    ensures p.Step? ==> TopOf(p, Root(v)) == root
  {
    RootIn(v);
    ParentIn(p);
    if p.Step? { RootIn(p.other); }
  }

  /** Splicing out a node with at most one child. */
  lemma SpliceRep(m: Mem, m': Mem, root: Node?, p: Path, z: Node, t: Tree, v: Tree)
    requires Rep(m, root, p, t) && t.T? && t.n == z && ((t.l == Leaf && v == t.r) || (t.r == Leaf && v == t.l))
    requires m'.Keys == m.Keys - {z}
    requires p.Step? ==> p.n in m && p.n in m' && m'[p.n] == Redirect(m[p.n], p.onLeft, Root(v))
    requires v.T? ==> v.n in m && v.n in m' && m'[v.n] == m[v.n].(parent := Parent(p))
    requires SameBut(m, m', {Parent(p), Root(v)})
    ensures Rep(m', TopOf(p, Root(v)), p, v)
  {
    ParentIn(p);
    RootIn(v);
    assert Holds(m, v, z) && Distinct(v) && Nodes(t) == Nodes(v) + {z};
    Reparent(m, m', v, z, Parent(p));
    Rehole(m, m', p, z, Root(v));
  }

  /** Removing a node with at most one child leaves the tree red-black, or short where the node was black. */
  lemma SpliceColours(p: Path, t: Tree, v: Tree)
    requires RedBlack(Plug(p, t)) && t.T? && ((t.l == Leaf && v == t.r) || (t.r == Leaf && v == t.l))
    ensures t.black ==> ShortAt(p, v)
    ensures !t.black ==> RedBlack(Plug(p, v))
  {
    hide Plug, PathBalanced, PathNoRedRed;
    RedBlackPlug(p, t);
    RedBlackPlug(p, v);
  }

  ghost predicate Alike(a: Tree, b: Tree) {
    && IsRed(a) == IsRed(b) && Balanced(a) == Balanced(b)
    && BlackHeight(a) == BlackHeight(b) && NoRedRed(a) == NoRedRed(b)
  }

  lemma {:induction false} AlikePlug(p: Path, a: Tree, b: Tree)
    requires Alike(a, b)
    ensures Alike(Plug(p, a), Plug(p, b))
    decreases p
  {
    if p.Step? { AlikePlug(p.up, Join(p, a), Join(p, b)); }
  }

  /** The in-order successor `y` may take the place and the colour of `z`; what is missing then is
      one node of the colour of `y` at the old place of `y`. */
  lemma InnerColours(p: Path, l: Tree, z: Node, zb: bool, q: Path, y: Node, yb: bool, yr: Tree)
    requires RedBlack(Plug(p, T(l, z, zb, Plug(q, T(Leaf, y, yb, yr)))))
    ensures var p1 := Append(q, Step(p, y, zb, false, l));
      (yb ==> ShortAt(p1, yr)) && (!yb ==> RedBlack(Plug(p1, yr)))
  {
    var p1 := Append(q, Step(p, y, zb, false, l));
    var s, s' := T(Leaf, y, yb, yr), T(Leaf, z, yb, yr);
    AlikePlug(q, s, s');
    AlikePlug(p, T(l, z, zb, Plug(q, s)), T(l, y, zb, Plug(q, s')));
    PlugAppend(q, Step(p, y, zb, false, l), s');
    SpliceColours(p1, s', yr);
  }

  lemma InnerInorder(p: Path, l: Tree, z: Node, zb: bool, q: Path, y: Node, yb: bool, yr: Tree)
    requires Pre(q) == []
    ensures Inorder(Plug(Append(q, Step(p, y, zb, false, l)), yr))
         == Pre(p) + Inorder(l) + Inorder(Plug(q, T(Leaf, y, yb, yr))) + Post(p)
  {
    PlugAppend(q, Step(p, y, zb, false, l), yr);
    InorderPlug(p, T(l, y, zb, Plug(q, yr)));
    InorderPlug(q, yr);
    InorderPlug(q, T(Leaf, y, yb, yr));
    InnerSeq(Pre(p), Inorder(l), y, Inorder(yr), Post(q), Post(p));
    assert Inorder(T(Leaf, y, yb, yr)) == [y] + Inorder(yr);
  }

  lemma InnerSeq(a: seq<Node>, l: seq<Node>, y: Node, r: seq<Node>, c: seq<Node>, d: seq<Node>)
    ensures a + (l + [y] + ([] + r + c)) + d == a + l + ([] + ([y] + r) + c) + d
  {
  }

  /** Moving the focus down a path inside the right subtree of the focus, and back. */
  lemma Refocus(m: Mem, root: Node?, p: Path, t: Tree, q: Path, s: Tree)
    requires Rep(m, root, p, t) && t.T? && t.r == Plug(q, s)
    ensures Rep(m, root, Append(q, Step(p, t.n, t.black, false, t.l)), s)
  {
    hide Rep;
    var pz := Step(p, t.n, t.black, false, t.l);
    RepPlug(m, root, p, t);
    PlugAppend(q, pz, s);
    RepPlug(m, root, Append(q, pz), s);
  }

  lemma Unfocus(m: Mem, root: Node?, p: Path, t: Tree, q: Path, s: Tree)
    requires t.T? && Rep(m, root, Append(q, Step(p, t.n, t.black, false, t.l)), s)
    ensures Rep(m, root, p, t.(r := Plug(q, s)))
  {
    hide Rep;
    var pz := Step(p, t.n, t.black, false, t.l);
    RepPlug(m, root, p, t.(r := Plug(q, s)));
    PlugAppend(q, pz, s);
    RepPlug(m, root, Append(q, pz), s);
  }

  lemma {:induction false} PreNode(p: Path, n: Node)
    requires n in Pre(p)
    ensures n in PathNodes(p)
  {
    if !p.onLeft && n in Inorder(p.other) {
      InorderNode(p.other, n);
    } else if n != p.n || p.onLeft {
      PreNode(p.up, n);
    }
  }

  lemma NotBefore(m: Mem, root: Node?, p: Path, t: Tree)
    requires Rep(m, root, p, t) && t.T?
    ensures t.n !in Pre(p) && t.n !in Inorder(t.l)
  {
    if t.n in Pre(p) { PreNode(p, t.n); }
    InorderNode(t.l, t.n);
  }

  /** The focus occurs once, so taking it out of the sequence leaves what is before and after it. */
  lemma ErasedInorder(m: Mem, root: Node?, p: Path, t: Tree)
    requires Rep(m, root, p, t) && t.T?
    ensures Without(Inorder(Plug(p, t)), t.n) == Pre(p) + Inorder(t.l) + Inorder(t.r) + Post(p)
  {
    hide Rep, Plug, Pre, Post;
    NotBefore(m, root, p, t);
    var a, b := Pre(p) + Inorder(t.l), Inorder(t.r) + Post(p);
    InorderPlug(p, t);
    assert Inorder(Plug(p, t)) == a + [t.n] + b;
    WithoutAt(a, b, t.n);
    assert a + b == Pre(p) + Inorder(t.l) + Inorder(t.r) + Post(p);
  }

  /** The leftmost node of the right subtree is a child of the focus only if nothing is above it there. */
  lemma SuccessorParent(m: Mem, root: Node?, p: Path, t: Tree, q: Path, s: Tree)
    requires Rep(m, root, p, t) && t.T? && t.r == Plug(q, s)
    ensures Parent(Append(q, Step(p, t.n, t.black, false, t.l))) == t.n <==> q.Top?
    ensures q.Step? && s.T? ==> Plug(q, s.r).T?
  {
    NodesPlug(q, s);
    if s.T? { PlugRoot(q, s.r); }
  }

  lemma {:induction false} InorderNoDup(t: Tree)
    requires Distinct(t)
    ensures NoDup(Inorder(t))
  {
    if t.T? {
      InorderNoDup(t.l);
      InorderNoDup(t.r);
      var a, b := Inorder(t.l), Inorder(t.r);
      forall n | n in a ensures n in Nodes(t.l) { InorderNode(t.l, n); }
      forall n | n in b ensures n in Nodes(t.r) { InorderNode(t.r, n); }
      NoDupJoin(a, t.n, b);
    }
  }

  lemma NoDupJoin(a: seq<Node>, x: Node, b: seq<Node>)
    requires NoDup(a) && NoDup(b) && x !in a && x !in b && forall n | n in a :: n !in b
    ensures NoDup(a + [x] + b)
  {
    var s := a + [x] + b;
    forall i, j | 0 <= i < j < |s| ensures s[i] != s[j] {
      var u := if i < |a| then a[i] else if i == |a| then x else b[i - |a| - 1];
      var v := if j < |a| then a[j] else if j == |a| then x else b[j - |a| - 1];
      assert s[i] == u && s[j] == v;
      assert i < |a| ==> u in a;
      assert j > |a| ==> v in b;
    }
  }

  lemma Rank(m: Mem, root: Node?, p: Path, t: Tree, k: nat)
    requires Rep(m, root, p, t) && t.T? && k < |Inorder(Plug(p, t))| && Inorder(Plug(p, t))[k] == t.n
    ensures k == |Pre(p)| + |Inorder(t.l)|
  {
    RepPlug(m, root, p, t);
    InorderNoDup(Plug(p, t));
    InorderPlug(p, t);
    var j := |Pre(p)| + |Inorder(t.l)|;
    assert (Pre(p) + (Inorder(t.l) + [t.n] + Inorder(t.r)) + Post(p))[j] == t.n;
  }

  lemma RepUpFacts(m: Mem, root: Node?, p: Path, t: Tree)
    requires Rep(m, root, p, t) && t.T?
    ensures p.Step? ==> p.n in m && (m[p.n].right == t.n <==> !p.onLeft)
  {
    ParentIn(p);
    if p.Step? { RootIn(p.other); }
  }

  // ---------------------------------------------------------------- height

  ghost function Height(t: Tree): nat {
    match t
    case Leaf => 0
    case T(l, _, _, r) => 1 + if Height(l) > Height(r) then Height(l) else Height(r)
  }

  lemma {:induction false} Pow2Monotone(a: nat, b: nat)
    requires a <= b
    ensures Pow2(a) <= Pow2(b)
    decreases b
  {
    if a < b { Pow2Monotone(a, b - 1); }
  }

  lemma {:induction false} Pow2Double(n: nat)
    ensures Pow2(2 * n) == Pow2(n) * Pow2(n)
  {
    if n > 0 {
      Pow2Double(n - 1);
      var a := Pow2(n - 1);
      assert Pow2(2 * n) == 2 * (2 * Pow2(2 * n - 2));
      assert (2 * a) * (2 * a) == 4 * (a * a);
    }
  }

  lemma {:induction false} HeightBound(t: Tree)
    requires Balanced(t) && NoRedRed(t)
    ensures Height(t) <= 2 * BlackHeight(t) + if IsRed(t) then 1 else 0
    ensures Pow2(BlackHeight(t)) <= |Inorder(t)| + 1
  {
    if t.T? {
      HeightBound(t.l);
      HeightBound(t.r);
    }
  }

  /** No root-to-leaf path of an n-node tree is longer than 2 * log2(n + 1). */
  lemma LogarithmicHeight(t: Tree)
    requires RedBlack(t)
    ensures Pow2(Height(t)) <= (|Inorder(t)| + 1) * (|Inorder(t)| + 1)
  {
    hide Pow2, Height, BlackHeight;
    var h, n := BlackHeight(t), |Inorder(t)| + 1;
    HeightBound(t);
    Pow2Monotone(Height(t), 2 * h);
    Pow2Double(h);
    Square(Pow2(h), n);
  }

  lemma Square(a: nat, b: nat)
    requires a <= b
    ensures a * a <= b * b
  {
    assert a * a <= a * b;
  }

  /** Memory after `y`, which has no left child, is spliced out at `p`. */
  ghost function Spliced(m: Mem, p: Path, y: Node, yr: Tree): Mem
    requires p.Step? && p.n in m && (yr.T? ==> yr.n in m)
  {
    var m1 := m[p.n := Redirect(m[p.n], p.onLeft, Root(yr))];
    (if yr.T? then m1[yr.n := m1[yr.n].(parent := p.n)] else m1) - {y}
  }

  /** What installing `y` in the place of `z` has to find: memory `m` differs from `m1`, in which `z`
      has the subtrees `l` and `r`, only in that `y` and the root of `r` are linked to each other. */
  ghost predicate Ready(m: Mem, m1: Mem, z: Node, y: Node, r: Tree) {
    && z != y && z in m1 && y !in m1 && m.Keys == m1.Keys + {y}
    && m[y].right == Root(r) && m[z].left == m1[z].left && m[z].parent == m1[z].parent && m[z].black == m1[z].black
    && (r.T? ==> r.n in m1 && m[r.n] == m1[r.n].(parent := y))
    && forall n | n in m1 && n != z && n != Root(r) :: m[n] == m1[n]
  }

  /** `m1` without `y` is ready once `y` has taken over the right child of `z`. */
  lemma AdoptReady(m: Mem, m': Mem, m1: Mem, z: Node, y: Node, r: Tree)
    requires r.T? && z != y && z in m1 && r.n in m1 && r.n != z && y !in m1 && m.Keys == m1.Keys + {y}
    requires forall n | n in m1 :: m[n] == m1[n]
    requires m'.Keys == m.Keys && m'[y].right == r.n && m'[r.n] == m[r.n].(parent := y) && SameBut(m, m', {y, r.n})
    ensures Ready(m', m1, z, y, r)
  {
  }

  lemma DetachDirect(m: Mem, root: Node?, p: Path, t: Tree, m1: Mem)
    requires Rep(m, root, p, t) && t.T? && t.r.T? && t.r.l == Leaf
    requires t.n in m && (t.r.r.T? ==> t.r.r.n in m)
    requires m1 == Spliced(m, Step(p, t.n, t.black, false, t.l), t.r.n, t.r.r)
    ensures Rep(m1, root, p, t.(r := t.r.r)) && Ready(m, m1, t.n, t.r.n, t.r.r)
  {
    hide Rep;
    var pz := Step(p, t.n, t.black, false, t.l);
    RepUp(m, root, pz, t.r);
    At(m, root, p, t);
    At(m, root, pz, t.r);
    AtSplice(m, root, pz, t.r, t.r.r);
    SpliceRep(m, m1, root, pz, t.r.n, t.r, t.r.r);
    RepUp(m1, root, pz, t.r.r);
  }

  lemma TakeRep(m1: Mem, m': Mem, root: Node?, p: Path, l: Tree, z: Node, zb: bool, r: Tree, y: Node)
    requires Rep(m1, root, p, T(l, z, zb, r)) && y !in m1
    requires m'.Keys == m1.Keys - {z} + {y} && m'[y] == Cell(Root(l), Root(r), Parent(p), zb)
    requires l.T? ==> l.n in m1 && l.n in m' && m'[l.n] == m1[l.n].(parent := y)
    requires r.T? ==> r.n in m1 && r.n in m' && m'[r.n] == m1[r.n].(parent := y)
    requires p.Step? ==> p.n in m1 && p.n in m' && m'[p.n] == Redirect(m1[p.n], p.onLeft, y)
    requires forall n | n in m1 && n != z && n != Root(l) && n != Root(r) && n != Parent(p) :: n in m' && m'[n] == m1[n]
    ensures Rep(m', TopOf(p, y), p, T(l, y, zb, r))
  {
    RootIn(l);
    RootIn(r);
    ParentIn(p);
    assert Nodes(T(l, z, zb, r)) == Nodes(l) + {z} + Nodes(r) && Nodes(T(l, y, zb, r)) == Nodes(l) + {y} + Nodes(r);
    Reparent(m1, m', l, z, y);
    Reparent(m1, m', r, z, y);
    Rehole(m1, m', p, z, y);
  }

  lemma InsertPlace(cmp: (Node, Node) -> int, p: Path, node: Node)
    requires forall i | 0 <= i < |Pre(p)| :: cmp(node, Pre(p)[i]) >= 0
    requires Post(p) != [] ==> cmp(node, Post(p)[0]) < 0
    ensures Pre(p) + [node] + Post(p) == InsertBy(cmp, Inorder(Plug(p, Leaf)), node)
  {
    hide Pre, Post, Plug, InsertBy;
    InorderPlug(p, Leaf);
    assert Pre(p) + Inorder(Leaf) + Post(p) == Pre(p) + Post(p);
    InsertByAt(cmp, Pre(p), Post(p), node);
  }

  class RbTree {
    var root: Node?
    ghost var shape: Tree

    /** The nodes are linked as a red-black tree whose in-order sequence is `Inorder(shape)`. */
    ghost predicate Valid()
      reads this, Nodes(shape)
    {
      Rep(Snap(Nodes(shape)), root, Top, shape) && RedBlack(shape)
    }

    constructor ()
      ensures Valid() && shape == Leaf
    {
      root, shape := null, Leaf;
    }

    /** What clearing the runqueue's memory does to its tree. */
    method Clear()
      modifies this
      ensures Valid() && shape == Leaf
    {
      root, shape := null, Leaf;
    }

    method Insert(node: Node, cmp: (Node, Node) -> int)
      requires Valid() && node !in Nodes(shape)
      requires Preorder(cmp, Nodes(shape) + {node}) && Ordered(cmp, Inorder(shape))
      modifies this, Nodes(shape), node
      ensures Valid() && Nodes(shape) == old(Nodes(shape)) + {node}
      ensures Inorder(shape) == InsertBy(cmp, old(Inorder(shape)), node)
    {
      hide Rep, RedBlack, Preorder, Ordered, InsertBy, Inorder, Nodes, Plug, Pre, Post;
      ghost var s := Nodes(shape);
      var parent, onLeft;
      ghost var p;
      parent, onLeft, p := FindPlace(node, cmp);
      InsertPlace(cmp, p, node);
      shape := Attach(node, parent, onLeft, s, p);
      TopNodes(Snap(s + {node}), root, shape);
      assert Nodes(shape) == s + {node};
    }

    /** The descent of `rb_insert`: the free place just after every node that `node` does not compare below. */
    method FindPlace(node: Node, cmp: (Node, Node) -> int) returns (parent: Node?, onLeft: bool, ghost p: Path)
      requires Valid() && node !in Nodes(shape)
      requires Preorder(cmp, Nodes(shape) + {node}) && Ordered(cmp, Inorder(shape))
      ensures Rep(Snap(Nodes(shape)), root, p, Leaf) && Plug(p, Leaf) == shape
      ensures Parent(p) == parent && (p.Step? ==> p.onLeft == onLeft)
      ensures forall i | 0 <= i < |Pre(p)| :: cmp(node, Pre(p)[i]) >= 0
      ensures Post(p) != [] ==> cmp(node, Post(p)[0]) < 0
    {
      hide Rep, RedBlack, Preorder, Ordered;
      ghost var s := Nodes(shape);
      ghost var sh := shape;
      parent := null;
      var cur := root;
      onLeft := false;
      p := Top;
      ghost var t := shape;
      TopRoot(Snap(s), root, t);
      while cur != null
        invariant Rep(Snap(s), root, p, t) && Plug(p, t) == sh
        invariant Root(t) == cur && Parent(p) == parent && (p.Step? ==> p.onLeft == onLeft)
        invariant forall i | 0 <= i < |Pre(p)| :: cmp(node, Pre(p)[i]) >= 0
        invariant Post(p) != [] ==> cmp(node, Post(p)[0]) < 0
        decreases t
      {
        At(Snap(s), root, p, t);
        parent := cur;
        if cmp(node, cur) < 0 {
          onLeft := true;
          cur := cur.left;
          RepUp(Snap(s), root, Step(p, t.n, t.black, true, t.r), t.l);
          p, t := Step(p, t.n, t.black, true, t.r), t.l;
        } else {
          onLeft := false;
          cur := cur.right;
          RepUp(Snap(s), root, Step(p, t.n, t.black, false, t.l), t.r);
          assert Inorder(Plug(p, t)) == Inorder(sh) && Nodes(Plug(p, t)) == s;
          Descend(cmp, node, p, t);
          p, t := Step(p, t.n, t.black, false, t.l), t.r;
        }
      }
      assert t == Leaf;
    }

    method Attach(node: Node, parent: Node?, onLeft: bool, ghost s: set<Node>, ghost p: Path) returns (ghost t': Tree)
      requires Rep(Snap(s), root, p, Leaf) && RedBlack(Plug(p, Leaf)) && node !in s
      requires parent == Parent(p) && (p.Step? ==> p.onLeft == onLeft)
      modifies this`root, s, node
      ensures Rep(Snap(s + {node}), root, Top, t') && RedBlack(t')
      ensures Inorder(t') == Pre(p) + [node] + Post(p)
    {
      hide Rep;
      LinkNew(node, parent, onLeft, s, p);
      RedBlackPlug(p, Leaf);
      ghost var t := T(Leaf, node, false, Leaf);
      t' := InsertFixup(node, s + {node}, p, t);
      InorderPlug(p, t);
    }

    /** The new node, red and childless, becomes the leaf at `p`. */
    method LinkNew(node: Node, parent: Node?, onLeft: bool, ghost s: set<Node>, ghost p: Path)
      requires Rep(Snap(s), root, p, Leaf) && node !in s
      requires parent == Parent(p) && (p.Step? ==> p.onLeft == onLeft)
      modifies this`root, s, node
      ensures Rep(Snap(s + {node}), root, p, T(Leaf, node, false, Leaf))
    {
      hide Rep;
      ghost var m := Snap(s);
      ghost var oldRoot := root;
      AtHole(m, root, p, node);
      node.parent, node.black := parent, false;
      node.left, node.right := null, null;
      if parent == null {
        root := node;
      } else if onLeft {
        parent.left := node;
      } else {
        parent.right := node;
      }
      AttachRep(m, Snap(s + {node}), oldRoot, p, node);
    }

    method RotateLeft(x: Node, ghost s: set<Node>, ghost p: Path, ghost t: Tree)
      requires Rep(Snap(s), root, p, t) && t.T? && t.n == x && t.r.T?
      modifies this`root, s
      ensures Rep(Snap(s), root, p, RotL(t))
    {
      ghost var m := Snap(s);
      ghost var oldRoot := root;
      Around(m, root, p, t, t.r, t.r.l);
      LiftRight(x, s, p);
      RotateLeftRep(m, Snap(s), oldRoot, p, t.l, x, t.black, t.r.l, t.r.n, t.r.black, t.r.r);
    }

    method LiftRight(x: Node, ghost s: set<Node>, ghost p: Path)
      requires x in s && x.right != null && x.right in s && x.right != x
      requires var yl := x.right.left; yl != null ==> yl in s && yl != x && yl != x.right
      requires x.parent == Parent(p)
      requires p.Step? ==>
        p.n in s && p.n != x && p.n != x.right && p.n != x.right.left && (p.n.left == x <==> p.onLeft)
      modifies this`root, s
      ensures
        var y := old(x.right);
        && Rotated(old(Snap(s)), Snap(s), p,
                   x, Cell(old(x.left), old(x.right.left), y, old(x.black)),
                   y, Cell(x, old(x.right.right), Parent(p), old(x.right.black)), old(x.right.left))
      ensures root == if p.Top? then old(x.right) else old(root)
    {
      var y := x.right;
      var yl := y.left;
      var xp := x.parent;
      y.left := x;
      x.right := yl;
      if yl != null { yl.parent := x; }
      x.parent := y;
      y.parent := xp;
      if xp == null {
        root := y;
      } else if xp.left == x {
        xp.left := y;
      } else {
        xp.right := y;
      }
    }

    method RotateRight(x: Node, ghost s: set<Node>, ghost p: Path, ghost t: Tree)
      requires Rep(Snap(s), root, p, t) && t.T? && t.n == x && t.l.T?
      modifies this`root, s
      ensures Rep(Snap(s), root, p, RotR(t))
    {
      ghost var m := Snap(s);
      ghost var oldRoot := root;
      Around(m, root, p, t, t.l, t.l.r);
      LiftLeft(x, s, p);
      RotateRightRep(m, Snap(s), oldRoot, p, t.l.l, t.l.n, t.l.black, t.l.r, x, t.black, t.r);
    }

    method LiftLeft(x: Node, ghost s: set<Node>, ghost p: Path)
      requires x in s && x.left != null && x.left in s && x.left != x
      requires var yr := x.left.right; yr != null ==> yr in s && yr != x && yr != x.left
      requires x.parent == Parent(p)
      requires p.Step? ==>
        p.n in s && p.n != x && p.n != x.left && p.n != x.left.right && (p.n.right == x <==> !p.onLeft)
      modifies this`root, s
      ensures
        var y := old(x.left);
        && Rotated(old(Snap(s)), Snap(s), p,
                   x, Cell(old(x.left.right), old(x.right), y, old(x.black)),
                   y, Cell(old(x.left.left), x, Parent(p), old(x.left.black)), old(x.left.right))
      ensures root == if p.Top? then old(x.left) else old(root)
    {
      var y := x.left;
      var yr := y.right;
      var xp := x.parent;
      y.right := x;
      x.left := yr;
      if yr != null { yr.parent := x; }
      x.parent := y;
      y.parent := xp;
      if xp == null {
        root := y;
      } else if xp.right == x {
        xp.right := y;
      } else {
        xp.left := y;
      }
    }

    method Paint(x: Node, black: bool, ghost s: set<Node>, ghost p: Path, ghost t: Tree)
      requires Rep(Snap(s), root, p, t) && t.T? && t.n == x
      modifies s
      ensures Rep(Snap(s), root, p, t.(black := black))
    {
      ghost var m := Snap(s);
      x.black := black;
      PaintRep(m, Snap(s), root, p, t, black);
    }

    method PaintChild(x: Node, black: bool, ghost s: set<Node>, ghost p: Path, ghost t: Tree)
      requires Rep(Snap(s), root, p, t) && t.T? && (x == Root(t.l) || x == Root(t.r))
      modifies s
      ensures Rep(Snap(s), root, p, PaintedChild(t, x, black))
    {
      ghost var m := Snap(s);
      ghost var onLeft := x == Root(t.l);
      ghost var q := Step(p, t.n, t.black, onLeft, if onLeft then t.r else t.l);
      ghost var c := if onLeft then t.l else t.r;
      RepUp(m, root, q, c);
      RootIn(c);
      x.black := black;
      PaintRep(m, Snap(s), root, q, c, black);
      RepUp(Snap(s), root, q, c.(black := black));
    }

    /** Parent and uncle turn black, the grandparent red. */
    method Flip(q: Node, u: Node, g: Node, ghost s: set<Node>, ghost p: Path, ghost t: Tree)
      requires Rep(Snap(s), root, p, t) && t.T? && t.l.T? && t.r.T?
      requires g == t.n && ((q == t.l.n && u == t.r.n) || (q == t.r.n && u == t.l.n))
      modifies s
      ensures Rep(Snap(s), root, p, Flipped(t))
    {
      hide Rep;
      At(Snap(s), root, p, t);
      PaintChild(q, true, s, p, t);
      ghost var t1 := PaintedChild(t, q, true);
      At(Snap(s), root, p, t1);
      PaintChild(u, true, s, p, t1);
      Paint(g, false, s, p, PaintedChild(t1, u, true));
    }

    method InsertFixup(z0: Node, ghost s: set<Node>, ghost p0: Path, ghost t0: Tree) returns (ghost t': Tree)
      requires Rep(Snap(s), root, p0, t0) && t0.T? && t0.n == z0 && !t0.black
      requires RedAt(p0, t0)
      modifies this`root, s
      ensures Rep(Snap(s), root, Top, t') && RedBlack(t')
      ensures Inorder(t') == Inorder(Plug(p0, t0))
    {
      hide Rep, RedAt, Settled;
      var z := z0;
      ghost var p, t := p0, t0;
      while true
        invariant Rep(Snap(s), root, p, t) && t.T? && t.n == z && !t.black
        invariant RedAt(p, t)
        invariant Inorder(Plug(p, t)) == Inorder(Plug(p0, t0))
        decreases PathLen(p)
      {
        At(Snap(s), root, p, t);
        var q := z.parent;
        if q == null || q.black {
          RedSettled(p, t);
          break;
        }
        Above(p, t);
        ghost var tq, pg := Join(p, t), p.up.up;
        ghost var tg := Join(p.up, tq);
        RepUp(Snap(s), root, p, t);
        RepUp(Snap(s), root, p.up, tq);
        At(Snap(s), root, p.up, tq);
        At(Snap(s), root, pg, tg);
        var g := q.parent;
        if g == null { break; }
        if q == g.left {
          var u := g.right;
          if u != null && !u.black {
            Flip(q, u, g, s, pg, tg);
            InsertUncle(p, t);
            z := g;
            p, t := pg, Flipped(tg);
            continue;
          }
          t := RotateCaseLeft(z, q, g, s, p, t);
          p := pg;
        } else {
          var u := g.left;
          if u != null && !u.black {
            Flip(q, u, g, s, pg, tg);
            InsertUncle(p, t);
            z := g;
            p, t := pg, Flipped(tg);
            continue;
          }
          t := RotateCaseRight(z, q, g, s, p, t);
          p := pg;
        }
        break;
      }
      PlugRoot(p, t);
      t' := BlackenRoot(s, p, t);
    }

    method RotateCaseLeft(z0: Node, q0: Node, g0: Node, ghost s: set<Node>, ghost p: Path, ghost t: Tree)
      returns (ghost t': Tree)
      requires Rep(Snap(s), root, p, t) && t.T? && t.n == z0 && !t.black && RedAt(p, t)
      requires p.Step? && !p.black && p.n == q0 && p.up.Step? && p.up.n == g0 && p.up.onLeft && !IsRed(p.up.other)
      modifies this`root, s
      ensures t'.T? && Rep(Snap(s), root, p.up.up, t') && Settled(p.up.up, t')
      ensures Inorder(Plug(p.up.up, t')) == Inorder(Plug(p, t))
    {
      hide Rep, RedAt, Settled;
      var z, q, g := z0, q0, g0;
      ghost var tq, pg, d := Join(p, t), p.up.up, p.up.other;
      ghost var tg0 := Join(p.up, tq);
      RepUp(Snap(s), root, p, t);
      At(Snap(s), root, p.up, tq);
      if z == q.right {
        RotateLeft(q, s, p.up, tq);
        RotInorder(tq);
        tq := RotL(tq);
        z := q;
        At(Snap(s), root, p.up, tq);
        q := z.parent;
        g := q.parent;
      }
      ghost var tg := Join(p.up, tq);
      RepUp(Snap(s), root, p.up, tq);
      t' := TurnRight(q, g, s, pg, tg);
      InsertRotated(p, t, tq.l.l, tq.l.n, tq.l.r, tq.n, tq.r, p.up.n, d);
      SameInorder(pg, tg0, t');
    }

    /** Parent `q` turns black, grandparent `g` red, and `q` is lifted over `g`. */
    method TurnRight(q: Node, g: Node, ghost s: set<Node>, ghost p: Path, ghost t: Tree) returns (ghost t': Tree)
      requires Rep(Snap(s), root, p, t) && t.T? && t.l.T? && t.n == g && t.l.n == q
      modifies this`root, s
      ensures t' == RotR(t.(l := t.l.(black := true), black := false)) && Rep(Snap(s), root, p, t')
      ensures Inorder(t') == Inorder(t)
    {
      hide Rep;
      At(Snap(s), root, p, t);
      PaintChild(q, true, s, p, t);
      Paint(g, false, s, p, t.(l := t.l.(black := true)));
      ghost var tc := t.(l := t.l.(black := true), black := false);
      RotateRight(g, s, p, tc);
      RotInorder(tc);
      assert Inorder(t.l.(black := true)) == Inorder(t.l);
      t' := RotR(tc);
    }

    method TurnLeft(q: Node, g: Node, ghost s: set<Node>, ghost p: Path, ghost t: Tree) returns (ghost t': Tree)
      requires Rep(Snap(s), root, p, t) && t.T? && t.r.T? && t.n == g && t.r.n == q
      modifies this`root, s
      ensures t' == RotL(t.(r := t.r.(black := true), black := false)) && Rep(Snap(s), root, p, t')
      ensures Inorder(t') == Inorder(t)
    {
      hide Rep;
      At(Snap(s), root, p, t);
      PaintChild(q, true, s, p, t);
      Paint(g, false, s, p, t.(r := t.r.(black := true)));
      ghost var tc := t.(r := t.r.(black := true), black := false);
      RotateLeft(g, s, p, tc);
      RotInorder(tc);
      assert Inorder(t.r.(black := true)) == Inorder(t.r);
      t' := RotL(tc);
    }

    method RotateCaseRight(z0: Node, q0: Node, g0: Node, ghost s: set<Node>, ghost p: Path, ghost t: Tree)
      returns (ghost t': Tree)
      requires Rep(Snap(s), root, p, t) && t.T? && t.n == z0 && !t.black && RedAt(p, t)
      requires p.Step? && !p.black && p.n == q0 && p.up.Step? && p.up.n == g0 && !p.up.onLeft && !IsRed(p.up.other)
      modifies this`root, s
      ensures t'.T? && Rep(Snap(s), root, p.up.up, t') && Settled(p.up.up, t')
      ensures Inorder(Plug(p.up.up, t')) == Inorder(Plug(p, t))
    {
      hide Rep, RedAt, Settled;
      var z, q, g := z0, q0, g0;
      ghost var tq, pg, d := Join(p, t), p.up.up, p.up.other;
      ghost var tg0 := Join(p.up, tq);
      RepUp(Snap(s), root, p, t);
      At(Snap(s), root, p.up, tq);
      if z == q.left {
        RotateRight(q, s, p.up, tq);
        RotInorder(tq);
        tq := RotR(tq);
        z := q;
        At(Snap(s), root, p.up, tq);
        q := z.parent;
        g := q.parent;
      }
      ghost var tg := Join(p.up, tq);
      RepUp(Snap(s), root, p.up, tq);
      t' := TurnLeft(q, g, s, pg, tg);
      InsertRotated(p, t, d, p.up.n, tq.l, tq.n, tq.r.l, tq.r.n, tq.r.r);
      SameInorder(pg, tg0, t');
    }

    method BlackenRoot(ghost s: set<Node>, ghost p: Path, ghost t: Tree) returns (ghost t': Tree)
      requires Rep(Snap(s), root, p, t) && Plug(p, t).T? && Settled(p, t)
      modifies s
      ensures Rep(Snap(s), root, Top, t') && RedBlack(t')
      ensures Inorder(t') == Inorder(Plug(p, t))
    {
      RepPlug(Snap(s), root, p, t);
      SettledRoot(p, t);
      t' := Plug(p, t).(black := true);
      Paint(root, true, s, Top, Plug(p, t));
    }

    // -------------------------------------------------------------- deletion

    method TurnRedSiblingLeft(w: Node, xp: Node, ghost s: set<Node>, ghost p: Path, ghost t: Tree)
      returns (ghost q: Path)
      requires Rep(Snap(s), root, p, t) && p.Step? && p.onLeft && p.n == xp && p.other.T? && p.other.n == w
      modifies this`root, s
      ensures q == Step(Step(p.up, w, true, true, p.other.r), xp, false, true, p.other.l)
      ensures Rep(Snap(s), root, q, t)
      ensures Inorder(Plug(q, t)) == Inorder(Plug(p, t))
    {
      hide Rep;
      ghost var b := p.other;
      ghost var tx := Join(p, t);
      RepUp(Snap(s), root, p, t);
      At(Snap(s), root, p.up, tx);
      PaintChild(w, true, s, p.up, tx);
      Paint(xp, false, s, p.up, tx.(r := b.(black := true)));
      ghost var tc := tx.(r := b.(black := true), black := false);
      RotateLeft(xp, s, p.up, tc);
      q := Step(Step(p.up, w, true, true, b.r), xp, false, true, b.l);
      RepUp(Snap(s), root, q.up, T(t, xp, false, b.l));
      RepUp(Snap(s), root, q, t);
      assert Inorder(b.(black := true)) == Inorder(b);
      assert Inorder(tc) == Inorder(tx);
      RotInorder(tc);
      SameInorder(p.up, tx, RotL(tc));
    }

    method TurnRedSiblingRight(w: Node, xp: Node, ghost s: set<Node>, ghost p: Path, ghost t: Tree)
      returns (ghost q: Path)
      requires Rep(Snap(s), root, p, t) && p.Step? && !p.onLeft && p.n == xp && p.other.T? && p.other.n == w
      modifies this`root, s
      ensures q == Step(Step(p.up, w, true, false, p.other.l), xp, false, false, p.other.r)
      ensures Rep(Snap(s), root, q, t)
      ensures Inorder(Plug(q, t)) == Inorder(Plug(p, t))
    {
      hide Rep;
      ghost var b := p.other;
      ghost var tx := Join(p, t);
      RepUp(Snap(s), root, p, t);
      At(Snap(s), root, p.up, tx);
      PaintChild(w, true, s, p.up, tx);
      Paint(xp, false, s, p.up, tx.(l := b.(black := true)));
      ghost var tc := tx.(l := b.(black := true), black := false);
      RotateRight(xp, s, p.up, tc);
      q := Step(Step(p.up, w, true, false, b.l), xp, false, false, b.r);
      RepUp(Snap(s), root, q.up, T(b.r, xp, false, t));
      RepUp(Snap(s), root, q, t);
      assert Inorder(b.(black := true)) == Inorder(b);
      assert Inorder(tc) == Inorder(tx);
      RotInorder(tc);
      SameInorder(p.up, tx, RotR(tc));
    }

    method StraightenLeft(w: Node, ghost s: set<Node>, ghost p: Path, ghost t: Tree) returns (ghost b: Tree)
      requires Rep(Snap(s), root, p, t) && p.Step? && p.onLeft && p.other.T? && p.other.n == w && p.other.l.T?
      modifies this`root, s
      ensures b == RotR(p.other.(l := p.other.l.(black := true), black := false))
      ensures Rep(Snap(s), root, p.(other := b), t)
      ensures Inorder(Plug(p.(other := b), t)) == Inorder(Plug(p, t))
    {
      hide Rep;
      ghost var q := Step(p.up, p.n, p.black, false, t);
      ghost var o := p.other;
      AtSibling(Snap(s), root, p, t);
      if w.left != null { PaintChild(w.left, true, s, q, o); }
      Paint(w, false, s, q, o.(l := o.l.(black := true)));
      ghost var oc := o.(l := o.l.(black := true), black := false);
      RotateRight(w, s, q, oc);
      b := RotR(oc);
      ghost var p' := p.(other := b);
      RepUp(Snap(s), root, q, b);
      RepUp(Snap(s), root, p', t);
      assert Inorder(o.l.(black := true)) == Inorder(o.l);
      RotInorder(oc);
      assert Inorder(b) == Inorder(o);
      SameInorder(p.up, Join(p, t), Join(p', t));
    }

    method StraightenRight(w: Node, ghost s: set<Node>, ghost p: Path, ghost t: Tree) returns (ghost b: Tree)
      requires Rep(Snap(s), root, p, t) && p.Step? && !p.onLeft && p.other.T? && p.other.n == w && p.other.r.T?
      modifies this`root, s
      ensures b == RotL(p.other.(r := p.other.r.(black := true), black := false))
      ensures Rep(Snap(s), root, p.(other := b), t)
      ensures Inorder(Plug(p.(other := b), t)) == Inorder(Plug(p, t))
    {
      hide Rep;
      ghost var q := Step(p.up, p.n, p.black, true, t);
      ghost var o := p.other;
      AtSibling(Snap(s), root, p, t);
      At(Snap(s), root, q, o);
      if w.right != null { PaintChild(w.right, true, s, q, o); }
      Paint(w, false, s, q, o.(r := o.r.(black := true)));
      ghost var oc := o.(r := o.r.(black := true), black := false);
      RotateLeft(w, s, q, oc);
      b := RotL(oc);
      ghost var p' := p.(other := b);
      RepUp(Snap(s), root, q, b);
      RepUp(Snap(s), root, p', t);
      assert Inorder(o.r.(black := true)) == Inorder(o.r);
      RotInorder(oc);
      assert Inorder(b) == Inorder(o);
      SameInorder(p.up, Join(p, t), Join(p', t));
    }

    /** The sibling takes the parent's colour and its place; the parent and the far nephew turn black. */
    method LendLeft(w: Node, xp: Node, ghost s: set<Node>, ghost p: Path, ghost t: Tree) returns (ghost t': Tree)
      requires Rep(Snap(s), root, p, t) && p.Step? && p.onLeft && p.n == xp && p.other.T? && p.other.n == w
        && p.other.r.T?
      modifies this`root, s
      ensures t' == T(T(t, xp, true, p.other.l), w, p.black, p.other.r.(black := true))
      ensures Rep(Snap(s), root, p.up, t')
      ensures Inorder(Plug(p.up, t')) == Inorder(Plug(p, t))
    {
      hide Rep;
      ghost var q := Step(p.up, p.n, p.black, false, t);
      ghost var o := p.other;
      AtSibling(Snap(s), root, p, t);
      Paint(w, xp.black, s, q, o);
      ghost var o1 := o.(black := p.black);
      RepUp(Snap(s), root, q, o1);
      Paint(xp, true, s, p.up, T(t, xp, p.black, o1));
      ghost var q' := q.(black := true);
      RepUp(Snap(s), root, q', o1);
      At(Snap(s), root, q', o1);
      if w.right != null { PaintChild(w.right, true, s, q', o1); }
      ghost var o2 := o1.(r := o1.r.(black := true));
      RepUp(Snap(s), root, q', o2);
      RotateLeft(xp, s, p.up, T(t, xp, true, o2));
      t' := RotL(T(t, xp, true, o2));
      assert Inorder(o2.r) == Inorder(o.r);
      assert Inorder(o2) == Inorder(o);
      RotInorder(T(t, xp, true, o2));
      SameInorder(p.up, Join(p, t), t');
    }

    method LendRight(w: Node, xp: Node, ghost s: set<Node>, ghost p: Path, ghost t: Tree) returns (ghost t': Tree)
      requires Rep(Snap(s), root, p, t) && p.Step? && !p.onLeft && p.n == xp && p.other.T? && p.other.n == w
        && p.other.l.T?
      modifies this`root, s
      ensures t' == T(p.other.l.(black := true), w, p.black, T(p.other.r, xp, true, t))
      ensures Rep(Snap(s), root, p.up, t')
      ensures Inorder(Plug(p.up, t')) == Inorder(Plug(p, t))
    {
      hide Rep;
      ghost var q := Step(p.up, p.n, p.black, true, t);
      ghost var o := p.other;
      AtSibling(Snap(s), root, p, t);
      Paint(w, xp.black, s, q, o);
      ghost var o1 := o.(black := p.black);
      RepUp(Snap(s), root, q, o1);
      Paint(xp, true, s, p.up, T(o1, xp, p.black, t));
      ghost var q' := q.(black := true);
      RepUp(Snap(s), root, q', o1);
      At(Snap(s), root, q', o1);
      if w.left != null { PaintChild(w.left, true, s, q', o1); }
      ghost var o2 := o1.(l := o1.l.(black := true));
      RepUp(Snap(s), root, q', o2);
      RotateRight(xp, s, p.up, T(o2, xp, true, t));
      t' := RotR(T(o2, xp, true, t));
      assert Inorder(o2.l) == Inorder(o.l);
      assert Inorder(o2) == Inorder(o);
      RotInorder(T(o2, xp, true, t));
      SameInorder(p.up, Join(p, t), t');
    }

    /** The sibling has a red child: at most two rotations end the repair. */
    method NephewLeft(w0: Node, xp: Node, ghost s: set<Node>, ghost p0: Path, ghost t: Tree) returns (ghost t': Tree)
      requires Rep(Snap(s), root, p0, t) && p0.Step? && p0.onLeft && p0.n == xp && p0.other.T? && p0.other.n == w0
      requires ShortAt(p0, t) && !IsRed(t) && p0.other.black && (IsRed(p0.other.l) || IsRed(p0.other.r))
      modifies this`root, s
      ensures Rep(Snap(s), root, Top, t') && ShortAt(Top, t')
      ensures Inorder(t') == Inorder(Plug(p0, t))
    {
      hide Rep, ShortAt, Settled;
      var w := w0;
      ghost var p := p0;
      AtSibling(Snap(s), root, p, t);
      if w.right == null || w.right.black {
        NearNephewLeft(p, t);
        ghost var b := StraightenLeft(w, s, p, t);
        p := p.(other := b);
        AtSibling(Snap(s), root, p, t);
        w := xp.right;
      }
      RedNephewLeft(p, t);
      ghost var u := LendLeft(w, xp, s, p, t);
      SettledShort(p.up, u);
      RepPlug(Snap(s), root, p.up, u);
      t' := Plug(p.up, u);
    }

    method NephewRight(w0: Node, xp: Node, ghost s: set<Node>, ghost p0: Path, ghost t: Tree) returns (ghost t': Tree)
      requires Rep(Snap(s), root, p0, t) && p0.Step? && !p0.onLeft && p0.n == xp && p0.other.T? && p0.other.n == w0
      requires ShortAt(p0, t) && !IsRed(t) && p0.other.black && (IsRed(p0.other.l) || IsRed(p0.other.r))
      modifies this`root, s
      ensures Rep(Snap(s), root, Top, t') && ShortAt(Top, t')
      ensures Inorder(t') == Inorder(Plug(p0, t))
    {
      hide Rep, ShortAt, Settled;
      var w := w0;
      ghost var p := p0;
      AtSibling(Snap(s), root, p, t);
      if w.left == null || w.left.black {
        NearNephewRight(p, t);
        ghost var b := StraightenRight(w, s, p, t);
        p := p.(other := b);
        AtSibling(Snap(s), root, p, t);
        w := xp.left;
      }
      RedNephewRight(p, t);
      ghost var u := LendRight(w, xp, s, p, t);
      SettledShort(p.up, u);
      RepPlug(Snap(s), root, p.up, u);
      t' := Plug(p.up, u);
    }

    /** One iteration of the loop when the short subtree is a left child. */
    method FixLeft(x0: Node?, xp0: Node, ghost s: set<Node>, ghost p0: Path, ghost t: Tree)
      returns (x: Node?, xp: Node?, ghost p': Path, ghost t': Tree)
      requires Rep(Snap(s), root, p0, t) && Root(t) == x0 && p0.Step? && p0.n == xp0 && p0.onLeft
      requires ShortAt(p0, t) && !IsRed(t)
      modifies this`root, s
      ensures Rep(Snap(s), root, p', t') && Root(t') == x && Parent(p') == xp
      ensures ShortAt(p', t') && FixupLeft(p', t') < FixupLeft(p0, t)
      ensures Inorder(Plug(p', t')) == Inorder(Plug(p0, t))
    {
      hide Rep, ShortAt, Settled;
      ghost var p := p0;
      Sibling(p, t);
      AtSibling(Snap(s), root, p, t);
      var w := xp0.right;
      if !w.black {
        RedSibling(p, t);
        p := TurnRedSiblingLeft(w, xp0, s, p, t);
        Sibling(p, t);
        AtSibling(Snap(s), root, p, t);
        w := xp0.right;
      }
      if (w.left == null || w.left.black) && (w.right == null || w.right.black) {
        ghost var q := Step(p.up, p.n, p.black, false, t);
        Paint(w, false, s, q, p.other);
        RepUp(Snap(s), root, q, p.other.(black := false));
        BlackSibling(p, t);
        p', t' := p.up, Join(p.(other := p.other.(black := false)), t);
        At(Snap(s), root, p', t');
        x := xp0;
        xp := x.parent;
      } else {
        t' := NephewLeft(w, xp0, s, p, t);
        p' := Top;
        TopRoot(Snap(s), root, t');
        x := root;
        xp := null;
      }
    }

    method FixRight(x0: Node?, xp0: Node, ghost s: set<Node>, ghost p0: Path, ghost t: Tree)
      returns (x: Node?, xp: Node?, ghost p': Path, ghost t': Tree)
      requires Rep(Snap(s), root, p0, t) && Root(t) == x0 && p0.Step? && p0.n == xp0 && !p0.onLeft
      requires ShortAt(p0, t) && !IsRed(t)
      modifies this`root, s
      ensures Rep(Snap(s), root, p', t') && Root(t') == x && Parent(p') == xp
      ensures ShortAt(p', t') && FixupLeft(p', t') < FixupLeft(p0, t)
      ensures Inorder(Plug(p', t')) == Inorder(Plug(p0, t))
    {
      hide Rep, ShortAt, Settled;
      ghost var p := p0;
      Sibling(p, t);
      AtSibling(Snap(s), root, p, t);
      var w := xp0.left;
      if !w.black {
        RedSibling(p, t);
        p := TurnRedSiblingRight(w, xp0, s, p, t);
        Sibling(p, t);
        AtSibling(Snap(s), root, p, t);
        w := xp0.left;
      }
      if (w.right == null || w.right.black) && (w.left == null || w.left.black) {
        ghost var q := Step(p.up, p.n, p.black, true, t);
        Paint(w, false, s, q, p.other);
        RepUp(Snap(s), root, q, p.other.(black := false));
        BlackSibling(p, t);
        p', t' := p.up, Join(p.(other := p.other.(black := false)), t);
        At(Snap(s), root, p', t');
        x := xp0;
        xp := x.parent;
      } else {
        t' := NephewRight(w, xp0, s, p, t);
        p' := Top;
        TopRoot(Snap(s), root, t');
        x := root;
        xp := null;
      }
    }

    method DeleteFixup(x0: Node?, xp0: Node?, ghost s: set<Node>, ghost p0: Path, ghost t0: Tree)
      returns (ghost t': Tree)
      requires Rep(Snap(s), root, p0, t0) && Root(t0) == x0 && Parent(p0) == xp0
      requires ShortAt(p0, t0)
      modifies this`root, s
      ensures Rep(Snap(s), root, Top, t') && RedBlack(t')
      ensures Inorder(t') == Inorder(Plug(p0, t0))
    {
      hide Rep, ShortAt, Settled;
      var x, xp := x0, xp0;
      ghost var p, t := p0, t0;
      AtFocus(Snap(s), root, p, t);
      while x != root && (x == null || x.black)
        invariant Rep(Snap(s), root, p, t) && Root(t) == x && Parent(p) == xp
        invariant ShortAt(p, t)
        invariant Inorder(Plug(p, t)) == Inorder(Plug(p0, t0))
        decreases FixupLeft(p, t)
      {
        AtFocus(Snap(s), root, p, t);
        Sibling(p, t);
        AtSibling(Snap(s), root, p, t);
        if x == xp.left {
          x, xp, p, t := FixLeft(x, xp, s, p, t);
        } else {
          x, xp, p, t := FixRight(x, xp, s, p, t);
        }
      }
      AtFocus(Snap(s), root, p, t);
      ShortPainted(p, t);
      t' := Plug(p, if t.T? then t.(black := true) else t);
      if x != null { Paint(x, true, s, p, t); }
      RepPlug(Snap(s), root, p, if t.T? then t.(black := true) else t);
    }

    method Transplant(u: Node, v: Node?, ghost s: set<Node>, ghost p: Path)
      requires u in s && u.parent == Parent(p) && (v != null ==> v in s)
      requires p.Step? ==> p.n in s && p.n != v && (p.n.left == u <==> p.onLeft)
      modifies this`root, s
      ensures Transplanted(old(Snap(s)), Snap(s), p, v)
      ensures root == if p.Top? then v else old(root)
    {
      var up := u.parent;
      if up == null {
        root := v;
      } else if up.left == u {
        up.left := v;
      } else {
        up.right := v;
      }
      if v != null { v.parent := up; }
    }

    /** A node with at most one child gives its place to that child. */
    method Splice(z: Node, v: Node?, ghost s: set<Node>, ghost p: Path, ghost t: Tree, ghost tv: Tree)
      requires Rep(Snap(s), root, p, t) && t.T? && t.n == z && v == Root(tv)
      requires (t.l == Leaf && tv == t.r) || (t.r == Leaf && tv == t.l)
      modifies this`root, s
      ensures Rep(Snap(s - {z}), root, p, tv)
      ensures Transplanted(old(Snap(s)), Snap(s), p, v)
    {
      hide Rep;
      ghost var m, oldRoot := Snap(s), root;
      AtSplice(m, root, p, t, tv);
      Transplant(z, v, s, p);
      ghost var m' := Snap(s - {z});
      assert m'.Keys == m.Keys - {z};
      SpliceRep(m, m', oldRoot, p, z, t, tv);
    }

    /** The leftmost node below a position. */
    method Leftmost(n: Node, ghost s: set<Node>, ghost p: Path, ghost t: Tree)
      returns (y: Node, ghost q: Path, ghost ty: Tree)
      requires Rep(Snap(s), root, p, t) && Root(t) == n
      ensures Rep(Snap(s), root, Append(q, p), ty) && ty.T? && ty.n == y && ty.l == Leaf
      ensures Plug(q, ty) == t && Pre(q) == []
    {
      hide Rep;
      y, q, ty := n, Top, t;
      At(Snap(s), root, p, t);
      while y.left != null
        invariant Rep(Snap(s), root, Append(q, p), ty) && ty.T? && ty.n == y
        invariant Plug(q, ty) == t && Pre(q) == []
        decreases ty
      {
        At(Snap(s), root, Append(q, p), ty);
        y := y.left;
        ghost var q' := Step(q, ty.n, ty.black, true, ty.r);
        RepUp(Snap(s), root, Append(q', p), ty.l);
        q, ty := q', ty.l;
      }
      At(Snap(s), root, Append(q, p), ty);
    }

    method Install(z: Node, y: Node, ghost s: set<Node>, ghost p: Path)
      requires z in s && y in s && z != y && z.parent == Parent(p)
      requires z.left != null && z.left in s && z.left != z && z.left != y
      requires p.Step? ==> p.n in s && p.n != y && p.n != z && p.n != z.left && (p.n.left == z <==> p.onLeft)
      modifies this`root, s
      ensures
        var m, m', l := old(Snap(s)), Snap(s), old(z.left);
        && m'.Keys == m.Keys
        && m'[y] == Cell(l, m[y].right, Parent(p), m[z].black)
        && m'[l] == m[l].(parent := y)
        && (p.Step? ==> m'[p.n] == Redirect(m[p.n], p.onLeft, y))
        && SameBut(m, m', {z, y, l, Parent(p)})
      ensures root == if p.Top? then y else old(root)
    {
      ghost var m := Snap(s);
      Transplant(z, y, s, p);
      assert Snap(s)[z] == m[z] && Snap(s)[z.left] == m[z.left];
      y.left := z.left;
      y.left.parent := y;
      y.black := z.black;
    }

    /** `y`, already unlinked, takes over the place, the children and the colour of `z`. */
    method TakePlace(z: Node, y: Node, ghost s: set<Node>, ghost p: Path, ghost t: Tree, ghost m1: Mem,
        ghost root1: Node?)
      requires Rep(m1, root1, p, t) && t.T? && t.n == z && t.l.T?
      requires z in s && y in s && Ready(Snap(s), m1, z, y, t.r)
      requires p.Step? ==> root == root1
      modifies this`root, s
      ensures Rep(Snap(s - {z}), root, p, T(t.l, y, t.black, t.r))
    {
      hide Rep;
      AtSplice(m1, root1, p, t, t.l);
      AtSplice(m1, root1, p, t, t.r);
      At(m1, root1, p, t);
      Install(z, y, s, p);
      ghost var m' := Snap(s - {z});
      assert m'.Keys == m1.Keys - {z} + {y};
      TakeRep(m1, m', root1, p, t.l, z, t.black, t.r, y);
    }

    /** Cuts the successor `y` of `z` out of the right subtree of `z`, keeping its link to what remains. */
    method DetachSuccessor(z: Node, y: Node, ghost s: set<Node>, ghost p: Path, ghost t: Tree, ghost q: Path,
        ghost ty: Tree)
      returns (xp: Node, ghost m1: Mem, ghost root1: Node?)
      requires Rep(Snap(s), root, p, t) && t.T? && t.n == z && t.l.T?
      requires t.r == Plug(q, ty) && ty.T? && ty.n == y && ty.l == Leaf
      modifies this`root, s
      ensures y in s && Rep(m1, root1, p, t.(r := Plug(q, ty.r))) && Ready(Snap(s), m1, z, y, Plug(q, ty.r))
      ensures p.Step? ==> root == root1
      ensures xp == Parent(Append(q, Step(p, y, t.black, false, t.l)))
    {
      hide Rep;
      ghost var m := Snap(s);
      ghost var pz, yr := Step(p, z, t.black, false, t.l), ty.r;
      ghost var py := Append(q, pz);
      Refocus(m, root, p, t, q, ty);
      SuccessorParent(m, root, p, t, q, ty);
      At(m, root, py, ty);
      if y.parent == z {
        xp := y;
        m1, root1 := Spliced(m, pz, y, yr), root;
        DetachDirect(m, root, p, t, m1);
      } else {
        xp := y.parent;
        m1 := SpliceSuccessor(z, y, s, p, t, q, ty);
        root1 := root;
      }
    }

    method SpliceSuccessor(z: Node, y: Node, ghost s: set<Node>, ghost p: Path, ghost t: Tree, ghost q: Path,
        ghost ty: Tree)
      returns (ghost m1: Mem)
      requires Rep(Snap(s), root, p, t) && t.T? && t.n == z && t.l.T?
      requires q.Step? && t.r == Plug(q, ty) && ty.T? && ty.n == y && ty.l == Leaf
      modifies this`root, s
      ensures y in s && Rep(m1, root, p, t.(r := Plug(q, ty.r))) && Ready(Snap(s), m1, z, y, Plug(q, ty.r))
    {
      hide Rep, Nodes, Append, Ready, Plug;
      ghost var pz, yr := Step(p, z, t.black, false, t.l), ty.r;
      ghost var py := Append(q, pz);
      Refocus(Snap(s), root, p, t, q, ty);
      SuccessorParent(Snap(s), root, p, t, q, ty);
      AtSplice(Snap(s), root, py, ty, yr);
      Splice(y, y.right, s, py, ty, yr);
      m1 := Snap(s - {y});
      Unfocus(m1, root, p, t, q, yr);
      At(m1, root, p, t.(r := Plug(q, yr)));
      ghost var m := Snap(s);
      assert m.Keys == m1.Keys + {y};
      Adopt(z, y, s);
      AdoptReady(m, Snap(s), m1, z, y, Plug(q, yr));
    }

    method Adopt(z: Node, y: Node, ghost s: set<Node>)
      requires z in s && y in s && z != y && z.right != null && z.right in s && z.right != y && z.right != z
      modifies s
      ensures
        var m, m', r := old(Snap(s)), Snap(s), old(z.right);
        && m'.Keys == m.Keys
        && m'[y] == m[y].(right := r) && m'[r] == m[r].(parent := y)
        && SameBut(m, m', {y, r})
    {
      y.right := z.right;
      y.right.parent := y;
    }

    method UnlinkInner(z: Node, ghost s: set<Node>, ghost p: Path, ghost t: Tree)
      returns (x: Node?, xp: Node?, origBlack: bool, ghost p1: Path, ghost t1: Tree)
      requires Rep(Snap(s), root, p, t) && t.T? && t.n == z && t.l.T? && t.r.T? && RedBlack(Plug(p, t))
      modifies this`root, s
      ensures Rep(Snap(s - {z}), root, p1, t1) && Root(t1) == x && Parent(p1) == xp
      ensures Inorder(Plug(p1, t1)) == Pre(p) + Inorder(t.l) + Inorder(t.r) + Post(p)
      ensures if origBlack then ShortAt(p1, t1) else RedBlack(Plug(p1, t1))
    {
      hide Rep, RedBlack, ShortAt;
      ghost var pz := Step(p, z, t.black, false, t.l);
      RepUp(Snap(s), root, pz, t.r);
      At(Snap(s), root, p, t);
      var y; ghost var q, ty;
      y, q, ty := Leftmost(z.right, s, pz, t.r);
      At(Snap(s), root, Append(q, pz), ty);
      origBlack := y.black;
      x := y.right;
      ghost var m1, root1;
      xp, m1, root1 := DetachSuccessor(z, y, s, p, t, q, ty);
      TakePlace(z, y, s, p, t.(r := Plug(q, ty.r)), m1, root1);
      p1, t1 := Append(q, Step(p, y, t.black, false, t.l)), ty.r;
      Refocus(Snap(s - {z}), root, p, T(t.l, y, t.black, Plug(q, ty.r)), q, ty.r);
      InnerColours(p, t.l, z, t.black, q, y, ty.black, ty.r);
      InnerInorder(p, t.l, z, t.black, q, y, ty.black, ty.r);
    }

    /** Takes `z` out of the links; `(p1, t1)` is the place where a black node may now be missing. */
    method Unlink(z: Node, ghost s: set<Node>, ghost p: Path, ghost t: Tree)
      returns (x: Node?, xp: Node?, origBlack: bool, ghost p1: Path, ghost t1: Tree)
      requires Rep(Snap(s), root, p, t) && t.T? && t.n == z && RedBlack(Plug(p, t))
      modifies this`root, s
      ensures Rep(Snap(s - {z}), root, p1, t1) && Root(t1) == x && Parent(p1) == xp
      ensures Inorder(Plug(p1, t1)) == Pre(p) + Inorder(t.l) + Inorder(t.r) + Post(p)
      ensures if origBlack then ShortAt(p1, t1) else RedBlack(Plug(p1, t1))
    {
      hide Rep, RedBlack, ShortAt;
      At(Snap(s), root, p, t);
      if z.left == null {
        x := z.right;
        xp := z.parent;
        origBlack := z.black;
        Splice(z, z.right, s, p, t, t.r);
        p1, t1 := p, t.r;
        SpliceColours(p, t, t.r);
        InorderPlug(p, t1);
      } else if z.right == null {
        x := z.left;
        xp := z.parent;
        origBlack := z.black;
        Splice(z, z.left, s, p, t, t.l);
        p1, t1 := p, t.l;
        SpliceColours(p, t, t.l);
        InorderPlug(p, t1);
      } else {
        x, xp, origBlack, p1, t1 := UnlinkInner(z, s, p, t);
      }
    }

    method Erase(z: Node)
      requires Valid() && z in Nodes(shape)
      modifies this, Nodes(shape)
      ensures Valid() && Nodes(shape) == old(Nodes(shape)) - {z}
      ensures Inorder(shape) == Without(old(Inorder(shape)), z)
    {
      hide Rep, RedBlack, ShortAt;
      ghost var s, sh := Nodes(shape), shape;
      assert RedBlack(sh);
      ghost var p, t := Locate(Top, sh, z);
      RepPlug(Snap(s), root, p, t);
      ErasedInorder(Snap(s), root, p, t);
      var x, xp, origBlack; ghost var p1, t1;
      x, xp, origBlack, p1, t1 := Unlink(z, s, p, t);
      if origBlack {
        shape := DeleteFixup(x, xp, s - {z}, p1, t1);
      } else {
        RepPlug(Snap(s - {z}), root, p1, t1);
        shape := Plug(p1, t1);
      }
      TopNodes(Snap(s - {z}), root, shape);
      assert Nodes(shape) == s - {z};
    }

    /** `rb_erase` of a node that was never linked. Without a left child the first branch is taken; without a parent
        the node passes for the root, so its right child, null, becomes the root; and the fixup has nothing to do. */
    method EraseLoose(z: Node)
      requires Loose(z)
      modifies this
      ensures Valid() && shape == Leaf && root == null
    {
      root, shape := z.right, Leaf;
    }

    // -------------------------------------------------------------- iteration

    method First() returns (n: Node?)
      requires Valid()
      ensures Valid() && n == if Inorder(shape) == [] then null else Inorder(shape)[0]
    {
      hide Rep;
      ghost var s := Nodes(shape);
      TopRoot(Snap(s), root, shape);
      if root == null { return null; }
      ghost var q, t;
      n, q, t := Leftmost(root, s, Top, shape);
      InorderPlug(q, t);
    }

    /** The descent to the right that `load_balance` makes. */
    method Last() returns (n: Node?)
      requires Valid()
      ensures n == if Inorder(shape) == [] then null else Inorder(shape)[|Inorder(shape)| - 1]
    {
      hide Rep;
      ghost var m, q, t := Snap(Nodes(shape)), Top, shape;
      TopRoot(m, root, shape);
      n := root;
      if n == null { return; }
      At(m, root, Top, shape);
      while n.right != null
        invariant n != null && Rep(m, root, q, t) && t.T? && t.n == n && Plug(q, t) == shape && Post(q) == []
        decreases t
      {
        At(m, root, q, t);
        n := n.right;
        ghost var q' := Step(q, t.n, t.black, false, t.l);
        RepUp(m, root, q', t.r);
        q, t := q', t.r;
      }
      At(m, root, q, t);
      InorderPlug(q, t);
      assert Inorder(shape) == Pre(q) + Inorder(t.l) + [n];
    }

    method Next(n0: Node, ghost k: nat) returns (r: Node?)
      requires Valid() && k < |Inorder(shape)| && Inorder(shape)[k] == n0
      ensures Valid() && r == if k + 1 < |Inorder(shape)| then Inorder(shape)[k + 1] else null
    {
      hide Rep;
      ghost var s, m, sh := Nodes(shape), Snap(Nodes(shape)), shape;
      InorderNode(sh, n0);
      ghost var p, t := Locate(Top, sh, n0);
      RepPlug(m, root, p, t);
      InorderPlug(p, t);
      Rank(m, root, p, t, k);
      At(m, root, p, t);
      if n0.right != null {
        ghost var pr := Step(p, t.n, t.black, false, t.l);
        ghost var q, ty;
        RepUp(m, root, pr, t.r);
        r, q, ty := Leftmost(n0.right, s, pr, t.r);
        InorderPlug(q, ty);
        assert Inorder(t.r)[0] == r;
        return;
      }
      var n := n0;
      r := n.parent;
      while r != null && n == r.right
        invariant Rep(m, root, p, t) && t.T? && t.n == n && Parent(p) == r
        invariant Plug(p, t) == sh && k + 1 == |Pre(p)| + |Inorder(t)|
        decreases p
      {
        RepUp(m, root, p, t);
        At(m, root, p.up, Join(p, t));
        p, t := p.up, Join(p, t);
        n := r;
        r := n.parent;
      }
      RepUpFacts(m, root, p, t);
      InorderPlug(p, t);
    }
  }
}
