/**
 The identity tree of crates/sonic-forest/src/util2.rs: a binary tree whose nodes live in an
 arena and point at each other by index. The arena is an array of node records that the
 operations rewrite in place; `Tree` is the shape those links spell out.
 */
module ArenaTree {
  import opened Common

  datatype Ordering = Less | Equal | Greater

  /** One arena slot: the key the comparator looks at and the three links. */
  datatype Node<K> = Node(key: K, p2: Option<nat>, l2: Option<nat>, r2: Option<nat>)

  // ---------------------------------------------------------------- shape

  /** A tree of arena indices. */
  datatype Tree = Leaf | Branch(left: Tree, node: nat, right: Tree)

  ghost function InOrder(t: Tree): seq<nat> {
    match t
    case Leaf => []
    case Branch(l, i, r) => InOrder(l) + [i] + InOrder(r)
  }

  /** The links of `s` reachable from `link` spell out `t`, and its top points back at `parent`. */
  ghost predicate Rep<K>(s: seq<Node<K>>, t: Tree, link: Option<nat>, parent: Option<nat>) {
    match t
    case Leaf => link == None
    case Branch(l, i, r) =>
      && link == Some(i) && i < |s| && s[i].p2 == parent
      && Rep(s, l, s[i].l2, Some(i))
      && Rep(s, r, s[i].r2, Some(i))
  }

  /** A well-formed tree at `root`: acyclic, links agree both ways, no node shared. */
  ghost predicate WellFormed<K>(s: seq<Node<K>>, t: Tree, root: Option<nat>) {
    Rep(s, t, root, None) && Distinct(InOrder(t))
  }

  /** A node that hangs nowhere. */
  predicate Detached<K>(n: Node<K>) {
    n.p2 == None && n.l2 == None && n.r2 == None
  }

  ghost function Keys<K>(s: seq<Node<K>>): (k: seq<K>)
    ensures |k| == |s| && forall i :: 0 <= i < |s| ==> k[i] == s[i].key
  {
    seq(|s|, i requires 0 <= i < |s| => s[i].key)
  }

  /** The shape is a function of the arena: the links determine it. */
  lemma {:induction false} ShapeUnique<K>(s: seq<Node<K>>, t: Tree, t': Tree, link: Option<nat>, parent: Option<nat>)
    requires Rep(s, t, link, parent) && Rep(s, t', link, parent)
    ensures t == t'
  {
    if t.Branch? {
      ShapeUnique(s, t.left, t'.left, s[t.node].l2, link);
      ShapeUnique(s, t.right, t'.right, s[t.node].r2, link);
    }
  }

  lemma RepIndices<K>(s: seq<Node<K>>, t: Tree, link: Option<nat>, parent: Option<nat>)
    requires Rep(s, t, link, parent)
    ensures forall i :: i in InOrder(t) ==> i < |s|
    ensures link.Some? ==> link.value in InOrder(t)
    ensures link.None? <==> t.Leaf?
  {
  }

  lemma RepFrame<K>(s: seq<Node<K>>, s': seq<Node<K>>, t: Tree, link: Option<nat>, parent: Option<nat>)
    requires Rep(s, t, link, parent) && |s| == |s'|
    requires forall i :: i in InOrder(t) && i < |s| ==> s'[i] == s[i]
    ensures Rep(s', t, link, parent)
  {
    if t.Branch? {
      assert t.node in InOrder(t);
      RepFrame(s, s', t.left, s[t.node].l2, Some(t.node));
      RepFrame(s, s', t.right, s[t.node].r2, Some(t.node));
    }
  }

  /** The same subtree hung under another parent: only its top node's back link changes. */
  lemma RepReparent<K>(s: seq<Node<K>>, s': seq<Node<K>>, t: Tree, parent: Option<nat>, parent': Option<nat>)
    requires t.Branch? && Rep(s, t, Some(t.node), parent) && |s| == |s'| && Distinct(InOrder(t))
    requires s'[t.node] == s[t.node].(p2 := parent')
    requires forall i :: i in InOrder(t) && i < |s| && i != t.node ==> s'[i] == s[i]
    ensures Rep(s', t, Some(t.node), parent')
  {
    DistinctParts(t);
    RepFrame(s, s', t.left, s[t.node].l2, Some(t.node));
    RepFrame(s, s', t.right, s[t.node].r2, Some(t.node));
  }

  lemma DistinctParts(t: Tree)
    requires t.Branch? && Distinct(InOrder(t))
    ensures Distinct(InOrder(t.left)) && Distinct(InOrder(t.right))
    ensures t.node !in InOrder(t.left) && t.node !in InOrder(t.right)
    ensures forall i :: i in InOrder(t.left) ==> i !in InOrder(t.right)
  {
    DistinctSplit(InOrder(t.left), [t.node], InOrder(t.right));
  }

  lemma DistinctSplit(a: seq<nat>, b: seq<nat>, c: seq<nat>)
    requires Distinct(a + b + c)
    ensures Distinct(a) && Distinct(b) && Distinct(c)
    ensures forall x :: x in a ==> x !in b && x !in c
    ensures forall x :: x in b ==> x !in c
  {
    var q := a + b + c;
    assert forall i :: 0 <= i < |a| ==> q[i] == a[i];
    assert forall i :: 0 <= i < |b| ==> q[|a| + i] == b[i];
    assert forall i :: 0 <= i < |c| ==> q[|a| + |b| + i] == c[i];
  }

  // ---------------------------------------------------------------- contexts

  /** A tree with one hole, described from the hole upwards. */
  datatype Ctx =
    | Top
    | InLeft(up: Ctx, node: nat, right: Tree)
    | InRight(up: Ctx, left: Tree, node: nat)

  ghost function Plug(c: Ctx, t: Tree): Tree {
    match c
    case Top => t
    case InLeft(up, i, r) => Plug(up, Branch(t, i, r))
    case InRight(up, l, i) => Plug(up, Branch(l, i, t))
  }

  ghost function Before(c: Ctx): seq<nat> {
    match c
    case Top => []
    case InLeft(up, _, _) => Before(up)
    case InRight(up, l, i) => Before(up) + (InOrder(l) + [i])
  }

  ghost function After(c: Ctx): seq<nat> {
    match c
    case Top => []
    case InLeft(up, i, r) => [i] + InOrder(r) + After(up)
    case InRight(up, _, _) => After(up)
  }

  lemma {:induction false} InOrderPlug(c: Ctx, t: Tree)
    ensures InOrder(Plug(c, t)) == Before(c) + InOrder(t) + After(c)
  {
    match c
    case Top =>
    case InLeft(up, i, r) =>
      InOrderPlug(up, Branch(t, i, r));
      Reassociate(Before(up), InOrder(t), [i], InOrder(r), After(up));
    case InRight(up, l, i) =>
      InOrderPlug(up, Branch(l, i, t));
      Reassociate(Before(up), InOrder(l), [i], InOrder(t), After(up));
  }

  lemma Reassociate(a: seq<nat>, l: seq<nat>, m: seq<nat>, r: seq<nat>, b: seq<nat>)
    ensures a + (l + m + r) + b == a + l + (m + r + b)
    ensures a + (l + m + r) + b == a + (l + m) + r + b
  {
  }

  /** The arena spells out everything of `c` around its hole, which `link` fills and which hangs under `parent`. */
  ghost predicate CtxRep<K>(s: seq<Node<K>>, c: Ctx, root: Option<nat>, link: Option<nat>, parent: Option<nat>) {
    match c
    case Top => link == root && parent == None
    case InLeft(up, i, r) =>
      && parent == Some(i) && i < |s| && s[i].l2 == link
      && Rep(s, r, s[i].r2, Some(i)) && CtxRep(s, up, root, Some(i), s[i].p2)
    case InRight(up, l, i) =>
      && parent == Some(i) && i < |s| && s[i].r2 == link
      && Rep(s, l, s[i].l2, Some(i)) && CtxRep(s, up, root, Some(i), s[i].p2)
  }

  lemma {:induction false} PlugRep<K>(s: seq<Node<K>>, c: Ctx, t: Tree, root: Option<nat>, link: Option<nat>, parent: Option<nat>)
    requires CtxRep(s, c, root, link, parent) && Rep(s, t, link, parent)
    ensures Rep(s, Plug(c, t), root, None)
  {
    match c
    case Top =>
    case InLeft(up, i, r) => PlugRep(s, up, Branch(t, i, r), root, Some(i), s[i].p2);
    case InRight(up, l, i) => PlugRep(s, up, Branch(l, i, t), root, Some(i), s[i].p2);
  }

  lemma {:induction false} CtxFrame<K>(s: seq<Node<K>>, s': seq<Node<K>>, c: Ctx, root: Option<nat>, link: Option<nat>, parent: Option<nat>)
    requires CtxRep(s, c, root, link, parent) && |s| == |s'|
    requires forall i :: i in Before(c) + After(c) && i < |s| ==> s'[i] == s[i]
    ensures CtxRep(s', c, root, link, parent)
  {
    match c
    case Top =>
    case InLeft(up, i, r) =>
      assert i in After(c);
      RepFrame(s, s', r, s[i].r2, Some(i));
      CtxFrame(s, s', up, root, Some(i), s[i].p2);
    case InRight(up, l, i) =>
      assert i in Before(c);
      RepFrame(s, s', l, s[i].l2, Some(i));
      CtxFrame(s, s', up, root, Some(i), s[i].p2);
  }

  /** Where the root link ends up when the hole is refilled with `link`. */
  ghost function NewRoot(c: Ctx, root: Option<nat>, link: Option<nat>): Option<nat> {
    if c.Top? then link else root
  }

  /** `s'` differs from `s` around the hole only in the one link that leads into it. */
  ghost predicate Refilled<K>(s: seq<Node<K>>, s': seq<Node<K>>, c: Ctx, link: Option<nat>) {
    && |s| == |s'|
    && (c.InLeft? ==> c.node < |s| && s'[c.node] == s[c.node].(l2 := link))
    && (c.InRight? ==> c.node < |s| && s'[c.node] == s[c.node].(r2 := link))
    && forall i :: i in Before(c) + After(c) && i < |s| && (c.Top? || i != c.node) ==> s'[i] == s[i]
  }

  lemma {:induction false} CtxRefill<K>(s: seq<Node<K>>, s': seq<Node<K>>, c: Ctx, root: Option<nat>,
                                        link: Option<nat>, parent: Option<nat>, link': Option<nat>)
    requires CtxRep(s, c, root, link, parent) && Refilled(s, s', c, link')
    requires Distinct(Before(c) + After(c))
    ensures CtxRep(s', c, NewRoot(c, root, link'), link', parent)
  {
    hide Rep, InOrder;
    match c
    case Top =>
    case InLeft(up, i, r) =>
      assert Before(c) + After(c) == Before(up) + [i] + (InOrder(r) + After(up));
      DistinctSplit(Before(up), [i], InOrder(r) + After(up));
      assert forall j :: j in InOrder(r) || j in Before(up) + After(up) ==> j in Before(c) + After(c);
      RepFrame(s, s', r, s[i].r2, Some(i));
      CtxFrame(s, s', up, root, Some(i), s[i].p2);
    case InRight(up, l, i) =>
      assert Before(c) + After(c) == (Before(up) + InOrder(l)) + [i] + After(up);
      DistinctSplit(Before(up) + InOrder(l), [i], After(up));
      assert forall j :: j in InOrder(l) || j in Before(up) + After(up) ==> j in Before(c) + After(c);
      RepFrame(s, s', l, s[i].l2, Some(i));
      CtxFrame(s, s', up, root, Some(i), s[i].p2);
  }

  /** Every node of a well-formed tree sits in some context. */
  lemma {:induction false} Locate<K>(s: seq<Node<K>>, c: Ctx, t: Tree, root: Option<nat>, link: Option<nat>, parent: Option<nat>, node: nat)
    returns (c': Ctx, l: Tree, r: Tree)
    requires CtxRep(s, c, root, link, parent) && Rep(s, t, link, parent) && node in InOrder(t)
    ensures Plug(c', Branch(l, node, r)) == Plug(c, t)
    ensures node < |s| && CtxRep(s, c', root, Some(node), s[node].p2)
    ensures Rep(s, l, s[node].l2, Some(node)) && Rep(s, r, s[node].r2, Some(node))
    decreases t
  {
    var Branch(tl, i, tr) := t;
    if node == i {
      c', l, r := c, tl, tr;
    } else if node in InOrder(tl) {
      c', l, r := Locate(s, InLeft(c, i, tr), tl, root, s[i].l2, Some(i), node);
    } else {
      c', l, r := Locate(s, InRight(c, tl, i), tr, root, s[i].r2, Some(i), node);
    }
  }

  /** The top of the tree in the hole is in no other part of the tree. */
  lemma HoleApart(c: Ctx, t: Tree)
    requires Distinct(InOrder(Plug(c, t)))
    ensures Distinct(Before(c) + After(c)) && Distinct(InOrder(t))
    ensures forall i :: i in InOrder(t) ==> i !in Before(c) && i !in After(c)
    ensures forall i :: i in Before(c) ==> i !in After(c)
  {
    InOrderPlug(c, t);
    DistinctSplit(Before(c), InOrder(t), After(c));
    var q := Before(c) + InOrder(t) + After(c);
    forall i, j | 0 <= i < j < |Before(c) + After(c)| ensures (Before(c) + After(c))[i] != (Before(c) + After(c))[j] {
      var n := |InOrder(t)|;
      assert q[if i < |Before(c)| then i else i + n] != q[if j < |Before(c)| then j else j + n];
    }
  }

  // ---------------------------------------------------------------- traversal

  /** `res` is the neighbour `d` places after `x` in `q`, or None past either end. */
  ghost predicate IsNeighbour(q: seq<nat>, x: nat, d: int, res: Option<nat>) {
    forall k :: 0 <= k < |q| && q[k] == x ==> res == if 0 <= k + d < |q| then Some(q[k + d]) else None
  }

  lemma NeighbourOf(q: seq<nat>, k: nat, d: int, res: Option<nat>)
    requires k < |q| && IsNeighbour(q, q[k], d, res)
    ensures res == if 0 <= k + d < |q| then Some(q[k + d]) else None
  {
  }

  /** A step forward and a step back undo each other. */
  lemma NeighboursUndo(q: seq<nat>, x: nat, y: nat, d: int)
    requires Distinct(q) && x in q && IsNeighbour(q, x, d, Some(y))
    ensures y in q && IsNeighbour(q, y, -d, Some(x))
  {
    var k :| 0 <= k < |q| && q[k] == x;
    NeighbourOf(q, k, d, Some(y));
    assert q[k + d] == y;
  }

  lemma NeighbourAt(a: seq<nat>, x: nat, b: seq<nat>)
    requires Distinct(a + [x] + b)
    ensures IsNeighbour(a + [x] + b, x, 1, if b == [] then None else Some(b[0]))
    ensures IsNeighbour(a + [x] + b, x, -1, if a == [] then None else Some(a[|a| - 1]))
  {
    assert (a + [x] + b)[|a|] == x;
  }

  method First2<K>(arena: array<Node<K>>, root: Option<nat>, ghost t: Tree) returns (res: Option<nat>)
    requires WellFormed(arena[..], t, root)
    ensures res == if InOrder(t) == [] then None else Some(InOrder(t)[0])
  {
    var curr := root;
    ghost var sub, par: Option<nat> := t, None;
    while curr.Some?
      invariant Rep(arena[..], sub, curr, par)
      invariant sub.Leaf? <==> t.Leaf?
      invariant t.Branch? ==> InOrder(sub)[0] == InOrder(t)[0]
      decreases sub
    {
      var idx := curr.value;
      match arena[idx].l2
      case Some(l) => sub, par, curr := sub.left, curr, Some(l);
      case None => return Some(idx);
    }
    return curr;
  }

  method Last2<K>(arena: array<Node<K>>, root: Option<nat>, ghost t: Tree) returns (res: Option<nat>)
    requires WellFormed(arena[..], t, root)
    ensures res == if InOrder(t) == [] then None else Some(InOrder(t)[|InOrder(t)| - 1])
  {
    var curr := root;
    ghost var sub, par: Option<nat> := t, None;
    while curr.Some?
      invariant Rep(arena[..], sub, curr, par)
      invariant sub.Leaf? <==> t.Leaf?
      invariant t.Branch? ==> InOrder(sub)[|InOrder(sub)| - 1] == InOrder(t)[|InOrder(t)| - 1]
      decreases sub
    {
      var idx := curr.value;
      match arena[idx].r2
      case Some(r) => sub, par, curr := sub.right, curr, Some(r);
      case None => return Some(idx);
    }
    return curr;
  }

  method Next2<K>(arena: array<Node<K>>, node: nat, ghost root: Option<nat>, ghost t: Tree) returns (res: Option<nat>)
    requires WellFormed(arena[..], t, root) && node in InOrder(t)
    ensures node < arena.Length && IsNeighbour(InOrder(t), node, 1, res)
  {
    ghost var c, l, r := Locate(arena[..], Top, t, root, root, None, node);
    InOrderPlug(c, Branch(l, node, r));
    assert InOrder(t) == (Before(c) + InOrder(l)) + [node] + (InOrder(r) + After(c));
    NeighbourAt(Before(c) + InOrder(l), node, InOrder(r) + After(c));
    if arena[node].r2.Some? {
      var curr: nat := arena[node].r2.value;
      ghost var sub, par: Option<nat> := r, Some(node);
      while arena[curr].l2.Some?
        invariant curr < arena.Length && sub.Branch? && Rep(arena[..], sub, Some(curr), par)
        invariant InOrder(sub)[0] == InOrder(r)[0]
        decreases sub
      {
        sub, par := sub.left, Some(curr);
        curr := arena[curr].l2.value;
      }
      return Some(curr);
    }
    var curr := node;
    var p := arena[node].p2;
    ghost var up, hole := c, Branch(l, node, r);
    while p.Some?
      invariant Plug(up, hole) == t && hole.Branch? && hole.node == curr
      invariant CtxRep(arena[..], up, root, Some(curr), p)
      invariant After(up) == After(c)
      decreases up
    {
      var pi := p.value;
      HoleApart(up, hole);
      assert curr in InOrder(hole);
      if up.InLeft? {
        RepIndices(arena[..], up.right, arena[pi].r2, p);
        assert forall i :: i in InOrder(up.right) ==> i in After(up);
      }
      if arena[pi].r2 == Some(curr) {
        curr := pi;
        p := arena[pi].p2;
        hole := Branch(up.left, pi, hole);
        up := up.up;
      } else {
        return Some(pi);
      }
    }
    return None;
  }

  method Prev2<K>(arena: array<Node<K>>, node: nat, ghost root: Option<nat>, ghost t: Tree) returns (res: Option<nat>)
    requires WellFormed(arena[..], t, root) && node in InOrder(t)
    ensures node < arena.Length && IsNeighbour(InOrder(t), node, -1, res)
  {
    ghost var c, l, r := Locate(arena[..], Top, t, root, root, None, node);
    InOrderPlug(c, Branch(l, node, r));
    assert InOrder(t) == (Before(c) + InOrder(l)) + [node] + (InOrder(r) + After(c));
    NeighbourAt(Before(c) + InOrder(l), node, InOrder(r) + After(c));
    if arena[node].l2.Some? {
      var curr: nat := arena[node].l2.value;
      ghost var sub, par: Option<nat> := l, Some(node);
      while arena[curr].r2.Some?
        invariant curr < arena.Length && sub.Branch? && Rep(arena[..], sub, Some(curr), par)
        invariant InOrder(sub)[|InOrder(sub)| - 1] == InOrder(l)[|InOrder(l)| - 1]
        decreases sub
      {
        sub, par := sub.right, Some(curr);
        curr := arena[curr].r2.value;
      }
      return Some(curr);
    }
    var curr := node;
    var p := arena[node].p2;
    ghost var up, hole := c, Branch(l, node, r);
    while p.Some?
      invariant Plug(up, hole) == t && hole.Branch? && hole.node == curr
      invariant CtxRep(arena[..], up, root, Some(curr), p)
      invariant Before(up) == Before(c)
      decreases up
    {
      var pi := p.value;
      HoleApart(up, hole);
      assert curr in InOrder(hole);
      if up.InRight? {
        RepIndices(arena[..], up.left, arena[pi].l2, p);
        assert forall i :: i in InOrder(up.left) ==> i in Before(up);
      }
      if arena[pi].l2 == Some(curr) {
        curr := pi;
        p := arena[pi].p2;
        hole := Branch(hole, pi, up.right);
        up := up.up;
      } else {
        return Some(pi);
      }
    }
    return None;
  }

  // ---------------------------------------------------------------- order

  /** `cmp` is a total preorder. */
  ghost predicate TotalPreorder<K(!new)>(cmp: (K, K) -> Ordering) {
    && (forall a, b :: cmp(a, b) == Less <==> cmp(b, a) == Greater)
    && (forall a, b, c :: cmp(a, b) != Greater && cmp(b, c) != Greater ==> cmp(a, c) != Greater)
  }

  /** All indices in `q` name a key. */
  ghost predicate Within<K>(keys: seq<K>, q: seq<nat>) {
    forall k :: 0 <= k < |q| ==> q[k] < |keys|
  }

  ghost predicate Sorted<K>(cmp: (K, K) -> Ordering, keys: seq<K>, q: seq<nat>)
    requires Within(keys, q)
  {
    forall i, j :: 0 <= i < j < |q| ==> cmp(keys[q[i]], keys[q[j]]) != Greater
  }

  /** `cmp` is a total preorder that sorts `q`. */
  ghost predicate Ordered<K(!new)>(cmp: (K, K) -> Ordering, keys: seq<K>, q: seq<nat>) {
    TotalPreorder(cmp) && Within(keys, q) && Sorted(cmp, keys, q)
  }

  /** The key of `i` lies strictly above the key of `x`. */
  ghost predicate IsAbove<K>(cmp: (K, K) -> Ordering, keys: seq<K>, x: nat, i: nat) {
    i < |keys| && x < |keys| && cmp(keys[x], keys[i]) == Less
  }

  ghost function Above<K>(cmp: (K, K) -> Ordering, keys: seq<K>, x: nat): nat -> bool {
    (i: nat) => IsAbove(cmp, keys, x, i)
  }

  ghost function NotAbove<K>(cmp: (K, K) -> Ordering, keys: seq<K>, x: nat): nat -> bool {
    (i: nat) => !IsAbove(cmp, keys, x, i)
  }

  /** `q` with `x` added behind everything not above it and before everything above it. */
  ghost function Inserted<K>(cmp: (K, K) -> Ordering, keys: seq<K>, q: seq<nat>, x: nat): seq<nat> {
    Filter(q, NotAbove(cmp, keys, x)) + [x] + Filter(q, Above(cmp, keys, x))
  }

  lemma FilterNotAbove<K>(cmp: (K, K) -> Ordering, keys: seq<K>, a: seq<nat>, x: nat)
    requires forall i :: i in a ==> !IsAbove(cmp, keys, x, i)
    ensures Filter(a, NotAbove(cmp, keys, x)) == a && Filter(a, Above(cmp, keys, x)) == []
  {
    hide IsAbove;
    FilterAll(a, NotAbove(cmp, keys, x));
    FilterNone(a, Above(cmp, keys, x));
  }

  lemma FilterAbove<K>(cmp: (K, K) -> Ordering, keys: seq<K>, b: seq<nat>, x: nat)
    requires forall i :: i in b ==> IsAbove(cmp, keys, x, i)
    ensures Filter(b, NotAbove(cmp, keys, x)) == [] && Filter(b, Above(cmp, keys, x)) == b
  {
    hide IsAbove;
    FilterNone(b, NotAbove(cmp, keys, x));
    FilterAll(b, Above(cmp, keys, x));
  }

  /** A cut with nothing above `x` on its left and only that on its right is where `x` goes. */
  lemma InsertedAtCut<K>(cmp: (K, K) -> Ordering, keys: seq<K>, a: seq<nat>, b: seq<nat>, x: nat)
    requires forall i :: i in a ==> !IsAbove(cmp, keys, x, i)
    requires forall i :: i in b ==> IsAbove(cmp, keys, x, i)
    ensures Inserted(cmp, keys, a + b, x) == a + [x] + b
  {
    FilterNotAbove(cmp, keys, a, x);
    FilterAbove(cmp, keys, b, x);
    hide Filter, Above, NotAbove, IsAbove;
    FilterAppend(a, b, NotAbove(cmp, keys, x));
    FilterAppend(a, b, Above(cmp, keys, x));
    assert a + [] == a && [] + b == b;
  }

  /** In a sorted tree the node in the hole separates its two subtrees. */
  lemma SortedAround<K>(cmp: (K, K) -> Ordering, keys: seq<K>, a: seq<nat>, l: seq<nat>, i: nat, r: seq<nat>, b: seq<nat>)
    requires Within(keys, a + (l + [i] + r) + b) && Sorted(cmp, keys, a + (l + [i] + r) + b)
    ensures i < |keys|
    ensures forall x :: x in l ==> x < |keys| && cmp(keys[x], keys[i]) != Greater
    ensures forall x :: x in r ==> x < |keys| && cmp(keys[i], keys[x]) != Greater
  {
    var q := a + (l + [i] + r) + b;
    assert q[|a| + |l|] == i;
    forall x | x in l ensures x < |keys| && cmp(keys[x], keys[i]) != Greater {
      var k :| 0 <= k < |l| && l[k] == x;
      assert q[|a| + k] == x;
    }
    forall x | x in r ensures x < |keys| && cmp(keys[i], keys[x]) != Greater {
      var k :| 0 <= k < |r| && r[k] == x;
      assert q[|a| + |l| + 1 + k] == x;
    }
  }

  // ---------------------------------------------------------------- insertion

  /** The node `p` with subtrees `l` and `r`, seen in place in the well-formed tree at `root`. */
  ghost predicate InPlace<K>(s: seq<Node<K>>, root: Option<nat>, c: Ctx, l: Tree, p: nat, r: Tree) {
    && p < |s|
    && CtxRep(s, c, root, Some(p), s[p].p2)
    && Rep(s, l, s[p].l2, Some(p))
    && Rep(s, r, s[p].r2, Some(p))
    && Distinct(InOrder(Plug(c, Branch(l, p, r))))
  }

  lemma DistinctInsert(a: seq<nat>, x: nat, b: seq<nat>)
    requires Distinct(a + b) && x !in a + b
    ensures Distinct(a + [x] + b)
  {
    var q, q' := a + b, a + [x] + b;
    forall i, j | 0 <= i < j < |q'| ensures q'[i] != q'[j] {
      var i', j' := if i <= |a| then i else i - 1, if j <= |a| then j else j - 1;
      assert i != |a| ==> q'[i] == q[i'];
      assert j != |a| ==> q'[j] == q[j'];
    }
  }

  lemma Regroup(a: seq<nat>, l: seq<nat>, p: nat, node: nat, r: seq<nat>, b: seq<nat>)
    ensures a + (l + [p] + ([] + [node] + r)) + b == (a + l + [p]) + [node] + (r + b)
    ensures a + ((l + [node] + []) + [p] + r) + b == (a + l) + [node] + ([p] + r + b)
    ensures a + (l + [p] + r) + b == a + l + [p] + r + b == (a + l + [p]) + (r + b) == (a + l) + ([p] + r + b)
    ensures a + (l + r) + b == (a + l) + (r + b)
  {
  }

  lemma FiveApart(a: seq<nat>, l: seq<nat>, p: nat, r: seq<nat>, b: seq<nat>)
    requires Distinct(a + l + [p] + r + b)
    ensures Distinct(l) && Distinct(r) && Distinct(a + b)
    ensures forall i :: i in l ==> i != p && i !in r
    ensures forall i :: i in r ==> i != p
    ensures forall i :: i in a + b ==> i != p && i !in l && i !in r
  {
    var q, n := a + l + [p] + r + b, |l| + 1 + |r|;
    assert forall i :: 0 <= i < |a + b| ==> (a + b)[i] == q[if i < |a| then i else i + n];
    assert forall i :: 0 <= i < |l| ==> l[i] == q[|a| + i];
    assert forall i :: 0 <= i < |r| ==> r[i] == q[|a| + |l| + 1 + i];
    assert p == q[|a| + |l|];
  }

  /** The parts of a tree around `p` share no node with each other. */
  lemma PartsApart(c: Ctx, l: Tree, p: nat, r: Tree)
    requires Distinct(InOrder(Plug(c, Branch(l, p, r))))
    ensures InOrder(Plug(c, Branch(l, p, r))) == Before(c) + InOrder(l) + [p] + InOrder(r) + After(c)
    ensures Distinct(InOrder(l)) && Distinct(InOrder(r)) && Distinct(Before(c) + After(c))
    ensures forall i :: i in InOrder(l) ==> i != p && i !in InOrder(r)
    ensures forall i :: i in InOrder(r) ==> i != p
    ensures forall i :: i in Before(c) + After(c) ==> i != p && i !in InOrder(l) && i !in InOrder(r)
  {
    InOrderPlug(c, Branch(l, p, r));
    Regroup(Before(c), InOrder(l), p, p, InOrder(r), After(c));
    FiveApart(Before(c), InOrder(l), p, InOrder(r), After(c));
  }

  /** Filling the hole around `p` with another subtree, the rest of the tree untouched. */
  lemma RehangRep<K>(s: seq<Node<K>>, s': seq<Node<K>>, root: Option<nat>, c: Ctx, p: nat, t: Tree)
    requires p < |s| && CtxRep(s, c, root, Some(p), s[p].p2) && |s| == |s'|
    requires forall i :: i in Before(c) + After(c) && i < |s| ==> s'[i] == s[i]
    requires Rep(s', t, Some(p), s[p].p2)
    ensures Rep(s', Plug(c, t), root, None)
  {
    CtxFrame(s, s', c, root, Some(p), s[p].p2);
    PlugRep(s', c, t, root, Some(p), s[p].p2);
  }

  /** What the link writes of `InsertRight2` do to the shape. */
  lemma InsertRightShape<K>(s: seq<Node<K>>, s': seq<Node<K>>, root: Option<nat>, c: Ctx, l: Tree, p: nat, r: Tree, node: nat)
    requires InPlace(s, root, c, l, p, r) && |s| == |s'|
    requires node < |s| && node !in InOrder(Plug(c, Branch(l, p, r))) && s[node].l2 == None
    requires s'[p] == s[p].(r2 := Some(node))
    requires s'[node] == s[node].(p2 := Some(p), r2 := s[p].r2)
    requires r.Branch? ==> r.node < |s| && s'[r.node] == s[r.node].(p2 := Some(node))
    requires forall i :: 0 <= i < |s| && i != p && i != node && !(r.Branch? && i == r.node) ==> s'[i] == s[i]
    ensures Rep(s', Plug(c, Branch(l, p, Branch(Leaf, node, r))), root, None)
  {
    PartsApart(c, l, p, r);
    RepIndices(s, r, s[p].r2, Some(p));
    RepFrame(s, s', l, s[p].l2, Some(p));
    if r.Branch? {
      RepReparent(s, s', r, Some(p), Some(node));
    }
    RehangRep(s, s', root, c, p, Branch(l, p, Branch(Leaf, node, r)));
  }

  lemma InsertLeftShape<K>(s: seq<Node<K>>, s': seq<Node<K>>, root: Option<nat>, c: Ctx, l: Tree, p: nat, r: Tree, node: nat)
    requires InPlace(s, root, c, l, p, r) && |s| == |s'|
    requires node < |s| && node !in InOrder(Plug(c, Branch(l, p, r))) && s[node].r2 == None
    requires s'[p] == s[p].(l2 := Some(node))
    requires s'[node] == s[node].(p2 := Some(p), l2 := s[p].l2)
    requires l.Branch? ==> l.node < |s| && s'[l.node] == s[l.node].(p2 := Some(node))
    requires forall i :: 0 <= i < |s| && i != p && i != node && !(l.Branch? && i == l.node) ==> s'[i] == s[i]
    ensures Rep(s', Plug(c, Branch(Branch(l, node, Leaf), p, r)), root, None)
  {
    PartsApart(c, l, p, r);
    RepIndices(s, l, s[p].l2, Some(p));
    RepFrame(s, s', r, s[p].r2, Some(p));
    if l.Branch? {
      RepReparent(s, s', l, Some(p), Some(node));
    }
    RehangRep(s, s', root, c, p, Branch(Branch(l, node, Leaf), p, r));
  }

  lemma InOrderAfterInsert(c: Ctx, l: Tree, p: nat, r: Tree, node: nat)
    requires Distinct(InOrder(Plug(c, Branch(l, p, r)))) && node !in InOrder(Plug(c, Branch(l, p, r)))
    ensures InOrder(Plug(c, Branch(l, p, Branch(Leaf, node, r)))) == (Before(c) + InOrder(l) + [p]) + [node] + (InOrder(r) + After(c))
    ensures InOrder(Plug(c, Branch(Branch(l, node, Leaf), p, r))) == (Before(c) + InOrder(l)) + [node] + ([p] + InOrder(r) + After(c))
    ensures Distinct(InOrder(Plug(c, Branch(l, p, Branch(Leaf, node, r)))))
    ensures Distinct(InOrder(Plug(c, Branch(Branch(l, node, Leaf), p, r))))
  {
    Regroup(Before(c), InOrder(l), p, node, InOrder(r), After(c));
    InOrderPlug(c, Branch(l, p, r));
    InOrderPlug(c, Branch(l, p, Branch(Leaf, node, r)));
    assert InOrder(Branch(l, p, Branch(Leaf, node, r))) == InOrder(l) + [p] + InOrder(Branch(Leaf, node, r));
    assert InOrder(Branch(Leaf, node, r)) == [] + [node] + InOrder(r);
    InOrderPlug(c, Branch(Branch(l, node, Leaf), p, r));
    DistinctInsert(Before(c) + InOrder(l) + [p], node, InOrder(r) + After(c));
    DistinctInsert(Before(c) + InOrder(l), node, [p] + InOrder(r) + After(c));
  }

  /** Hangs `node` to the right of `p`, above the old right subtree: in order it comes immediately after `p`. */
  method InsertRight2<K>(arena: array<Node<K>>, node: nat, p: nat, ghost root: Option<nat>, ghost c: Ctx, ghost l: Tree, ghost r: Tree)
    returns (ghost t': Tree)
    requires InPlace(arena[..], root, c, l, p, r)
    requires node < arena.Length && node !in InOrder(Plug(c, Branch(l, p, r))) && arena[node].l2 == None
    modifies arena
    ensures WellFormed(arena[..], t', root)
    ensures InOrder(Plug(c, Branch(l, p, r))) == Before(c) + InOrder(l) + [p] + InOrder(r) + After(c)
    ensures InOrder(t') == (Before(c) + InOrder(l) + [p]) + [node] + (InOrder(r) + After(c))
    ensures Keys(arena[..]) == old(Keys(arena[..]))
    ensures forall i :: 0 <= i < arena.Length && i !in InOrder(t') ==> arena[i] == old(arena[i])
  {
    ghost var s := arena[..];
    PartsApart(c, l, p, r);
    RepIndices(s, r, s[p].r2, Some(p));
    InOrderAfterInsert(c, l, p, r, node);
    t' := Plug(c, Branch(l, p, Branch(Leaf, node, r)));
    var right := arena[p].r2;
    arena[p] := arena[p].(r2 := Some(node));
    arena[node] := arena[node].(p2 := Some(p));
    arena[node] := arena[node].(r2 := right);
    if right.Some? {
      arena[right.value] := arena[right.value].(p2 := Some(node));
    }
    InsertRightShape(s, arena[..], root, c, l, p, r, node);
  }

  /** Hangs `node` to the left of `p`, above the old left subtree: in order it comes immediately before `p`. */
  method InsertLeft2<K>(arena: array<Node<K>>, node: nat, p: nat, ghost root: Option<nat>, ghost c: Ctx, ghost l: Tree, ghost r: Tree)
    returns (ghost t': Tree)
    requires InPlace(arena[..], root, c, l, p, r)
    requires node < arena.Length && node !in InOrder(Plug(c, Branch(l, p, r))) && arena[node].r2 == None
    modifies arena
    ensures WellFormed(arena[..], t', root)
    ensures InOrder(Plug(c, Branch(l, p, r))) == Before(c) + InOrder(l) + [p] + InOrder(r) + After(c)
    ensures InOrder(t') == (Before(c) + InOrder(l)) + [node] + ([p] + InOrder(r) + After(c))
    ensures Keys(arena[..]) == old(Keys(arena[..]))
    ensures forall i :: 0 <= i < arena.Length && i !in InOrder(t') ==> arena[i] == old(arena[i])
  {
    ghost var s := arena[..];
    PartsApart(c, l, p, r);
    RepIndices(s, l, s[p].l2, Some(p));
    InOrderAfterInsert(c, l, p, r, node);
    t' := Plug(c, Branch(Branch(l, node, Leaf), p, r));
    var left := arena[p].l2;
    arena[p] := arena[p].(l2 := Some(node));
    arena[node] := arena[node].(p2 := Some(p));
    arena[node] := arena[node].(l2 := left);
    if left.Some? {
      arena[left.value] := arena[left.value].(p2 := Some(node));
    }
    InsertLeftShape(s, arena[..], root, c, l, p, r, node);
  }

  /** The hole of `c` is where `x` belongs: nothing above `x` before it, only that after it. */
  ghost predicate Splits<K>(cmp: (K, K) -> Ordering, keys: seq<K>, c: Ctx, x: nat) {
    && (forall i :: i in Before(c) ==> !IsAbove(cmp, keys, x, i))
    && (forall i :: i in After(c) ==> IsAbove(cmp, keys, x, i))
  }

  lemma DescendLeft<K(!new)>(cmp: (K, K) -> Ordering, keys: seq<K>, c: Ctx, l: Tree, i: nat, r: Tree, x: nat)
    requires TotalPreorder(cmp) && x < |keys| && IsAbove(cmp, keys, x, i) && Splits(cmp, keys, c, x)
    requires Within(keys, InOrder(Plug(c, Branch(l, i, r)))) && Sorted(cmp, keys, InOrder(Plug(c, Branch(l, i, r))))
    ensures Splits(cmp, keys, InLeft(c, i, r), x)
  {
    InOrderPlug(c, Branch(l, i, r));
    SortedAround(cmp, keys, Before(c), InOrder(l), i, InOrder(r), After(c));
    forall y | y in InOrder(r) ensures IsAbove(cmp, keys, x, y) {
      assert cmp(keys[i], keys[x]) == Greater;
      assert cmp(keys[y], keys[x]) == Greater;
    }
  }

  lemma DescendRight<K(!new)>(cmp: (K, K) -> Ordering, keys: seq<K>, c: Ctx, l: Tree, i: nat, r: Tree, x: nat)
    requires TotalPreorder(cmp) && x < |keys| && !IsAbove(cmp, keys, x, i) && Splits(cmp, keys, c, x)
    requires Within(keys, InOrder(Plug(c, Branch(l, i, r)))) && Sorted(cmp, keys, InOrder(Plug(c, Branch(l, i, r))))
    ensures Splits(cmp, keys, InRight(c, l, i), x)
  {
    InOrderPlug(c, Branch(l, i, r));
    SortedAround(cmp, keys, Before(c), InOrder(l), i, InOrder(r), After(c));
    forall y | y in InOrder(l) ensures !IsAbove(cmp, keys, x, y) {
      assert cmp(keys[y], keys[i]) != Greater;
      assert cmp(keys[i], keys[x]) != Greater;
    }
  }

  /** One step down keeps the search on track, as long as the tree is ordered at all. */
  lemma Descend<K(!new)>(cmp: (K, K) -> Ordering, keys: seq<K>, c: Ctx, l: Tree, i: nat, r: Tree, x: nat)
    requires x < |keys| && i < |keys|
    requires Ordered(cmp, keys, InOrder(Plug(c, Branch(l, i, r)))) ==> Splits(cmp, keys, c, x)
    ensures Ordered(cmp, keys, InOrder(Plug(c, Branch(l, i, r)))) ==>
              Splits(cmp, keys, if cmp(keys[x], keys[i]) == Less then InLeft(c, i, r) else InRight(c, l, i), x)
  {
    if Ordered(cmp, keys, InOrder(Plug(c, Branch(l, i, r)))) {
      if cmp(keys[x], keys[i]) == Less {
        DescendLeft(cmp, keys, c, l, i, r, x);
      } else {
        DescendRight(cmp, keys, c, l, i, r, x);
      }
    }
  }

  /** `q'` is `q` with `x` added at some place. */
  ghost predicate AddedOnce(q: seq<nat>, x: nat, q': seq<nat>) {
    exists k :: 0 <= k <= |q| && q' == q[..k] + [x] + q[k..]
  }

  lemma AddedAtCut(q: seq<nat>, x: nat, q': seq<nat>, a: seq<nat>, b: seq<nat>)
    requires q == a + b && q' == a + [x] + b
    ensures AddedOnce(q, x, q')
  {
    assert q[..|a|] == a && q[|a|..] == b;
  }

  lemma InsertedAtSplit<K>(cmp: (K, K) -> Ordering, keys: seq<K>, c: Ctx, x: nat)
    requires Splits(cmp, keys, c, x)
    ensures Inserted(cmp, keys, Before(c) + After(c), x) == Before(c) + [x] + After(c)
  {
    InsertedAtCut(cmp, keys, Before(c), After(c), x);
  }

  lemma NothingSplits<K>(cmp: (K, K) -> Ordering, keys: seq<K>, x: nat)
    ensures Splits(cmp, keys, Top, x)
  {
  }

  /** The child on one side of the node in place is in place itself. */
  lemma ChildInPlace<K>(s: seq<Node<K>>, root: Option<nat>, c: Ctx, l: Tree, p: nat, r: Tree, left: bool)
    requires InPlace(s, root, c, l, p, r)
    ensures var next, sub, c' := if left then s[p].l2 else s[p].r2, if left then l else r, if left then InLeft(c, p, r) else InRight(c, l, p);
            && Plug(c', sub) == Plug(c, Branch(l, p, r))
            && (next.None? ==> sub.Leaf?)
            && (next.Some? ==> sub.Branch? && sub.node == next.value < |s| && InPlace(s, root, c', sub.left, sub.node, sub.right))
  {
  }

  lemma RootInPlace<K>(s: seq<Node<K>>, t: Tree, root: Option<nat>)
    requires WellFormed(s, t, root)
    ensures root.None? ==> t == Leaf && InOrder(t) == []
    ensures root.Some? ==> t.Branch? && t.node == root.value < |s| && Plug(Top, t) == t && InPlace(s, root, Top, t.left, t.node, t.right)
  {
  }

  /** A detached node is a tree of its own. */
  lemma SingleNode<K(!new)>(cmp: (K, K) -> Ordering, s: seq<Node<K>>, node: nat)
    requires node < |s| && Detached(s[node])
    ensures WellFormed(s, Branch(Leaf, node, Leaf), Some(node)) && InOrder(Branch(Leaf, node, Leaf)) == [node]
    ensures AddedOnce([], node, [node]) && Inserted(cmp, Keys(s), [], node) == [node]
  {
    AddedAtCut([], node, [node], [], []);
  }

  /** The free slot left of `p` and the context that ends in it. */
  lemma LeftSlot(c: Ctx, p: nat, r: Tree, node: nat)
    ensures InOrder(Plug(c, Branch(Leaf, p, r))) == Before(InLeft(c, p, r)) + After(InLeft(c, p, r))
    ensures (Before(c) + InOrder(Leaf)) + [node] + ([p] + InOrder(r) + After(c))
         == Before(InLeft(c, p, r)) + [node] + After(InLeft(c, p, r))
  {
    InOrderPlug(InLeft(c, p, r), Leaf);
    assert Before(c) + [] == Before(c);
  }

  lemma RightSlot(c: Ctx, l: Tree, p: nat, node: nat)
    ensures InOrder(Plug(c, Branch(l, p, Leaf))) == Before(InRight(c, l, p)) + After(InRight(c, l, p))
    ensures (Before(c) + InOrder(l) + [p]) + [node] + (InOrder(Leaf) + After(c))
         == Before(InRight(c, l, p)) + [node] + After(InRight(c, l, p))
  {
    InOrderPlug(InRight(c, l, p), Leaf);
    assert Before(c) + InOrder(l) + [p] == Before(c) + (InOrder(l) + [p]);
    assert [] + After(c) == After(c);
  }

  /**
   Adds a detached node. Under any comparator it lands somewhere in the old order; when the tree
   is sorted under a total preorder it lands behind its equals, so the tree stays sorted.
   */
  method Insert2<K(!new)>(arena: array<Node<K>>, root: Option<nat>, node: nat, cmp: (K, K) -> Ordering, ghost t: Tree)
    returns (root': Option<nat>, ghost t': Tree)
    requires WellFormed(arena[..], t, root)
    requires node < arena.Length && node !in InOrder(t) && Detached(arena[node])
    modifies arena
    ensures WellFormed(arena[..], t', root')
    ensures root' == if root.None? then Some(node) else root
    ensures AddedOnce(InOrder(t), node, InOrder(t'))
    ensures Ordered(cmp, Keys(arena[..]), InOrder(t)) ==>
              InOrder(t') == Inserted(cmp, Keys(arena[..]), InOrder(t), node)
    ensures Keys(arena[..]) == old(Keys(arena[..]))
    ensures forall i :: 0 <= i < arena.Length && i !in InOrder(t') ==> arena[i] == old(arena[i])
  {
    hide InPlace, Rep, Plug, Ordered, Splits, AddedOnce, Keys;
    RootInPlace(arena[..], t, root);
    ghost var keys := Keys(arena[..]);
    if root.None? {
      t' := Branch(Leaf, node, Leaf);
      SingleNode(cmp, arena[..], node);
      return Some(node), t';
    }
    ghost var ordered := Ordered(cmp, keys, InOrder(t));
    NothingSplits(cmp, keys, node);
    var curr: nat := root.value;
    ghost var c, sub := Top, t;
    while true
      invariant arena[..] == old(arena[..])
      invariant sub.Branch? && curr == sub.node < arena.Length && Plug(c, sub) == t
      invariant InPlace(arena[..], root, c, sub.left, curr, sub.right)
      invariant ordered ==> Splits(cmp, keys, c, node)
      decreases sub
    {
      ghost var l, r := sub.left, sub.right;
      var order := cmp(arena[node].key, arena[curr].key);
      var next := if order == Less then arena[curr].l2 else arena[curr].r2;
      ghost var c' := if order == Less then InLeft(c, curr, r) else InRight(c, l, curr);
      Descend(cmp, keys, c, l, curr, r, node);
      ChildInPlace(arena[..], root, c, l, curr, r, order == Less);
      match next
      case None =>
        if order == Less {
          LeftSlot(c, curr, r, node);
          t' := InsertLeft2(arena, node, curr, root, c, l, r);
        } else {
          RightSlot(c, l, curr, node);
          t' := InsertRight2(arena, node, curr, root, c, l, r);
        }
        AddedAtCut(InOrder(t), node, InOrder(t'), Before(c'), After(c'));
        if ordered { InsertedAtSplit(cmp, keys, c', node); }
        return root, t';
      case Some(n) =>
        c, sub := c', if order == Less then l else r;
        curr := n;
    }
  }

  // ---------------------------------------------------------------- removal

  /** `l` with `r` hung under its rightmost node. */
  ghost function Graft(l: Tree, r: Tree): Tree {
    match l
    case Leaf => r
    case Branch(ll, i, lr) => Branch(ll, i, Graft(lr, r))
  }

  ghost function Rightmost(t: Tree): nat
    requires t.Branch?
  {
    if t.right.Leaf? then t.node else Rightmost(t.right)
  }

  lemma {:induction false} InOrderGraft(l: Tree, r: Tree)
    ensures InOrder(Graft(l, r)) == InOrder(l) + InOrder(r)
    ensures Graft(l, Leaf) == l
  {
    if l.Branch? {
      InOrderGraft(l.right, r);
      assert InOrder(l.left) + [l.node] + (InOrder(l.right) + InOrder(r)) == InOrder(l) + InOrder(r);
    }
  }

  lemma {:induction false} RightmostIn(t: Tree)
    requires t.Branch?
    ensures Rightmost(t) in InOrder(t)
  {
    if t.right.Branch? { RightmostIn(t.right); }
  }

  lemma {:induction false} GraftRep<K>(s: seq<Node<K>>, s': seq<Node<K>>, l: Tree, r: Tree, link: Option<nat>, parent: Option<nat>, rparent: Option<nat>)
    requires l.Branch? && r.Branch? && |s| == |s'|
    requires Rep(s, l, link, parent) && Rep(s, r, Some(r.node), rparent)
    requires Distinct(InOrder(l)) && Distinct(InOrder(r)) && forall i :: i in InOrder(l) ==> i !in InOrder(r)
    requires Rightmost(l) < |s| && s'[Rightmost(l)] == s[Rightmost(l)].(r2 := Some(r.node))
    requires s'[r.node] == s[r.node].(p2 := Some(Rightmost(l)))
    requires forall i :: i in InOrder(l) + InOrder(r) && i < |s| && i != Rightmost(l) && i != r.node ==> s'[i] == s[i]
    ensures Rep(s', Graft(l, r), link, parent)
  {
    DistinctParts(l);
    RightmostIn(l);
    assert r.node in InOrder(r);
    assert forall i :: i in InOrder(l.left) || i in InOrder(l.right) || i == l.node ==> i in InOrder(l);
    if l.right.Leaf? {
      RepReparent(s, s', r, rparent, link);
      RepFrame(s, s', l.left, s[l.node].l2, link);
    } else {
      RightmostIn(l.right);
      RepFrame(s, s', l.left, s[l.node].l2, link);
      GraftRep(s, s', l.right, r, s[l.node].r2, link, rparent);
    }
  }

  /** The rest of the tree after the hole around `node` was refilled by `t'`. */
  lemma RefillRep<K>(s: seq<Node<K>>, s': seq<Node<K>>, c: Ctx, root: Option<nat>, link: Option<nat>, parent: Option<nat>,
                     t': Tree, link': Option<nat>)
    requires CtxRep(s, c, root, link, parent) && Refilled(s, s', c, link') && Distinct(Before(c) + After(c))
    requires Rep(s', t', link', parent)
    ensures Rep(s', Plug(c, t'), NewRoot(c, root, link'), None)
  {
    CtxRefill(s, s', c, root, link, parent, link');
    PlugRep(s', c, t', NewRoot(c, root, link'), link', parent);
  }

  /** The order left behind when the node between `l` and `r` is cut out. */
  lemma InOrderAfterRemove(c: Ctx, l: Tree, node: nat, r: Tree)
    requires Distinct(InOrder(Plug(c, Branch(l, node, r))))
    ensures InOrder(Plug(c, Graft(l, r))) == Without(InOrder(Plug(c, Branch(l, node, r))), node)
    ensures Distinct(InOrder(Plug(c, Graft(l, r))))
  {
    InOrderPlug(c, Branch(l, node, r));
    InOrderPlug(c, Graft(l, r));
    InOrderGraft(l, r);
    Regroup(Before(c), InOrder(l), node, node, InOrder(r), After(c));
    assert Before(c) + InOrder(l) + [node] + InOrder(r) + After(c)
        == (Before(c) + InOrder(l)) + [node] + (InOrder(r) + After(c));
    WithoutSplit(Before(c) + InOrder(l), node, InOrder(r) + After(c));
  }

  ghost function Cleared<K>(s: seq<Node<K>>, node: nat): seq<Node<K>>
    requires node < |s|
  {
    s[node := s[node].(p2 := None, l2 := None, r2 := None)]
  }

  /** The node that holds the hole of `c` now points at `link`. */
  ghost function Relinked<K>(s: seq<Node<K>>, c: Ctx, link: Option<nat>): seq<Node<K>>
    requires !c.Top? ==> c.node < |s|
  {
    match c
    case Top => s
    case InLeft(_, p, _) => s[p := s[p].(l2 := link)]
    case InRight(_, _, p) => s[p := s[p].(r2 := link)]
  }

  /** Keys are untouched, and so is every slot outside `q`. */
  ghost predicate Kept<K>(s: seq<Node<K>>, s': seq<Node<K>>, q: seq<nat>) {
    && |s| == |s'|
    && forall i :: 0 <= i < |s| ==> s'[i].key == s[i].key && (i !in q ==> s'[i] == s[i])
  }

  /** Clearing the links of `node` leaves the three parts around it standing. */
  lemma ClearedParts<K>(s: seq<Node<K>>, root: Option<nat>, c: Ctx, l: Tree, node: nat, r: Tree)
    requires InPlace(s, root, c, l, node, r)
    ensures var s' := Cleared(s, node);
            && CtxRep(s', c, root, Some(node), s[node].p2)
            && Rep(s', l, s[node].l2, Some(node))
            && Rep(s', r, s[node].r2, Some(node))
  {
    var s' := Cleared(s, node);
    PartsApart(c, l, node, r);
    CtxFrame(s, s', c, root, Some(node), s[node].p2);
    RepFrame(s, s', l, s[node].l2, Some(node));
    RepFrame(s, s', r, s[node].r2, Some(node));
  }

  lemma CtxNode<K>(s: seq<Node<K>>, c: Ctx, root: Option<nat>, link: Option<nat>, parent: Option<nat>)
    requires CtxRep(s, c, root, link, parent)
    ensures parent == if c.Top? then None else Some(c.node)
    ensures !c.Top? ==> c.node < |s| && c.node in Before(c) + After(c)
  {
  }

  /** Hangs the subtree `g`, until now under `par`, into the hole of `c`. */
  lemma Rehang<K>(s: seq<Node<K>>, s': seq<Node<K>>, c: Ctx, root: Option<nat>, link: Option<nat>, p: Option<nat>, g: Tree, par: Option<nat>)
    requires CtxRep(s, c, root, link, p) && g.Branch? && Rep(s, g, Some(g.node), par)
    requires Distinct(Before(c) + After(c)) && Distinct(InOrder(g))
    requires forall i :: i in InOrder(g) ==> i !in Before(c) + After(c)
    requires !c.Top? ==> c.node < |s|
    requires s' == Relinked(s, c, Some(g.node))[g.node := s[g.node].(p2 := p)]
    ensures Rep(s', Plug(c, g), NewRoot(c, root, Some(g.node)), None)
  {
    CtxNode(s, c, root, link, p);
    assert g.node in InOrder(g);
    RepReparent(s, s', g, par, p);
    RefillRep(s, s', c, root, link, p, g, Some(g.node));
  }

  /** Case: no children. */
  lemma RemoveLeafShape<K>(s: seq<Node<K>>, s': seq<Node<K>>, root: Option<nat>, c: Ctx, node: nat)
    requires InPlace(s, root, c, Leaf, node, Leaf) && (!c.Top? ==> c.node < |s|)
    requires s' == Relinked(Cleared(s, node), c, None)
    ensures Rep(s', Plug(c, Leaf), NewRoot(c, root, None), None)
    ensures Kept(s, s', InOrder(Plug(c, Branch(Leaf, node, Leaf)))) && Detached(s'[node])
  {
    CtxNode(s, c, root, Some(node), s[node].p2);
    PartsApart(c, Leaf, node, Leaf);
    ClearedParts(s, root, c, Leaf, node, Leaf);
    RefillRep(Cleared(s, node), s', c, root, Some(node), s[node].p2, Leaf, None);
  }

  /** Case: one child, which takes the place of `node`. */
  lemma RemoveOneShape<K>(s: seq<Node<K>>, s': seq<Node<K>>, root: Option<nat>, c: Ctx, l: Tree, node: nat, r: Tree)
    requires InPlace(s, root, c, l, node, r) && (!c.Top? ==> c.node < |s|) && (l.Leaf? != r.Leaf?)
    requires Graft(l, r).Branch? && Graft(l, r).node < |s| && Graft(l, r).node != node
    requires var top := Graft(l, r).node;
             s' == Relinked(Cleared(s, node), c, Some(top))[top := s[top].(p2 := s[node].p2)]
    ensures Rep(s', Plug(c, Graft(l, r)), NewRoot(c, root, Some(Graft(l, r).node)), None)
  {
    PartsApart(c, l, node, r);
    ClearedParts(s, root, c, l, node, r);
    InOrderGraft(l, r);
    Rehang(Cleared(s, node), s', c, root, Some(node), s[node].p2, Graft(l, r), Some(node));
  }

  lemma RemoveOneKept<K>(s: seq<Node<K>>, s': seq<Node<K>>, root: Option<nat>, c: Ctx, l: Tree, node: nat, r: Tree)
    requires InPlace(s, root, c, l, node, r) && (!c.Top? ==> c.node < |s|)
    requires Graft(l, r).Branch? && Graft(l, r).node < |s| && Graft(l, r).node != node
    requires var top := Graft(l, r).node;
             s' == Relinked(Cleared(s, node), c, Some(top))[top := s[top].(p2 := s[node].p2)]
    ensures Kept(s, s', InOrder(Plug(c, Branch(l, node, r)))) && Detached(s'[node])
  {
    CtxNode(s, c, root, Some(node), s[node].p2);
    PartsApart(c, l, node, r);
    InOrderGraft(l, r);
    assert Graft(l, r).node in InOrder(Graft(l, r));
  }

  /** The arena after `RemoveBoth`, and after its grafting half. */
  ghost function Grafted<K>(s: seq<Node<K>>, mr: nat, r: nat): seq<Node<K>>
    requires mr < |s| && r < |s|
  {
    s[mr := s[mr].(r2 := Some(r))][r := s[mr := s[mr].(r2 := Some(r))][r].(p2 := Some(mr))]
  }

  lemma GraftedKept<K>(s: seq<Node<K>>, root: Option<nat>, c: Ctx, l: Tree, node: nat, r: Tree, mr: nat)
    requires InPlace(s, root, c, l, node, r) && l.Branch? && r.Branch?
    requires mr == Rightmost(l) && mr < |s| && r.node < |s|
    ensures mr != node && r.node != node && mr != r.node
    ensures Kept(s, Grafted(Cleared(s, node), mr, r.node), InOrder(Plug(c, Branch(l, node, r))))
    ensures Detached(Grafted(Cleared(s, node), mr, r.node)[node])
  {
    PartsApart(c, l, node, r);
    RightmostIn(l);
    assert r.node in InOrder(r);
  }

  /** Case: two children; the right one goes under the rightmost node of the left one. */
  lemma RemoveBothShape<K>(s: seq<Node<K>>, s': seq<Node<K>>, root: Option<nat>, c: Ctx, l: Tree, node: nat, r: Tree, mr: nat)
    requires InPlace(s, root, c, l, node, r) && (!c.Top? ==> c.node < |s|) && l.Branch? && r.Branch?
    requires mr == Rightmost(l) && mr < |s| && r.node < |s| && l.node < |s|
    requires var s2 := Grafted(Cleared(s, node), mr, r.node);
             s' == Relinked(s2, c, Some(l.node))[l.node := s2[l.node].(p2 := s[node].p2)]
    ensures Rep(s', Plug(c, Graft(l, r)), NewRoot(c, root, Some(l.node)), None)
  {
    var s1, s2 := Cleared(s, node), Grafted(Cleared(s, node), mr, r.node);
    GraftedKept(s, root, c, l, node, r, mr);
    PartsApart(c, l, node, r);
    ClearedParts(s, root, c, l, node, r);
    RightmostIn(l);
    assert r.node in InOrder(r);
    GraftRep(s1, s2, l, r, Some(l.node), Some(node), Some(node));
    CtxFrame(s1, s2, c, root, Some(node), s[node].p2);
    InOrderGraft(l, r);
    DistinctAppend(InOrder(l), InOrder(r));
    Rehang(s2, s', c, root, Some(node), s[node].p2, Graft(l, r), Some(node));
  }

  lemma RemoveBothKept<K>(s: seq<Node<K>>, s': seq<Node<K>>, root: Option<nat>, c: Ctx, l: Tree, node: nat, r: Tree, mr: nat)
    requires InPlace(s, root, c, l, node, r) && (!c.Top? ==> c.node < |s|) && l.Branch? && r.Branch?
    requires mr == Rightmost(l) && mr < |s| && r.node < |s| && l.node < |s|
    requires var s2 := Grafted(Cleared(s, node), mr, r.node);
             s' == Relinked(s2, c, Some(l.node))[l.node := s2[l.node].(p2 := s[node].p2)]
    ensures Kept(s, s', InOrder(Plug(c, Branch(l, node, r)))) && Detached(s'[node])
  {
    GraftedKept(s, root, c, l, node, r, mr);
    PartsApart(c, l, node, r);
    CtxNode(s, c, root, Some(node), s[node].p2);
    assert l.node in InOrder(l);
  }

  lemma DistinctAppend(a: seq<nat>, b: seq<nat>)
    requires Distinct(a) && Distinct(b) && forall i :: i in a ==> i !in b
    ensures Distinct(a + b)
  {
    forall i, j | 0 <= i < j < |a + b| ensures (a + b)[i] != (a + b)[j] {
      assert i < |a| ==> (a + b)[i] in a;
      assert |a| <= j ==> (a + b)[j] in b;
    }
  }

  /** Sets whichever child link of `p` led to `node`. */
  method Relink<K>(arena: array<Node<K>>, p: nat, node: nat, link: Option<nat>, ghost c: Ctx)
    requires !c.Top? && p == c.node && p < arena.Length
    requires c.InLeft? <==> arena[p].l2 == Some(node)
    modifies arena
    ensures arena[..] == Relinked(old(arena[..]), c, link)
  {
    if arena[p].l2 == Some(node) {
      arena[p] := arena[p].(l2 := link);
    } else {
      arena[p] := arena[p].(r2 := link);
    }
  }

  /** The parent's left link leads to `node` exactly when `node` hangs there. */
  lemma ParentSide<K>(s: seq<Node<K>>, root: Option<nat>, c: Ctx, l: Tree, node: nat, r: Tree)
    requires InPlace(s, root, c, l, node, r) && !c.Top?
    ensures c.node < |s| && (c.InLeft? <==> s[c.node].l2 == Some(node))
  {
    PartsApart(c, l, node, r);
    if c.InRight? {
      RepIndices(s, c.left, s[c.node].l2, Some(c.node));
      assert forall i :: i in InOrder(c.left) ==> i in Before(c) + After(c);
    }
  }

  /** `Remove2`, no child: the parent forgets `node`. */
  method RemoveLeaf<K>(arena: array<Node<K>>, root: Option<nat>, node: nat, p: Option<nat>, ghost s: seq<Node<K>>, ghost c: Ctx)
    returns (root': Option<nat>)
    requires InPlace(s, root, c, Leaf, node, Leaf) && p == s[node].p2 && arena[..] == Cleared(s, node)
    modifies arena
    ensures Rep(arena[..], Plug(c, Leaf), root', None)
    ensures Kept(s, arena[..], InOrder(Plug(c, Branch(Leaf, node, Leaf)))) && Detached(arena[node])
  {
    CtxNode(s, c, root, Some(node), p);
    PartsApart(c, Leaf, node, Leaf);
    if p.Some? {
      ParentSide(s, root, c, Leaf, node, Leaf);
      Relink(arena, p.value, node, None, c);
    }
    RemoveLeafShape(s, arena[..], root, c, node);
    return if p.None? then None else root;
  }

  /** `Remove2`, one child: it moves up. */
  method RemoveOne<K>(arena: array<Node<K>>, root: Option<nat>, node: nat, p: Option<nat>, child: nat, ghost s: seq<Node<K>>, ghost c: Ctx, ghost l: Tree, ghost r: Tree)
    returns (root': Option<nat>)
    requires InPlace(s, root, c, l, node, r) && p == s[node].p2 && arena[..] == Cleared(s, node)
    requires l.Leaf? != r.Leaf? && Graft(l, r).Branch? && child == Graft(l, r).node
    modifies arena
    ensures Rep(arena[..], Plug(c, Graft(l, r)), root', None)
    ensures Kept(s, arena[..], InOrder(Plug(c, Branch(l, node, r)))) && Detached(arena[node])
  {
    CtxNode(s, c, root, Some(node), p);
    PartsApart(c, l, node, r);
    InOrderGraft(l, r);
    assert child in InOrder(Graft(l, r));
    RepIndices(s, l, s[node].l2, Some(node));
    RepIndices(s, r, s[node].r2, Some(node));
    arena[child] := arena[child].(p2 := p);
    if p.Some? {
      ParentSide(s, root, c, l, node, r);
      Relink(arena, p.value, node, Some(child), c);
      root' := root;
    } else {
      root' := Some(child);
    }
    RemoveOneShape(s, arena[..], root, c, l, node, r);
    RemoveOneKept(s, arena[..], root, c, l, node, r);
  }

  /** `Remove2`, two children: the left one moves up and takes the right one under its rightmost node. */
  method RemoveBoth<K>(arena: array<Node<K>>, root: Option<nat>, node: nat, p: Option<nat>, l: nat, r: nat, ghost s: seq<Node<K>>, ghost c: Ctx, ghost tl: Tree, ghost tr: Tree)
    returns (root': Option<nat>)
    requires InPlace(s, root, c, tl, node, tr) && p == s[node].p2 && arena[..] == Cleared(s, node)
    requires tl.Branch? && tl.node == l && tr.Branch? && tr.node == r
    modifies arena
    ensures Rep(arena[..], Plug(c, Graft(tl, tr)), root', None)
    ensures Kept(s, arena[..], InOrder(Plug(c, Branch(tl, node, tr)))) && Detached(arena[node])
  {
    CtxNode(s, c, root, Some(node), p);
    PartsApart(c, tl, node, tr);
    ClearedParts(s, root, c, tl, node, tr);
    RepIndices(s, tl, s[node].l2, Some(node));
    RepIndices(s, tr, s[node].r2, Some(node));
    var mostRight: nat := l;
    ghost var sub, par: Option<nat> := tl, Some(node);
    while arena[mostRight].r2.Some?
      invariant arena[..] == Cleared(s, node)
      invariant sub.Branch? && Rep(arena[..], sub, Some(mostRight), par) && Rightmost(sub) == Rightmost(tl)
      decreases sub
    {
      sub, par := sub.right, Some(mostRight);
      mostRight := arena[mostRight].r2.value;
    }
    RightmostIn(tl);
    assert tl.node in InOrder(tl) && tr.node in InOrder(tr);
    arena[mostRight] := arena[mostRight].(r2 := Some(r));
    arena[r] := arena[r].(p2 := Some(mostRight));
    GraftedKept(s, root, c, tl, node, tr, mostRight);
    assert arena[..] == Grafted(Cleared(s, node), mostRight, r);
    if p.Some? {
      ParentSide(s, root, c, tl, node, tr);
      Relink(arena, p.value, node, Some(l), c);
      arena[l] := arena[l].(p2 := p);
      root' := root;
    } else {
      arena[l] := arena[l].(p2 := None);
      root' := Some(l);
    }
    RemoveBothShape(s, arena[..], root, c, tl, node, tr, mostRight);
    RemoveBothKept(s, arena[..], root, c, tl, node, tr, mostRight);
  }

  /** Removes `node`; every link case leaves the same order without it, and the node itself detached. */
  method Remove2<K>(arena: array<Node<K>>, root: Option<nat>, node: nat, ghost t: Tree)
    returns (root': Option<nat>, ghost t': Tree)
    requires WellFormed(arena[..], t, root) && node in InOrder(t)
    modifies arena
    ensures WellFormed(arena[..], t', root')
    ensures InOrder(t') == Without(InOrder(t), node)
    ensures node < arena.Length && Detached(arena[node])
    ensures Keys(arena[..]) == old(Keys(arena[..]))
    ensures forall i :: 0 <= i < arena.Length && i !in InOrder(t) ==> arena[i] == old(arena[i])
  {
    ghost var s := arena[..];
    ghost var c, tl, tr := Locate(s, Top, t, root, root, None, node);
    InOrderAfterRemove(c, tl, node, tr);
    InOrderGraft(tl, tr);
    t' := Plug(c, Graft(tl, tr));
    var p, l, r := arena[node].p2, arena[node].l2, arena[node].r2;
    arena[node] := arena[node].(p2 := None);
    arena[node] := arena[node].(l2 := None);
    arena[node] := arena[node].(r2 := None);
    assert arena[..] == Cleared(s, node);
    match (l, r)
    case (None, None) =>
      root' := RemoveLeaf(arena, root, node, p, s, c);
    case (Some(l), Some(r)) =>
      root' := RemoveBoth(arena, root, node, p, l, r, s, c, tl, tr);
    case (Some(child), None) =>
      root' := RemoveOne(arena, root, node, p, child, s, c, tl, tr);
    case (None, Some(child)) =>
      root' := RemoveOne(arena, root, node, p, child, s, c, tl, tr);
  }

  // ---------------------------------------------------------------- enumeration

  /** `First2` followed by `Next2` until it runs out visits the whole order once. */
  method CollectInOrder<K>(arena: array<Node<K>>, root: Option<nat>, ghost t: Tree) returns (q: seq<nat>)
    requires WellFormed(arena[..], t, root)
    ensures q == InOrder(t)
  {
    q := [];
    var curr := First2(arena, root, t);
    while curr.Some?
      invariant |q| <= |InOrder(t)| && q == InOrder(t)[..|q|]
      invariant curr == if |q| < |InOrder(t)| then Some(InOrder(t)[|q|]) else None
      decreases |InOrder(t)| - |q|
    {
      var x := curr.value;
      curr := Next2(arena, x, root, t);
      NeighbourOf(InOrder(t), |q|, 1, curr);
      q := q + [x];
    }
  }

  /** `Last2` followed by `Prev2` visits it backwards. */
  method CollectBackwards<K>(arena: array<Node<K>>, root: Option<nat>, ghost t: Tree) returns (q: seq<nat>)
    requires WellFormed(arena[..], t, root)
    ensures |q| == |InOrder(t)| && forall k :: 0 <= k < |q| ==> q[k] == InOrder(t)[|q| - 1 - k]
  {
    q := [];
    ghost var n := |InOrder(t)|;
    var curr := Last2(arena, root, t);
    while curr.Some?
      invariant |q| <= n && forall k :: 0 <= k < |q| ==> q[k] == InOrder(t)[n - 1 - k]
      invariant curr == if |q| < n then Some(InOrder(t)[n - 1 - |q|]) else None
      decreases n - |q|
    {
      var x := curr.value;
      curr := Prev2(arena, x, root, t);
      NeighbourOf(InOrder(t), n - 1 - |q|, -1, curr);
      q := q + [x];
    }
  }

  // ---------------------------------------------------------------- runs

  datatype Op = Insert(node: nat) | Remove(node: nat)

  /** The live nodes after `ops`, in order of arrival. */
  ghost function Arrivals(ops: seq<Op>): seq<nat> {
    if ops == [] then [] else
    var q := Arrivals(ops[..|ops| - 1]);
    match ops[|ops| - 1]
    case Insert(i) => q + [i]
    case Remove(i) => Without(q, i)
  }

  /** The order of the tree after `ops`. */
  ghost function TreeOrder<K>(cmp: (K, K) -> Ordering, keys: seq<K>, ops: seq<Op>): seq<nat> {
    if ops == [] then [] else
    var q := TreeOrder(cmp, keys, ops[..|ops| - 1]);
    match ops[|ops| - 1]
    case Insert(i) => Inserted(cmp, keys, q, i)
    case Remove(i) => Without(q, i)
  }

  /** Only absent nodes of the arena are inserted and only live ones removed. */
  ghost predicate Legal(n: nat, ops: seq<Op>) {
    ops == [] ||
    (Legal(n, ops[..|ops| - 1]) &&
     var q := Arrivals(ops[..|ops| - 1]);
     match ops[|ops| - 1]
     case Insert(i) => i < n && i !in q
     case Remove(i) => i in q)
  }

  ghost function SameKey<K>(cmp: (K, K) -> Ordering, keys: seq<K>, x: nat): nat -> bool {
    (i: nat) => IsSameKey(cmp, keys, x, i)
  }

  ghost predicate IsSameKey<K>(cmp: (K, K) -> Ordering, keys: seq<K>, x: nat, i: nat) {
    i < |keys| && x < |keys| && cmp(keys[i], keys[x]) == Equal
  }

  /** `q` holds the nodes of `live`, sorted by key, equal keys in the order of `live`. */
  ghost predicate StablySorts<K(!new)>(cmp: (K, K) -> Ordering, keys: seq<K>, q: seq<nat>, live: seq<nat>) {
    && Ordered(cmp, keys, q)
    && Distinct(q)
    && multiset(q) == multiset(live)
    && forall x :: 0 <= x < |keys| ==> Filter(q, SameKey(cmp, keys, x)) == Filter(live, SameKey(cmp, keys, x))
  }

  /** A sorted order falls apart into what is not above `x` and what is. */
  lemma {:induction false} Cut<K(!new)>(cmp: (K, K) -> Ordering, keys: seq<K>, q: seq<nat>, x: nat) returns (a: seq<nat>, b: seq<nat>)
    requires Ordered(cmp, keys, q) && x < |keys|
    ensures q == a + b
    ensures forall i :: i in a ==> !IsAbove(cmp, keys, x, i)
    ensures forall i :: i in b ==> IsAbove(cmp, keys, x, i)
  {
    if q == [] {
      return [], [];
    }
    var last := |q| - 1;
    if IsAbove(cmp, keys, x, q[last]) {
      a, b := Cut(cmp, keys, q[..last], x);
      b := b + [q[last]];
    } else {
      forall i | 0 <= i < |q| ensures !IsAbove(cmp, keys, x, q[i]) {
        assert i < last ==> cmp(keys[q[i]], keys[q[last]]) != Greater;
        assert cmp(keys[q[last]], keys[x]) != Greater;
        assert cmp(keys[x], keys[x]) != Greater;
      }
      a, b := q, [];
    }
  }

  /** The newcomer comes last among the nodes with its key. */
  lemma SameKeyInsert<K(!new)>(cmp: (K, K) -> Ordering, keys: seq<K>, a: seq<nat>, x: nat, b: seq<nat>, z: nat)
    requires TotalPreorder(cmp) && x < |keys| && z < |keys|
    requires forall i :: i in b ==> IsAbove(cmp, keys, x, i)
    ensures var same := SameKey(cmp, keys, z);
            Filter(a + [x] + b, same) == Filter(a + b, same) + Filter([x], same)
  {
    var same := SameKey(cmp, keys, z);
    FilterAppend(a + [x], b, same);
    FilterAppend(a, [x], same);
    FilterAppend(a, b, same);
    if IsSameKey(cmp, keys, z, x) {
      forall i | i in b ensures !IsSameKey(cmp, keys, z, i) {
        assert cmp(keys[x], keys[i]) == Less && cmp(keys[i], keys[x]) == Greater;
        assert cmp(keys[x], keys[z]) == Equal && cmp(keys[z], keys[x]) != Greater;
      }
      FilterNone(b, same);
    } else {
      FilterNone([x], same);
    }
  }

  lemma InsertKeepsOrder<K(!new)>(cmp: (K, K) -> Ordering, keys: seq<K>, q: seq<nat>, live: seq<nat>, x: nat)
    requires StablySorts(cmp, keys, q, live) && x < |keys| && x !in live
    ensures StablySorts(cmp, keys, Inserted(cmp, keys, q, x), live + [x])
  {
    var a, b := Cut(cmp, keys, q, x);
    InsertedAtCut(cmp, keys, a, b, x);
    var q' := a + [x] + b;
    assert x !in q by { assert x in multiset(q) <==> x in multiset(live); }
    DistinctInsert(a, x, b);
    SortedInsert(cmp, keys, a, x, b);
    forall z | 0 <= z < |keys| ensures Filter(q', SameKey(cmp, keys, z)) == Filter(live + [x], SameKey(cmp, keys, z)) {
      FilterAppend(live, [x], SameKey(cmp, keys, z));
      SameKeyInsert(cmp, keys, a, x, b, z);
    }
    assert multiset(q') == multiset(q) + multiset{x};
  }

  lemma SortedInsert<K(!new)>(cmp: (K, K) -> Ordering, keys: seq<K>, a: seq<nat>, x: nat, b: seq<nat>)
    requires Ordered(cmp, keys, a + b) && x < |keys|
    requires forall i :: i in a ==> !IsAbove(cmp, keys, x, i)
    requires forall i :: i in b ==> IsAbove(cmp, keys, x, i)
    ensures Ordered(cmp, keys, a + [x] + b)
  {
    var q, q' := a + b, a + [x] + b;
    forall k | 0 <= k < |q'| ensures q'[k] < |keys| {
      assert k != |a| ==> q'[k] == q[if k < |a| then k else k - 1];
    }
    forall i, j | 0 <= i < j < |q'| ensures cmp(keys[q'[i]], keys[q'[j]]) != Greater {
      if i < |a| { assert q'[i] == q[i] && a[i] in a; }
      if j > |a| { assert q'[j] == q[j - 1] && b[j - |a| - 1] in b; }
      if i == |a| {
        assert cmp(keys[x], keys[q'[j]]) == Less;
      } else if j == |a| {
        assert cmp(keys[x], keys[q'[i]]) != Less;
      } else {
        assert cmp(keys[q[if i < |a| then i else i - 1]], keys[q[if j < |a| then j else j - 1]]) != Greater;
      }
    }
  }

  lemma SortedRemove<K(!new)>(cmp: (K, K) -> Ordering, keys: seq<K>, a: seq<nat>, x: nat, b: seq<nat>)
    requires Ordered(cmp, keys, a + [x] + b)
    ensures Ordered(cmp, keys, a + b)
  {
    var q, q' := a + [x] + b, a + b;
    forall k | 0 <= k < |q'| ensures q'[k] < |keys| {
      assert q'[k] == q[if k < |a| then k else k + 1];
    }
    forall i, j | 0 <= i < j < |q'| ensures cmp(keys[q'[i]], keys[q'[j]]) != Greater {
      assert q'[i] == q[if i < |a| then i else i + 1];
      assert q'[j] == q[if j < |a| then j else j + 1];
    }
  }

  lemma RemoveKeepsOrder<K(!new)>(cmp: (K, K) -> Ordering, keys: seq<K>, q: seq<nat>, live: seq<nat>, x: nat)
    requires StablySorts(cmp, keys, q, live) && x in live && Distinct(live)
    ensures StablySorts(cmp, keys, Without(q, x), Without(live, x))
    ensures Distinct(Without(live, x))
  {
    hide Filter, SameKey;
    var a, b := SplitAt(q, x, live);
    var a', b' := SplitAt(live, x, live);
    SameWithout(a, x, b, a', b');
    SortedRemove(cmp, keys, a, x, b);
    forall z | 0 <= z < |keys|
      ensures Filter(Without(q, x), SameKey(cmp, keys, z)) == Filter(Without(live, x), SameKey(cmp, keys, z))
    {
      FilterSwap(q, Differs(x), SameKey(cmp, keys, z));
      FilterSwap(live, Differs(x), SameKey(cmp, keys, z));
    }
  }

  lemma SameWithout(a: seq<nat>, x: nat, b: seq<nat>, a': seq<nat>, b': seq<nat>)
    requires Distinct(a + [x] + b) && Distinct(a' + [x] + b') && multiset(a + [x] + b) == multiset(a' + [x] + b')
    ensures Without(a + [x] + b, x) == a + b && Without(a' + [x] + b', x) == a' + b'
    ensures Distinct(a + b) && Distinct(a' + b') && multiset(a + b) == multiset(a' + b')
  {
    WithoutSplit(a, x, b);
    WithoutSplit(a', x, b');
    assert multiset(a + b) == multiset(a + [x] + b) - multiset{x};
    assert multiset(a' + b') == multiset(a' + [x] + b') - multiset{x};
  }

  lemma SplitAt(q: seq<nat>, x: nat, live: seq<nat>) returns (a: seq<nat>, b: seq<nat>)
    requires multiset(q) == multiset(live) && x in live
    ensures q == a + [x] + b
  {
    assert x in q by { assert x in multiset(q) <==> x in multiset(live); }
    var k :| 0 <= k < |q| && q[k] == x;
    a, b := q[..k], q[k + 1..];
  }

  /** Any legal run of insertions and removals keeps a stably sorted permutation of the live nodes. */
  lemma {:induction false} RunsStaySorted<K(!new)>(cmp: (K, K) -> Ordering, keys: seq<K>, ops: seq<Op>)
    requires TotalPreorder(cmp) && Legal(|keys|, ops)
    ensures StablySorts(cmp, keys, TreeOrder(cmp, keys, ops), Arrivals(ops))
    ensures Distinct(Arrivals(ops))
  {
    if ops != [] {
      var before := ops[..|ops| - 1];
      RunsStaySorted(cmp, keys, before);
      match ops[|ops| - 1]
      case Insert(i) =>
        InsertKeepsOrder(cmp, keys, TreeOrder(cmp, keys, before), Arrivals(before), i);
        DistinctInsert(Arrivals(before), i, []);
        assert Arrivals(before) + [i] + [] == Arrivals(before) + [i];
      case Remove(i) =>
        RemoveKeepsOrder(cmp, keys, TreeOrder(cmp, keys, before), Arrivals(before), i);
    }
  }

  ghost predicate RestDetached<K>(s: seq<Node<K>>, t: Tree) {
    forall i :: 0 <= i < |s| && i !in InOrder(t) ==> Detached(s[i])
  }

  method Step<K(!new)>(arena: array<Node<K>>, root: Option<nat>, cmp: (K, K) -> Ordering, op: Op, ghost t: Tree)
    returns (root': Option<nat>, ghost t': Tree)
    requires WellFormed(arena[..], t, root) && RestDetached(arena[..], t) && Ordered(cmp, Keys(arena[..]), InOrder(t))
    requires match op case Insert(i) => i < arena.Length && i !in InOrder(t) case Remove(i) => i in InOrder(t)
    modifies arena
    ensures WellFormed(arena[..], t', root') && RestDetached(arena[..], t') && Keys(arena[..]) == old(Keys(arena[..]))
    ensures InOrder(t') == match op case Insert(i) => Inserted(cmp, Keys(arena[..]), InOrder(t), i) case Remove(i) => Without(InOrder(t), i)
  {
    match op
    case Insert(i) =>
      root', t' := Insert2(arena, root, i, cmp, t);
      AddedMembers(InOrder(t), i, InOrder(t'));
    case Remove(i) =>
      root', t' := Remove2(arena, root, i, t);
      WithoutMembers(InOrder(t), i);
  }

  /** A whole run on an arena of detached nodes, and what the tree then enumerates. */
  method Run<K(!new)>(arena: array<Node<K>>, cmp: (K, K) -> Ordering, ops: seq<Op>) returns (root: Option<nat>, ghost t: Tree)
    requires TotalPreorder(cmp) && Legal(arena.Length, ops)
    requires forall i :: 0 <= i < arena.Length ==> Detached(arena[i])
    modifies arena
    ensures WellFormed(arena[..], t, root) && Keys(arena[..]) == old(Keys(arena[..]))
    ensures InOrder(t) == TreeOrder(cmp, Keys(arena[..]), ops)
    ensures StablySorts(cmp, Keys(arena[..]), InOrder(t), Arrivals(ops))
    ensures RestDetached(arena[..], t)
  {
    root, t := None, Leaf;
    ghost var keys := Keys(arena[..]);
    var k := 0;
    while k < |ops|
      invariant 0 <= k <= |ops|
      invariant WellFormed(arena[..], t, root) && Keys(arena[..]) == keys
      invariant InOrder(t) == TreeOrder(cmp, keys, ops[..k])
      invariant RestDetached(arena[..], t)
    {
      NextOp(cmp, keys, ops, k);
      root, t := Step(arena, root, cmp, ops[k], t);
      k := k + 1;
    }
    assert ops[..k] == ops;
    RunsStaySorted(cmp, keys, ops);
  }

  /** Before each operation of a run the tree is sorted and the operation applies. */
  lemma NextOp<K(!new)>(cmp: (K, K) -> Ordering, keys: seq<K>, ops: seq<Op>, k: nat)
    requires TotalPreorder(cmp) && Legal(|keys|, ops) && k < |ops|
    ensures var q := TreeOrder(cmp, keys, ops[..k]);
            && Ordered(cmp, keys, q)
            && (match ops[k]
                case Insert(i) => i < |keys| && i !in q && TreeOrder(cmp, keys, ops[..k + 1]) == Inserted(cmp, keys, q, i)
                case Remove(i) => i in q && TreeOrder(cmp, keys, ops[..k + 1]) == Without(q, i))
  {
    LegalPrefix(|keys|, ops, k + 1);
    assert ops[..k + 1][..k] == ops[..k];
    RunsStaySorted(cmp, keys, ops[..k]);
    SameMembers(TreeOrder(cmp, keys, ops[..k]), Arrivals(ops[..k]));
  }

  lemma AddedMembers(q: seq<nat>, x: nat, q': seq<nat>)
    requires AddedOnce(q, x, q')
    ensures forall y :: y in q' <==> y in q || y == x
  {
    var k :| 0 <= k <= |q| && q' == q[..k] + [x] + q[k..];
    assert q == q[..k] + q[k..];
  }

  lemma WithoutMembers(q: seq<nat>, x: nat)
    ensures forall y: nat :: y in Without(q, x) <==> y in q && y != x
  {
    forall y: nat ensures y in Without(q, x) <==> y in q && y != x {
      FilterIn(q, Differs(x), y);
    }
  }

  lemma SameMembers(q: seq<nat>, live: seq<nat>)
    requires multiset(q) == multiset(live)
    ensures forall x :: x in q <==> x in live
  {
    forall x ensures x in q <==> x in live {
      assert x in multiset(q) <==> x in multiset(live);
    }
  }

  lemma {:induction false} LegalPrefix(n: nat, ops: seq<Op>, k: nat)
    requires Legal(n, ops) && k <= |ops|
    ensures Legal(n, ops[..k])
    decreases |ops|
  {
    if k < |ops| {
      assert ops[..|ops| - 1][..k] == ops[..k];
      LegalPrefix(n, ops[..|ops| - 1], k);
    } else {
      assert ops[..k] == ops;
    }
  }
}
