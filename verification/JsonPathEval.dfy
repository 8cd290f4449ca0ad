/** The evaluator of crates/json-joy-json-path/src/eval.rs: values and paths in step, recursive descent in preorder, slices as RFC 9535 has them. */
module JsonPathEval {
  import opened Common
  import opened Json
  import JP = JsonPath

  type Selector = JP.Selector
  type PathSegment = JP.PathSegment

  datatype Node = Node(path: Path, value: Json)

  /** Whether a filter holds of a value, given the root. */
  type Judge = (JP.Filter, Json, Json) -> bool

  // ---------------------------------------------------------------- slices

  function Clamp(n: int, low: int, high: int): int
    requires low <= high
  {
    if n < low then low else if n > high then high else n
  }

  function Normalize(i: int, len: nat): int {
    if i >= 0 then i else len + i
  }

  function Or(n: Option<JP.ISize>, default: int): int {
    if n.Some? then n.value else default
  }

  /** Where a slice starts and where it stops, both inside the array or just off it. */
  function SliceBounds(start: Option<JP.ISize>, end: Option<JP.ISize>, step: int, len: nat): (r: (int, int))
    requires step != 0
    ensures if step > 0 then 0 <= r.0 <= len && 0 <= r.1 <= len else -1 <= r.0 < len && -1 <= r.1 < len
  {
    if step > 0 then (Clamp(Normalize(Or(start, 0), len), 0, len), Clamp(Normalize(Or(end, len), len), 0, len))
    else (Clamp(Normalize(Or(start, len - 1), len), -1, len - 1), Clamp(Normalize(Or(end, 0 - len - 1), len), -1, len - 1))
  }

  function Upwards(i: nat, upper: int, step: int): seq<nat>
    requires step > 0
    decreases upper - i
  {
    if i < upper then [i] + Upwards(i + step, upper, step) else []
  }

  function Downwards(i: int, lower: int, step: int): seq<nat>
    requires step < 0 && -1 <= lower
    decreases i - lower
  {
    if i > lower then [i] + Downwards(i + step, lower, step) else []
  }

  function SliceIndices(start: Option<JP.ISize>, end: Option<JP.ISize>, step: Option<JP.ISize>, len: nat): seq<nat> {
    var stride := Or(step, 1);
    if stride == 0 then [] else
    var (from, to) := SliceBounds(start, end, stride, len);
    if stride > 0 then Upwards(from, to, stride) else Downwards(from, to, stride)
  }

  /** `d` is a whole number of steps of length `m`. */
  ghost predicate WholeSteps(d: int, m: int)
    requires m > 0
  {
    0 <= d && d % m == 0
  }

  lemma {:induction false} UpwardsExact(i: nat, upper: int, step: int, x: nat)
    requires step > 0
    ensures x in Upwards(i, upper, step) <==> x < upper && WholeSteps(x - i, step)
    decreases upper - i
  {
    hide WholeSteps;
    StepsBack(x - i, step);
    if i < upper {
      UpwardsExact(i + step, upper, step, x);
      assert x - (i + step) == x - i - step;
    }
  }

  lemma {:induction false} UpwardsAscend(i: nat, upper: int, step: int)
    requires step > 0
    ensures forall a :: 0 <= a < |Upwards(i, upper, step)| ==> i <= Upwards(i, upper, step)[a]
    ensures forall a, b :: 0 <= a < b < |Upwards(i, upper, step)| ==> Upwards(i, upper, step)[a] < Upwards(i, upper, step)[b]
    decreases upper - i
  {
    if i < upper {
      var more := Upwards(i + step, upper, step);
      UpwardsAscend(i + step, upper, step);
      assert Upwards(i, upper, step) == [i] + more;
    }
  }

  lemma {:induction false} DownwardsExact(i: int, lower: int, step: int, x: nat)
    requires step < 0 && -1 <= lower
    ensures x in Downwards(i, lower, step) <==> lower < x && WholeSteps(i - x, -step)
    decreases i - lower
  {
    hide WholeSteps;
    StepsBack(i - x, -step);
    if i > lower {
      DownwardsExact(i + step, lower, step, x);
      assert i + step - x == i - x - -step;
    }
  }

  lemma {:induction false} DownwardsDescend(i: int, lower: int, step: int)
    requires step < 0 && -1 <= lower
    ensures forall a :: 0 <= a < |Downwards(i, lower, step)| ==> Downwards(i, lower, step)[a] <= i
    ensures forall a, b :: 0 <= a < b < |Downwards(i, lower, step)| ==> Downwards(i, lower, step)[a] > Downwards(i, lower, step)[b]
    decreases i - lower
  {
    if i > lower {
      var more := Downwards(i + step, lower, step);
      DownwardsDescend(i + step, lower, step);
      assert Downwards(i, lower, step) == [i] + more;
    }
  }

  lemma TimesBeyond(m: int, x: int)
    requires m > 0
    ensures x >= 1 ==> m * x >= m
    ensures x <= -1 ==> m * x <= -m
  {
    if x >= 1 { assert m * x == m + m * (x - 1); }
    if x <= -1 { assert m * x == -m + m * (x + 1); }
  }

  lemma RemainderIs(d: int, m: int, q: int, r: int)
    requires 0 <= r < m && d == m * q + r
    ensures d % m == r
  {
    var q', r' := d / m, d % m;
    assert m * q - m * q' == m * (q - q');
    TimesBeyond(m, q - q');
  }

  lemma StepsBack(d: int, m: int)
    requires 0 < m
    ensures WholeSteps(d, m) <==> d == 0 || WholeSteps(d - m, m)
    ensures WholeSteps(d, m) ==> 0 <= d
  {
    if d >= m {
      var q, r := (d - m) / m, (d - m) % m;
      assert m * (q + 1) == m * q + m;
      RemainderIs(d, m, q + 1, r);
    } else if 0 < d {
      RemainderIs(d, m, 0, d);
    }
  }

  /** The loop counter only ever leaves the array after the last selected position. */
  lemma {:induction false} SliceCounter(start: Option<JP.ISize>, end: Option<JP.ISize>, step: Option<JP.ISize>, len: nat, k: nat)
    requires k + 1 < |SliceIndices(start, end, step, len)|
    ensures var all := SliceIndices(start, end, step, len); all[k + 1] == all[k] + Or(step, 1)
  {
    var stride := Or(step, 1);
    var (from, to) := SliceBounds(start, end, stride, len);
    if stride > 0 { UpwardsStep(from, to, stride, k); } else { DownwardsStep(from, to, stride, k); }
  }

  lemma {:induction false} UpwardsStep(i: nat, upper: int, step: int, k: nat)
    requires step > 0 && k + 1 < |Upwards(i, upper, step)|
    ensures Upwards(i, upper, step)[k + 1] == Upwards(i, upper, step)[k] + step
    decreases k
  {
    if k > 0 { UpwardsStep(i + step, upper, step, k - 1); }
  }

  lemma {:induction false} DownwardsStep(i: int, lower: int, step: int, k: nat)
    requires step < 0 && -1 <= lower && k + 1 < |Downwards(i, lower, step)|
    ensures Downwards(i, lower, step)[k + 1] == Downwards(i, lower, step)[k] + step
    decreases k
  {
    if k > 0 { DownwardsStep(i + step, lower, step, k - 1); }
  }

  function Min(a: int, b: int): int {
    if a <= b then a else b
  }

  function Max(a: int, b: int): int {
    if a >= b then a else b
  }

  /** The lower and upper bound of section 2.3.4.2.2 of RFC 9535, defaults as in its table of default values. */
  ghost function RfcBounds(start: Option<JP.ISize>, end: Option<JP.ISize>, step: int, len: nat): (int, int) {
    var nStart := match start case Some(i) => (if i >= 0 then i else len + i) case None => if step >= 0 then 0 else len - 1;
    var nEnd := match end case Some(i) => (if i >= 0 then i else len + i) case None => if step >= 0 then len else -1;
    if step >= 0 then (Min(Max(nStart, 0), len), Min(Max(nEnd, 0), len))
    else (Min(Max(nEnd, -1), len - 1), Min(Max(nStart, -1), len - 1))
  }

  /**
   Section 2.3.4.2 of RFC 9535: a positive step selects upwards the positions from the lower bound
   to below the upper one that are whole steps from the lower, a negative step downwards those from
   the upper bound to above the lower that are whole steps from the upper, and zero selects none.
   Each position comes once.
   */
  lemma SliceSelects(start: Option<JP.ISize>, end: Option<JP.ISize>, step: Option<JP.ISize>, len: nat, x: nat)
    ensures var stride, all := match step { case Some(n) => n case None => 1 }, SliceIndices(start, end, step, len);
            var (lower, upper) := RfcBounds(start, end, stride, len);
            && (stride == 0 ==> all == [])
            && (stride > 0 ==> (x in all <==> lower <= x < upper && (x - lower) % stride == 0))
            && (stride > 0 ==> forall a, b :: 0 <= a < b < |all| ==> all[a] < all[b])
            && (stride < 0 ==> (x in all <==> lower < x <= upper && (upper - x) % -stride == 0))
            && (stride < 0 ==> forall a, b :: 0 <= a < b < |all| ==> all[a] > all[b])
            && (x in all ==> x < len)
  {
    var stride := Or(step, 1);
    if stride != 0 {
      var (from, to) := SliceBounds(start, end, stride, len);
      if stride > 0 {
        UpwardsExact(from, to, stride, x);
        UpwardsAscend(from, to, stride);
      } else {
        DownwardsExact(from, to, stride, x);
        DownwardsDescend(from, to, stride);
      }
    }
  }

  // ---------------------------------------------------------------- selecting

  function KidNodes(kids: seq<Kid>, path: Path): (r: seq<Node>)
    ensures |r| == |kids|
    ensures forall i :: 0 <= i < |r| ==> r[i] == Node(path + [kids[i].component], kids[i].value)
  {
    if kids == [] then [] else [Node(path + [kids[0].component], kids[0].value)] + KidNodes(kids[1..], path)
  }

  ghost predicate Within(indices: seq<nat>, n: nat) {
    forall i :: 0 <= i < |indices| ==> indices[i] < n
  }

  function Picked(kids: seq<Kid>, indices: seq<nat>): (r: seq<Kid>)
    requires Within(indices, |kids|)
    ensures |r| == |indices| && forall i :: 0 <= i < |r| ==> r[i] == kids[indices[i]]
  {
    if indices == [] then [] else [kids[indices[0]]] + Picked(kids, indices[1..])
  }

  function Passing(judge: Judge, f: JP.Filter, root: Json, kids: seq<Kid>): (r: seq<Kid>)
    ensures forall k :: k in r ==> k in kids
  {
    if kids == [] then [] else (if judge(f, kids[0].value, root) then [kids[0]] else []) + Passing(judge, f, root, kids[1..])
  }

  lemma SliceInRange(start: Option<JP.ISize>, end: Option<JP.ISize>, step: Option<JP.ISize>, len: nat)
    ensures Within(SliceIndices(start, end, step, len), len)
  {
    var all := SliceIndices(start, end, step, len);
    forall i | 0 <= i < |all| ensures all[i] < len { SliceSelects(start, end, step, len, all[i]); }
  }

  /** An index, counted from the end when negative, and out of range when before the start. */
  function IndexOf(index: int, len: nat): Option<nat> {
    var i := if index < 0 then len + index else index;
    if 0 <= i < len then Some(i) else None
  }

  function Select(judge: Judge, root: Json, v: Json, s: Selector, path: Path): seq<Node> {
    match s
    case Name(name) =>
      (match Step(v, Key(name)) case Some(child) => [Node(path + [Key(name)], child)] case None => [])
    case Index(index) =>
      if !v.Array? then [] else
      (match IndexOf(index, |v.items|) case Some(i) => [Node(path + [At(i)], v.items[i])] case None => [])
    case Wildcard => KidNodes(Kids(v), path)
    case Slice(start, end, step) =>
      if !v.Array? then [] else
      SliceInRange(start, end, step, |v.items|);
      KidNodes(Picked(Kids(v), SliceIndices(start, end, step, |v.items|)), path)
    case FilterBy(f) =>
      if v.Object? && path == [] then if judge(f, v, root) then [Node(path, v)] else []
      else KidNodes(Passing(judge, f, root, Kids(v)), path)
  }

  function SelectAll(judge: Judge, root: Json, v: Json, ss: seq<Selector>, path: Path): seq<Node> {
    if ss == [] then [] else Select(judge, root, v, ss[0], path) + SelectAll(judge, root, v, ss[1..], path)
  }

  function Recursive(judge: Judge, root: Json, v: Json, ss: seq<Selector>, path: Path): seq<Node>
    decreases v, 1
  {
    SelectAll(judge, root, v, ss, path) + RecursiveInto(judge, root, v, Kids(v), ss, path)
  }

  function RecursiveInto(judge: Judge, root: Json, ghost v: Json, kids: seq<Kid>, ss: seq<Selector>, path: Path): seq<Node>
    requires forall i :: 0 <= i < |kids| ==> kids[i].value < v
    decreases v, 0, |kids|
  {
    if kids == [] then [] else
    Recursive(judge, root, kids[0].value, ss, path + [kids[0].component]) + RecursiveInto(judge, root, v, kids[1..], ss, path)
  }

  function EvalSegment(judge: Judge, root: Json, segment: PathSegment, n: Node): seq<Node> {
    if segment.recursive then Recursive(judge, root, n.value, segment.selectors, n.path)
    else SelectAll(judge, root, n.value, segment.selectors, n.path)
  }

  function EvalNodes(judge: Judge, root: Json, segment: PathSegment, nodes: seq<Node>): seq<Node> {
    if nodes == [] then [] else EvalSegment(judge, root, segment, nodes[0]) + EvalNodes(judge, root, segment, nodes[1..])
  }

  function EvalSegments(judge: Judge, root: Json, segments: seq<PathSegment>, nodes: seq<Node>): seq<Node> {
    if segments == [] then nodes else EvalSegments(judge, root, segments[1..], EvalNodes(judge, root, segments[0], nodes))
  }

  function Query(judge: Judge, segments: seq<PathSegment>, doc: Json): seq<Node> {
    EvalSegments(judge, doc, segments, [Node([], doc)])
  }

  // ---------------------------------------------------------------- paths reach values

  ghost predicate Reaches(doc: Json, n: Node) {
    Follow(doc, n.path) == Some(n.value)
  }

  ghost predicate AllReach(doc: Json, nodes: seq<Node>) {
    forall n :: n in nodes ==> Reaches(doc, n)
  }

  lemma KidReaches(doc: Json, v: Json, path: Path, k: Kid)
    requires WellFormed(v) && Reaches(doc, Node(path, v)) && k in Kids(v)
    ensures Reaches(doc, Node(path + [k.component], k.value)) && WellFormed(k.value)
  {
    var i :| 0 <= i < |Kids(v)| && Kids(v)[i] == k;
    KidSteps(v, i);
    FollowOne(doc, path, k.component);
  }

  lemma KidNodesReach(doc: Json, v: Json, path: Path, kids: seq<Kid>)
    requires WellFormed(v) && Reaches(doc, Node(path, v)) && forall k :: k in kids ==> k in Kids(v)
    ensures AllReach(doc, KidNodes(kids, path))
  {
    var nodes := KidNodes(kids, path);
    forall n | n in nodes ensures Reaches(doc, n) {
      var i :| 0 <= i < |nodes| && nodes[i] == n;
      KidReaches(doc, v, path, kids[i]);
    }
  }

  lemma SelectReaches(judge: Judge, doc: Json, v: Json, s: Selector, path: Path)
    requires WellFormed(v) && Reaches(doc, Node(path, v))
    ensures AllReach(doc, Select(judge, doc, v, s, path))
  {
    match s
    case Name(name) => FollowOne(doc, path, Key(name));
    case Index(index) => if v.Array? && IndexOf(index, |v.items|).Some? { FollowOne(doc, path, At(IndexOf(index, |v.items|).value)); }
    case Wildcard => KidNodesReach(doc, v, path, Kids(v));
    case Slice(start, end, step) =>
      if v.Array? {
        SliceInRange(start, end, step, |v.items|);
        KidNodesReach(doc, v, path, Picked(Kids(v), SliceIndices(start, end, step, |v.items|)));
      }
    case FilterBy(f) => KidNodesReach(doc, v, path, Passing(judge, f, doc, Kids(v)));
  }

  lemma {:induction false} SelectAllReaches(judge: Judge, doc: Json, v: Json, ss: seq<Selector>, path: Path)
    requires WellFormed(v) && Reaches(doc, Node(path, v))
    ensures AllReach(doc, SelectAll(judge, doc, v, ss, path))
  {
    if ss != [] {
      SelectReaches(judge, doc, v, ss[0], path);
      SelectAllReaches(judge, doc, v, ss[1..], path);
    }
  }

  // ---------------------------------------------------------------- preorder

  /** A node and everything below it, parents before children, children in order. */
  ghost function Descendants(v: Json, path: Path): (r: seq<Node>)
    ensures r != [] && r[0] == Node(path, v)
    decreases v, 1
  {
    [Node(path, v)] + DescendantsOf(v, Kids(v), path)
  }

  ghost function DescendantsOf(v: Json, kids: seq<Kid>, path: Path): seq<Node>
    requires forall i :: 0 <= i < |kids| ==> kids[i].value < v
    decreases v, 0, |kids|
  {
    if kids == [] then [] else Descendants(kids[0].value, path + [kids[0].component]) + DescendantsOf(v, kids[1..], path)
  }

  ghost function SelectEach(judge: Judge, root: Json, ss: seq<Selector>, nodes: seq<Node>): seq<Node> {
    if nodes == [] then [] else SelectAll(judge, root, nodes[0].value, ss, nodes[0].path) + SelectEach(judge, root, ss, nodes[1..])
  }

  lemma {:induction false} SelectEachAppend(judge: Judge, root: Json, ss: seq<Selector>, a: seq<Node>, b: seq<Node>)
    ensures SelectEach(judge, root, ss, a + b) == SelectEach(judge, root, ss, a) + SelectEach(judge, root, ss, b)
  {
    hide SelectAll;
    if a == [] {
      assert a + b == b;
    } else {
      SelectEachAppend(judge, root, ss, a[1..], b);
      assert (a + b)[0] == a[0] && (a + b)[1..] == a[1..] + b;
      ConcatAssoc(SelectAll(judge, root, a[0].value, ss, a[0].path), SelectEach(judge, root, ss, a[1..]), SelectEach(judge, root, ss, b));
    }
  }

  /** A recursive segment yields the selector results of every descendant-or-self node, in preorder. */
  lemma {:induction false} RecursiveIsPreorder(judge: Judge, root: Json, v: Json, ss: seq<Selector>, path: Path)
    ensures Recursive(judge, root, v, ss, path) == SelectEach(judge, root, ss, Descendants(v, path))
    decreases v, 1
  {
    RecursiveIntoIsPreorder(judge, root, v, Kids(v), ss, path);
    SelectEachAppend(judge, root, ss, [Node(path, v)], DescendantsOf(v, Kids(v), path));
    SelectEachOne(judge, root, ss, Node(path, v));
  }

  lemma SelectEachOne(judge: Judge, root: Json, ss: seq<Selector>, n: Node)
    ensures SelectEach(judge, root, ss, [n]) == SelectAll(judge, root, n.value, ss, n.path)
  {
    assert [n][1..] == [];
    assert SelectAll(judge, root, n.value, ss, n.path) + [] == SelectAll(judge, root, n.value, ss, n.path);
  }

  lemma {:induction false} RecursiveIntoIsPreorder(judge: Judge, root: Json, v: Json, kids: seq<Kid>, ss: seq<Selector>, path: Path)
    requires forall i :: 0 <= i < |kids| ==> kids[i].value < v
    ensures RecursiveInto(judge, root, v, kids, ss, path) == SelectEach(judge, root, ss, DescendantsOf(v, kids, path))
    decreases v, 0, |kids|
  {
    if kids != [] {
      var p := path + [kids[0].component];
      RecursiveIsPreorder(judge, root, kids[0].value, ss, p);
      RecursiveIntoIsPreorder(judge, root, v, kids[1..], ss, path);
      SelectEachAppend(judge, root, ss, Descendants(kids[0].value, p), DescendantsOf(v, kids[1..], path));
    }
  }

  /** Below the root every path that leads anywhere is there exactly once. */
  lemma {:induction false} DescendantsReach(doc: Json, v: Json, path: Path)
    requires WellFormed(v) && Reaches(doc, Node(path, v))
    ensures forall n :: n in Descendants(v, path) ==> Reaches(doc, n) && WellFormed(n.value) && path <= n.path
    decreases v, 1
  {
    DescendantsOfReach(doc, v, Kids(v), path);
  }

  lemma {:induction false} DescendantsOfReach(doc: Json, v: Json, kids: seq<Kid>, path: Path)
    requires WellFormed(v) && Reaches(doc, Node(path, v))
    requires forall i :: 0 <= i < |kids| ==> kids[i] in Kids(v) && kids[i].value < v
    ensures forall n :: n in DescendantsOf(v, kids, path) ==>
              Reaches(doc, n) && WellFormed(n.value) && exists i :: 0 <= i < |kids| && path + [kids[i].component] <= n.path
    decreases v, 0, |kids|
  {
    if kids != [] {
      KidReaches(doc, v, path, kids[0]);
      DescendantsReach(doc, kids[0].value, path + [kids[0].component]);
      DescendantsOfReach(doc, v, kids[1..], path);
      forall n | n in DescendantsOf(v, kids, path)
        ensures Reaches(doc, n) && WellFormed(n.value) && exists i :: 0 <= i < |kids| && path + [kids[i].component] <= n.path
      {
        if n in DescendantsOf(v, kids[1..], path) {
          var i :| 0 <= i < |kids[1..]| && path + [kids[1..][i].component] <= n.path;
          assert kids[1..][i] == kids[i + 1];
        } else {
          assert n in Descendants(kids[0].value, path + [kids[0].component]);
          assert path + [kids[0].component] <= n.path;
        }
      }
    }
  }

  lemma {:induction false} DescendantsComplete(v: Json, path: Path, p: Path)
    requires Follow(v, p).Some?
    ensures Node(path + p, Follow(v, p).value) in Descendants(v, path)
    decreases p
  {
    hide Lookup, Kids, DescendantsOf;
    if p == [] {
      assert path + p == path;
    } else {
      var w := Step(v, p[0]).value;
      StepIsKid(v, p[0]);
      DescendantsComplete(w, path + [p[0]], p[1..]);
      BelowChild(v, path, Kid(p[0], w), Node(path + [p[0]] + p[1..], Follow(w, p[1..]).value));
      assert path + [p[0]] + p[1..] == path + p;
    }
  }

  lemma BelowChild(v: Json, path: Path, k: Kid, n: Node)
    requires k in Kids(v) && n in Descendants(k.value, path + [k.component])
    ensures n in Descendants(v, path)
  {
    var i :| 0 <= i < |Kids(v)| && Kids(v)[i] == k;
    BelowKid(v, Kids(v), path, i, n);
  }

  lemma {:induction false} BelowKid(v: Json, kids: seq<Kid>, path: Path, i: nat, n: Node)
    requires i < |kids| && forall i :: 0 <= i < |kids| ==> kids[i].value < v
    requires n in Descendants(kids[i].value, path + [kids[i].component])
    ensures n in DescendantsOf(v, kids, path)
    decreases i
  {
    if i > 0 { BelowKid(v, kids[1..], path, i - 1, n); }
  }

  ghost predicate DistinctPaths(nodes: seq<Node>) {
    forall i, j :: 0 <= i < j < |nodes| ==> nodes[i].path != nodes[j].path
  }

  lemma DistinctAppend(a: seq<Node>, b: seq<Node>)
    requires DistinctPaths(a) && DistinctPaths(b) && forall m, n :: m in a && n in b ==> m.path != n.path
    ensures DistinctPaths(a + b)
  {
    forall i, j | 0 <= i < j < |a + b| ensures (a + b)[i].path != (a + b)[j].path {
      if i < |a| <= j { assert a[i] in a && b[j - |a|] in b; }
    }
  }

  lemma {:induction false} DescendantsDistinct(doc: Json, v: Json, path: Path)
    requires WellFormed(v) && Reaches(doc, Node(path, v))
    ensures DistinctPaths(Descendants(v, path))
    decreases v, 1
  {
    forall i, j | 0 <= i < j < |Kids(v)| ensures Kids(v)[i].component != Kids(v)[j].component { KidsDiffer(v, i, j); }
    DescendantsOfDistinct(doc, v, Kids(v), path);
    DescendantsOfReach(doc, v, Kids(v), path);
    DistinctAppend([Node(path, v)], DescendantsOf(v, Kids(v), path));
  }

  lemma {:induction false} DescendantsOfDistinct(doc: Json, v: Json, kids: seq<Kid>, path: Path)
    requires WellFormed(v) && Reaches(doc, Node(path, v))
    requires forall i :: 0 <= i < |kids| ==> kids[i] in Kids(v) && kids[i].value < v
    requires forall i, j :: 0 <= i < j < |kids| ==> kids[i].component != kids[j].component
    ensures DistinctPaths(DescendantsOf(v, kids, path))
    decreases v, 0, |kids|
  {
    hide Follow, WellFormed, Kids, Reaches;
    if kids != [] {
      var p := path + [kids[0].component];
      KidReaches(doc, v, path, kids[0]);
      DescendantsDistinct(doc, kids[0].value, p);
      DescendantsOfDistinct(doc, v, kids[1..], path);
      DescendantsReach(doc, kids[0].value, p);
      DescendantsOfReach(doc, v, kids[1..], path);
      var a, b := Descendants(kids[0].value, p), DescendantsOf(v, kids[1..], path);
      forall m, n | m in a && n in b ensures m.path != n.path {
        var i :| 0 <= i < |kids[1..]| && path + [kids[1..][i].component] <= n.path;
        assert m.path[|path|] == kids[0].component && n.path[|path|] == kids[i + 1].component;
      }
      DistinctAppend(a, b);
    }
  }

  /** The descendants of a document are the values its paths lead to, each path once. */
  lemma DescendantsExact(doc: Json, p: Path, w: Json)
    requires WellFormed(doc)
    ensures Node(p, w) in Descendants(doc, []) <==> Follow(doc, p) == Some(w)
    ensures DistinctPaths(Descendants(doc, []))
  {
    DescendantsReach(doc, doc, []);
    DescendantsDistinct(doc, doc, []);
    if Follow(doc, p) == Some(w) {
      DescendantsComplete(doc, [], p);
      assert [] + p == p;
    }
  }

  lemma {:induction false} SelectEachReaches(judge: Judge, doc: Json, ss: seq<Selector>, nodes: seq<Node>)
    requires forall n :: n in nodes ==> Reaches(doc, n) && WellFormed(n.value)
    ensures AllReach(doc, SelectEach(judge, doc, ss, nodes))
  {
    if nodes != [] {
      assert nodes[0] in nodes;
      SelectAllReaches(judge, doc, nodes[0].value, ss, nodes[0].path);
      SelectEachReaches(judge, doc, ss, nodes[1..]);
    }
  }

  lemma {:induction false} EvalNodesReach(judge: Judge, doc: Json, segment: PathSegment, nodes: seq<Node>)
    requires WellFormed(doc) && AllReach(doc, nodes)
    ensures AllReach(doc, EvalNodes(judge, doc, segment, nodes))
  {
    if nodes != [] {
      var n := nodes[0];
      assert n in nodes;
      FollowWellFormed(doc, n.path);
      if segment.recursive {
        RecursiveIsPreorder(judge, doc, n.value, segment.selectors, n.path);
        DescendantsReach(doc, n.value, n.path);
        SelectEachReaches(judge, doc, segment.selectors, Descendants(n.value, n.path));
      } else {
        SelectAllReaches(judge, doc, n.value, segment.selectors, n.path);
      }
      EvalNodesReach(judge, doc, segment, nodes[1..]);
    }
  }

  lemma {:induction false} SegmentsReach(judge: Judge, doc: Json, segments: seq<PathSegment>, nodes: seq<Node>)
    requires WellFormed(doc) && AllReach(doc, nodes)
    ensures AllReach(doc, EvalSegments(judge, doc, segments, nodes))
    decreases segments
  {
    if segments != [] {
      EvalNodesReach(judge, doc, segments[0], nodes);
      SegmentsReach(judge, doc, segments[1..], EvalNodes(judge, doc, segments[0], nodes));
    }
  }

  /** Every path a query returns leads from the document to the value returned with it. */
  lemma QueryReaches(judge: Judge, segments: seq<PathSegment>, doc: Json)
    requires WellFormed(doc)
    ensures AllReach(doc, Query(judge, segments, doc))
  {
    SegmentsReach(judge, doc, segments, [Node([], doc)]);
  }

  // ---------------------------------------------------------------- the evaluator's loops

  ghost function Values(nodes: seq<Node>): (r: seq<Json>)
    ensures |r| == |nodes|
  {
    seq(|nodes|, (i: nat) requires i < |nodes| => nodes[i].value)
  }

  ghost function Paths(nodes: seq<Node>): (r: seq<Path>)
    ensures |r| == |nodes|
  {
    seq(|nodes|, (i: nat) requires i < |nodes| => nodes[i].path)
  }

  /** The two lists that evaluation pushes onto. */
  class Results {
    var values: seq<Json>
    var paths: seq<Path>

    constructor (values: seq<Json>, paths: seq<Path>)
      ensures this.values == values && this.paths == paths
    {
      this.values, this.paths := values, paths;
    }

    ghost predicate Holds(nodes: seq<Node>)
      reads this
    {
      values == Values(nodes) && paths == Paths(nodes)
    }

    method Push(path: Path, value: Json, ghost nodes: seq<Node>)
      requires Holds(nodes)
      modifies this
      ensures Holds(nodes + [Node(path, value)])
    {
      values := values + [value];
      paths := paths + [path];
    }
  }

  method PushKids(kids: seq<Kid>, path: Path, out: Results, ghost nodes: seq<Node>)
    requires out.Holds(nodes)
    modifies out
    ensures out.Holds(nodes + KidNodes(kids, path))
  {
    ghost var done := nodes;
    var i := 0;
    assert kids[0..] == kids;
    while i < |kids|
      invariant 0 <= i <= |kids| && out.Holds(done) && done + KidNodes(kids[i..], path) == nodes + KidNodes(kids, path)
    {
      assert kids[i..][0] == kids[i] && kids[i..][1..] == kids[i + 1..];
      var newPath := path + [kids[i].component];
      ConcatAssoc(done, [Node(newPath, kids[i].value)], KidNodes(kids[i + 1..], path));
      out.Push(newPath, kids[i].value, done);
      done := done + [Node(newPath, kids[i].value)];
      i := i + 1;
    }
    assert kids[i..] == [];
    assert done + [] == done;
  }

  method PushSlice(items: seq<Json>, start: Option<JP.ISize>, end: Option<JP.ISize>, step: Option<JP.ISize>, path: Path, out: Results, ghost nodes: seq<Node>)
    requires out.Holds(nodes)
    requires Within(SliceIndices(start, end, step, |items|), |items|)
    modifies out
    ensures out.Holds(nodes + KidNodes(Picked(Kids(Array(items)), SliceIndices(start, end, step, |items|)), path))
  {
    var stepVal := Or(step, 1);
    if stepVal == 0 {
      assert nodes + [] == nodes;
      return;
    }
    var bounds := SliceBounds(start, end, stepVal, |items|);
    if stepVal > 0 {
      PushUpwards(items, bounds.0, bounds.1, stepVal, path, out, nodes);
    } else {
      PushDownwards(items, bounds.0, bounds.1, stepVal, path, out, nodes);
    }
  }

  method PushUpwards(items: seq<Json>, from: nat, to: int, step: int, path: Path, out: Results, ghost nodes: seq<Node>)
    requires out.Holds(nodes) && step > 0 && Within(Upwards(from, to, step), |items|)
    modifies out
    ensures out.Holds(nodes + KidNodes(Picked(Kids(Array(items)), Upwards(from, to, step)), path))
  {
    hide Within, KidNodes, Picked;
    ghost var kids, done, left := Kids(Array(items)), nodes, Upwards(from, to, step);
    var idx: nat := from;
    while idx < to
      invariant out.Holds(done) && left == Upwards(idx, to, step) && Within(left, |items|)
      invariant done + KidNodes(Picked(kids, left), path) == nodes + KidNodes(Picked(kids, Upwards(from, to, step)), path)
      decreases if idx < to then to - idx else 0
    {
      left := Upwards(idx + step, to, step);
      PickedStep(kids, idx, left, path, done);
      out.Push(path + [At(idx)], items[idx], done);
      done := done + [Node(path + [At(idx)], items[idx])];
      idx := idx + step;
    }
    NonePicked(kids, left, path, done);
  }

  method PushDownwards(items: seq<Json>, from: int, to: int, step: int, path: Path, out: Results, ghost nodes: seq<Node>)
    requires out.Holds(nodes) && step < 0 && -1 <= to && Within(Downwards(from, to, step), |items|)
    modifies out
    ensures out.Holds(nodes + KidNodes(Picked(Kids(Array(items)), Downwards(from, to, step)), path))
  {
    hide Within, KidNodes, Picked;
    ghost var kids, done, left := Kids(Array(items)), nodes, Downwards(from, to, step);
    var idx := from;
    while idx > to
      invariant out.Holds(done) && left == Downwards(idx, to, step) && Within(left, |items|)
      invariant done + KidNodes(Picked(kids, left), path) == nodes + KidNodes(Picked(kids, Downwards(from, to, step)), path)
      decreases idx - to
    {
      left := Downwards(idx + step, to, step);
      PickedStep(kids, idx, left, path, done);
      out.Push(path + [At(idx)], items[idx], done);
      done := done + [Node(path + [At(idx)], items[idx])];
      idx := idx + step;
    }
    NonePicked(kids, left, path, done);
  }

  lemma PickedStep(kids: seq<Kid>, i: nat, more: seq<nat>, path: Path, done: seq<Node>)
    requires Within([i] + more, |kids|)
    ensures i < |kids| && Within(more, |kids|)
    ensures done + KidNodes(Picked(kids, [i] + more), path) == done + [Node(path + [kids[i].component], kids[i].value)] + KidNodes(Picked(kids, more), path)
  {
    var all := [i] + more;
    assert all[0] == i;
    assert forall j :: 0 <= j < |more| ==> more[j] == all[j + 1];
    assert all[1..] == more;
    var picked := Picked(kids, all);
    assert picked[0] == kids[i] && picked[1..] == Picked(kids, more);
    ConcatAssoc(done, [Node(path + [kids[i].component], kids[i].value)], KidNodes(Picked(kids, more), path));
  }

  lemma NonePicked(kids: seq<Kid>, indices: seq<nat>, path: Path, done: seq<Node>)
    requires indices == []
    ensures Within(indices, |kids|) && done + KidNodes(Picked(kids, indices), path) == done
  {
  }

  method EvalSelector(judge: Judge, v: Json, s: Selector, path: Path, out: Results, root: Json, ghost nodes: seq<Node>)
    requires out.Holds(nodes)
    modifies out
    ensures out.Holds(nodes + Select(judge, root, v, s, path))
  {
    hide Lookup, KidNodes;
    assert nodes + [] == nodes;
    match s {
      case Name(name) =>
        var child := Step(v, Key(name));
        if child.Some? { out.Push(path + [Key(name)], child.value, nodes); }
      case Index(index) =>
        if v.Array? {
          var idx := IndexOf(index, |v.items|);
          if idx.Some? { out.Push(path + [At(idx.value)], v.items[idx.value], nodes); }
        }
      case Wildcard => PushKids(Kids(v), path, out, nodes);
      case Slice(start, end, step) =>
        if v.Array? {
          SliceInRange(start, end, step, |v.items|);
          PushSlice(v.items, start, end, step, path, out, nodes);
        }
      case FilterBy(f) =>
        if v.Object? && path == [] {
          if judge(f, v, root) { out.Push(path, v, nodes); }
        } else {
          PushPassing(judge, f, root, Kids(v), path, out, nodes);
        }
    }
  }

  method PushPassing(judge: Judge, f: JP.Filter, root: Json, kids: seq<Kid>, path: Path, out: Results, ghost nodes: seq<Node>)
    requires out.Holds(nodes)
    modifies out
    ensures out.Holds(nodes + KidNodes(Passing(judge, f, root, kids), path))
  {
    ghost var done := nodes;
    var i := 0;
    assert kids[0..] == kids;
    while i < |kids|
      invariant 0 <= i <= |kids| && out.Holds(done)
      invariant done + KidNodes(Passing(judge, f, root, kids[i..]), path) == nodes + KidNodes(Passing(judge, f, root, kids), path)
    {
      assert kids[i..][0] == kids[i] && kids[i..][1..] == kids[i + 1..];
      ghost var more := Passing(judge, f, root, kids[i + 1..]);
      if judge(f, kids[i].value, root) {
        var newPath := path + [kids[i].component];
        assert ([kids[i]] + more)[1..] == more;
        ConcatAssoc(done, [Node(newPath, kids[i].value)], KidNodes(more, path));
        out.Push(newPath, kids[i].value, done);
        done := done + [Node(newPath, kids[i].value)];
      } else {
        assert [] + more == more;
      }
      i := i + 1;
    }
    assert kids[i..] == [];
    assert done + [] == done;
  }

  method EvalSelectors(judge: Judge, v: Json, ss: seq<Selector>, path: Path, out: Results, root: Json, ghost nodes: seq<Node>)
    requires out.Holds(nodes)
    modifies out
    ensures out.Holds(nodes + SelectAll(judge, root, v, ss, path))
  {
    hide Select;
    ghost var done := nodes;
    var i := 0;
    assert ss[0..] == ss;
    while i < |ss|
      invariant 0 <= i <= |ss| && out.Holds(done)
      invariant done + SelectAll(judge, root, v, ss[i..], path) == nodes + SelectAll(judge, root, v, ss, path)
    {
      assert ss[i..][0] == ss[i] && ss[i..][1..] == ss[i + 1..];
      ConcatAssoc(done, Select(judge, root, v, ss[i], path), SelectAll(judge, root, v, ss[i + 1..], path));
      EvalSelector(judge, v, ss[i], path, out, root, done);
      done := done + Select(judge, root, v, ss[i], path);
      i := i + 1;
    }
    assert ss[i..] == [];
    assert done + [] == done;
  }

  method EvalRecursive(judge: Judge, v: Json, ss: seq<Selector>, path: Path, out: Results, root: Json, ghost nodes: seq<Node>)
    requires out.Holds(nodes)
    modifies out
    ensures out.Holds(nodes + Recursive(judge, root, v, ss, path))
    decreases v
  {
    hide SelectAll, Kids;
    EvalSelectors(judge, v, ss, path, out, root, nodes);
    ghost var done := nodes + SelectAll(judge, root, v, ss, path);
    var kids := Kids(v);
    ConcatAssoc(nodes, SelectAll(judge, root, v, ss, path), RecursiveInto(judge, root, v, kids, ss, path));
    var i := 0;
    assert kids[0..] == kids;
    while i < |kids|
      invariant 0 <= i <= |kids| && out.Holds(done)
      invariant done + RecursiveInto(judge, root, v, kids[i..], ss, path) == nodes + Recursive(judge, root, v, ss, path)
    {
      assert kids[i..][0] == kids[i] && kids[i..][1..] == kids[i + 1..];
      var newPath := path + [kids[i].component];
      ghost var below := Recursive(judge, root, kids[i].value, ss, newPath);
      ConcatAssoc(done, below, RecursiveInto(judge, root, v, kids[i + 1..], ss, path));
      EvalRecursive(judge, kids[i].value, ss, newPath, out, root, done);
      done := done + below;
      i := i + 1;
    }
    assert kids[i..] == [];
    assert done + [] == done;
  }

  /** As many paths as values, and following each path from the document reaches the value beside it. */
  method EvalQuery(judge: Judge, segments: seq<PathSegment>, doc: Json) returns (values: seq<Json>, paths: seq<Path>)
    requires WellFormed(doc)
    ensures values == Values(Query(judge, segments, doc)) && paths == Paths(Query(judge, segments, doc))
    ensures |paths| == |values| && forall i :: 0 <= i < |paths| ==> Follow(doc, paths[i]) == Some(values[i])
  {
    hide EvalSegment;
    values, paths := [doc], [[]];
    ghost var nodes := [Node([], doc)];
    var i := 0;
    assert segments[0..] == segments;
    while i < |segments|
      invariant 0 <= i <= |segments| && values == Values(nodes) && paths == Paths(nodes)
      invariant EvalSegments(judge, doc, segments[i..], nodes) == Query(judge, segments, doc)
    {
      assert segments[i..][0] == segments[i] && segments[i..][1..] == segments[i + 1..];
      var segment := segments[i];
      var new_ := new Results([], []);
      ghost var done := [];
      var j := 0;
      assert nodes[0..] == nodes;
      while j < |values|
        invariant 0 <= j <= |values| && new_.Holds(done) && done + EvalNodes(judge, doc, segment, nodes[j..]) == EvalNodes(judge, doc, segment, nodes)
      {
        assert nodes[j..][0] == nodes[j] && nodes[j..][1..] == nodes[j + 1..];
        ConcatAssoc(done, EvalSegment(judge, doc, segment, nodes[j]), EvalNodes(judge, doc, segment, nodes[j + 1..]));
        EvalOne(judge, segment, values[j], paths[j], new_, doc, done);
        done := done + EvalSegment(judge, doc, segment, nodes[j]);
        j := j + 1;
      }
      assert nodes[j..] == [];
      assert done + [] == done;
      values, paths := new_.values, new_.paths;
      nodes := done;
      i := i + 1;
    }
    assert segments[i..] == [];
    QueryReaches(judge, segments, doc);
    assert forall k :: 0 <= k < |nodes| ==> nodes[k] in nodes && Reaches(doc, nodes[k]);
  }

  method EvalOne(judge: Judge, segment: PathSegment, v: Json, path: Path, out: Results, root: Json, ghost nodes: seq<Node>)
    requires out.Holds(nodes)
    modifies out
    ensures out.Holds(nodes + EvalSegment(judge, root, segment, Node(path, v)))
  {
    if segment.recursive {
      EvalRecursive(judge, v, segment.selectors, path, out, root, nodes);
    } else {
      EvalSelectors(judge, v, segment.selectors, path, out, root, nodes);
    }
  }
}
