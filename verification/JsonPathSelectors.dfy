/** What each selector selects, told of the document itself: which children, in which order, under which paths. */
module JsonPathSelectors {
  import opened Common
  import opened Json
  import JP = JsonPath
  import opened JsonPathEval

  // ---------------------------------------------------------------- children

  ghost function ChildCount(v: Json): nat {
    match v
    case Array(items) => |items|
    case Object(members) => |members|
    case _ => 0
  }

  /** The node of child `i` of what `path` leads to. */
  ghost function ChildNode(v: Json, path: Path, i: nat): Node
    requires i < ChildCount(v)
  {
    if v.Array? then Node(path + [At(i)], v.items[i]) else Node(path + [Key(v.members[i].key)], v.members[i].value)
  }

  /** `r` is the children at the positions `places`. */
  ghost predicate Chosen(v: Json, path: Path, places: seq<nat>, r: seq<Node>) {
    |r| == |places| && forall k :: 0 <= k < |r| ==> places[k] < ChildCount(v) && r[k] == ChildNode(v, path, places[k])
  }

  ghost predicate Ascending(places: seq<nat>) {
    forall a, b :: 0 <= a < b < |places| ==> places[a] < places[b]
  }

  ghost predicate Descending(places: seq<nat>) {
    forall a, b :: 0 <= a < b < |places| ==> places[a] > places[b]
  }

  ghost function Selected(judge: Judge, root: Json, s: Selector, path: Path, v: Json): seq<Node> {
    EvalSegment(judge, root, JP.PathSegment([s], false), Node(path, v))
  }

  lemma SelectedIs(judge: Judge, root: Json, s: Selector, path: Path, v: Json)
    ensures Selected(judge, root, s, path, v) == Select(judge, root, v, s, path)
  {
    var ss := [s];
    hide Select;
    assert ss[1..] == [];
    assert SelectAll(judge, root, v, ss, path) == Select(judge, root, v, s, path) + SelectAll(judge, root, v, [], path);
    assert Select(judge, root, v, s, path) + [] == Select(judge, root, v, s, path);
  }

  lemma KidIsChild(v: Json, path: Path, i: nat)
    requires i < |Kids(v)|
    ensures i < ChildCount(v) && Node(path + [Kids(v)[i].component], Kids(v)[i].value) == ChildNode(v, path, i)
  {
  }

  lemma KidCount(v: Json)
    ensures |Kids(v)| == ChildCount(v)
  {
  }

  // ---------------------------------------------------------------- selectors

  /** A name selects the member of that name, of objects only. */
  lemma NameSelects(judge: Judge, root: Json, name: string, path: Path, v: Json)
    requires WellFormed(v)
    ensures var r := Selected(judge, root, JP.Name(name), path, v);
            && (v.Object? ==> forall i :: 0 <= i < |v.members| && v.members[i].key == name ==> r == [ChildNode(v, path, i)])
            && ((v.Object? ==> forall i :: 0 <= i < |v.members| ==> v.members[i].key != name) ==> r == [])
  {
    SelectedIs(judge, root, JP.Name(name), path, v);
    if v.Object? {
      forall i | 0 <= i < |v.members| && v.members[i].key == name ensures Lookup(v.members, name) == Some(v.members[i].value) {
        LookupAt(v.members, i);
      }
    }
  }

  /** An index selects the element at it, or that many from the end when negative, and nothing when there is none. */
  lemma IndexSelects(judge: Judge, root: Json, n: JP.ISize, path: Path, v: Json)
    ensures var r := Selected(judge, root, JP.Index(n), path, v);
            && |r| <= 1
            && (forall x: nat, w :: Node(path + [At(x)], w) in r <==> v.Array? && x < |v.items| && (x == n || x - |v.items| == n) && w == v.items[x])
            && (forall node :: node in r ==> exists x: nat :: node.path == path + [At(x)])
  {
    SelectedIs(judge, root, JP.Index(n), path, v);
    var r := Selected(judge, root, JP.Index(n), path, v);
    forall x: nat, w
      ensures Node(path + [At(x)], w) in r <==> v.Array? && x < |v.items| && (x == n || x - |v.items| == n) && w == v.items[x]
    {
      if r != [] { assert (path + [At(x)])[|path|] == At(x) && r[0].path[|path|].At?; }
    }
  }

  /** A wildcard selects every child in order. */
  lemma WildcardSelects(judge: Judge, root: Json, path: Path, v: Json)
    ensures Chosen(v, path, seq(ChildCount(v), (i: nat) => i), Selected(judge, root, JP.Wildcard, path, v))
  {
    SelectedIs(judge, root, JP.Wildcard, path, v);
    forall i | 0 <= i < |Kids(v)| ensures KidNodes(Kids(v), path)[i] == ChildNode(v, path, i) { KidIsChild(v, path, i); }
  }

  lemma SliceIsRfc(start: Option<JP.ISize>, end: Option<JP.ISize>, step: Option<JP.ISize>, len: nat)
    ensures RfcSlice(start, end, step, len, SliceIndices(start, end, step, len))
  {
    hide SliceIndices, RfcBounds;
    forall x: nat ensures x in SliceIndices(start, end, step, len) <==> InRfcSlice(start, end, step, len, x) { SliceSelects(start, end, step, len, x); }
    SliceSelects(start, end, step, len, 0);
  }

  /** A slice selects the elements section 2.3.4.2 of RFC 9535 says, in its order. */
  lemma SliceSelectsElements(judge: Judge, root: Json, start: Option<JP.ISize>, end: Option<JP.ISize>, step: Option<JP.ISize>, path: Path, v: Json)
    returns (places: seq<nat>)
    ensures Chosen(v, path, places, Selected(judge, root, JP.Slice(start, end, step), path, v))
    ensures !v.Array? ==> places == []
    ensures v.Array? ==> RfcSlice(start, end, step, |v.items|, places)
  {
    SelectedIs(judge, root, JP.Slice(start, end, step), path, v);
    places := [];
    if v.Array? {
      var len := |v.items|;
      hide SliceIndices, RfcSlice;
      places := SliceIndices(start, end, step, len);
      SliceInRange(start, end, step, len);
      SliceIsRfc(start, end, step, len);
      var kids := Picked(Kids(v), places);
      forall k | 0 <= k < |places| ensures KidNodes(kids, path)[k] == ChildNode(v, path, places[k]) { KidIsChild(v, path, places[k]); }
    }
  }

  ghost predicate InRfcSlice(start: Option<JP.ISize>, end: Option<JP.ISize>, step: Option<JP.ISize>, len: nat, x: nat) {
    var stride := match step case Some(n) => n case None => 1;
    var (lower, upper) := RfcBounds(start, end, stride, len);
    if stride == 0 then false
    else if stride > 0 then lower <= x < upper && (x - lower) % stride == 0
    else lower < x <= upper && (upper - x) % -stride == 0
  }

  ghost predicate RfcSlice(start: Option<JP.ISize>, end: Option<JP.ISize>, step: Option<JP.ISize>, len: nat, places: seq<nat>) {
    && (forall x: nat :: x in places <==> InRfcSlice(start, end, step, len, x))
    && (if step.Some? && step.value < 0 then Descending(places) else Ascending(places))
  }

  /**
   A filter selects exactly the children it holds of, in order; but at the root of a document that is
   an object, the document, if it holds of that.
   */
  lemma FilterSelects(judge: Judge, root: Json, f: JP.Filter, path: Path, v: Json) returns (places: seq<nat>)
    ensures var r := Selected(judge, root, JP.FilterBy(f), path, v);
            if v.Object? && path == [] then r == if judge(f, v, root) then [Node([], v)] else []
            else Chosen(v, path, places, r) && Ascending(places)
                 && forall i: nat :: i in places <==> i < ChildCount(v) && judge(f, ChildNode(v, path, i).value, root)
  {
    SelectedIs(judge, root, JP.FilterBy(f), path, v);
    places := [];
    hide Chosen, ChildNode, Passing, KidNodes;
    if !(v.Object? && path == []) { places := PassingNodes(judge, root, f, path, v); }
  }

  lemma PassingNodes(judge: Judge, root: Json, f: JP.Filter, path: Path, v: Json) returns (places: seq<nat>)
    ensures Chosen(v, path, places, KidNodes(Passing(judge, f, root, Kids(v)), path)) && Ascending(places)
    ensures forall i: nat :: i in places <==> i < ChildCount(v) && judge(f, ChildNode(v, path, i).value, root)
  {
    var kids := Kids(v);
    places := PassingPlaces(judge, f, root, kids, 0);
    assert kids[0..] == kids;
    hide Passing, KidNodes, Kids, Ascending, ChildNode;
    KidCount(v);
    forall i: nat | i < |kids| ensures Node(path + [kids[i].component], kids[i].value) == ChildNode(v, path, i) { KidIsChild(v, path, i); }
  }

  lemma {:induction false} PassingPlaces(judge: Judge, f: JP.Filter, root: Json, kids: seq<Kid>, from: nat) returns (places: seq<nat>)
    requires from <= |kids|
    ensures var r := Passing(judge, f, root, kids[from..]); |r| == |places| && forall k :: 0 <= k < |r| ==> from <= places[k] < |kids| && r[k] == kids[places[k]]
    ensures Ascending(places)
    ensures forall i: nat :: i in places <==> from <= i < |kids| && judge(f, kids[i].value, root)
    decreases |kids| - from
  {
    places := [];
    if from < |kids| {
      var rest := PassingPlaces(judge, f, root, kids, from + 1);
      assert kids[from..][0] == kids[from] && kids[from..][1..] == kids[from + 1..];
      places := (if judge(f, kids[from].value, root) then [from] else []) + rest;
    }
  }

  // ---------------------------------------------------------------- segments and queries

  /** The selectors of a segment one after another. */
  lemma {:induction false} SelectorsInOrder(judge: Judge, root: Json, a: seq<Selector>, b: seq<Selector>, n: Node)
    ensures EvalSegment(judge, root, JP.PathSegment(a + b, false), n)
            == EvalSegment(judge, root, JP.PathSegment(a, false), n) + EvalSegment(judge, root, JP.PathSegment(b, false), n)
  {
    hide Select;
    if a == [] {
      assert a + b == b;
    } else {
      assert (a + b)[0] == a[0] && (a + b)[1..] == a[1..] + b;
      SelectorsInOrder(judge, root, a[1..], b, n);
      ConcatAssoc(Select(judge, root, n.value, a[0], n.path), SelectAll(judge, root, n.value, a[1..], n.path), SelectAll(judge, root, n.value, b, n.path));
    }
  }

  ghost function Flat(parts: seq<seq<Node>>): seq<Node> {
    if parts == [] then [] else Flat(parts[..|parts| - 1]) + parts[|parts| - 1]
  }

  /** One segment more goes over the nodes found so far, in order. */
  lemma {:induction false} SegmentsApply(judge: Judge, path: seq<PathSegment>, segment: PathSegment, doc: Json) returns (parts: seq<seq<Node>>)
    ensures Query(judge, [], doc) == [Node([], doc)]
    ensures var nodes := Query(judge, path, doc);
            && |parts| == |nodes|
            && (forall k :: 0 <= k < |nodes| ==> parts[k] == EvalSegment(judge, doc, segment, nodes[k]))
            && Query(judge, path + [segment], doc) == Flat(parts)
  {
    var nodes := Query(judge, path, doc);
    LastSegment(judge, path, segment, doc, [Node([], doc)]);
    parts := EachNode(judge, doc, segment, nodes);
  }

  lemma {:induction false} LastSegment(judge: Judge, path: seq<PathSegment>, segment: PathSegment, doc: Json, nodes: seq<Node>)
    ensures EvalSegments(judge, doc, path + [segment], nodes) == EvalNodes(judge, doc, segment, EvalSegments(judge, doc, path, nodes))
    decreases path
  {
    hide EvalNodes;
    if path == [] {
      assert (path + [segment])[0] == segment && (path + [segment])[1..] == [];
    } else {
      assert (path + [segment])[0] == path[0] && (path + [segment])[1..] == path[1..] + [segment];
      LastSegment(judge, path[1..], segment, doc, EvalNodes(judge, doc, path[0], nodes));
    }
  }

  lemma {:induction false} EachNode(judge: Judge, doc: Json, segment: PathSegment, nodes: seq<Node>) returns (parts: seq<seq<Node>>)
    ensures |parts| == |nodes| && forall k :: 0 <= k < |nodes| ==> parts[k] == EvalSegment(judge, doc, segment, nodes[k])
    ensures EvalNodes(judge, doc, segment, nodes) == Flat(parts)
  {
    hide EvalSegment;
    parts := [];
    if nodes != [] {
      var one, more := EvalSegment(judge, doc, segment, nodes[0]), nodes[1..];
      var rest := EachNode(judge, doc, segment, more);
      parts := [one] + rest;
      FlatFirst(one, rest);
    }
  }

  lemma {:induction false} FlatFirst(one: seq<Node>, rest: seq<seq<Node>>)
    ensures Flat([one] + rest) == one + Flat(rest)
  {
    var all := [one] + rest;
    if rest == [] {
      assert all[..0] == [] && one + [] == one && [] + one == one;
    } else {
      var last := rest[|rest| - 1];
      FlatFirst(one, rest[..|rest| - 1]);
      assert all[..|all| - 1] == [one] + rest[..|rest| - 1] && all[|all| - 1] == last;
      ConcatAssoc(one, Flat(rest[..|rest| - 1]), last);
    }
  }

  /** A query of one selector is what it selects from the document. */
  lemma OneSelector(judge: Judge, s: Selector, doc: Json)
    ensures Query(judge, [JP.PathSegment([s], false)], doc) == Selected(judge, doc, s, [], doc)
  {
    var segment, nodes := JP.PathSegment([s], false), [Node([], doc)];
    hide EvalSegment;
    var path := [segment];
    assert path[1..] == [] && nodes[1..] == [];
    assert EvalNodes(judge, doc, segment, nodes) == EvalSegment(judge, doc, segment, nodes[0]) + EvalNodes(judge, doc, segment, []);
    assert EvalSegment(judge, doc, segment, nodes[0]) + [] == EvalSegment(judge, doc, segment, nodes[0]);
    assert EvalSegments(judge, doc, path, nodes) == EvalSegments(judge, doc, [], EvalNodes(judge, doc, segment, nodes));
  }
}
