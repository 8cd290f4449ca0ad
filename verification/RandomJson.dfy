/** The document a random generator grows in place and the container paths it keeps: crates/json-joy-json-random/src/random_json.rs. Random choices are parameters. */
module RandomJson {
  import opened Common
  import opened Json

  // ---------------------------------------------------------------- changing a document at a path

  /** The first member called `key` gets the value `w`. */
  function ReplaceMember(members: seq<Member>, key: string, w: Json): seq<Member> {
    if members == [] then []
    else if members[0].key == key then [Member(key, w)] + members[1..]
    else [members[0]] + ReplaceMember(members[1..], key, w)
  }

  lemma {:induction false} LookupReplaced(members: seq<Member>, key: string, w: Json, k: string)
    ensures Lookup(ReplaceMember(members, key, w), k) == if k == key && Lookup(members, key).Some? then Some(w) else Lookup(members, k)
  {
    if members != [] {
      if members[0].key != key {
        LookupReplaced(members[1..], key, w, k);
        assert ReplaceMember(members, key, w)[1..] == ReplaceMember(members[1..], key, w);
      } else {
        assert ReplaceMember(members, key, w)[1..] == members[1..];
      }
    }
  }

  /** `v` with `w` in the place `p` leads to. */
  function Replace(v: Json, p: Path, w: Json): Json {
    if p == [] then w else
    match Step(v, p[0])
    case None => v
    case Some(child) =>
      match p[0]
      case At(i) => Array(v.items[i := Replace(child, p[1..], w)])
      case Key(k) => Object(ReplaceMember(v.members, k, Replace(child, p[1..], w)))
  }

  /** One step into a document that was changed below one of its children. */
  lemma StepReplaced(v: Json, p: Path, w: Json, c: Component)
    requires p != [] && Step(v, p[0]).Some?
    ensures Step(Replace(v, p, w), c) == if c == p[0] then Some(Replace(Step(v, p[0]).value, p[1..], w)) else Step(v, c)
  {
    match p[0]
    case At(i) =>
    case Key(k) => if c.Key? { LookupReplaced(v.members, k, Replace(Step(v, p[0]).value, p[1..], w), c.key); }
  }

  /** Whatever path: into the new value, past it, or to something it is in. */
  ghost function Seen(v: Json, p: Path, w: Json, q: Path): Option<Json> {
    if p <= q then Follow(w, q[|p|..])
    else if q <= p then (match Follow(v, q) case Some(u) => Some(Replace(u, p[|q|..], w)) case None => None)
    else Follow(v, q)
  }

  lemma {:induction false} FollowReplaced(v: Json, p: Path, w: Json, q: Path)
    requires Follow(v, p).Some?
    ensures Follow(Replace(v, p, w), q) == Seen(v, p, w, q)
    decreases p
  {
    hide Lookup, ReplaceMember;
    if p == [] {
      assert q[0..] == q;
    } else if q == [] {
      assert p[0..] == p;
    } else {
      StepReplaced(v, p, w, q[0]);
      if q[0] == p[0] {
        FollowReplaced(Step(v, p[0]).value, p[1..], w, q[1..]);
        PrefixTail(p, q);
        PrefixTail(q, p);
        if p <= q { assert q[1..][|p[1..]|..] == q[|p|..]; }
        if q <= p { assert p[1..][|q[1..]|..] == p[|q|..]; }
      } else {
        assert !(p <= q) && !(q <= p);
      }
    }
  }

  lemma PrefixTail(p: Path, q: Path)
    requires p != [] && q != [] && p[0] == q[0]
    ensures p <= q <==> p[1..] <= q[1..]
  {
    if p[1..] <= q[1..] {
      assert q == [q[0]] + q[1..] && p == [p[0]] + p[1..];
    }
  }

  // ---------------------------------------------------------------- inserting into an array

  function Inserted(items: seq<Json>, index: nat, node: Json): seq<Json>
    requires index <= |items|
  {
    items[..index] + [node] + items[index..]
  }

  /** A kept path after an element went in at `index` of the array at `base`. */
  function Adjusted(path: Path, base: Path, index: nat): Path {
    if |path| <= |base| || !(base <= path) then path
    else
      match path[|base|]
      case At(i) => if i >= index then path[|base| := At(i + 1)] else path
      case Key(_) => path
  }

  /**
   A path that led somewhere leads, once adjusted, to the same value, or, for the array and what it
   is in, to that value with the insert made; it never leads into the new element.
   */
  lemma AdjustFollows(root: Json, base: Path, index: nat, node: Json, path: Path)
    requires Follow(root, base).Some? && Follow(root, base).value.Array? && index <= |Follow(root, base).value.items|
    requires Follow(root, path).Some?
    ensures var grown := Array(Inserted(Follow(root, base).value.items, index, node));
            var after, path' := Replace(root, base, grown), Adjusted(path, base, index);
            && Follow(after, path') == Some(if path <= base then Replace(Follow(root, path).value, base[|path|..], grown) else Follow(root, path).value)
            && !(base + [At(index)] <= path')
  {
    if base <= path && |path| > |base| {
      AdjustFollowsBelow(root, base, index, node, path);
    } else {
      var grown := Array(Inserted(Follow(root, base).value.items, index, node));
      FollowReplaced(root, base, grown, path);
      if base <= path { assert path == base && path[|base|..] == [] && base[|path|..] == []; }
      assert |base + [At(index)]| == |base| + 1;
      assert base + [At(index)] <= path ==> base <= path;
    }
  }

  lemma AdjustFollowsBelow(root: Json, base: Path, index: nat, node: Json, path: Path)
    requires Follow(root, base).Some? && Follow(root, base).value.Array? && index <= |Follow(root, base).value.items|
    requires Follow(root, path).Some? && base <= path && |path| > |base|
    ensures var after := Replace(root, base, Array(Inserted(Follow(root, base).value.items, index, node)));
            var path' := Adjusted(path, base, index);
            Follow(after, path') == Follow(root, path) && base <= path' && !(base + [At(index)] <= path')
  {
    hide Seen, Adjusted, Replace, Lookup, Inserted;
    var items := Follow(root, base).value.items;
    var grown, path' := Array(Inserted(items, index, node)), Adjusted(path, base, index);
    AdjustedTail(path, base, index);
    var tail, tail' := path[|base|..], path'[|base|..];
    assert path == base + tail && path' == base + tail';
    FollowAppend(root, base, tail);
    FollowBelow(root, base, grown, tail');
    InsertedStep(items, index, node, tail[0]);
  }

  function Shifted(c: Component, index: nat): Component {
    if c.At? && c.index >= index then At(c.index + 1) else c
  }

  lemma AdjustedTail(path: Path, base: Path, index: nat)
    requires base <= path && |path| > |base|
    ensures var path' := Adjusted(path, base, index);
            && |path'| == |path| && base <= path' && path'[|base|..][1..] == path[|base|..][1..]
            && path'[|base|..][0] == Shifted(path[|base|], index) && !(base + [At(index)] <= path')
  {
    var path' := Adjusted(path, base, index);
    assert path'[|base|] != At(index) && (base + [At(index)])[|base|] == At(index);
  }

  lemma InsertedStep(items: seq<Json>, index: nat, node: Json, c: Component)
    requires index <= |items| && Step(Array(items), c).Some?
    ensures Step(Array(Inserted(items, index, node)), Shifted(c, index)) == Step(Array(items), c)
  {
  }

  lemma FollowBelow(root: Json, base: Path, w: Json, tail: Path)
    requires Follow(root, base).Some?
    ensures Follow(Replace(root, base, w), base + tail) == Follow(w, tail)
  {
    FollowReplaced(root, base, w, base + tail);
    assert (base + tail)[|base|..] == tail;
  }

  /** Different paths stay different. */
  lemma AdjustInjective(base: Path, index: nat, p: Path, q: Path)
    ensures Adjusted(p, base, index) == Adjusted(q, base, index) <==> p == q
  {
    var p', q' := Adjusted(p, base, index), Adjusted(q, base, index);
    if p' == q' && p != q {
      assert |p| == |q|;
      var k :| 0 <= k < |p| && p[k] != q[k];
      assert p'[k] == q'[k];
      AdjustKeepsBase(base, index, p);
      AdjustKeepsBase(base, index, q);
    }
  }

  lemma AdjustKeepsBase(base: Path, index: nat, p: Path)
    ensures base <= p <==> base <= Adjusted(p, base, index)
  {
    var p' := Adjusted(p, base, index);
    if base <= p' {
      forall k | 0 <= k < |base| ensures base[k] == p[k] { assert base[k] == p'[k]; }
    }
  }

  // ---------------------------------------------------------------- states

  /** A node to add: a plain value, the bytes of a binary one, or an empty container. */
  datatype Node = Scalar(v: Json) | Bytes(bytes: seq<Byte>) | EmptyArray | EmptyObject

  function Value(n: Node): Json {
    match n
    case Scalar(v) => if v.Array? || v.Object? then Null else v
    case Bytes(bytes) => Array(Numbers(bytes))
    case EmptyArray => Array([])
    case EmptyObject => Object([])
  }

  function Numbers(bytes: seq<Byte>): (r: seq<Json>)
    ensures |r| == |bytes| && forall i :: 0 <= i < |r| ==> r[i].Number?
  {
    if bytes == [] then [] else [Number(bytes[0] as real)] + Numbers(bytes[1..])
  }

  predicate IsContainer(n: Node) {
    n.EmptyArray? || n.EmptyObject?
  }

  datatype State = State(root: Json, containers: seq<Path>)

  ghost predicate LeadsToContainer(root: Json, p: Path) {
    var v := Follow(root, p);
    v.Some? && (v.value.Array? || v.value.Object?)
  }

  /** Every kept path leads to a container, and no two are the same. */
  ghost predicate Tracked(s: State) {
    Distinct(s.containers) && forall i :: 0 <= i < |s.containers| ==> LeadsToContainer(s.root, s.containers[i])
  }

  /** The random draws of one step: a container, a place in it, a key for it and the node. */
  datatype Draw = Draw(container: nat, place: nat, key: string, node: Node)

  function AdjustAll(paths: seq<Path>, base: Path, index: nat): (r: seq<Path>)
    ensures |r| == |paths| && forall i :: 0 <= i < |r| ==> r[i] == Adjusted(paths[i], base, index)
  {
    if paths == [] then [] else [Adjusted(paths[0], base, index)] + AdjustAll(paths[1..], base, index)
  }

  function Kept(paths: seq<Path>, node: Node, at: Path): seq<Path> {
    if IsContainer(node) then paths + [at] else paths
  }

  function SetMember(members: seq<Member>, key: string, w: Json): seq<Member> {
    if Lookup(members, key).Some? then ReplaceMember(members, key, w) else members + [Member(key, w)]
  }

  function Grow(s: State, d: Draw): State {
    if s.containers == [] then s else
    var base := s.containers[d.container % |s.containers|];
    match Follow(s.root, base)
    case None => s
    case Some(container) =>
      if container.Array? then
        var index := d.place % (|container.items| + 1);
        State(Replace(s.root, base, Array(Inserted(container.items, index, Value(d.node)))),
              Kept(AdjustAll(s.containers, base, index), d.node, base + [At(index)]))
      else if container.Object? then
        State(Replace(s.root, base, Object(SetMember(container.members, d.key, Value(d.node)))),
              Kept(s.containers, d.node, base + [Key(d.key)]))
      else s
  }

  // ---------------------------------------------------------------- every step keeps the paths right

  lemma {:induction false} LookupAppended(members: seq<Member>, key: string, w: Json, k: string)
    requires Lookup(members, key).None?
    ensures Lookup(members + [Member(key, w)], k) == if k == key then Some(w) else Lookup(members, k)
  {
    if members != [] {
      assert (members + [Member(key, w)])[1..] == members[1..] + [Member(key, w)];
      LookupAppended(members[1..], key, w, k);
    } else {
      assert (members + [Member(key, w)])[1..] == [];
    }
  }

  lemma LookupSet(members: seq<Member>, key: string, w: Json, k: string)
    ensures Lookup(SetMember(members, key, w), k) == if k == key then Some(w) else Lookup(members, k)
  {
    if Lookup(members, key).Some? { LookupReplaced(members, key, w, k); } else { LookupAppended(members, key, w, k); }
  }

  lemma FollowSingle(v: Json, c: Component)
    ensures Follow(v, [c]) == Step(v, c)
  {
    assert [c][1..] == [];
  }

  lemma ArrayStepTracked(s: State, base: Path, index: nat, node: Node)
    requires Tracked(s) && base in s.containers
    requires Follow(s.root, base).Some? && Follow(s.root, base).value.Array? && index <= |Follow(s.root, base).value.items|
    ensures Tracked(State(Replace(s.root, base, Array(Inserted(Follow(s.root, base).value.items, index, Value(node)))),
                          Kept(AdjustAll(s.containers, base, index), node, base + [At(index)])))
  {
    hide Follow, Replace, Adjusted;
    var items := Follow(s.root, base).value.items;
    var grown := Array(Inserted(items, index, Value(node)));
    var after, moved := Replace(s.root, base, grown), AdjustAll(s.containers, base, index);
    var new_ := base + [At(index)];
    forall i | 0 <= i < |moved| ensures LeadsToContainer(after, moved[i]) && moved[i] != new_ {
      assert LeadsToContainer(s.root, s.containers[i]);
      AdjustFollows(s.root, base, index, Value(node), s.containers[i]);
      if s.containers[i] <= base { ReplaceKeepsKind(s.root, s.containers[i], base, grown); }
    }
    forall i, j | 0 <= i < j < |moved| ensures moved[i] != moved[j] {
      AdjustInjective(base, index, s.containers[i], s.containers[j]);
    }
    FollowBelow(s.root, base, grown, [At(index)]);
    FollowSingle(grown, At(index));
    assert Step(grown, At(index)) == Some(Value(node));
    assert IsContainer(node) ==> LeadsToContainer(after, new_);
  }

  /** What a changed container was in is still a container. */
  lemma ReplaceKeepsKind(root: Json, p: Path, base: Path, w: Json)
    requires LeadsToContainer(root, p) && p <= base && (w.Array? || w.Object?)
    ensures var v := Replace(Follow(root, p).value, base[|p|..], w); v.Array? || v.Object?
  {
  }

  /** No kept path leads to or through what `node` replaces at `at`, save that bytes may take the place of a container none of whose insides are kept. */
  ghost predicate Spares(s: State, at: Path, node: Node) {
    forall i :: 0 <= i < |s.containers| && at <= s.containers[i] ==> node.Bytes? && s.containers[i] == at
  }

  lemma ObjectFollows(root: Json, base: Path, key: string, node: Node, q: Path)
    requires Follow(root, base).Some? && Follow(root, base).value.Object?
    ensures var after := Replace(root, base, Object(SetMember(Follow(root, base).value.members, key, Value(node))));
            var at := base + [Key(key)];
            && (at <= q ==> Follow(after, q) == Follow(Value(node), q[|at|..]))
            && (!(at <= q) && LeadsToContainer(root, q) ==> LeadsToContainer(after, q))
  {
    var members := Follow(root, base).value.members;
    var object_ := Object(SetMember(members, key, Value(node)));
    var at := base + [Key(key)];
    FollowReplaced(root, base, object_, q);
    if at <= q {
      assert base <= q;
      assert q[|base|] == at[|base|] == Key(key);
      LookupSet(members, key, Value(node), key);
      assert q[|base|..][1..] == q[|at|..];
    } else if base <= q && |q| > |base| {
      assert q == base + q[|base|..];
      FollowAppend(root, base, q[|base|..]);
      if q[|base|].Key? { LookupSet(members, key, Value(node), q[|base|].key); }
    } else if q <= base {
      if LeadsToContainer(root, q) { ReplaceKeepsKind(root, q, base, object_); }
      if q == base { assert q[|base|..] == [] && base[|q|..] == []; }
    }
  }

  /** A fresh node leads nowhere but to itself, or to the numbers of its bytes. */
  lemma NodeInside(n: Node, q: Path)
    requires q != [] && Follow(Value(n), q).Some?
    ensures n.Bytes? && Follow(Value(n), q).value.Number?
  {
    assert Step(Value(n), q[0]).value.Number?;
    assert q == [q[0]] + q[1..];
  }

  /** Adding a member to an object keeps all paths distinct and leading to containers exactly when it spares them. */
  lemma ObjectStepTracked(s: State, base: Path, key: string, node: Node)
    requires Tracked(s) && base in s.containers && Follow(s.root, base).Some? && Follow(s.root, base).value.Object?
    ensures var at := base + [Key(key)];
            Tracked(State(Replace(s.root, base, Object(SetMember(Follow(s.root, base).value.members, key, Value(node)))), Kept(s.containers, node, at)))
            <==> Spares(s, at, node)
  {
    var at := base + [Key(key)];
    var after := Replace(s.root, base, Object(SetMember(Follow(s.root, base).value.members, key, Value(node))));
    var t := State(after, Kept(s.containers, node, at));
    forall i | 0 <= i < |s.containers|
      ensures LeadsToContainer(after, s.containers[i]) <==> (at <= s.containers[i] ==> s.containers[i] == at && !node.Scalar?)
    {
      var q := s.containers[i];
      assert LeadsToContainer(s.root, q);
      ObjectFollows(s.root, base, key, node, q);
      if at <= q {
        if q != at {
          assert q[|at|..] != [];
          if Follow(Value(node), q[|at|..]).Some? { NodeInside(node, q[|at|..]); }
        } else {
          assert q[|at|..] == [];
        }
      }
    }
    ObjectFollows(s.root, base, key, node, at);
    assert at[|at|..] == [];
    if IsContainer(node) {
      assert t.containers[|s.containers|] == at;
      forall i | 0 <= i < |s.containers| ensures t.containers[i] == s.containers[i] { }
    }
  }

  /** The key drawn for an object is not in it yet. */
  ghost predicate FreshKey(s: State, d: Draw) {
    s.containers != [] ==>
      var container := Follow(s.root, s.containers[d.container % |s.containers|]);
      container.Some? && container.value.Object? ==> Lookup(container.value.members, d.key).None?
  }

  lemma FreshSpares(s: State, base: Path, key: string, node: Node)
    requires Tracked(s) && Follow(s.root, base).Some? && Follow(s.root, base).value.Object?
    requires Lookup(Follow(s.root, base).value.members, key).None?
    ensures Spares(s, base + [Key(key)], node)
  {
    var at := base + [Key(key)];
    forall i | 0 <= i < |s.containers| ensures !(at <= s.containers[i]) {
      var q := s.containers[i];
      if at <= q {
        assert LeadsToContainer(s.root, q);
        assert q == at + q[|at|..];
        FollowAppend(s.root, at, q[|at|..]);
        FollowOne(s.root, base, Key(key));
        assert false;
      }
    }
  }

  /** What a step must not do: where it draws an object, its member spares the kept paths. */
  ghost predicate Careful(s: State, d: Draw) {
    s.containers != [] ==>
      var base := s.containers[d.container % |s.containers|];
      var container := Follow(s.root, base);
      container.Some? && container.value.Object? ==> Spares(s, base + [Key(d.key)], d.node)
  }

  /** A step keeps the paths right exactly when it is careful, and it is when the key it draws is fresh. */
  lemma StepTracked(s: State, d: Draw)
    requires Tracked(s)
    ensures Tracked(Grow(s, d)) <==> Careful(s, d)
    ensures FreshKey(s, d) ==> Careful(s, d)
  {
    hide Spares, Tracked;
    if s.containers != [] {
      var base := s.containers[d.container % |s.containers|];
      assert LeadsToContainer(s.root, base) by { TrackedAt(s, d.container % |s.containers|); }
      var container := Follow(s.root, base).value;
      if container.Array? {
        ArrayStepTracked(s, base, d.place % (|container.items| + 1), d.node);
      } else {
        if FreshKey(s, d) { FreshSpares(s, base, d.key, d.node); }
        ObjectStepTracked(s, base, d.key, d.node);
      }
    }
  }

  lemma TrackedAt(s: State, i: nat)
    requires Tracked(s) && i < |s.containers|
    ensures LeadsToContainer(s.root, s.containers[i])
  {
  }

  function Run(s: State, draws: seq<Draw>): State
    decreases |draws|
  {
    if draws == [] then s else Run(Grow(s, draws[0]), draws[1..])
  }

  ghost predicate CarefulRun(s: State, draws: seq<Draw>)
    decreases |draws|
  {
    draws == [] || (Careful(s, draws[0]) && CarefulRun(Grow(s, draws[0]), draws[1..]))
  }

  ghost predicate FreshRun(s: State, draws: seq<Draw>)
    decreases |draws|
  {
    draws == [] || (FreshKey(s, draws[0]) && FreshRun(Grow(s, draws[0]), draws[1..]))
  }

  /** In every state of a run all kept paths are distinct and lead to containers exactly when every step is careful, and so while drawn keys are fresh. */
  lemma {:induction false} RunTracked(s: State, draws: seq<Draw>)
    requires Tracked(s)
    ensures (forall n :: 0 <= n <= |draws| ==> Tracked(Run(s, draws[..n]))) <==> CarefulRun(s, draws)
    ensures FreshRun(s, draws) ==> CarefulRun(s, draws)
    decreases |draws|
  {
    hide Tracked, Careful, Grow, FreshKey;
    if draws == [] {
      assert Run(s, draws[..0]) == s;
    } else {
      var t, rest := Grow(s, draws[0]), draws[1..];
      StepTracked(s, draws[0]);
      forall n | 0 < n <= |draws| ensures Run(s, draws[..n]) == Run(t, rest[..n - 1]) {
        assert draws[..n][0] == draws[0] && draws[..n][1..] == rest[..n - 1];
      }
      assert Run(s, draws[..0]) == s && Run(t, rest[..0]) == t;
      if Careful(s, draws[0]) {
        RunTracked(t, rest);
        if forall n :: 0 <= n <= |draws| ==> Tracked(Run(s, draws[..n])) {
          forall n | 0 <= n <= |rest| ensures Tracked(Run(t, rest[..n])) { assert Run(s, draws[..n + 1]) == Run(t, rest[..n]); }
        }
      } else {
        assert Run(s, draws[..1]) == t;
      }
    }
  }

  lemma GrownRoot(s: State, d: Draw, members: seq<Member>)
    requires s.containers != [] && s.containers[0] == [] && d.container == 0 && s.root == Object(members)
    ensures Grow(s, d) == State(Object(SetMember(members, d.key, Value(d.node))), Kept(s.containers, d.node, [] + [Key(d.key)]))
  {
    assert s.containers[d.container % |s.containers|] == [];
  }

  /** A key drawn twice: an empty object goes in, a null takes its place, and the path kept for it leads to no container. */
  lemma RepeatedKey(key: string)
    ensures var at := [Key(key)];
            Run(State(Object([]), [[]]), [Draw(0, 0, key, EmptyObject), Draw(0, 0, key, Scalar(Null))])
            == State(Object([Member(key, Null)]), [[], at])
            && !LeadsToContainer(Object([Member(key, Null)]), at)
  {
    var start := State(Object([]), [[]]);
    var first, second := Draw(0, 0, key, EmptyObject), Draw(0, 0, key, Scalar(Null));
    var one, two := Object([Member(key, Object([]))]), Object([Member(key, Null)]);
    var none: seq<Member> := [];
    assert SetMember(none, key, Object([])) == none + [Member(key, Object([]))] == one.members;
    assert [] + [Key(key)] == [Key(key)];
    GrownRoot(start, first, none);
    assert one.members[0].key == key;
    assert ReplaceMember(one.members, key, Null) == [Member(key, Null)] + one.members[1..] == two.members;
    GrownRoot(State(one, [[], [Key(key)]]), second, one.members);
    assert [first, second][1..] == [second] && [second][1..] == [];
    FollowSingle(two, Key(key));
    assert Run(start, [first, second]) == Run(Grow(start, first), [second]) == Run(Grow(Grow(start, first), second), []);
  }

  // ---------------------------------------------------------------- what a step puts in

  /** `w` is the value of a drawn node: itself, the numbers of its bytes, or an empty container. */
  ghost predicate Stands(node: Node, w: Json) {
    match node
    case Scalar(v) => v.Array? || v.Object? || w == v
    case Bytes(bytes) => w.Array? && |w.items| == |bytes| && forall i :: 0 <= i < |bytes| ==> w.items[i] == Number(bytes[i] as real)
    case EmptyArray => w == Array([])
    case EmptyObject => w == Object([])
  }

  lemma {:induction false} NumbersAt(bytes: seq<Byte>, i: nat)
    requires i < |bytes|
    ensures Numbers(bytes)[i] == Number(bytes[i] as real)
  {
    if i > 0 { NumbersAt(bytes[1..], i - 1); }
  }

  lemma ValueStands(node: Node)
    ensures Stands(node, Value(node))
  {
    if node.Bytes? {
      forall i | 0 <= i < |node.bytes| ensures Numbers(node.bytes)[i] == Number(node.bytes[i] as real) { NumbersAt(node.bytes, i); }
    }
  }

  /**
   A step puts the node where it was drawn to go, and keeps the path to it exactly when it is an empty
   array or object; all the other kept paths stay, adjusted if it went into an array.
   */
  lemma NewIsKept(s: State, d: Draw) returns (at: Path)
    requires Tracked(s) && s.containers != []
    ensures var base, t := s.containers[d.container % |s.containers|], Grow(s, d);
            && |at| == |base| + 1 && base < at
            && Follow(t.root, at).Some? && Stands(d.node, Follow(t.root, at).value)
            && (at[|base|].At? ==> |t.containers| >= |s.containers| && forall i :: 0 <= i < |s.containers| ==> t.containers[i] == Adjusted(s.containers[i], base, at[|base|].index))
            && (at[|base|].Key? ==> at[|base|].key == d.key && s.containers <= t.containers)
            && t.containers[|s.containers|..] == if d.node.EmptyArray? || d.node.EmptyObject? then [at] else []
  {
    var k := d.container % |s.containers|;
    var base := s.containers[k];
    TrackedAt(s, k);
    ValueStands(d.node);
    var container := Follow(s.root, base).value;
    hide Stands, Tracked, Follow, Replace;
    if container.Array? {
      var index := d.place % (|container.items| + 1);
      at := base + [At(index)];
      var grown := Array(Inserted(container.items, index, Value(d.node)));
      FollowBelow(s.root, base, grown, [At(index)]);
      FollowSingle(grown, At(index));
      assert Step(grown, At(index)) == Some(Value(d.node));
      assert Grow(s, d) == State(Replace(s.root, base, grown), Kept(AdjustAll(s.containers, base, index), d.node, at));
    } else {
      at := base + [Key(d.key)];
      var grown := Object(SetMember(container.members, d.key, Value(d.node)));
      FollowBelow(s.root, base, grown, [Key(d.key)]);
      FollowSingle(grown, Key(d.key));
      LookupSet(container.members, d.key, Value(d.node), d.key);
      assert Grow(s, d) == State(Replace(s.root, base, grown), Kept(s.containers, d.node, at));
    }
  }

  // ---------------------------------------------------------------- the generator

  class Generator {
    var root: Json
    var containers: seq<Path>

    /** An object or an array to start from, itself the one container. */
    constructor (isObject: bool)
      ensures Now() == State(if isObject then Object([]) else Array([]), [[]]) && Tracked(Now())
    {
      root := if isObject then Object([]) else Array([]);
      containers := [[]];
    }

    ghost function Now(): State
      reads this
    {
      State(root, containers)
    }

    method AddNode(d: Draw)
      modifies this
      ensures Now() == Grow(old(Now()), d)
      ensures old(Tracked(Now())) ==> (Tracked(Now()) <==> old(Careful(Now(), d)))
    {
      ghost var before := Now();
      if Tracked(before) { StepTracked(before, d); }
      if containers == [] { return; }
      var containerPath := containers[d.container % |containers|];
      var container := Follow(root, containerPath);
      if container.None? { return; }
      match container.value {
        case Array(items) =>
          var index := d.place % (|items| + 1);
          root := Replace(root, containerPath, Array(Inserted(items, index, Value(d.node))));
          AdjustIndicesAfterArrayInsert(containerPath, index);
          if IsContainer(d.node) { containers := containers + [containerPath + [At(index)]]; }
        case Object(members) =>
          root := Replace(root, containerPath, Object(SetMember(members, d.key, Value(d.node))));
          if IsContainer(d.node) { containers := containers + [containerPath + [Key(d.key)]]; }
        case _ => return;
      }
    }

    method AdjustIndicesAfterArrayInsert(basePath: Path, insertedIndex: nat)
      modifies this`containers
      ensures containers == AdjustAll(old(containers), basePath, insertedIndex)
    {
      var i := 0;
      while i < |containers|
        invariant 0 <= i <= |containers| == |old(containers)|
        invariant forall j :: 0 <= j < i ==> containers[j] == Adjusted(old(containers)[j], basePath, insertedIndex)
        invariant forall j :: i <= j < |containers| ==> containers[j] == old(containers)[j]
      {
        var path := containers[i];
        if |path| > |basePath| && basePath <= path {
          match path[|basePath|] {
            case At(idx) => if idx >= insertedIndex { containers := containers[i := path[|basePath| := At(idx + 1)]]; }
            case Key(_) =>
          }
        }
        i := i + 1;
      }
    }
  }

  /** Any number of nodes, added one after another. */
  method Create(isObject: bool, draws: seq<Draw>) returns (root: Json, containers: seq<Path>)
    ensures var start := State(if isObject then Object([]) else Array([]), [[]]);
            && State(root, containers) == Run(start, draws)
            && (CarefulRun(start, draws) ==> Tracked(State(root, containers)))
  {
    var g := new Generator(isObject);
    ghost var start := g.Now();
    var i := 0;
    assert draws[0..] == draws;
    while i < |draws|
      invariant 0 <= i <= |draws| && Run(g.Now(), draws[i..]) == Run(start, draws)
    {
      assert draws[i..][0] == draws[i] && draws[i..][1..] == draws[i + 1..];
      g.AddNode(draws[i]);
      i := i + 1;
    }
    assert draws[i..] == [] && draws[..|draws|] == draws;
    RunTracked(start, draws);
    root, containers := g.root, g.containers;
  }
}
