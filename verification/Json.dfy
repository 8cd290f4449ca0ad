/** JSON documents, their children and the paths to what is in them. */
module Json {
  import opened Common

  datatype Json =
    | Null
    | Bool(b: bool)
    | Number(n: real)
    | String(s: string)
    | Array(items: seq<Json>)
    | Object(members: seq<Member>)

  /** Members of an object in the order the program's map gives them. */
  datatype Member = Member(key: string, value: Json)

  datatype Component = Key(key: string) | At(index: nat)

  type Path = seq<Component>

  /** A child and what leads to it. */
  datatype Kid = Kid(component: Component, value: Json)

  function Lookup(members: seq<Member>, key: string): (r: Option<Json>)
    ensures r.Some? <==> exists i :: 0 <= i < |members| && members[i].key == key
    ensures r.Some? ==> Member(key, r.value) in members
  {
    if members == [] then None
    else if members[0].key == key then assert members[0] == Member(key, members[0].value); Some(members[0].value)
    else
      assert forall i :: 1 <= i < |members| ==> members[i] == members[1..][i - 1];
      Lookup(members[1..], key)
  }

  /** The children of an array or object, in order. */
  function Kids(v: Json): (r: seq<Kid>)
    ensures forall i :: 0 <= i < |r| ==> r[i].value < v
  {
    match v
    case Array(items) => seq(|items|, (i: nat) requires i < |items| => Kid(At(i), items[i]))
    case Object(members) => seq(|members|, (i: nat) requires i < |members| => Kid(Key(members[i].key), members[i].value))
    case _ => []
  }

  function Step(v: Json, c: Component): Option<Json> {
    match c
    case Key(k) => if v.Object? then Lookup(v.members, k) else None
    case At(i) => if v.Array? && i < |v.items| then Some(v.items[i]) else None
  }

  function Follow(v: Json, p: Path): Option<Json> {
    if p == [] then Some(v) else
    match Step(v, p[0])
    case Some(w) => Follow(w, p[1..])
    case None => None
  }

  ghost predicate DistinctKeys(members: seq<Member>) {
    forall i, j :: 0 <= i < j < |members| ==> members[i].key != members[j].key
  }

  /** As the program's maps are: no key twice in any object. */
  ghost predicate WellFormed(v: Json) {
    match v
    case Array(items) => forall i :: 0 <= i < |items| ==> WellFormed(items[i])
    case Object(members) => DistinctKeys(members) && forall i :: 0 <= i < |members| ==> WellFormed(members[i].value)
    case _ => true
  }

  lemma {:induction false} FollowAppend(v: Json, p: Path, q: Path)
    ensures Follow(v, p + q) == match Follow(v, p) case Some(w) => Follow(w, q) case None => None
  {
    if p == [] {
      assert p + q == q;
    } else {
      assert (p + q)[0] == p[0] && (p + q)[1..] == p[1..] + q;
      if Step(v, p[0]).Some? { FollowAppend(Step(v, p[0]).value, p[1..], q); }
    }
  }

  lemma FollowOne(v: Json, p: Path, c: Component)
    ensures Follow(v, p + [c]) == match Follow(v, p) case Some(w) => Step(w, c) case None => None
  {
    FollowAppend(v, p, [c]);
    assert [c][1..] == [];
  }

  lemma {:induction false} LookupAt(members: seq<Member>, i: nat)
    requires DistinctKeys(members) && i < |members|
    ensures Lookup(members, members[i].key) == Some(members[i].value)
  {
    if i > 0 {
      assert members[1..][i - 1] == members[i];
      assert DistinctKeys(members[1..]) by {
        forall a, b | 0 <= a < b < |members[1..]| ensures members[1..][a].key != members[1..][b].key {
          assert members[a + 1].key != members[b + 1].key;
        }
      }
      LookupAt(members[1..], i - 1);
    }
  }

  /** Every child is where its component leads, and every step leads to a child. */
  lemma KidSteps(v: Json, i: nat)
    requires WellFormed(v) && i < |Kids(v)|
    ensures Step(v, Kids(v)[i].component) == Some(Kids(v)[i].value) && WellFormed(Kids(v)[i].value)
  {
    if v.Object? { LookupAt(v.members, i); }
  }

  lemma StepIsKid(v: Json, c: Component)
    requires Step(v, c).Some?
    ensures Kid(c, Step(v, c).value) in Kids(v)
  {
    match c
    case Key(k) =>
      var i :| 0 <= i < |v.members| && v.members[i] == Member(k, Step(v, c).value);
      assert Kids(v)[i] == Kid(c, Step(v, c).value);
    case At(i) => assert Kids(v)[i] == Kid(c, Step(v, c).value);
  }

  lemma KidsDiffer(v: Json, i: nat, j: nat)
    requires WellFormed(v) && i < j < |Kids(v)|
    ensures Kids(v)[i].component != Kids(v)[j].component
  {
  }

  lemma {:induction false} FollowWellFormed(v: Json, p: Path)
    requires WellFormed(v) && Follow(v, p).Some?
    ensures WellFormed(Follow(v, p).value)
  {
    if p != [] {
      StepIsKid(v, p[0]);
      var i :| 0 <= i < |Kids(v)| && Kids(v)[i] == Kid(p[0], Step(v, p[0]).value);
      KidSteps(v, i);
      FollowWellFormed(Step(v, p[0]).value, p[1..]);
    }
  }
}
