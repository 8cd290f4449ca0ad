/** What each operator means, told of the expression as it is written and of the values its operands have. */
module ExpressionMeaning {
  import opened Common
  import opened Json
  import opened Expression

  ghost function Call(key: string, operands: seq<Json>): Json {
    Array([String(key)] + operands)
  }

  /** The values that count as false; all others count as true. */
  ghost predicate Falsy(v: JsValue) {
    v in [Undefined, Json(Null), Json(Bool(false)), Json(Number(0.0)), Json(String("")), Binary([])]
  }

  lemma TruthyIs(v: JsValue)
    ensures IsTruthy(v) <==> !Falsy(v)
  {
  }

  lemma Parts(key: string, xs: seq<Json>)
    ensures |Call(key, xs).items| == |xs| + 1 && Call(key, xs).items[0] == String(key) && Call(key, xs).items[1..] == xs
    ensures forall k :: 0 <= k < |xs| ==> Call(key, xs).items[k + 1] == xs[k]
    ensures xs != [] ==> Call(key, xs).items[2..] == xs[1..]
  {
  }

  lemma Called(c: Platform, s: Store, key: string, xs: seq<Json>, op: Op)
    requires xs != [] && OpOf(c, key) == Some(op) && ArityOk(c, key, op, |xs| + 1)
    ensures FormOf(c, Call(key, xs)) == Apply(op, key)
    ensures Eval(c, s, Call(key, xs)) == EvalOp(c, s, Call(key, xs), op, key)
  {
    hide EvalOp;
    Parts(key, xs);
  }

  // ---------------------------------------------------------------- literals and mistakes

  /** Anything but an array of two or more stands for itself, and an array of one for what is in it. */
  lemma LiteralMeans(c: Platform, s: Store, e: Json)
    ensures !e.Array? || e.items == [] ==> Eval(c, s, e) == Outcome(s, Ok(Json(e)))
    ensures e.Array? && |e.items| == 1 ==> Eval(c, s, e) == Outcome(s, Ok(Json(e.items[0])))
    ensures e.Array? && |e.items| >= 2 && !e.items[0].String? ==> Eval(c, s, e) == Outcome(s, Err(UnknownExpression))
  {
  }

  /** How many operands each operator takes. */
  ghost predicate Takes(key: string, n: nat) {
    if key in ["if", "?", "filter", "map"] then n == 3
    else if key == "reduce" then n == 5
    else if key in ["not", "!", "throw", "get?", "$?"] then n == 1
    else if key in ["get", "$"] then n == 1 || n == 2
    else n >= 2
  }

  ghost predicate Built(key: string) {
    key in ["filter", "map", "reduce", "get", "$", "get?", "$?", "if", "?", "throw", "and", "&&", "or", "||", "not", "!"]
  }

  /** An unknown operator, or one with too few or too many operands, evaluates none of them. */
  lemma MistakeMeans(c: Platform, s: Store, key: string, xs: seq<Json>)
    requires xs != []
    ensures !Built(key) && !c.strict(key) ==> Eval(c, s, Call(key, xs)) == Outcome(s, Err(UnknownExpression))
    ensures Built(key) && !Takes(key, |xs|) ==> Eval(c, s, Call(key, xs)) == Outcome(s, Err(ArityError))
    ensures !Built(key) && c.strict(key) && !c.arity(key, |xs| + 1) ==> Eval(c, s, Call(key, xs)) == Outcome(s, Err(ArityError))
  {
    hide EvalOp;
    Parts(key, xs);
  }

  // ---------------------------------------------------------------- deciding

  /** `if` takes its third operand for a false condition and its second for any other. */
  lemma IfMeans(c: Platform, s: Store, key: string, x: Json, y: Json, z: Json)
    requires key == "if" || key == "?"
    ensures var a := Eval(c, s, x);
            Eval(c, s, Call(key, [x, y, z])) == match a.result
                                                case Err(_) => a
                                                case Ok(v) => Eval(c, a.store, if Falsy(v) then z else y)
  {
    Called(c, s, key, [x, y, z], If);
    Parts(key, [x, y, z]);
    var a := Eval(c, s, x);
    if a.result.Ok? { TruthyIs(a.result.value); }
    hide Eval, Falsy, IsTruthy;
  }

  lemma NotMeans(c: Platform, s: Store, key: string, x: Json)
    requires key == "not" || key == "!"
    ensures var a := Eval(c, s, x);
            Eval(c, s, Call(key, [x])) == match a.result
                                          case Err(_) => a
                                          case Ok(v) => Outcome(a.store, Ok(Json(Bool(Falsy(v)))))
  {
    Called(c, s, key, [x], Not);
    Parts(key, [x]);
    var a := Eval(c, s, x);
    if a.result.Ok? { TruthyIs(a.result.value); }
    hide Eval, Falsy, IsTruthy;
  }

  lemma ThrowMeans(c: Platform, s: Store, x: Json)
    ensures var a := Eval(c, s, x);
            Eval(c, s, Call("throw", [x])) == match a.result
                                              case Err(_) => a
                                              case Ok(v) => Outcome(a.store, Err(Thrown(c.text(v))))
  {
    Called(c, s, "throw", [x], Throw);
    Parts("throw", [x]);
    hide Eval;
  }

  /** Whether `and`, or else `or`, goes on past `v`. */
  ghost predicate GoesOn(conjunction: bool, v: JsValue) {
    conjunction != Falsy(v)
  }

  /**
   `and` evaluates its operands in order up to the first that is false, `or` up to the first that is
   not, or that fails, or is the last, and gives what that one gives.
   */
  lemma ChainMeans(c: Platform, s: Store, key: string, xs: seq<Json>) returns (k: nat, stores: seq<Store>)
    requires key in ["and", "&&", "or", "||"] && |xs| >= 2
    ensures Chained(c, s, key == "and" || key == "&&", xs, k, stores)
    ensures Eval(c, s, Call(key, xs)) == Eval(c, stores[k], xs[k])
  {
    var conjunction := key == "and" || key == "&&";
    Called(c, s, key, xs, if conjunction then And else Or);
    Parts(key, xs);
    hide Eval, Chained;
    k, stores := ChainTrace(c, s, conjunction, xs);
  }

  ghost predicate Chained(c: Platform, s: Store, conjunction: bool, xs: seq<Json>, k: nat, stores: seq<Store>) {
    && k < |xs| && |stores| == k + 1 && stores[0] == s
    && (forall i :: 0 <= i < k ==> Passed(c, stores[i], stores[i + 1], conjunction, xs[i]))
    && (k == |xs| - 1 || forall v :: Eval(c, stores[k], xs[k]).result == Ok(v) ==> !GoesOn(conjunction, v))
  }

  ghost predicate Passed(c: Platform, s: Store, t: Store, conjunction: bool, x: Json) {
    var a := Eval(c, s, x);
    a.store == t && a.result.Ok? && GoesOn(conjunction, a.result.value)
  }

  lemma {:induction false} ChainTrace(c: Platform, s: Store, conjunction: bool, xs: seq<Json>) returns (k: nat, stores: seq<Store>)
    requires xs != []
    ensures Chained(c, s, conjunction, xs, k, stores)
    ensures EvalChain(c, s, xs, conjunction) == Eval(c, stores[k], xs[k])
    decreases |xs|
  {
    hide Eval;
    var a := Eval(c, s, xs[0]);
    k, stores := 0, [s];
    if a.result.Ok? {
      TruthyIs(a.result.value);
      if |xs| > 1 && GoesOn(conjunction, a.result.value) {
        var k', stores' := ChainTrace(c, a.store, conjunction, xs[1..]);
        k, stores := k' + 1, [s] + stores';
        forall i | 0 <= i < k ensures Passed(c, stores[i], stores[i + 1], conjunction, xs[i]) {
          if i > 0 { assert Passed(c, stores'[i - 1], stores'[i], conjunction, xs[1..][i - 1]); }
        }
        assert xs[k] == xs[1..][k'] && stores[k] == stores'[k'];
      }
    }
  }

  // ---------------------------------------------------------------- variables

  /** What a name stands for: the empty name for the environment value, a name not in the store for nothing. */
  ghost function Bound(s: Store, name: string): JsValue {
    if name == "" then s.env else if name in s.vars then s.vars[name] else Undefined
  }

  /** A name in front of a pointer, which is empty or starts with a slash. */
  ghost predicate Names(path: JsValue, name: string, pointer: string) {
    path == Json(String(name + pointer)) && '/' !in name && (pointer == "" || pointer[0] == '/')
  }

  lemma {:induction false} NameEnds(name: string, pointer: string)
    requires '/' !in name && (pointer == "" || pointer[0] == '/')
    ensures NameEnd(name + pointer) == |name|
  {
    if name != "" {
      assert (name + pointer)[0] == name[0] && (name + pointer)[1..] == name[1..] + pointer;
      NameEnds(name[1..], pointer);
    } else {
      assert name + pointer == pointer;
    }
  }

  lemma Resolved(c: Platform, s: Store, path: JsValue, name: string, pointer: string)
    requires Names(path, name, pointer)
    ensures ResolveVar(c, s, path) == c.point(Bound(s, name), pointer)
  {
    NameEnds(name, pointer);
    assert (name + pointer)[..|name|] == name && (name + pointer)[|name|..] == pointer;
  }

  /** `get` gives the part of the variable the pointer leads to, and fails when there is none. */
  lemma GetMeans(c: Platform, s: Store, key: string, x: Json, name: string, pointer: string)
    requires key == "get" || key == "$"
    requires Eval(c, s, x).result.Ok? && Names(Eval(c, s, x).result.value, name, pointer)
    ensures var t := Eval(c, s, x).store;
            Eval(c, s, Call(key, [x])) == Outcome(t, match c.point(Bound(t, name), pointer)
                                                     case Err(error) => Err(error)
                                                     case Ok(w) => if w == Undefined then Err(NotFound) else Ok(w))
  {
    Called(c, s, key, [x], Get);
    Parts(key, [x]);
    Resolved(c, Eval(c, s, x).store, Eval(c, s, x).result.value, name, pointer);
    assert [x][1..] == [];
    hide Eval, ResolveVar;
  }

  /** With a default, that is evaluated too, and given when there is none and it is something. */
  lemma GetOrMeans(c: Platform, s: Store, key: string, x: Json, d: Json, name: string, pointer: string)
    requires key == "get" || key == "$"
    requires Eval(c, s, x).result.Ok? && Names(Eval(c, s, x).result.value, name, pointer)
    ensures var b := Eval(c, Eval(c, s, x).store, d);
            Eval(c, s, Call(key, [x, d])) == match b.result
                                             case Err(_) => b
                                             case Ok(dv) => Outcome(b.store, match c.point(Bound(b.store, name), pointer)
                                                                             case Err(error) => Err(error)
                                                                             case Ok(w) => if w != Undefined then Ok(w) else if dv != Undefined then Ok(dv) else Err(NotFound))
  {
    var a := Eval(c, s, x);
    Called(c, s, key, [x, d], Get);
    Parts(key, [x, d]);
    Resolved(c, Eval(c, a.store, d).store, a.result.value, name, pointer);
    assert [x, d][1..] == [d];
    hide Eval, ResolveVar;
  }

  lemma DefinedMeans(c: Platform, s: Store, key: string, x: Json, name: string, pointer: string)
    requires key == "get?" || key == "$?"
    requires Eval(c, s, x).result.Ok? && Names(Eval(c, s, x).result.value, name, pointer)
    ensures var t := Eval(c, s, x).store;
            Eval(c, s, Call(key, [x])) == Outcome(t, match c.point(Bound(t, name), pointer)
                                                     case Err(error) => Err(error)
                                                     case Ok(w) => Ok(Json(Bool(w != Undefined))))
  {
    Called(c, s, key, [x], Defined);
    Parts(key, [x]);
    Resolved(c, Eval(c, s, x).store, Eval(c, s, x).result.value, name, pointer);
    hide Eval, ResolveVar;
  }

  // ---------------------------------------------------------------- operators that evaluate all their operands

  ghost predicate AllEvaluated(c: Platform, xs: seq<Json>, stores: seq<Store>, values: seq<JsValue>) {
    |stores| == |xs| + 1 && |values| == |xs| && forall i :: 0 <= i < |xs| ==> Eval(c, stores[i], xs[i]) == Outcome(stores[i + 1], Ok(values[i]))
  }

  /** A strict operator that succeeds has evaluated its operands in order, each in the store the one before left. */
  lemma StrictMeans(c: Platform, s: Store, key: string, xs: seq<Json>) returns (stores: seq<Store>, values: seq<JsValue>)
    requires !Built(key) && c.strict(key) && xs != [] && c.arity(key, |xs| + 1) && Eval(c, s, Call(key, xs)).result.Ok?
    ensures AllEvaluated(c, xs, stores, values) && stores[0] == s
    ensures Eval(c, s, Call(key, xs)) == Outcome(stores[|xs|], c.finish(key, values))
  {
    Called(c, s, key, xs, Strict);
    Parts(key, xs);
    hide Eval;
    stores, values := StrictTrace(c, s, key, xs, []);
    assert [] + values == values;
  }

  lemma {:induction false} StrictTrace(c: Platform, s: Store, key: string, xs: seq<Json>, args: seq<JsValue>)
    returns (stores: seq<Store>, values: seq<JsValue>)
    requires EvalStrict(c, s, key, xs, args).result.Ok?
    ensures AllEvaluated(c, xs, stores, values) && stores[0] == s
    ensures EvalStrict(c, s, key, xs, args) == Outcome(stores[|xs|], c.finish(key, args + values))
    decreases |xs|
  {
    hide Eval;
    stores, values := [s], [];
    if xs == [] {
      assert args + values == args;
    } else {
      var a := Eval(c, s, xs[0]);
      var v := a.result.value;
      var stores', values' := StrictTrace(c, a.store, key, xs[1..], args + [v]);
      stores, values := [s] + stores', [v] + values';
      assert args + [v] + values' == args + values;
      forall i | 0 <= i < |xs| ensures Eval(c, stores[i], xs[i]) == Outcome(stores[i + 1], Ok(values[i])) {
        if i > 0 { assert Eval(c, stores'[i - 1], xs[1..][i - 1]) == Outcome(stores'[i], Ok(values'[i - 1])); }
      }
    }
  }

  // ---------------------------------------------------------------- filter and map

  /** The store with one name bound. */
  ghost function Bind(s: Store, name: string, v: JsValue): Store {
    Store(s.env, s.vars[name := v])
  }

  /** The store without a name; nothing is bound under the empty one. */
  ghost function Unbind(s: Store, name: string): Store {
    if name == "" then s else Store(s.env, s.vars - {name})
  }

  /** A literal name, bare or in an array of one. */
  ghost predicate IsName(literal: Json, name: string) {
    literal == String(name) || literal == Array([String(name)])
  }

  /** The body was evaluated once for each element, with it bound, in the store the one before left. */
  ghost predicate EachEvaluated(c: Platform, items: seq<Json>, name: string, body: Json, stores: seq<Store>, values: seq<JsValue>) {
    && |stores| == |items| + 1 && |values| == |items|
    && (forall i :: 0 <= i < |items| ==> Eval(c, Bind(stores[i], name, Json(items[i])), body) == Outcome(stores[i + 1], Ok(values[i])))
    && (name == "" ==> items == [])
  }

  lemma OverCalled(c: Platform, s: Store, key: string, x: Json, literal: Json, body: Json)
    requires key == "filter" || key == "map"
    ensures var a := Eval(c, s, x);
            Eval(c, s, Call(key, [x, literal, body])) == if a.result.Err? then a
                                                         else if key == "filter" then EvalFilter(c, a.store, a.result.value, literal, body)
                                                         else EvalMap(c, a.store, a.result.value, literal, body)
  {
    var xs := [x, literal, body];
    Called(c, s, key, xs, if key == "filter" then Filter else Map);
    Parts(key, xs);
    hide Eval, EvalFilter, EvalMap;
  }

  ghost predicate Ascending(places: seq<nat>) {
    forall a, b :: 0 <= a < b < |places| ==> places[a] < places[b]
  }

  /** `out` is, in order, the elements whose value is not false. */
  ghost predicate KeptOnly(items: seq<Json>, values: seq<JsValue>, places: seq<nat>, out: seq<Json>)
    requires |values| == |items|
  {
    && |places| == |out| && Ascending(places)
    && (forall k :: 0 <= k < |out| ==> places[k] < |items| && out[k] == items[places[k]])
    && (forall i: nat :: i in places <==> i < |items| && !Falsy(values[i]))
  }

  lemma LiteralIs(literal: Json, name: string)
    ensures LiteralString(literal) == Ok(name) <==> IsName(literal, name)
  {
    if IsName(literal, name) && literal.Array? { assert literal.items[0] == String(name); }
    if LiteralString(literal) == Ok(name) && literal.Array? { assert literal.items == [String(name)]; }
  }

  /** A `filter` that succeeds keeps exactly the elements the body is not false for, in order, and unbinds its name. */
  lemma FilterMeans(c: Platform, s: Store, x: Json, literal: Json, body: Json)
    returns (name: string, items: seq<Json>, stores: seq<Store>, values: seq<JsValue>, places: seq<nat>, out: seq<Json>)
    requires Eval(c, s, Call("filter", [x, literal, body])).result.Ok?
    ensures EachEvaluated(c, items, name, body, stores, values) && KeptOnly(items, values, places, out)
    ensures Eval(c, s, x) == Outcome(stores[0], Ok(Json(Array(items)))) && IsName(literal, name)
    ensures Eval(c, s, Call("filter", [x, literal, body])) == Outcome(Unbind(stores[|items|], name), Ok(Json(Array(out))))
  {
    OverCalled(c, s, "filter", x, literal, body);
    hide Eval, FilterLoop, KeptOnly;
    var a := Eval(c, s, x);
    items, name := AsArray(a.result.value).value, LiteralString(literal).value;
    LiteralIs(literal, name);
    stores, values, places, out := FilterTrace(c, a.store, items, name, body);
  }

  lemma {:induction false} FilterTrace(c: Platform, s: Store, items: seq<Json>, name: string, body: Json)
    returns (stores: seq<Store>, values: seq<JsValue>, places: seq<nat>, out: seq<Json>)
    requires FilterLoop(c, s, items, name, body).result.Ok?
    ensures EachEvaluated(c, items, name, body, stores, values) && stores[0] == s && KeptOnly(items, values, places, out)
    ensures FilterLoop(c, s, items, name, body) == Listed(stores[|items|], Ok(out))
    decreases |items|
  {
    hide Eval, KeptOnly, Falsy;
    stores, values, places, out := [s], [], [], [];
    if items == [] {
      NothingKept();
    } else {
      var r := Eval(c, SetVar(s, name, Json(items[0])), body);
      var v := r.result.value;
      var stores', values', places', out' := FilterTrace(c, r.store, items[1..], name, body);
      EachMore(c, items, name, body, s, v, stores', values');
      stores, values := [s] + stores', [v] + values';
      TruthyIs(v);
      places, out := KeptMore(items, v, values', places', out');
    }
  }

  lemma NothingKept()
    ensures KeptOnly([], [], [], [])
  {
  }

  lemma EachMore(c: Platform, items: seq<Json>, name: string, body: Json, s: Store, v: JsValue, stores: seq<Store>, values: seq<JsValue>)
    requires items != [] && name != "" && EachEvaluated(c, items[1..], name, body, stores, values)
    requires Eval(c, Bind(s, name, Json(items[0])), body) == Outcome(stores[0], Ok(v))
    ensures EachEvaluated(c, items, name, body, [s] + stores, [v] + values)
  {
    hide Eval;
    forall i | 0 <= i < |items|
      ensures Eval(c, Bind(([s] + stores)[i], name, Json(items[i])), body) == Outcome(([s] + stores)[i + 1], Ok(([v] + values)[i]))
    {
      if i > 0 { assert Eval(c, Bind(stores[i - 1], name, Json(items[1..][i - 1])), body) == Outcome(stores[i], Ok(values[i - 1])); }
    }
  }

  ghost function Shifted(places: seq<nat>): seq<nat> {
    seq(|places|, (i: nat) requires i < |places| => places[i] + 1)
  }

  lemma KeptMore(items: seq<Json>, v: JsValue, values: seq<JsValue>, places: seq<nat>, out: seq<Json>) returns (places': seq<nat>, out': seq<Json>)
    requires items != [] && |values| == |items| - 1 && KeptOnly(items[1..], values, places, out)
    ensures KeptOnly(items, [v] + values, places', out')
    ensures out' == (if Falsy(v) then [] else [items[0]]) + out
  {
    hide Falsy;
    var head: seq<nat> := if Falsy(v) then [] else [0];
    places', out' := head + Shifted(places), (if Falsy(v) then [] else [items[0]]) + out;
    forall i: nat ensures i in places' <==> i < |items| && !Falsy(([v] + values)[i]) {
      if i > 0 {
        assert i - 1 in places <==> i - 1 < |items[1..]| && !Falsy(values[i - 1]);
        if i - 1 in places {
          var k :| 0 <= k < |places| && places[k] == i - 1;
          assert Shifted(places)[k] == i;
        }
      }
    }
    forall k | 0 <= k < |out'| ensures places'[k] < |items| && out'[k] == items[places'[k]] {
      if k >= |head| { assert out'[k] == out[k - |head|] == items[1..][places[k - |head|]]; }
    }
  }

  /** A `map` that succeeds gives the body's value for each element, null for what is not JSON, and unbinds its name. */
  lemma MapMeans(c: Platform, s: Store, x: Json, literal: Json, body: Json)
    returns (name: string, items: seq<Json>, stores: seq<Store>, values: seq<JsValue>, out: seq<Json>)
    requires Eval(c, s, Call("map", [x, literal, body])).result.Ok?
    ensures EachEvaluated(c, items, name, body, stores, values)
    ensures Eval(c, s, x) == Outcome(stores[0], Ok(Json(Array(items)))) && IsName(literal, name)
    ensures |out| == |items| && forall i :: 0 <= i < |out| ==> out[i] == if values[i].Json? then values[i].v else Null
    ensures Eval(c, s, Call("map", [x, literal, body])) == Outcome(Unbind(stores[|items|], name), Ok(Json(Array(out))))
  {
    OverCalled(c, s, "map", x, literal, body);
    hide Eval, MapLoop;
    var a := Eval(c, s, x);
    items, name := AsArray(a.result.value).value, LiteralString(literal).value;
    LiteralIs(literal, name);
    stores, values, out := MapTrace(c, a.store, items, name, body);
  }

  lemma {:induction false} MapTrace(c: Platform, s: Store, items: seq<Json>, name: string, body: Json)
    returns (stores: seq<Store>, values: seq<JsValue>, out: seq<Json>)
    requires MapLoop(c, s, items, name, body).result.Ok?
    ensures EachEvaluated(c, items, name, body, stores, values) && stores[0] == s
    ensures |out| == |items| && forall i :: 0 <= i < |out| ==> out[i] == if values[i].Json? then values[i].v else Null
    ensures MapLoop(c, s, items, name, body) == Listed(stores[|items|], Ok(out))
    decreases |items|
  {
    hide Eval;
    stores, values, out := [s], [], [];
    if items != [] {
      var r := Eval(c, SetVar(s, name, Json(items[0])), body);
      var v := r.result.value;
      var stores', values', out' := MapTrace(c, r.store, items[1..], name, body);
      EachMore(c, items, name, body, s, v, stores', values');
      stores, values, out := [s] + stores', [v] + values', [ToJson(v)] + out';
    }
  }

  lemma LoopMistakes(c: Platform, s: Store, items: seq<Json>, literal: Json, body: Json)
    ensures literal.Array? && |literal.items| != 1 ==> LiteralString(literal) == Err(InvalidLiteral)
    ensures !literal.Array? && !literal.String? ==> LiteralString(literal) == Err(NotString)
    ensures literal.Array? && |literal.items| == 1 && !literal.items[0].String? ==> LiteralString(literal) == Err(NotString)
    ensures items != [] ==> FilterLoop(c, s, items, "", body) == Listed(s, Err(InvalidVarname))
    ensures items != [] ==> MapLoop(c, s, items, "", body) == Listed(s, Err(InvalidVarname))
  {
  }

  /** Where `filter` and `map` fail before they evaluate their body. */
  lemma LoopMistakeMeans(c: Platform, s: Store, key: string, x: Json, literal: Json, body: Json)
    requires key == "filter" || key == "map"
    ensures var a, r := Eval(c, s, x), Eval(c, s, Call(key, [x, literal, body]));
            match a.result
            case Err(_) => r == a
            case Ok(v) =>
              && (!(v.Json? && v.v.Array?) ==> r == Outcome(a.store, Err(NotArray)))
              && (v.Json? && v.v.Array? ==>
                    && (literal.Array? && |literal.items| != 1 ==> r == Outcome(a.store, Err(InvalidLiteral)))
                    && (!literal.Array? && !literal.String? ==> r == Outcome(a.store, Err(NotString)))
                    && (literal.Array? && |literal.items| == 1 && !literal.items[0].String? ==> r == Outcome(a.store, Err(NotString)))
                    && (IsName(literal, "") && v.v.items != [] ==> r == Outcome(a.store, Err(InvalidVarname))))
  {
    OverCalled(c, s, key, x, literal, body);
    LiteralIs(literal, "");
    var a := Eval(c, s, x);
    hide Eval, FilterLoop, MapLoop;
    LoopMistakes(c, a.store, if a.result.Ok? && AsArray(a.result.value).Ok? then AsArray(a.result.value).value else [], literal, body);
  }

  // ---------------------------------------------------------------- reduce

  /** A left fold: each step sees accumulator and element bound, and its value becomes the accumulator. */
  ghost predicate Folded(c: Platform, items: seq<Json>, acc: string, name: string, body: Json, stores: seq<Store>, values: seq<JsValue>) {
    && |stores| == |items| + 1 && |values| == |items|
    && (forall i :: 0 <= i < |items| ==> FoldedOnce(c, stores[i], items[i], acc, name, body, values[i], stores[i + 1]))
    && (name == "" ==> items == [])
  }

  ghost predicate FoldedOnce(c: Platform, s: Store, item: Json, acc: string, name: string, body: Json, v: JsValue, t: Store) {
    var r := Eval(c, Bind(s, name, Json(item)), body);
    r.result == Ok(v) && t == Bind(r.store, acc, v)
  }

  lemma ReduceCalled(c: Platform, s: Store, x: Json, rest: seq<Json>)
    requires |rest| == 4
    ensures var a := Eval(c, s, x);
            Eval(c, s, Call("reduce", [x, rest[0], rest[1], rest[2], rest[3]])) == if a.result.Err? then a else EvalReduce(c, a.store, a.result.value, rest)
  {
    var xs := [x, rest[0], rest[1], rest[2], rest[3]];
    Called(c, s, "reduce", xs, Reduce);
    Parts("reduce", xs);
    assert xs[1..] == rest;
    hide Eval, EvalReduce;
  }

  /** A `reduce` that succeeds folds from its initial value, gives the accumulator and unbinds both names. */
  lemma ReduceMeans(c: Platform, s: Store, x: Json, start: Json, l: Json, l': Json, body: Json)
    returns (acc: string, name: string, items: seq<Json>, stores: seq<Store>, values: seq<JsValue>)
    requires Eval(c, s, Call("reduce", [x, start, l, l', body])).result.Ok?
    ensures var a := Eval(c, s, x);
            var i := Eval(c, a.store, start);
            && a.result == Ok(Json(Array(items))) && i.result.Ok? && IsName(l, acc) && IsName(l', name) && acc != ""
            && Folded(c, items, acc, name, body, stores, values) && stores[0] == Bind(i.store, acc, i.result.value)
            && Eval(c, s, Call("reduce", [x, start, l, l', body])) == Outcome(Unbind(Unbind(stores[|items|], acc), name), Ok(Bound(stores[|items|], acc)))
  {
    ReduceCalled(c, s, x, [start, l, l', body]);
    hide Eval, ReduceLoop, Folded, LiteralString, IsName;
    var a := Eval(c, s, x);
    var i := Eval(c, a.store, start);
    items, acc, name := AsArray(a.result.value).value, LiteralString(l).value, LiteralString(l').value;
    LiteralIs(l, acc);
    LiteralIs(l', name);
    stores, values := FoldTrace(c, SetVar(i.store, acc, i.result.value), items, acc, name, body);
  }

  lemma {:induction false} FoldTrace(c: Platform, s: Store, items: seq<Json>, acc: string, name: string, body: Json)
    returns (stores: seq<Store>, values: seq<JsValue>)
    requires ReduceLoop(c, s, items, acc, name, body).result.Ok?
    ensures Folded(c, items, acc, name, body, stores, values) && stores[0] == s
    ensures ReduceLoop(c, s, items, acc, name, body).store == stores[|items|]
    decreases |items|
  {
    hide Eval;
    stores, values := [s], [];
    if items != [] {
      var r := Eval(c, SetVar(s, name, Json(items[0])), body);
      var v := r.result.value;
      var stores', values' := FoldTrace(c, SetVar(r.store, acc, v), items[1..], acc, name, body);
      stores, values := [s] + stores', [v] + values';
      forall i | 0 <= i < |items| ensures FoldedOnce(c, stores[i], items[i], acc, name, body, values[i], stores[i + 1]) {
        if i > 0 { assert FoldedOnce(c, stores'[i - 1], items[1..][i - 1], acc, name, body, values'[i - 1], stores'[i]); }
      }
    }
  }
}
