/** The evaluator as it runs: one mutable variable store, loops that set and delete names in it. Each method does what its function in module Expression says. */
module ExpressionEvaluator {
  import opened Common
  import opened Json
  import opened Expression

  class Vars {
    var env: JsValue
    var vars: map<string, JsValue>

    constructor (env: JsValue)
      ensures State() == Store(env, map[])
    {
      this.env, vars := env, map[];
    }

    ghost function State(): Store
      reads this
    {
      Store(env, vars)
    }

    function Get(name: string): (r: JsValue)
      reads this
      ensures r == GetVar(State(), name)
    {
      if name == "" then env else if name in vars then vars[name] else Undefined
    }

    /** Only the environment has no name of its own, and it cannot be set. */
    method Set(name: string, v: JsValue) returns (ok: bool)
      modifies this`vars
      ensures ok == (name != "") && State() == if ok then SetVar(old(State()), name, v) else old(State())
    {
      if name == "" { return false; }
      vars := vars[name := v];
      ok := true;
    }

    method Del(name: string) returns (removed: bool)
      modifies this`vars
      ensures removed == (name != "" && name in old(vars)) && State() == DelVar(old(State()), name)
    {
      if name == "" { return false; }
      removed := name in vars;
      vars := vars - {name};
    }
  }

  method Evaluate(c: Platform, vars: Vars, e: Json) returns (r: Result<JsValue, JsError>)
    modifies vars`vars
    ensures Outcome(vars.State(), r) == Eval(c, old(vars.State()), e)
    decreases e, 1
  {
    hide EvalOp;
    match FormOf(c, e) {
      case Literal(v) => r := Ok(Json(v));
      case Bad(error) => r := Err(error);
      case Apply(op, key) => r := EvaluateOp(c, vars, e, op, key);
    }
  }

  method EvaluateOp(c: Platform, vars: Vars, e: Json, op: Op, key: string) returns (r: Result<JsValue, JsError>)
    requires e.Array? && |e.items| >= 2 && ArityOk(c, key, op, |e.items|)
    modifies vars`vars
    ensures Outcome(vars.State(), r) == EvalOp(c, old(vars.State()), e, op, key)
    decreases e, 0
  {
    hide Eval, EvalStrict, EvalChain, EvalGet, EvalFilter, EvalMap, EvalReduce, Expression.ResolveVar;
    var xs := e.items;
    if op == Strict {
      r := StrictEval(c, vars, key, xs[1..]);
    } else if op == And || op == Or {
      r := ChainEval(c, vars, xs[1..], op == And);
    } else {
      var a := Evaluate(c, vars, xs[1]);
      if a.Err? { return a; }
      var v := a.value;
      if op == Not {
        r := Ok(Json(Bool(!IsTruthy(v))));
      } else if op == Throw {
        r := Err(Thrown(c.text(v)));
      } else if op == If {
        r := Evaluate(c, vars, if IsTruthy(v) then xs[2] else xs[3]);
      } else if op == Defined {
        var w := ResolveVar(c, vars, v);
        r := if w.Ok? then Ok(Json(Bool(w.value != Undefined))) else Err(w.error);
      } else if op == Get {
        r := GetEval(c, vars, v, xs[2..]);
      } else if op == Filter {
        r := FilterEval(c, vars, v, xs[2], xs[3]);
      } else if op == Map {
        r := MapEval(c, vars, v, xs[2], xs[3]);
      } else {
        r := ReduceEval(c, vars, v, xs[2..]);
      }
    }
  }

  method ResolveVar(c: Platform, vars: Vars, name: JsValue) returns (r: Result<JsValue, JsError>)
    ensures r == Expression.ResolveVar(c, vars.State(), name)
  {
    if !(name.Json? && name.v.String?) { return Err(VarnameMustBeString); }
    var n := NameEnd(name.v.s);
    r := c.point(vars.Get(name.v.s[..n]), name.v.s[n..]);
  }

  method StrictEval(c: Platform, vars: Vars, key: string, operands: seq<Json>) returns (r: Result<JsValue, JsError>)
    modifies vars`vars
    ensures Outcome(vars.State(), r) == EvalStrict(c, old(vars.State()), key, operands, [])
    decreases operands, 0
  {
    hide Eval;
    var args := [];
    var i := 0;
    assert operands[0..] == operands;
    while i < |operands|
      invariant 0 <= i <= |operands|
      invariant EvalStrict(c, vars.State(), key, operands[i..], args) == EvalStrict(c, old(vars.State()), key, operands, [])
    {
      assert operands[i..][0] == operands[i] && operands[i..][1..] == operands[i + 1..];
      var a := Evaluate(c, vars, operands[i]);
      if a.Err? { return a; }
      args := args + [a.value];
      var refused := c.refuses(key, args);
      if refused.Some? { return Err(refused.value); }
      i := i + 1;
    }
    assert operands[i..] == [];
    r := c.finish(key, args);
  }

  method ChainEval(c: Platform, vars: Vars, operands: seq<Json>, goOn: bool) returns (r: Result<JsValue, JsError>)
    requires operands != []
    modifies vars`vars
    ensures Outcome(vars.State(), r) == EvalChain(c, old(vars.State()), operands, goOn)
    decreases operands, 0
  {
    hide Eval;
    ghost var whole := EvalChain(c, vars.State(), operands, goOn);
    r := Evaluate(c, vars, operands[0]);
    var i := 1;
    while i < |operands|
      invariant 1 <= i <= |operands|
      invariant if r.Err? || i == |operands| || IsTruthy(r.value) != goOn then whole == Outcome(vars.State(), r)
                else whole == EvalChain(c, vars.State(), operands[i..], goOn)
    {
      if r.Err? || IsTruthy(r.value) != goOn { return; }
      assert operands[i..][0] == operands[i] && operands[i..][1..] == operands[i + 1..];
      r := Evaluate(c, vars, operands[i]);
      i := i + 1;
    }
  }

  method GetEval(c: Platform, vars: Vars, name: JsValue, default: seq<Json>) returns (r: Result<JsValue, JsError>)
    modifies vars`vars
    ensures Outcome(vars.State(), r) == EvalGet(c, old(vars.State()), name, default)
    decreases default, 0
  {
    hide Eval, Expression.ResolveVar;
    var d: Option<JsValue> := None;
    if default != [] {
      var b := Evaluate(c, vars, default[0]);
      if b.Err? { return b; }
      d := Some(b.value);
    }
    var w := ResolveVar(c, vars, name);
    r := if w.Ok? then ThrowOnUndefined(w.value, d) else Err(w.error);
  }

  method FilterEval(c: Platform, vars: Vars, v: JsValue, literal: Json, body: Json) returns (r: Result<JsValue, JsError>)
    modifies vars`vars
    ensures Outcome(vars.State(), r) == EvalFilter(c, old(vars.State()), v, literal, body)
    decreases body, 4
  {
    hide FilterLoop;
    var arr := AsArray(v);
    if arr.Err? { return Err(arr.error); }
    var varname := LiteralString(literal);
    if varname.Err? { return Err(varname.error); }
    r := FilterArr(c, vars, arr.value, varname.value, body);
  }

  method FilterArr(c: Platform, vars: Vars, arr: seq<Json>, varname: string, body: Json) returns (r: Result<JsValue, JsError>)
    modifies vars`vars
    ensures Outcome(vars.State(), r) == Close(FilterLoop(c, old(vars.State()), arr, varname, body), varname)
    decreases body, 3
  {
    hide Eval;
    ghost var whole := FilterLoop(c, vars.State(), arr, varname, body);
    var result := [];
    var i := 0;
    assert arr[0..] == arr;
    ListStart(whole);
    while i < |arr|
      invariant 0 <= i <= |arr| && Continues(whole, result, FilterLoop(c, vars.State(), arr[i..], varname, body))
    {
      assert arr[i..][0] == arr[i] && arr[i..][1..] == arr[i + 1..];
      ghost var more := FilterLoop(c, vars.State(), arr[i..], varname, body);
      var ok := vars.Set(varname, Json(arr[i]));
      if !ok { return Err(InvalidVarname); }
      var keep := Evaluate(c, vars, body);
      if keep.Err? { return keep; }
      ListOn(whole, result, more, if IsTruthy(keep.value) then [arr[i]] else [], FilterLoop(c, vars.State(), arr[i + 1..], varname, body));
      result := result + if IsTruthy(keep.value) then [arr[i]] else [];
      i := i + 1;
    }
    assert arr[i..] == [] && result + [] == result;
    var _ := vars.Del(varname);
    r := Ok(Json(Array(result)));
  }

  method MapEval(c: Platform, vars: Vars, v: JsValue, literal: Json, body: Json) returns (r: Result<JsValue, JsError>)
    modifies vars`vars
    ensures Outcome(vars.State(), r) == EvalMap(c, old(vars.State()), v, literal, body)
    decreases body, 4
  {
    hide MapLoop;
    var arr := AsArray(v);
    if arr.Err? { return Err(arr.error); }
    var varname := LiteralString(literal);
    if varname.Err? { return Err(varname.error); }
    r := MapArr(c, vars, arr.value, varname.value, body);
  }

  method MapArr(c: Platform, vars: Vars, arr: seq<Json>, varname: string, body: Json) returns (r: Result<JsValue, JsError>)
    modifies vars`vars
    ensures Outcome(vars.State(), r) == Close(MapLoop(c, old(vars.State()), arr, varname, body), varname)
    decreases body, 3
  {
    hide Eval;
    ghost var whole := MapLoop(c, vars.State(), arr, varname, body);
    var result := [];
    var i := 0;
    assert arr[0..] == arr;
    ListStart(whole);
    while i < |arr|
      invariant 0 <= i <= |arr| && Continues(whole, result, MapLoop(c, vars.State(), arr[i..], varname, body))
    {
      assert arr[i..][0] == arr[i] && arr[i..][1..] == arr[i + 1..];
      ghost var more := MapLoop(c, vars.State(), arr[i..], varname, body);
      var ok := vars.Set(varname, Json(arr[i]));
      if !ok { return Err(InvalidVarname); }
      var mapped := Evaluate(c, vars, body);
      if mapped.Err? { return mapped; }
      ListOn(whole, result, more, [ToJson(mapped.value)], MapLoop(c, vars.State(), arr[i + 1..], varname, body));
      result := result + [ToJson(mapped.value)];
      i := i + 1;
    }
    assert arr[i..] == [] && result + [] == result;
    var _ := vars.Del(varname);
    r := Ok(Json(Array(result)));
  }

  method ReduceEval(c: Platform, vars: Vars, v: JsValue, rest: seq<Json>) returns (r: Result<JsValue, JsError>)
    requires |rest| == 4
    modifies vars`vars
    ensures Outcome(vars.State(), r) == EvalReduce(c, old(vars.State()), v, rest)
    decreases rest, 4
  {
    hide Eval, FoldInStore;
    var arr := AsArray(v);
    if arr.Err? { return Err(arr.error); }
    var initial := Evaluate(c, vars, rest[0]);
    if initial.Err? { return initial; }
    var accname := LiteralString(rest[1]);
    if accname.Err? { return Err(accname.error); }
    var varname := LiteralString(rest[2]);
    if varname.Err? { return Err(varname.error); }
    r := ReduceArr(c, vars, arr.value, initial.value, accname.value, varname.value, rest[3]);
  }

  method ReduceArr(c: Platform, vars: Vars, arr: seq<Json>, initial: JsValue, accname: string, varname: string, body: Json) returns (r: Result<JsValue, JsError>)
    modifies vars`vars
    ensures Outcome(vars.State(), r) == FoldInStore(c, old(vars.State()), initial, arr, accname, varname, body)
    decreases body, 3
  {
    hide Eval;
    var ok := vars.Set(accname, initial);
    if !ok { return Err(InvalidVarname); }
    ghost var whole := ReduceLoop(c, vars.State(), arr, accname, varname, body);
    var i := 0;
    assert arr[0..] == arr;
    while i < |arr|
      invariant 0 <= i <= |arr| && whole == ReduceLoop(c, vars.State(), arr[i..], accname, varname, body)
    {
      assert arr[i..][0] == arr[i] && arr[i..][1..] == arr[i + 1..];
      ok := vars.Set(varname, Json(arr[i]));
      if !ok { return Err(InvalidVarname); }
      var res := Evaluate(c, vars, body);
      if res.Err? { return res; }
      var _ := vars.Set(accname, res.value);
      i := i + 1;
    }
    assert arr[i..] == [];
    var result := vars.Get(accname);
    var _ := vars.Del(accname);
    var _ := vars.Del(varname);
    r := Ok(result);
  }

  /** A list built so far, and what the rest of the loop makes of the whole. */
  ghost predicate Continues(whole: Listed, got: seq<Json>, more: Listed) {
    && whole.store == more.store
    && whole.result == match more.result case Ok(rest) => Ok(got + rest) case Err(error) => Err(error)
  }

  lemma ListStart(whole: Listed)
    ensures Continues(whole, [], whole)
  {
    if whole.result.Ok? { assert [] + whole.result.value == whole.result.value; }
  }

  lemma ListOn(whole: Listed, got: seq<Json>, more: Listed, next: seq<Json>, left: Listed)
    requires Continues(whole, got, more) && more.store == left.store
    requires more.result == match left.result case Ok(rest) => Ok(next + rest) case Err(error) => Err(error)
    ensures Continues(whole, got + next, left)
  {
    if left.result.Ok? { ConcatAssoc(got, next, left.result.value); }
  }
}
