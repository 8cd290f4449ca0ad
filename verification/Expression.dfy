/**
 The evaluator of crates/json-expression: expressions are JSON, `filter`, `map` and `reduce` set and
 delete names in one store that the whole evaluation shares. Beside it the evaluator one would want,
 which passes environments down and touches no store.
 */
module Expression {
  import opened Common
  import opened Json

  datatype JsValue = Undefined | Json(v: Json) | Binary(bytes: seq<Byte>)

  datatype JsError =
    | ArityError
    | UnknownExpression
    | NotFound
    | NotArray
    | NotString
    | InvalidLiteral
    | InvalidVarname
    | VarnameMustBeString
    | Thrown(message: string)
    | Other(code: nat)

  /** The environment value and the named variables. */
  datatype Store = Store(env: JsValue, vars: map<string, JsValue>)

  datatype Outcome = Outcome(store: Store, result: Result<JsValue, JsError>)

  datatype Op = Filter | Map | Reduce | Get | Defined | If | Throw | And | Or | Not | Strict

  /**
   What the evaluator takes from elsewhere: the operators that evaluate each operand once, from left
   to right, and compute a value from them, failing early or at the end; strings of values; and the
   part of a value a JSON pointer leads to.
   */
  datatype Platform = Platform(
    strict: string -> bool,
    arity: (string, nat) -> bool,
    refuses: (string, seq<JsValue>) -> Option<JsError>,
    finish: (string, seq<JsValue>) -> Result<JsValue, JsError>,
    text: JsValue -> string,
    point: (JsValue, string) -> Result<JsValue, JsError>
  )

  // ---------------------------------------------------------------- values and names

  function IsTruthy(v: JsValue): bool {
    match v
    case Undefined => false
    case Binary(b) => b != []
    case Json(j) =>
      match j
      case Null => false
      case Bool(b) => b
      case Number(n) => n != 0.0
      case String(s) => s != ""
      case Array(_) => true
      case Object(_) => true
  }

  function ToJson(v: JsValue): Json {
    if v.Json? then v.v else Null
  }

  function AsArray(v: JsValue): Result<seq<Json>, JsError> {
    if v.Json? && v.v.Array? then Ok(v.v.items) else Err(NotArray)
  }

  /** A literal, bare or wrapped in an array of one, that is a string. */
  function LiteralString(e: Json): Result<string, JsError> {
    if e.Array? && |e.items| != 1 then Err(InvalidLiteral) else
    var l := if e.Array? then e.items[0] else e;
    if l.String? then Ok(l.s) else Err(NotString)
  }

  function GetVar(s: Store, name: string): JsValue {
    if name == "" then s.env else if name in s.vars then s.vars[name] else Undefined
  }

  function SetVar(s: Store, name: string, v: JsValue): Store {
    s.(vars := s.vars[name := v])
  }

  function DelVar(s: Store, name: string): Store {
    if name == "" then s else s.(vars := s.vars - {name})
  }

  /** Where the name in front of a pointer ends. */
  function NameEnd(path: string): (n: nat)
    ensures n <= |path|
  {
    if path == "" || path[0] == '/' then 0 else NameEnd(path[1..]) + 1
  }

  function ResolveVar(c: Platform, s: Store, name: JsValue): Result<JsValue, JsError> {
    if !(name.Json? && name.v.String?) then Err(VarnameMustBeString) else
    var n := NameEnd(name.v.s);
    c.point(GetVar(s, name.v.s[..n]), name.v.s[n..])
  }

  function ThrowOnUndefined(v: JsValue, default: Option<JsValue>): Result<JsValue, JsError> {
    if v != Undefined then Ok(v)
    else if default.Some? && default.value != Undefined then Ok(default.value)
    else Err(NotFound)
  }

  function OpOf(c: Platform, key: string): Option<Op> {
    if key == "filter" then Some(Filter)
    else if key == "map" then Some(Map)
    else if key == "reduce" then Some(Reduce)
    else if key == "$" || key == "get" then Some(Get)
    else if key == "$?" || key == "get?" then Some(Defined)
    else if key == "?" || key == "if" then Some(If)
    else if key == "throw" then Some(Throw)
    else if key == "&&" || key == "and" then Some(And)
    else if key == "||" || key == "or" then Some(Or)
    else if key == "!" || key == "not" then Some(Not)
    else if c.strict(key) then Some(Strict)
    else None
  }

  function ArityOk(c: Platform, key: string, op: Op, len: nat): bool {
    match op
    case Filter => len == 4
    case Map => len == 4
    case Reduce => len == 6
    case Get => len == 2 || len == 3
    case Defined => len == 2
    case If => len == 4
    case Throw => len == 2
    case And => len >= 3
    case Or => len >= 3
    case Not => len == 2
    case Strict => c.arity(key, len)
  }

  /** What an expression asks for: a literal, an error, or an operator applied to what follows it. */
  datatype Form = Literal(v: Json) | Bad(error: JsError) | Apply(op: Op, key: string)

  function FormOf(c: Platform, e: Json): (f: Form)
    ensures f.Apply? ==> e.Array? && |e.items| >= 2 && OpOf(c, f.key) == Some(f.op) && ArityOk(c, f.key, f.op, |e.items|)
  {
    if !e.Array? || e.items == [] then Literal(e)
    else if |e.items| == 1 then Literal(e.items[0])
    else if !e.items[0].String? then Bad(UnknownExpression)
    else
      match OpOf(c, e.items[0].s)
      case None => Bad(UnknownExpression)
      case Some(op) => if ArityOk(c, e.items[0].s, op, |e.items|) then Apply(op, e.items[0].s) else Bad(ArityError)
  }

  // ---------------------------------------------------------------- the evaluator with a store

  function Eval(c: Platform, s: Store, e: Json): Outcome
    decreases e, 1
  {
    match FormOf(c, e)
    case Literal(v) => Outcome(s, Ok(Json(v)))
    case Bad(error) => Outcome(s, Err(error))
    case Apply(op, key) => EvalOp(c, s, e, op, key)
  }

  function EvalOp(c: Platform, s: Store, e: Json, op: Op, key: string): Outcome
    requires e.Array? && |e.items| >= 2 && ArityOk(c, key, op, |e.items|)
    decreases e, 0
  {
    var xs := e.items;
    if op == Strict then EvalStrict(c, s, key, xs[1..], [])
    else if op == And || op == Or then EvalChain(c, s, xs[1..], op == And)
    else
      var a := Eval(c, s, xs[1]);
      match a.result
      case Err(error) => a
      case Ok(v) =>
        if op == Not then Outcome(a.store, Ok(Json(Bool(!IsTruthy(v)))))
        else if op == Throw then Outcome(a.store, Err(Thrown(c.text(v))))
        else if op == If then Eval(c, a.store, if IsTruthy(v) then xs[2] else xs[3])
        else if op == Defined then
          Outcome(a.store, match ResolveVar(c, a.store, v) case Ok(w) => Ok(Json(Bool(w != Undefined))) case Err(error) => Err(error))
        else if op == Get then EvalGet(c, a.store, v, xs[2..])
        else if op == Filter then EvalFilter(c, a.store, v, xs[2], xs[3])
        else if op == Map then EvalMap(c, a.store, v, xs[2], xs[3])
        else EvalReduce(c, a.store, v, xs[2..])
  }

  function EvalStrict(c: Platform, s: Store, key: string, operands: seq<Json>, args: seq<JsValue>): Outcome
    decreases operands, 0
  {
    if operands == [] then Outcome(s, c.finish(key, args)) else
    var a := Eval(c, s, operands[0]);
    match a.result
    case Err(error) => a
    case Ok(v) =>
      match c.refuses(key, args + [v])
      case Some(error) => Outcome(a.store, Err(error))
      case None => EvalStrict(c, a.store, key, operands[1..], args + [v])
  }

  /** `and` goes on while values are truthy, `or` while they are not; the last value is the result. */
  function EvalChain(c: Platform, s: Store, operands: seq<Json>, goOn: bool): Outcome
    requires operands != []
    decreases operands, 0
  {
    var a := Eval(c, s, operands[0]);
    match a.result
    case Err(error) => a
    case Ok(v) => if |operands| == 1 || IsTruthy(v) != goOn then a else EvalChain(c, a.store, operands[1..], goOn)
  }

  /** A default may follow the name. */
  function EvalGet(c: Platform, s: Store, name: JsValue, default: seq<Json>): Outcome
    decreases default, 0
  {
    if default == [] then
      Outcome(s, match ResolveVar(c, s, name) case Ok(w) => ThrowOnUndefined(w, None) case Err(error) => Err(error))
    else
      var b := Eval(c, s, default[0]);
      match b.result
      case Err(error) => b
      case Ok(dv) =>
        Outcome(b.store, match ResolveVar(c, b.store, name) case Ok(w) => ThrowOnUndefined(w, Some(dv)) case Err(error) => Err(error))
  }

  /** A list built in a loop, and the store the loop leaves. */
  datatype Listed = Listed(store: Store, result: Result<seq<Json>, JsError>)

  /** The loop's name goes only when the loop gets to its end. */
  function Close(r: Listed, name: string): Outcome {
    match r.result
    case Ok(items) => Outcome(DelVar(r.store, name), Ok(Json(Array(items))))
    case Err(error) => Outcome(r.store, Err(error))
  }

  function EvalFilter(c: Platform, s: Store, v: JsValue, literal: Json, body: Json): Outcome
    decreases body, 4
  {
    match AsArray(v)
    case Err(error) => Outcome(s, Err(error))
    case Ok(items) =>
      match LiteralString(literal)
      case Err(error) => Outcome(s, Err(error))
      case Ok(name) => Close(FilterLoop(c, s, items, name, body), name)
  }

  function FilterLoop(c: Platform, s: Store, items: seq<Json>, name: string, body: Json): Listed
    decreases body, 3, |items|
  {
    if items == [] then Listed(s, Ok([]))
    else if name == "" then Listed(s, Err(InvalidVarname))
    else
      var r := Eval(c, SetVar(s, name, Json(items[0])), body);
      match r.result
      case Err(error) => Listed(r.store, Err(error))
      case Ok(keep) =>
        var more := FilterLoop(c, r.store, items[1..], name, body);
        Listed(more.store, match more.result
                           case Ok(rest) => Ok((if IsTruthy(keep) then [items[0]] else []) + rest)
                           case Err(error) => Err(error))
  }

  function EvalMap(c: Platform, s: Store, v: JsValue, literal: Json, body: Json): Outcome
    decreases body, 4
  {
    match AsArray(v)
    case Err(error) => Outcome(s, Err(error))
    case Ok(items) =>
      match LiteralString(literal)
      case Err(error) => Outcome(s, Err(error))
      case Ok(name) => Close(MapLoop(c, s, items, name, body), name)
  }

  function MapLoop(c: Platform, s: Store, items: seq<Json>, name: string, body: Json): Listed
    decreases body, 3, |items|
  {
    if items == [] then Listed(s, Ok([]))
    else if name == "" then Listed(s, Err(InvalidVarname))
    else
      var r := Eval(c, SetVar(s, name, Json(items[0])), body);
      match r.result
      case Err(error) => Listed(r.store, Err(error))
      case Ok(mapped) =>
        var more := MapLoop(c, r.store, items[1..], name, body);
        Listed(more.store, match more.result
                           case Ok(rest) => Ok([ToJson(mapped)] + rest)
                           case Err(error) => Err(error))
  }

  /** `rest` holds the initial value, the names of accumulator and element, and the body. */
  function EvalReduce(c: Platform, s: Store, v: JsValue, rest: seq<Json>): Outcome
    requires |rest| == 4
    decreases rest, 4
  {
    match AsArray(v)
    case Err(error) => Outcome(s, Err(error))
    case Ok(items) =>
      var i := Eval(c, s, rest[0]);
      match i.result
      case Err(error) => i
      case Ok(start) =>
        match (LiteralString(rest[1]), LiteralString(rest[2]))
        case (Err(error), _) => Outcome(i.store, Err(error))
        case (Ok(_), Err(error)) => Outcome(i.store, Err(error))
        case (Ok(acc), Ok(name)) => FoldInStore(c, i.store, start, items, acc, name, rest[3])
  }

  function FoldInStore(c: Platform, s: Store, start: JsValue, items: seq<Json>, acc: string, name: string, body: Json): Outcome
    decreases body, 4
  {
    if acc == "" then Outcome(s, Err(InvalidVarname)) else
    var r := ReduceLoop(c, SetVar(s, acc, start), items, acc, name, body);
    if r.result.Ok? then Outcome(DelVar(DelVar(r.store, acc), name), Ok(GetVar(r.store, acc))) else r
  }

  /** The accumulator lives in the store between the steps; the value returned on success is not used. */
  function ReduceLoop(c: Platform, s: Store, items: seq<Json>, acc: string, name: string, body: Json): Outcome
    decreases body, 3, |items|
  {
    if items == [] then Outcome(s, Ok(Undefined))
    else if name == "" then Outcome(s, Err(InvalidVarname))
    else
      var r := Eval(c, SetVar(s, name, Json(items[0])), body);
      match r.result
      case Err(error) => r
      case Ok(res) => ReduceLoop(c, SetVar(r.store, acc, res), items[1..], acc, name, body)
  }

  // ---------------------------------------------------------------- the evaluator with environments

  /** The same language over an environment that nothing changes. */
  function Pure(c: Platform, env: Store, e: Json): Result<JsValue, JsError>
    decreases e, 1
  {
    match FormOf(c, e)
    case Literal(v) => Ok(Json(v))
    case Bad(error) => Err(error)
    case Apply(op, key) => PureOp(c, env, e, op, key)
  }

  function PureOp(c: Platform, env: Store, e: Json, op: Op, key: string): Result<JsValue, JsError>
    requires e.Array? && |e.items| >= 2 && ArityOk(c, key, op, |e.items|)
    decreases e, 0
  {
    var xs := e.items;
    if op == Strict then PureStrict(c, env, key, xs[1..], [])
    else if op == And || op == Or then PureChain(c, env, xs[1..], op == And)
    else
      match Pure(c, env, xs[1])
      case Err(error) => Err(error)
      case Ok(v) =>
        if op == Not then Ok(Json(Bool(!IsTruthy(v))))
        else if op == Throw then Err(Thrown(c.text(v)))
        else if op == If then Pure(c, env, if IsTruthy(v) then xs[2] else xs[3])
        else if op == Defined then
          match ResolveVar(c, env, v) case Ok(w) => Ok(Json(Bool(w != Undefined))) case Err(error) => Err(error)
        else if op == Get then PureGet(c, env, v, xs[2..])
        else if op == Filter || op == Map then PureOver(c, env, v, xs[2], xs[3], op == Filter)
        else PureReduce(c, env, v, xs[2..])
  }

  function PureStrict(c: Platform, env: Store, key: string, operands: seq<Json>, args: seq<JsValue>): Result<JsValue, JsError>
    decreases operands, 0
  {
    if operands == [] then c.finish(key, args) else
    match Pure(c, env, operands[0])
    case Err(error) => Err(error)
    case Ok(v) =>
      match c.refuses(key, args + [v])
      case Some(error) => Err(error)
      case None => PureStrict(c, env, key, operands[1..], args + [v])
  }

  function PureChain(c: Platform, env: Store, operands: seq<Json>, goOn: bool): Result<JsValue, JsError>
    requires operands != []
    decreases operands, 0
  {
    var a := Pure(c, env, operands[0]);
    match a
    case Err(_) => a
    case Ok(v) => if |operands| == 1 || IsTruthy(v) != goOn then a else PureChain(c, env, operands[1..], goOn)
  }

  function PureGet(c: Platform, env: Store, name: JsValue, default: seq<Json>): Result<JsValue, JsError>
    decreases default, 0
  {
    if default == [] then
      match ResolveVar(c, env, name) case Ok(w) => ThrowOnUndefined(w, None) case Err(error) => Err(error)
    else
      match Pure(c, env, default[0])
      case Err(error) => Err(error)
      case Ok(dv) => match ResolveVar(c, env, name) case Ok(w) => ThrowOnUndefined(w, Some(dv)) case Err(error) => Err(error)
  }

  /** `filter` and `map`: the body's value for each element in its own environment, then what is made of them. */
  function PureOver(c: Platform, env: Store, v: JsValue, literal: Json, body: Json, filtering: bool): Result<JsValue, JsError>
    decreases body, 4
  {
    match AsArray(v)
    case Err(error) => Err(error)
    case Ok(items) =>
      match LiteralString(literal)
      case Err(error) => Err(error)
      case Ok(name) =>
        match PureEach(c, env, items, name, body)
        case Err(error) => Err(error)
        case Ok(values) => Ok(Json(Array(if filtering then Kept(items, values) else ToJsons(values))))
  }

  function PureEach(c: Platform, env: Store, items: seq<Json>, name: string, body: Json): (r: Result<seq<JsValue>, JsError>)
    ensures r.Ok? ==> |r.value| == |items|
    decreases body, 3, |items|
  {
    if items == [] then Ok([])
    else if name == "" then Err(InvalidVarname)
    else
      match Pure(c, SetVar(env, name, Json(items[0])), body)
      case Err(error) => Err(error)
      case Ok(v) =>
        match PureEach(c, env, items[1..], name, body)
        case Err(error) => Err(error)
        case Ok(rest) => Ok([v] + rest)
  }

  function Kept(items: seq<Json>, values: seq<JsValue>): seq<Json>
    requires |items| == |values|
  {
    if items == [] then [] else (if IsTruthy(values[0]) then [items[0]] else []) + Kept(items[1..], values[1..])
  }

  function ToJsons(values: seq<JsValue>): (r: seq<Json>)
    ensures |r| == |values|
  {
    if values == [] then [] else [ToJson(values[0])] + ToJsons(values[1..])
  }

  function PureReduce(c: Platform, env: Store, v: JsValue, rest: seq<Json>): Result<JsValue, JsError>
    requires |rest| == 4
    decreases rest, 4
  {
    match AsArray(v)
    case Err(error) => Err(error)
    case Ok(items) =>
      match Pure(c, env, rest[0])
      case Err(error) => Err(error)
      case Ok(start) =>
        match (LiteralString(rest[1]), LiteralString(rest[2]))
        case (Err(error), _) => Err(error)
        case (Ok(_), Err(error)) => Err(error)
        case (Ok(acc), Ok(name)) => if acc == "" then Err(InvalidVarname) else PureFold(c, env, start, items, acc, name, rest[3])
  }

  /** A left fold. */
  function PureFold(c: Platform, env: Store, start: JsValue, items: seq<Json>, acc: string, name: string, body: Json): Result<JsValue, JsError>
    decreases body, 3, |items|
  {
    if items == [] then Ok(start)
    else if name == "" then Err(InvalidVarname)
    else
      match Pure(c, SetVar(SetVar(env, acc, start), name, Json(items[0])), body)
      case Err(error) => Err(error)
      case Ok(res) => PureFold(c, env, res, items[1..], acc, name, body)
  }
}
