/** What an evaluation does to the variable store, and when it agrees with the evaluator that has none. */
module ExpressionScoping {
  import opened Common
  import opened Json
  import opened Expression

  // ---------------------------------------------------------------- names an expression binds

  ghost function NameIn(literal: Json): set<string> {
    if LiteralString(literal).Ok? then {LiteralString(literal).value} else {}
  }

  /** The names bound by a `filter`, `map` or `reduce` anywhere the evaluation may get to. */
  ghost function Binders(c: Platform, e: Json): set<string>
    decreases e, 1
  {
    match FormOf(c, e)
    case Literal(_) => {}
    case Bad(_) => {}
    case Apply(op, _) =>
      OwnNames(op, e) +
      if op == Filter || op == Map then Binders(c, e.items[1]) + Binders(c, e.items[3])
      else if op == Reduce then Binders(c, e.items[1]) + Binders(c, e.items[2]) + Binders(c, e.items[5])
      else BindersOfAll(c, e.items[1..])
  }

  /** The operands that are evaluated; the others are literals. */
  predicate IsOperand(op: Op, k: nat) {
    match op
    case Filter => k == 1 || k == 3
    case Map => k == 1 || k == 3
    case Reduce => k == 1 || k == 2 || k == 5
    case _ => 1 <= k
  }

  lemma OperandBinders(c: Platform, e: Json, op: Op, k: nat)
    requires FormOf(c, e).Apply? && FormOf(c, e).op == op && IsOperand(op, k) && k < |e.items|
    ensures Binders(c, e.items[k]) <= Binders(c, e)
  {
    hide OwnNames, BindersOfAll, OpOf, ArityOk;
    if op != Filter && op != Map && op != Reduce { BindersAt(c, e.items[1..], k - 1); }
  }

  ghost function OwnNames(op: Op, e: Json): set<string>
    requires e.Array?
  {
    match op
    case Filter => if |e.items| > 2 then NameIn(e.items[2]) else {}
    case Map => if |e.items| > 2 then NameIn(e.items[2]) else {}
    case Reduce => if |e.items| > 4 then NameIn(e.items[3]) + NameIn(e.items[4]) else {}
    case _ => {}
  }

  ghost function BindersOfAll(c: Platform, es: seq<Json>): set<string>
    decreases es, 0
  {
    if es == [] then {} else Binders(c, es[0]) + BindersOfAll(c, es[1..])
  }

  lemma {:induction false} BindersAt(c: Platform, es: seq<Json>, i: nat)
    requires i < |es|
    ensures Binders(c, es[i]) <= BindersOfAll(c, es)
  {
    if i > 0 { BindersAt(c, es[1..], i - 1); }
  }

  // ---------------------------------------------------------------- what success takes out of the store

  /** The names a `filter`, `map` or `reduce` binds that no successful evaluation gets around. */
  ghost function Certain(c: Platform, e: Json): set<string>
    decreases e, 1
  {
    match FormOf(c, e)
    case Literal(_) => {}
    case Bad(_) => {}
    case Apply(op, _) =>
      match op
      case Strict => CertainOfAll(c, e.items[1..])
      case If => Certain(c, e.items[1]) + Certain(c, e.items[2]) * Certain(c, e.items[3])
      case Get => CertainOfAll(c, e.items[1..])
      case Reduce => Certain(c, e.items[1]) + Certain(c, e.items[2]) + (OwnNames(op, e) - {""})
      case _ => Certain(c, e.items[1]) + (OwnNames(op, e) - {""})
  }

  ghost function CertainOfAll(c: Platform, es: seq<Json>): set<string>
    decreases es, 0
  {
    if es == [] then {} else Certain(c, es[0]) + CertainOfAll(c, es[1..])
  }

  /** The names of every `filter`, `map` and `reduce` that runs in a successful evaluation. */
  ghost function Ran(c: Platform, s: Store, e: Json): set<string>
    decreases e, 1
  {
    match FormOf(c, e)
    case Literal(_) => {}
    case Bad(_) => {}
    case Apply(op, key) => RanOp(c, s, e, op, key)
  }

  ghost function RanOp(c: Platform, s: Store, e: Json, op: Op, key: string): set<string>
    requires e.Array? && |e.items| >= 2 && ArityOk(c, key, op, |e.items|)
    decreases e, 0
  {
    var xs := e.items;
    if op == Strict then RanAll(c, s, xs[1..])
    else if op == And || op == Or then RanChain(c, s, xs[1..], op == And)
    else
      var a := Eval(c, s, xs[1]);
      Ran(c, s, xs[1]) +
      if a.result.Err? then {}
      else if op == If then Ran(c, a.store, if IsTruthy(a.result.value) then xs[2] else xs[3])
      else if op == Get then RanAll(c, a.store, xs[2..])
      else if op == Filter || op == Map then RanOver(c, a.store, a.result.value, xs[2], xs[3])
      else if op == Reduce then RanReduce(c, a.store, a.result.value, xs[2..])
      else {}
  }

  ghost function RanAll(c: Platform, s: Store, operands: seq<Json>): set<string>
    decreases operands, 0
  {
    if operands == [] then {} else Ran(c, s, operands[0]) + RanAll(c, Eval(c, s, operands[0]).store, operands[1..])
  }

  ghost function RanChain(c: Platform, s: Store, operands: seq<Json>, goOn: bool): set<string>
    decreases operands, 0
  {
    if operands == [] then {} else
    var a := Eval(c, s, operands[0]);
    Ran(c, s, operands[0]) + if a.result.Ok? && IsTruthy(a.result.value) == goOn then RanChain(c, a.store, operands[1..], goOn) else {}
  }

  ghost function RanOver(c: Platform, s: Store, v: JsValue, literal: Json, body: Json): set<string>
    decreases body, 4
  {
    if AsArray(v).Err? || LiteralString(literal).Err? then {} else
    RanEach(c, s, AsArray(v).value, LiteralString(literal).value, body) + ({LiteralString(literal).value} - {""})
  }

  ghost function RanEach(c: Platform, s: Store, items: seq<Json>, name: string, body: Json): set<string>
    decreases body, 3, |items|
  {
    if items == [] || name == "" then {} else
    var u := SetVar(s, name, Json(items[0]));
    Ran(c, u, body) + RanEach(c, Eval(c, u, body).store, items[1..], name, body)
  }

  ghost function RanReduce(c: Platform, s: Store, v: JsValue, rest: seq<Json>): set<string>
    requires |rest| == 4
    decreases rest, 4
  {
    var i := Eval(c, s, rest[0]);
    Ran(c, s, rest[0]) +
    if AsArray(v).Err? || i.result.Err? || LiteralString(rest[1]).Err? || LiteralString(rest[2]).Err? then {} else
    RanFold(c, i.store, i.result.value, AsArray(v).value, LiteralString(rest[1]).value, LiteralString(rest[2]).value, rest[3])
  }

  ghost function RanFold(c: Platform, s: Store, start: JsValue, items: seq<Json>, acc: string, name: string, body: Json): set<string>
    decreases body, 4
  {
    RanSteps(c, SetVar(s, acc, start), items, acc, name, body) + ({acc, name} - {""})
  }

  ghost function RanSteps(c: Platform, s: Store, items: seq<Json>, acc: string, name: string, body: Json): set<string>
    decreases body, 3, |items|
  {
    if items == [] || name == "" then {} else
    var u := SetVar(s, name, Json(items[0]));
    var r := Eval(c, u, body);
    Ran(c, u, body) + if r.result.Err? then {} else RanSteps(c, SetVar(r.store, acc, r.result.value), items[1..], acc, name, body)
  }

  /** `t` is `s` without the names in `lost`, but for what it says of the names in `loose`. */
  ghost predicate Loses(s: Store, t: Store, lost: set<string>, loose: set<string>) {
    t.env == s.env && t.vars - loose == s.vars - lost - loose
  }

  lemma LosesTwice(s: Store, t: Store, u: Store, lost: set<string>, more: set<string>, loose: set<string>)
    requires Loses(s, t, lost, loose) && Loses(t, u, more, loose)
    ensures Loses(s, u, lost + more, loose)
  {
    assert s.vars - (lost + more) - loose == (s.vars - lost - loose) - more;
    assert t.vars - more - loose == (t.vars - loose) - more;
  }

  lemma LosesNothing(s: Store, loose: set<string>)
    ensures Loses(s, s, {}, loose)
  {
    assert s.vars - {} == s.vars;
  }

  /** Setting a loose name shows nowhere else. */
  lemma LosesLoosely(s: Store, t: Store, lost: set<string>, loose: set<string>, n: string, v: JsValue)
    requires n in loose
    ensures Loses(s, t, lost, {}) ==> Loses(s, t, lost, loose)
    ensures Loses(SetVar(s, n, v), t, lost, loose) <==> Loses(s, t, lost, loose)
    ensures Loses(s, SetVar(t, n, v), lost, loose) <==> Loses(s, t, lost, loose)
  {
    assert SetVar(s, n, v).vars - lost - loose == s.vars - lost - loose;
    assert SetVar(t, n, v).vars - loose == t.vars - loose;
    if Loses(s, t, lost, {}) {
      assert t.vars - {} == t.vars;
      assert s.vars - lost - {} == s.vars - lost;
    }
  }

  /** Deleting what a loop set leaves nothing loose. */
  lemma LosesLoose(s: Store, t: Store, lost: set<string>, loose: set<string>)
    requires Loses(s, t, lost, loose)
    ensures Loses(s, t.(vars := t.vars - loose), lost + loose, {})
  {
    assert s.vars - (lost + loose) - {} == s.vars - lost - loose;
    assert t.vars - loose - {} == t.vars - loose;
  }

  /** Success takes the names of all operators that ran out of the store, and changes nothing else. */
  lemma {:induction false} Loss(c: Platform, s: Store, e: Json)
    requires Eval(c, s, e).result.Ok?
    ensures Loses(s, Eval(c, s, e).store, Ran(c, s, e), {})
    ensures Certain(c, e) <= Ran(c, s, e) <= Binders(c, e) - {""}
    decreases e, 1
  {
    match FormOf(c, e)
    case Literal(_) => LosesNothing(s, {});
    case Apply(op, key) => OpLoss(c, s, e, op, key);
  }

  lemma {:induction false} OpLoss(c: Platform, s: Store, e: Json, op: Op, key: string)
    requires FormOf(c, e) == Apply(op, key) && EvalOp(c, s, e, op, key).result.Ok?
    ensures Loses(s, EvalOp(c, s, e, op, key).store, RanOp(c, s, e, op, key), {})
    ensures Certain(c, e) <= RanOp(c, s, e, op, key) <= Binders(c, e) - {""}
    decreases e, 0
  {
    hide Loses, Eval, Ran, RanAll, RanChain, RanOver, RanReduce, EvalStrict, EvalChain, EvalGet, EvalFilter, EvalMap, EvalReduce, BindersOfAll;
    hide CertainOfAll, OwnNames;
    var xs := e.items;
    if op == Strict {
      StrictLoss(c, s, key, xs[1..], []);
    } else if op == And || op == Or {
      ChainLoss(c, s, xs[1..], op == And);
      FirstCertain(c, xs[1..]);
      NoOwnNames(op, e);
    } else {
      var a := Eval(c, s, xs[1]);
      OperandLoss(c, s, e, 1);
      if op == If {
        var k := if IsTruthy(a.result.value) then 2 else 3;
        OperandLoss(c, a.store, e, k);
        LosesTwice(s, a.store, Eval(c, a.store, xs[k]).store, Ran(c, s, xs[1]), Ran(c, a.store, xs[k]), {});
      } else if op == Get {
        GetLoss(c, a.store, a.result.value, xs[2..]);
        LosesTwice(s, a.store, EvalGet(c, a.store, a.result.value, xs[2..]).store, Ran(c, s, xs[1]), RanAll(c, a.store, xs[2..]), {});
        TwoCertain(c, xs[1..]);
        assert xs[1..][1..] == xs[2..];
      } else if op == Filter || op == Map {
        OverLoss(c, a.store, e, op, key, a.result.value);
        LosesTwice(s, a.store, EvalOp(c, s, e, op, key).store, Ran(c, s, xs[1]), RanOver(c, a.store, a.result.value, xs[2], xs[3]), {});
      } else if op == Reduce {
        ReduceLoss(c, a.store, e, key, a.result.value);
        LosesTwice(s, a.store, EvalOp(c, s, e, op, key).store, Ran(c, s, xs[1]), RanReduce(c, a.store, a.result.value, xs[2..]), {});
      } else {
        assert Ran(c, s, xs[1]) + {} == Ran(c, s, xs[1]);
        NoOwnNames(op, e);
      }
    }
  }

  lemma NoOwnNames(op: Op, e: Json)
    requires e.Array? && op != Filter && op != Map && op != Reduce
    ensures OwnNames(op, e) == {}
  {
  }

  lemma FirstCertain(c: Platform, es: seq<Json>)
    requires es != []
    ensures Certain(c, es[0]) <= CertainOfAll(c, es)
  {
  }

  lemma TwoCertain(c: Platform, es: seq<Json>)
    requires es != []
    ensures CertainOfAll(c, es) == Certain(c, es[0]) + CertainOfAll(c, es[1..])
    ensures BindersOfAll(c, es) == Binders(c, es[0]) + BindersOfAll(c, es[1..])
  {
  }

  lemma {:induction false} OperandLoss(c: Platform, s: Store, e: Json, k: nat)
    requires FormOf(c, e).Apply? && IsOperand(FormOf(c, e).op, k) && k < |e.items| && Eval(c, s, e.items[k]).result.Ok?
    ensures Loses(s, Eval(c, s, e.items[k]).store, Ran(c, s, e.items[k]), {})
    ensures Certain(c, e.items[k]) <= Ran(c, s, e.items[k]) <= Binders(c, e) - {""}
    decreases e.items[k], 2
  {
    hide Loses, Eval, Ran, Binders;
    Loss(c, s, e.items[k]);
    OperandBinders(c, e, FormOf(c, e).op, k);
  }

  lemma {:induction false} StrictLoss(c: Platform, s: Store, key: string, operands: seq<Json>, args: seq<JsValue>)
    requires EvalStrict(c, s, key, operands, args).result.Ok?
    ensures Loses(s, EvalStrict(c, s, key, operands, args).store, RanAll(c, s, operands), {})
    ensures CertainOfAll(c, operands) <= RanAll(c, s, operands) <= BindersOfAll(c, operands) - {""}
    decreases operands, 0
  {
    hide Loses, Eval, Ran, Certain, Binders;
    if operands == [] {
      LosesNothing(s, {});
    } else {
      var a := Eval(c, s, operands[0]);
      Loss(c, s, operands[0]);
      StrictLoss(c, a.store, key, operands[1..], args + [a.result.value]);
      LosesTwice(s, a.store, EvalStrict(c, s, key, operands, args).store, Ran(c, s, operands[0]), RanAll(c, a.store, operands[1..]), {});
    }
  }

  lemma {:induction false} ChainLoss(c: Platform, s: Store, operands: seq<Json>, goOn: bool)
    requires operands != [] && EvalChain(c, s, operands, goOn).result.Ok?
    ensures Loses(s, EvalChain(c, s, operands, goOn).store, RanChain(c, s, operands, goOn), {})
    ensures Certain(c, operands[0]) <= RanChain(c, s, operands, goOn) <= BindersOfAll(c, operands) - {""}
    decreases operands, 0
  {
    hide Loses, Eval, Ran, Certain, Binders;
    var a := Eval(c, s, operands[0]);
    Loss(c, s, operands[0]);
    assert Ran(c, s, operands[0]) + {} == Ran(c, s, operands[0]);
    if |operands| > 1 && IsTruthy(a.result.value) == goOn {
      ChainLoss(c, a.store, operands[1..], goOn);
      LosesTwice(s, a.store, EvalChain(c, s, operands, goOn).store, Ran(c, s, operands[0]), RanChain(c, a.store, operands[1..], goOn), {});
    } else if |operands| == 1 {
      assert RanChain(c, a.store, operands[1..], goOn) == {};
    }
  }

  lemma {:induction false} GetLoss(c: Platform, s: Store, name: JsValue, default: seq<Json>)
    requires |default| <= 1 && EvalGet(c, s, name, default).result.Ok?
    ensures Loses(s, EvalGet(c, s, name, default).store, RanAll(c, s, default), {})
    ensures CertainOfAll(c, default) <= RanAll(c, s, default) <= BindersOfAll(c, default) - {""}
    decreases default, 0
  {
    hide Loses, Eval, Ran, Certain, Binders;
    if default == [] {
      LosesNothing(s, {});
    } else {
      Loss(c, s, default[0]);
      assert default[1..] == [];
      assert Ran(c, s, default[0]) + {} == Ran(c, s, default[0]);
      assert RanAll(c, s, default) == Ran(c, s, default[0]) + RanAll(c, Eval(c, s, default[0]).store, []);
      assert CertainOfAll(c, default) == Certain(c, default[0]) + CertainOfAll(c, []);
    }
  }

  lemma {:induction false} FilterLoss(c: Platform, s: Store, items: seq<Json>, name: string, body: Json)
    requires FilterLoop(c, s, items, name, body).result.Ok?
    ensures Loses(s, FilterLoop(c, s, items, name, body).store, RanEach(c, s, items, name, body), {name})
    ensures RanEach(c, s, items, name, body) <= Binders(c, body) - {""}
    ensures name == "" ==> items == []
    decreases body, 3, |items|
  {
    hide Loses, Eval, Ran;
    if items == [] {
      LosesNothing(s, {name});
    } else {
      var u := SetVar(s, name, Json(items[0]));
      var r := Eval(c, u, body);
      Loss(c, u, body);
      FilterLoss(c, r.store, items[1..], name, body);
      LosesLoosely(u, r.store, Ran(c, u, body), {name}, name, Undefined);
      LosesLoosely(s, r.store, Ran(c, u, body), {name}, name, Json(items[0]));
      LosesTwice(s, r.store, FilterLoop(c, s, items, name, body).store, Ran(c, u, body), RanEach(c, r.store, items[1..], name, body), {name});
    }
  }

  lemma {:induction false} MapLoss(c: Platform, s: Store, items: seq<Json>, name: string, body: Json)
    requires MapLoop(c, s, items, name, body).result.Ok?
    ensures Loses(s, MapLoop(c, s, items, name, body).store, RanEach(c, s, items, name, body), {name})
    ensures RanEach(c, s, items, name, body) <= Binders(c, body) - {""}
    ensures name == "" ==> items == []
    decreases body, 3, |items|
  {
    hide Loses, Eval, Ran;
    if items == [] {
      LosesNothing(s, {name});
    } else {
      var u := SetVar(s, name, Json(items[0]));
      var r := Eval(c, u, body);
      Loss(c, u, body);
      MapLoss(c, r.store, items[1..], name, body);
      LosesLoosely(u, r.store, Ran(c, u, body), {name}, name, Undefined);
      LosesLoosely(s, r.store, Ran(c, u, body), {name}, name, Json(items[0]));
      LosesTwice(s, r.store, MapLoop(c, s, items, name, body).store, Ran(c, u, body), RanEach(c, r.store, items[1..], name, body), {name});
    }
  }

  lemma {:induction false} StepsLoss(c: Platform, s: Store, items: seq<Json>, acc: string, name: string, body: Json)
    requires ReduceLoop(c, s, items, acc, name, body).result.Ok?
    ensures Loses(s, ReduceLoop(c, s, items, acc, name, body).store, RanSteps(c, s, items, acc, name, body), {acc, name})
    ensures RanSteps(c, s, items, acc, name, body) <= Binders(c, body) - {""}
    ensures name == "" ==> items == []
    decreases body, 3, |items|
  {
    hide Loses, Eval, Ran;
    var loose := {acc, name};
    if items == [] {
      LosesNothing(s, loose);
    } else {
      var u := SetVar(s, name, Json(items[0]));
      var r := Eval(c, u, body);
      Loss(c, u, body);
      var t := SetVar(r.store, acc, r.result.value);
      StepsLoss(c, t, items[1..], acc, name, body);
      var lost := Ran(c, u, body);
      LosesLoosely(u, r.store, lost, loose, name, Undefined);
      LosesLoosely(s, r.store, lost, loose, name, Json(items[0]));
      LosesLoosely(s, r.store, lost, loose, acc, r.result.value);
      LosesTwice(s, t, ReduceLoop(c, s, items, acc, name, body).store, lost, RanSteps(c, t, items[1..], acc, name, body), loose);
    }
  }

  lemma {:induction false} OverLoss(c: Platform, t: Store, e: Json, op: Op, key: string, v: JsValue)
    requires FormOf(c, e) == Apply(op, key) && (op == Filter || op == Map)
    requires (if op == Filter then EvalFilter(c, t, v, e.items[2], e.items[3]) else EvalMap(c, t, v, e.items[2], e.items[3])).result.Ok?
    ensures Loses(t, (if op == Filter then EvalFilter(c, t, v, e.items[2], e.items[3]) else EvalMap(c, t, v, e.items[2], e.items[3])).store,
                  RanOver(c, t, v, e.items[2], e.items[3]), {})
    ensures OwnNames(op, e) - {""} <= RanOver(c, t, v, e.items[2], e.items[3]) <= Binders(c, e) - {""}
    decreases e.items[3], 4
  {
    hide Loses, FilterLoop, MapLoop, RanEach, Binders;
    var body, items, name := e.items[3], AsArray(v).value, LiteralString(e.items[2]).value;
    var r := if op == Filter then FilterLoop(c, t, items, name, body) else MapLoop(c, t, items, name, body);
    if op == Filter { FilterLoss(c, t, items, name, body); } else { MapLoss(c, t, items, name, body); }
    OperandBinders(c, e, op, 3);
    OwnBinders(c, e, op);
    if name == "" {
      NoLoop(c, t, name, body);
      LosesNothing(t, {});
      assert RanOver(c, t, v, e.items[2], body) == {};
    } else {
      LosesLoose(t, r.store, RanEach(c, t, items, name, body), {name});
      assert {name} - {""} == {name};
    }
  }

  lemma NoLoop(c: Platform, s: Store, name: string, body: Json)
    ensures FilterLoop(c, s, [], name, body) == MapLoop(c, s, [], name, body) == Listed(s, Ok([]))
    ensures RanEach(c, s, [], name, body) == {}
  {
  }

  lemma {:induction false} ReduceLoss(c: Platform, t: Store, e: Json, key: string, v: JsValue)
    requires FormOf(c, e) == Apply(Reduce, key) && EvalReduce(c, t, v, e.items[2..]).result.Ok?
    ensures Loses(t, EvalReduce(c, t, v, e.items[2..]).store, RanReduce(c, t, v, e.items[2..]), {})
    ensures Certain(c, e.items[2]) + (OwnNames(Reduce, e) - {""}) <= RanReduce(c, t, v, e.items[2..]) <= Binders(c, e) - {""}
    decreases e.items[2..], 5
  {
    hide Loses, Eval, Ran, RanFold, FoldInStore, BindersOfAll;
    var rest := e.items[2..];
    assert rest[0] == e.items[2] && rest[1] == e.items[3] && rest[2] == e.items[4] && rest[3] == e.items[5];
    var i := Eval(c, t, rest[0]);
    OperandLoss(c, t, e, 2);
    OperandBinders(c, e, Reduce, 5);
    OwnBinders(c, e, Reduce);
    var acc, name := LiteralString(rest[1]).value, LiteralString(rest[2]).value;
    FoldLoss(c, i.store, i.result.value, AsArray(v).value, acc, name, rest[3]);
    LosesTwice(t, i.store, EvalReduce(c, t, v, rest).store, Ran(c, t, rest[0]),
               RanFold(c, i.store, i.result.value, AsArray(v).value, acc, name, rest[3]), {});
  }

  lemma {:induction false} FoldLoss(c: Platform, s: Store, start: JsValue, items: seq<Json>, acc: string, name: string, body: Json)
    requires FoldInStore(c, s, start, items, acc, name, body).result.Ok?
    ensures Loses(s, FoldInStore(c, s, start, items, acc, name, body).store, RanFold(c, s, start, items, acc, name, body), {})
    ensures {acc, name} - {""} <= RanFold(c, s, start, items, acc, name, body) <= Binders(c, body) + {acc, name} - {""}
    decreases body, 4
  {
    hide Loses, Eval, ReduceLoop, RanSteps;
    var u := SetVar(s, acc, start);
    var r := ReduceLoop(c, u, items, acc, name, body);
    StepsLoss(c, u, items, acc, name, body);
    if name == "" {
      assert r.store == u && RanSteps(c, u, items, acc, name, body) == {} by { NoSteps(c, u, acc, name, body); }
      LosesNothing(s, {acc});
      LosesLoosely(s, s, {}, {acc}, acc, start);
      LosesLoose(s, u, {}, {acc});
      assert {acc, name} - {""} == {acc};
    } else {
      LosesLoosely(s, r.store, RanSteps(c, u, items, acc, name, body), {acc, name}, acc, start);
      LosesLoose(s, r.store, RanSteps(c, u, items, acc, name, body), {acc, name});
      assert DelVar(DelVar(r.store, acc), name) == r.store.(vars := r.store.vars - {acc, name});
      assert {acc, name} - {""} == {acc, name};
    }
  }

  lemma NoSteps(c: Platform, s: Store, acc: string, name: string, body: Json)
    ensures ReduceLoop(c, s, [], acc, name, body) == Outcome(s, Ok(Undefined)) && RanSteps(c, s, [], acc, name, body) == {}
  {
  }

  /**
   Success leaves the store as it was without the names of every operator that ran: at least those no
   evaluation gets around, at most those bound anywhere. Exactly when none of them is in the store
   is it unchanged, and where the two bounds meet that can be told from the expression.
   */
  lemma StoreAfter(c: Platform, s: Store, e: Json)
    requires Eval(c, s, e).result.Ok?
    ensures var t, lost := Eval(c, s, e).store, Ran(c, s, e);
            && t == s.(vars := s.vars - lost)
            && Certain(c, e) <= lost <= Binders(c, e) - {""}
            && (t == s <==> lost !! s.vars.Keys)
            && (Certain(c, e) == Binders(c, e) - {""} ==> (t == s <==> Certain(c, e) !! s.vars.Keys))
  {
    hide Eval, Ran;
    Loss(c, s, e);
    var t, lost := Eval(c, s, e).store, Ran(c, s, e);
    assert t.vars - {} == t.vars && s.vars - lost - {} == s.vars - lost;
    if lost !! s.vars.Keys { assert s.vars - lost == s.vars; }
    if n :| n in lost && n in s.vars { assert n !in t.vars; }
  }

  /** A `filter`, `map` or `reduce` with no other inside leaves the store as it was exactly when none of its names is in it. */
  lemma LoneOperator(c: Platform, s: Store, e: Json, op: Op, key: string)
    requires FormOf(c, e) == Apply(op, key) && (op == Filter || op == Map || op == Reduce) && Binders(c, e) == OwnNames(op, e)
    requires Eval(c, s, e).result.Ok?
    ensures Eval(c, s, e).store == s <==> (OwnNames(op, e) - {""}) !! s.vars.Keys
  {
    hide Eval, Ran;
    StoreAfter(c, s, e);
    assert Certain(c, e) <= Binders(c, e) - {""} == OwnNames(op, e) - {""};
  }

  // ---------------------------------------------------------------- the environment a failure happens in

  /** Where the evaluation with environments ends: around the part that fails, or where it began. */
  ghost function EndsIn(c: Platform, env: Store, e: Json): Store
    decreases e, 1
  {
    match FormOf(c, e)
    case Literal(_) => env
    case Bad(_) => env
    case Apply(op, key) => EndsOp(c, env, e, op, key)
  }

  ghost function EndsOp(c: Platform, env: Store, e: Json, op: Op, key: string): Store
    requires e.Array? && |e.items| >= 2 && ArityOk(c, key, op, |e.items|)
    decreases e, 0
  {
    var xs := e.items;
    if op == Strict then EndsStrict(c, env, key, xs[1..], [])
    else if op == And || op == Or then EndsChain(c, env, xs[1..], op == And)
    else
      match Pure(c, env, xs[1])
      case Err(_) => EndsIn(c, env, xs[1])
      case Ok(v) =>
        if op == If then EndsIn(c, env, if IsTruthy(v) then xs[2] else xs[3])
        else if op == Get && |xs| > 2 then EndsIn(c, env, xs[2])
        else if op == Filter || op == Map then EndsOver(c, env, v, xs[2], xs[3])
        else if op == Reduce then EndsReduce(c, env, v, xs[2..])
        else env
  }

  ghost function EndsStrict(c: Platform, env: Store, key: string, operands: seq<Json>, args: seq<JsValue>): Store
    decreases operands, 0
  {
    if operands == [] then env else
    match Pure(c, env, operands[0])
    case Err(_) => EndsIn(c, env, operands[0])
    case Ok(v) => if c.refuses(key, args + [v]).Some? then env else EndsStrict(c, env, key, operands[1..], args + [v])
  }

  ghost function EndsChain(c: Platform, env: Store, operands: seq<Json>, goOn: bool): Store
    requires operands != []
    decreases operands, 0
  {
    match Pure(c, env, operands[0])
    case Err(_) => EndsIn(c, env, operands[0])
    case Ok(v) => if |operands| == 1 || IsTruthy(v) != goOn then env else EndsChain(c, env, operands[1..], goOn)
  }

  ghost function EndsOver(c: Platform, env: Store, v: JsValue, literal: Json, body: Json): Store
    decreases body, 4
  {
    if AsArray(v).Err? || LiteralString(literal).Err? then env
    else if PureEach(c, env, AsArray(v).value, LiteralString(literal).value, body).Ok? then env
    else EndsEach(c, env, AsArray(v).value, LiteralString(literal).value, body)
  }

  /** In the body, with the first element it fails for. */
  ghost function EndsEach(c: Platform, env: Store, items: seq<Json>, name: string, body: Json): Store
    decreases body, 3, |items|
  {
    if items == [] || name == "" then env else
    var u := SetVar(env, name, Json(items[0]));
    if Pure(c, u, body).Err? then EndsIn(c, u, body) else EndsEach(c, env, items[1..], name, body)
  }

  ghost function EndsReduce(c: Platform, env: Store, v: JsValue, rest: seq<Json>): Store
    requires |rest| == 4
    decreases rest, 4
  {
    if AsArray(v).Err? then env else
    match Pure(c, env, rest[0])
    case Err(_) => EndsIn(c, env, rest[0])
    case Ok(start) =>
      if LiteralString(rest[1]).Err? || LiteralString(rest[2]).Err? then env
      else EndsFold(c, env, start, AsArray(v).value, LiteralString(rest[1]).value, LiteralString(rest[2]).value, rest[3])
  }

  ghost function EndsFold(c: Platform, env: Store, start: JsValue, items: seq<Json>, acc: string, name: string, body: Json): Store
    decreases body, 4
  {
    if acc == "" || PureFold(c, env, start, items, acc, name, body).Ok? then env else EndsSteps(c, env, start, items, acc, name, body)
  }

  /** In the body, with accumulator and element of the first step that fails. */
  ghost function EndsSteps(c: Platform, env: Store, start: JsValue, items: seq<Json>, acc: string, name: string, body: Json): Store
    decreases body, 3, |items|
  {
    if items == [] || name == "" then SetVar(env, acc, start) else
    var u := SetVar(SetVar(env, acc, start), name, Json(items[0]));
    match Pure(c, u, body)
    case Err(_) => EndsIn(c, u, body)
    case Ok(res) => EndsSteps(c, env, res, items[1..], acc, name, body)
  }

  // ---------------------------------------------------------------- agreement

  /** No `filter`, `map` or `reduce` binds a name in `bound` or one that is bound around it. */
  ghost predicate Scoped(c: Platform, e: Json, bound: set<string>)
    decreases e, 1
  {
    match FormOf(c, e)
    case Literal(_) => true
    case Bad(_) => true
    case Apply(op, _) =>
      if op == Filter || op == Map then
        Scoped(c, e.items[1], bound) && NameIn(e.items[2]) !! bound && Scoped(c, e.items[3], bound + NameIn(e.items[2]))
      else if op == Reduce then
        && Scoped(c, e.items[1], bound) && Scoped(c, e.items[2], bound)
        && (NameIn(e.items[3]) + NameIn(e.items[4])) !! bound
        && Scoped(c, e.items[5], bound + NameIn(e.items[3]) + NameIn(e.items[4]))
      else ScopedAll(c, e.items[1..], bound)
  }

  ghost predicate ScopedAll(c: Platform, es: seq<Json>, bound: set<string>)
    decreases es, 0
  {
    es == [] || (Scoped(c, es[0], bound) && ScopedAll(c, es[1..], bound))
  }

  lemma {:induction false} ScopedAt(c: Platform, es: seq<Json>, bound: set<string>, i: nat)
    requires ScopedAll(c, es, bound) && i < |es|
    ensures Scoped(c, es[i], bound)
  {
    if i > 0 { ScopedAt(c, es[1..], bound, i - 1); }
  }

  /** The store is within `bound`. */
  ghost predicate Within(s: Store, bound: set<string>) {
    s.vars.Keys <= bound
  }

  /** Both evaluators give the same, the store is the environment the other one ends in, and that is the first after success. */
  ghost predicate Same(s: Store, o: Outcome, p: Result<JsValue, JsError>, end: Store) {
    o == Outcome(end, p) && (p.Ok? ==> end == s)
  }

  /**
   When the expression binds no name that is in the store or bound around the binding, it gives what
   the evaluator without a store gives, errors included. Success leaves the store unchanged, and a
   failure leaves the environment in which the failing part was evaluated.
   */
  lemma {:induction false} Agrees(c: Platform, s: Store, e: Json, bound: set<string>)
    requires Within(s, bound) && Scoped(c, e, bound)
    ensures Same(s, Eval(c, s, e), Pure(c, s, e), EndsIn(c, s, e))
    decreases e, 1
  {
    match FormOf(c, e)
    case Literal(_) =>
    case Bad(_) =>
    case Apply(op, key) => OpAgrees(c, s, e, op, key, bound);
  }

  lemma {:induction false} OpAgrees(c: Platform, s: Store, e: Json, op: Op, key: string, bound: set<string>)
    requires FormOf(c, e) == Apply(op, key) && Within(s, bound) && Scoped(c, e, bound)
    ensures Same(s, EvalOp(c, s, e, op, key), PureOp(c, s, e, op, key), EndsOp(c, s, e, op, key))
    decreases e, 0
  {
    hide Within, EvalStrict, PureStrict, EvalChain, PureChain, FilterLoop, MapLoop, PureEach, FoldInStore, PureFold, ResolveVar, EndsStrict, EndsChain, EndsEach, EndsFold;
    hide Eval, Pure, EndsIn, EvalReduce, PureReduce, EndsReduce;
    var xs := e.items;
    if op == Strict {
      StrictAgrees(c, s, key, xs[1..], [], bound);
    } else if op == And || op == Or {
      ChainAgrees(c, s, xs[1..], op == And, bound);
    } else {
      var a := Eval(c, s, xs[1]);
      if op != Filter && op != Map && op != Reduce { ScopedAt(c, xs[1..], bound, 0); }
      Agrees(c, s, xs[1], bound);
      if a.result.Ok? {
        if op == If {
          var k := if IsTruthy(a.result.value) then 2 else 3;
          ScopedAt(c, xs[1..], bound, k - 1);
          Agrees(c, s, xs[k], bound);
        } else if op == Get && |xs| >= 3 {
          assert xs[2..][0] == xs[2];
          ScopedAt(c, xs[1..], bound, 1);
          Agrees(c, s, xs[2], bound);
        } else if (op == Filter || op == Map) && AsArray(a.result.value).Ok? && LiteralString(xs[2]).Ok? {
          OverAgrees(c, s, AsArray(a.result.value).value, LiteralString(xs[2]).value, xs[3], op == Filter, bound);
        } else if op == Reduce {
          ReduceOpAgrees(c, s, e, key, a.result.value, bound);
        }
      }
    }
  }

  lemma {:induction false} ReduceOpAgrees(c: Platform, s: Store, e: Json, key: string, v: JsValue, bound: set<string>)
    requires FormOf(c, e) == Apply(Reduce, key) && Within(s, bound) && Scoped(c, e, bound)
    ensures Same(s, EvalReduce(c, s, v, e.items[2..]), PureReduce(c, s, v, e.items[2..]), EndsReduce(c, s, v, e.items[2..]))
    decreases e.items[2..], 5
  {
    hide Within, FoldInStore, PureFold, Eval, Pure, EndsIn, EndsFold;
    var rest := e.items[2..];
    assert rest[0] == e.items[2] && rest[1] == e.items[3] && rest[2] == e.items[4] && rest[3] == e.items[5];
    Agrees(c, s, rest[0], bound);
    var i := Eval(c, s, rest[0]);
    if i.result.Ok? && AsArray(v).Ok? && LiteralString(rest[1]).Ok? && LiteralString(rest[2]).Ok? {
      FoldAgrees(c, s, i.result.value, AsArray(v).value, LiteralString(rest[1]).value, LiteralString(rest[2]).value, rest[3], bound);
    }
  }

  lemma {:induction false} StrictAgrees(c: Platform, s: Store, key: string, operands: seq<Json>, args: seq<JsValue>, bound: set<string>)
    requires Within(s, bound) && ScopedAll(c, operands, bound)
    ensures Same(s, EvalStrict(c, s, key, operands, args), PureStrict(c, s, key, operands, args), EndsStrict(c, s, key, operands, args))
    decreases operands, 0
  {
    if operands != [] {
      Agrees(c, s, operands[0], bound);
      if Eval(c, s, operands[0]).result.Ok? {
        StrictAgrees(c, s, key, operands[1..], args + [Eval(c, s, operands[0]).result.value], bound);
      }
    }
  }

  lemma {:induction false} ChainAgrees(c: Platform, s: Store, operands: seq<Json>, goOn: bool, bound: set<string>)
    requires operands != [] && Within(s, bound) && ScopedAll(c, operands, bound)
    ensures Same(s, EvalChain(c, s, operands, goOn), PureChain(c, s, operands, goOn), EndsChain(c, s, operands, goOn))
    decreases operands, 0
  {
    Agrees(c, s, operands[0], bound);
    if |operands| > 1 { ChainAgrees(c, s, operands[1..], goOn, bound); }
  }

  /** A store that differs from `s` in `name` at most is `s` again once `name`, not in `s`, is set over or deleted. */
  lemma SetOver(s: Store, name: string, v: JsValue, w: JsValue)
    ensures SetVar(SetVar(s, name, v), name, w) == SetVar(s, name, w)
    ensures name !in s.vars && name != "" ==> DelVar(SetVar(s, name, v), name) == s
  {
    assert s.vars[name := v][name := w] == s.vars[name := w];
    if name !in s.vars { assert s.vars[name := v] - {name} == s.vars; }
  }

  /** `t` is `s`, or `s` with `name` set. */
  ghost predicate But(s: Store, t: Store, name: string) {
    t == s || exists v :: t == SetVar(s, name, v)
  }

  lemma ButSet(s: Store, t: Store, name: string, w: JsValue)
    requires But(s, t, name)
    ensures SetVar(t, name, w) == SetVar(s, name, w)
    ensures name !in s.vars && name != "" ==> DelVar(t, name) == s
  {
    if t != s {
      var v :| t == SetVar(s, name, v);
      SetOver(s, name, v, w);
    } else if name !in s.vars {
      assert s.vars - {name} == s.vars;
    }
  }

  lemma {:induction false} FilterAgrees(c: Platform, s: Store, t: Store, items: seq<Json>, name: string, body: Json, bound: set<string>)
    requires Within(s, bound) && But(s, t, name) && (name == "" ==> t == s) && Scoped(c, body, bound + {name})
    ensures var r, p := FilterLoop(c, t, items, name, body), PureEach(c, s, items, name, body);
            if p.Ok? then r.result == Ok(Kept(items, p.value)) && But(s, r.store, name) && (name == "" ==> r.store == t) else r == Listed(EndsEach(c, s, items, name, body), Err(p.error))
    decreases body, 3, |items|
  {
    if items != [] && name != "" {
      var u := SetVar(s, name, Json(items[0]));
      ButSet(s, t, name, Json(items[0]));
      Agrees(c, u, body, bound + {name});
      if Eval(c, u, body).result.Ok? { FilterAgrees(c, s, u, items[1..], name, body, bound); }
    }
  }

  lemma {:induction false} MapAgrees(c: Platform, s: Store, t: Store, items: seq<Json>, name: string, body: Json, bound: set<string>)
    requires Within(s, bound) && But(s, t, name) && (name == "" ==> t == s) && Scoped(c, body, bound + {name})
    ensures var r, p := MapLoop(c, t, items, name, body), PureEach(c, s, items, name, body);
            if p.Ok? then r.result == Ok(ToJsons(p.value)) && But(s, r.store, name) && (name == "" ==> r.store == t) else r == Listed(EndsEach(c, s, items, name, body), Err(p.error))
    decreases body, 3, |items|
  {
    if items != [] && name != "" {
      var u := SetVar(s, name, Json(items[0]));
      ButSet(s, t, name, Json(items[0]));
      Agrees(c, u, body, bound + {name});
      if Eval(c, u, body).result.Ok? { MapAgrees(c, s, u, items[1..], name, body, bound); }
    }
  }

  lemma {:induction false} OverAgrees(c: Platform, s: Store, items: seq<Json>, name: string, body: Json, filtering: bool, bound: set<string>)
    requires Within(s, bound) && name !in bound && Scoped(c, body, bound + {name})
    ensures var p := PureEach(c, s, items, name, body);
            var want := match p case Ok(values) => Ok(Json(Array(if filtering then Kept(items, values) else ToJsons(values)))) case Err(error) => Err(error);
            Same(s, Close(if filtering then FilterLoop(c, s, items, name, body) else MapLoop(c, s, items, name, body), name), want,
                 if p.Ok? then s else EndsEach(c, s, items, name, body))
    decreases body, 4
  {
    if filtering { FilterAgrees(c, s, s, items, name, body, bound); } else { MapAgrees(c, s, s, items, name, body, bound); }
    var r := if filtering then FilterLoop(c, s, items, name, body) else MapLoop(c, s, items, name, body);
    if r.result.Ok? { ButSet(s, r.store, name, Undefined); }
  }

  /** `s` with the accumulator set and the element's name set or not. */
  ghost predicate Folding(s: Store, t: Store, acc: string, value: JsValue, name: string) {
    t == SetVar(s, acc, value) || exists v :: t == SetVar(SetVar(s, name, v), acc, value)
  }

  lemma FoldSet(s: Store, t: Store, acc: string, value: JsValue, name: string, item: JsValue, res: JsValue)
    requires Folding(s, t, acc, value, name)
    ensures SetVar(t, name, item) == SetVar(SetVar(s, acc, value), name, item)
    ensures Folding(s, SetVar(SetVar(t, name, item), acc, res), acc, res, name)
  {
    OverSet(s.vars, acc, value, name, item, res, Undefined);
    if t != SetVar(s, acc, value) {
      var v :| t == SetVar(SetVar(s, name, v), acc, value);
      OverSet(s.vars, acc, value, name, item, res, v);
    }
    assert SetVar(SetVar(t, name, item), acc, res) == SetVar(SetVar(s, name, item), acc, res);
  }

  lemma OverSet(m: map<string, JsValue>, acc: string, value: JsValue, name: string, item: JsValue, res: JsValue, v: JsValue)
    ensures m[name := v][acc := value][name := item] == m[acc := value][name := item]
    ensures m[acc := value][name := item][acc := res] == m[name := item][acc := res]
  {
  }

  lemma {:induction false} ReduceAgrees(c: Platform, s: Store, t: Store, start: JsValue, items: seq<Json>, acc: string, name: string, body: Json, bound: set<string>)
    requires Within(s, bound) && acc != "" && Folding(s, t, acc, start, name) && (name == "" ==> t == SetVar(s, acc, start))
    requires Scoped(c, body, bound + {acc} + {name})
    ensures var r, p := ReduceLoop(c, t, items, acc, name, body), PureFold(c, s, start, items, acc, name, body);
            if p.Ok? then r.result.Ok? && Folding(s, r.store, acc, p.value, name) && (items == [] ==> r.store == t) && (name == "" ==> items == [])
            else r == Outcome(EndsSteps(c, s, start, items, acc, name, body), Err(p.error))
    decreases body, 3, |items|
  {
    if items != [] && name != "" {
      var u := SetVar(SetVar(s, acc, start), name, Json(items[0]));
      Agrees(c, u, body, bound + {acc} + {name});
      FoldSet(s, t, acc, start, name, Json(items[0]), Undefined);
      if Eval(c, u, body).result.Ok? {
        var res := Eval(c, u, body).result.value;
        FoldSet(s, t, acc, start, name, Json(items[0]), res);
        ReduceAgrees(c, s, SetVar(u, acc, res), res, items[1..], acc, name, body, bound);
      }
    }
  }

  lemma {:induction false} FoldAgrees(c: Platform, s: Store, start: JsValue, items: seq<Json>, acc: string, name: string, body: Json, bound: set<string>)
    requires Within(s, bound) && acc !in bound && name !in bound && Scoped(c, body, bound + {acc} + {name})
    ensures Same(s, FoldInStore(c, s, start, items, acc, name, body), if acc == "" then Err(InvalidVarname) else PureFold(c, s, start, items, acc, name, body),
                 EndsFold(c, s, start, items, acc, name, body))
    decreases body, 4
  {
    hide Eval, Pure, ReduceLoop, PureFold, EndsSteps, Scoped;
    if acc != "" {
      var t := SetVar(s, acc, start);
      ReduceAgrees(c, s, t, start, items, acc, name, body, bound);
      var r := ReduceLoop(c, t, items, acc, name, body);
      if r.result.Ok? { FoldClosed(s, r.store, acc, PureFold(c, s, start, items, acc, name, body).value, name); }
    }
  }

  lemma FoldClosed(s: Store, t: Store, acc: string, value: JsValue, name: string)
    requires Folding(s, t, acc, value, name) && acc != "" && acc !in s.vars && name !in s.vars
    requires name == "" ==> t == SetVar(s, acc, value)
    ensures GetVar(t, acc) == value && DelVar(DelVar(t, acc), name) == s
  {
    if name == "" {
      assert s.vars[acc := value] - {acc} == s.vars;
    } else {
      assert DelVar(DelVar(t, acc), name).vars == s.vars;
    }
  }

  /** For an expression evaluated in a store: bind nothing the store has and rebind nothing inside, and the shared store cannot be seen. */
  lemma NoSharing(c: Platform, s: Store, e: Json)
    requires Scoped(c, e, s.vars.Keys)
    ensures Eval(c, s, e).result == Pure(c, s, e)
    ensures Eval(c, s, e).result.Ok? ==> Eval(c, s, e).store == s
    ensures Eval(c, s, e).result.Err? ==> Eval(c, s, e).store == EndsIn(c, s, e)
  {
    Agrees(c, s, e, s.vars.Keys);
  }

  // ---------------------------------------------------------------- what the pure loops compute

  /** `map` is pointwise, and `filter` keeps in order exactly the elements whose value is truthy. */
  lemma {:induction false} EachPointwise(c: Platform, env: Store, items: seq<Json>, name: string, body: Json)
    requires PureEach(c, env, items, name, body).Ok?
    ensures var values := PureEach(c, env, items, name, body).value;
            && (forall i :: 0 <= i < |items| ==> Pure(c, SetVar(env, name, Json(items[i])), body) == Ok(values[i]))
            && (forall i :: 0 <= i < |items| ==> ToJsons(values)[i] == ToJson(values[i]))
            && Kept(items, values) == Common.Filter(items, (x: Json) => PassesIn(c, env, name, body, x))
    decreases items
  {
    if items != [] {
      var values := PureEach(c, env, items, name, body).value;
      EachPointwise(c, env, items[1..], name, body);
      assert values[1..] == PureEach(c, env, items[1..], name, body).value;
      forall i | 0 <= i < |items|
        ensures Pure(c, SetVar(env, name, Json(items[i])), body) == Ok(values[i]) && ToJsons(values)[i] == ToJson(values[i])
      {
        if i > 0 { assert items[i] == items[1..][i - 1] && values[i] == values[1..][i - 1]; }
      }
    }
  }

  ghost predicate PassesIn(c: Platform, env: Store, name: string, body: Json, x: Json) {
    var r := Pure(c, SetVar(env, name, Json(x)), body);
    r.Ok? && IsTruthy(r.value)
  }

  /** `reduce` over two lists in a row goes on with the second from where the first left it. */
  lemma {:induction false} FoldInParts(c: Platform, env: Store, start: JsValue, a: seq<Json>, b: seq<Json>, acc: string, name: string, body: Json)
    ensures PureFold(c, env, start, a + b, acc, name, body)
            == match PureFold(c, env, start, a, acc, name, body)
               case Ok(mid) => PureFold(c, env, mid, b, acc, name, body)
               case Err(error) => Err(error)
    decreases |a|
  {
    if a == [] {
      assert a + b == b;
    } else {
      assert (a + b)[0] == a[0] && (a + b)[1..] == a[1..] + b;
      var r := Pure(c, SetVar(SetVar(env, acc, start), name, Json(a[0])), body);
      if name != "" && r.Ok? { FoldInParts(c, env, r.value, a[1..], b, acc, name, body); }
    }
  }

  // ---------------------------------------------------------------- where sharing shows

  /** After success the names a `filter`, `map` or `reduce` bound are gone, also when they were there before. */
  lemma ShadowedIsLost(c: Platform, s: Store, e: Json, op: Op, key: string, name: string)
    requires FormOf(c, e) == Apply(op, key) && name != "" && name in OwnNames(op, e) && Eval(c, s, e).result.Ok?
    ensures name !in Eval(c, s, e).store.vars
  {
    hide Eval, Ran;
    StoreAfter(c, s, e);
  }

  // ---------------------------------------------------------------- what any outcome leaves alone

  ghost predicate Untouched(s: Store, t: Store, names: set<string>) {
    t.env == s.env && t.vars - names == s.vars - names
  }

  lemma SetWithin(s: Store, n: string, v: JsValue, names: set<string>)
    requires n in names
    ensures Untouched(s, SetVar(s, n, v), names) && Untouched(s, DelVar(s, n), names)
  {
    assert s.vars[n := v] - names == s.vars - names;
    assert (s.vars - {n}) - names == s.vars - names;
  }

  /** Success or failure, names the expression does not bind keep their values. */
  lemma {:induction false} Outside(c: Platform, s: Store, e: Json, names: set<string>)
    requires Binders(c, e) <= names
    ensures Untouched(s, Eval(c, s, e).store, names)
    decreases e, 1
  {
    match FormOf(c, e)
    case Literal(_) =>
    case Bad(_) =>
    case Apply(op, key) => OpOutside(c, s, e, op, key, names);
  }

  lemma {:induction false} OpOutside(c: Platform, s: Store, e: Json, op: Op, key: string, names: set<string>)
    requires FormOf(c, e) == Apply(op, key) && Binders(c, e) <= names
    ensures Untouched(s, EvalOp(c, s, e, op, key).store, names)
    decreases e, 0
  {
    hide Eval, EvalStrict, EvalChain, EvalFilter, EvalMap, EvalReduce, BindersOfAll, Binders, ResolveVar;
    var xs := e.items;
    if op != Strict && op != And && op != Or { OperandBinders(c, e, op, 1); }
    if op == Strict {
      AllBinders(c, e, op);
      StrictOutside(c, s, key, xs[1..], [], names);
    } else if op == And || op == Or {
      AllBinders(c, e, op);
      ChainOutside(c, s, xs[1..], op == And, names);
    } else {
      var a := Eval(c, s, xs[1]);
      Outside(c, s, xs[1], names);
      if a.result.Ok? {
        if op == If {
          var k := if IsTruthy(a.result.value) then 2 else 3;
          OperandBinders(c, e, op, k);
          Outside(c, a.store, xs[k], names);
        } else if op == Get && |xs| > 2 {
          assert xs[2..][0] == xs[2];
          OperandBinders(c, e, op, 2);
          Outside(c, a.store, xs[2], names);
        } else if op == Filter || op == Map {
          OwnBinders(c, e, op);
          OperandBinders(c, e, op, 3);
          OverOutside(c, a.store, a.result.value, xs[2], xs[3], op == Filter, names);
        } else if op == Reduce {
          OwnBinders(c, e, op);
          OperandBinders(c, e, op, 2);
          OperandBinders(c, e, op, 5);
          ReduceOutside(c, a.store, a.result.value, xs[2..], names);
        }
      }
    }
  }

  lemma AllBinders(c: Platform, e: Json, op: Op)
    requires FormOf(c, e).Apply? && FormOf(c, e).op == op && op != Filter && op != Map && op != Reduce
    ensures BindersOfAll(c, e.items[1..]) == Binders(c, e)
  {
  }

  lemma OwnBinders(c: Platform, e: Json, op: Op)
    requires FormOf(c, e).Apply? && FormOf(c, e).op == op
    ensures OwnNames(op, e) <= Binders(c, e)
    ensures op == Filter || op == Map ==> OwnNames(op, e) == NameIn(e.items[2])
    ensures op == Reduce ==> OwnNames(op, e) == NameIn(e.items[3]) + NameIn(e.items[4])
  {
  }

  lemma {:induction false} StrictOutside(c: Platform, s: Store, key: string, operands: seq<Json>, args: seq<JsValue>, names: set<string>)
    requires BindersOfAll(c, operands) <= names
    ensures Untouched(s, EvalStrict(c, s, key, operands, args).store, names)
    decreases operands, 0
  {
    hide Eval, Binders;
    if operands != [] {
      var a := Eval(c, s, operands[0]);
      Outside(c, s, operands[0], names);
      if a.result.Ok? { StrictOutside(c, a.store, key, operands[1..], args + [a.result.value], names); }
    }
  }

  lemma {:induction false} ChainOutside(c: Platform, s: Store, operands: seq<Json>, goOn: bool, names: set<string>)
    requires operands != [] && BindersOfAll(c, operands) <= names
    ensures Untouched(s, EvalChain(c, s, operands, goOn).store, names)
    decreases operands, 0
  {
    hide Eval, Binders;
    Outside(c, s, operands[0], names);
    if |operands| > 1 { ChainOutside(c, Eval(c, s, operands[0]).store, operands[1..], goOn, names); }
  }

  lemma {:induction false} OverOutside(c: Platform, s: Store, v: JsValue, literal: Json, body: Json, filtering: bool, names: set<string>)
    requires Binders(c, body) <= names && NameIn(literal) <= names
    ensures Untouched(s, (if filtering then EvalFilter(c, s, v, literal, body) else EvalMap(c, s, v, literal, body)).store, names)
    decreases body, 4
  {
    hide FilterLoop, MapLoop, Binders;
    if AsArray(v).Ok? && LiteralString(literal).Ok? {
      var items, name := AsArray(v).value, LiteralString(literal).value;
      var r := if filtering then FilterLoop(c, s, items, name, body) else MapLoop(c, s, items, name, body);
      if filtering { FilterOutside(c, s, items, name, body, names); } else { MapOutside(c, s, items, name, body, names); }
      SetWithin(r.store, name, Undefined, names);
    }
  }

  lemma {:induction false} FilterOutside(c: Platform, s: Store, items: seq<Json>, name: string, body: Json, names: set<string>)
    requires Binders(c, body) <= names && name in names
    ensures Untouched(s, FilterLoop(c, s, items, name, body).store, names)
    decreases body, 3, |items|
  {
    hide Eval, Binders;
    if items != [] && name != "" {
      var u := SetVar(s, name, Json(items[0]));
      SetWithin(s, name, Json(items[0]), names);
      Outside(c, u, body, names);
      FilterOutside(c, Eval(c, u, body).store, items[1..], name, body, names);
    }
  }

  lemma {:induction false} MapOutside(c: Platform, s: Store, items: seq<Json>, name: string, body: Json, names: set<string>)
    requires Binders(c, body) <= names && name in names
    ensures Untouched(s, MapLoop(c, s, items, name, body).store, names)
    decreases body, 3, |items|
  {
    hide Eval, Binders;
    if items != [] && name != "" {
      var u := SetVar(s, name, Json(items[0]));
      SetWithin(s, name, Json(items[0]), names);
      Outside(c, u, body, names);
      MapOutside(c, Eval(c, u, body).store, items[1..], name, body, names);
    }
  }

  lemma {:induction false} ReduceOutside(c: Platform, s: Store, v: JsValue, rest: seq<Json>, names: set<string>)
    requires |rest| == 4 && Binders(c, rest[0]) + NameIn(rest[1]) + NameIn(rest[2]) + Binders(c, rest[3]) <= names
    ensures Untouched(s, EvalReduce(c, s, v, rest).store, names)
    decreases rest, 4
  {
    hide Eval, Binders, ReduceLoop;
    Outside(c, s, rest[0], names);
    var i := Eval(c, s, rest[0]);
    if AsArray(v).Ok? && i.result.Ok? && LiteralString(rest[1]).Ok? && LiteralString(rest[2]).Ok? {
      var items, acc, name := AsArray(v).value, LiteralString(rest[1]).value, LiteralString(rest[2]).value;
      var u := SetVar(i.store, acc, i.result.value);
      SetWithin(i.store, acc, i.result.value, names);
      StepsOutside(c, u, items, acc, name, rest[3], names);
      var t := ReduceLoop(c, u, items, acc, name, rest[3]).store;
      SetWithin(t, acc, Undefined, names);
      SetWithin(DelVar(t, acc), name, Undefined, names);
    }
  }

  lemma {:induction false} StepsOutside(c: Platform, s: Store, items: seq<Json>, acc: string, name: string, body: Json, names: set<string>)
    requires Binders(c, body) <= names && acc in names && name in names
    ensures Untouched(s, ReduceLoop(c, s, items, acc, name, body).store, names)
    decreases body, 3, |items|
  {
    hide Eval, Binders;
    if items != [] && name != "" {
      var u := SetVar(s, name, Json(items[0]));
      SetWithin(s, name, Json(items[0]), names);
      Outside(c, u, body, names);
      var r := Eval(c, u, body);
      if r.result.Ok? {
        SetWithin(r.store, acc, r.result.value, names);
        StepsOutside(c, SetVar(r.store, acc, r.result.value), items[1..], acc, name, body, names);
      }
    }
  }

  /** Whatever comes of an evaluation, names the expression does not bind keep their values, or stay away. */
  lemma OthersKept(c: Platform, s: Store, e: Json, n: string)
    requires n !in Binders(c, e)
    ensures var t := Eval(c, s, e).store;
            t.env == s.env && (n in t.vars <==> n in s.vars) && (n in s.vars ==> t.vars[n] == s.vars[n])
  {
    hide Eval;
    var names := Binders(c, e);
    Outside(c, s, e, names);
    var t := Eval(c, s, e).store;
    assert n in t.vars <==> n in t.vars - names;
    assert n in s.vars <==> n in s.vars - names;
    if n in s.vars { assert (t.vars - names)[n] == (s.vars - names)[n]; }
  }

  lemma {:induction false} ScopedBinders(c: Platform, e: Json, bound: set<string>)
    requires Scoped(c, e, bound)
    ensures Binders(c, e) !! bound
    decreases e, 1
  {
    if FormOf(c, e).Apply? {
      var op := FormOf(c, e).op;
      if op == Filter || op == Map {
        ScopedBinders(c, e.items[1], bound);
        ScopedBinders(c, e.items[3], bound + NameIn(e.items[2]));
      } else if op == Reduce {
        ScopedBinders(c, e.items[1], bound);
        ScopedBinders(c, e.items[2], bound);
        ScopedBinders(c, e.items[5], bound + NameIn(e.items[3]) + NameIn(e.items[4]));
      } else {
        ScopedAllBinders(c, e.items[1..], bound);
      }
    }
  }

  lemma {:induction false} ScopedAllBinders(c: Platform, es: seq<Json>, bound: set<string>)
    requires ScopedAll(c, es, bound)
    ensures BindersOfAll(c, es) !! bound
    decreases es, 0
  {
    if es != [] {
      ScopedBinders(c, es[0], bound);
      ScopedAllBinders(c, es[1..], bound);
    }
  }

  // ---------------------------------------------------------------- what a failure leaves behind

  /** A failing expression that binds no name of the store only adds to it, and only names it binds. */
  lemma FailureAdds(c: Platform, s: Store, e: Json)
    requires Scoped(c, e, s.vars.Keys)
    ensures var t := Eval(c, s, e).store;
            && t.env == s.env
            && (forall n :: n in s.vars ==> n in t.vars && t.vars[n] == s.vars[n])
            && t.vars.Keys - s.vars.Keys <= Binders(c, e)
  {
    hide Eval, Scoped, Binders;
    var t := Eval(c, s, e).store;
    ScopedBinders(c, e, s.vars.Keys);
    Outside(c, s, e, Binders(c, e));
    forall n | n in s.vars ensures n in t.vars && t.vars[n] == s.vars[n] { OthersKept(c, s, e, n); }
    forall n | n in t.vars && n !in s.vars ensures n in Binders(c, e) {
      if n !in Binders(c, e) { OthersKept(c, s, e, n); }
    }
  }

  ghost function Loop(c: Platform, s: Store, items: seq<Json>, name: string, body: Json, filtering: bool): Listed {
    if filtering then FilterLoop(c, s, items, name, body) else MapLoop(c, s, items, name, body)
  }

  /** A loop that fails leaves the element it failed on, unless its name was refused before the first. */
  lemma {:induction false} FailedLoop(c: Platform, s: Store, items: seq<Json>, name: string, body: Json, filtering: bool)
    requires name !in Binders(c, body) && Loop(c, s, items, name, body, filtering).result.Err?
    ensures var t := Loop(c, s, items, name, body, filtering).store;
            if name == "" then t == s else name in t.vars && exists i :: 0 <= i < |items| && t.vars[name] == Json(items[i])
    decreases items
  {
    hide Eval, Binders;
    var t := Loop(c, s, items, name, body, filtering).store;
    if name != "" {
      var u := SetVar(s, name, Json(items[0]));
      var r := Eval(c, u, body);
      OthersKept(c, u, body, name);
      if r.result.Err? {
        assert t.vars[name] == Json(items[0]);
      } else {
        FailedLoop(c, r.store, items[1..], name, body, filtering);
        var i :| 0 <= i < |items[1..]| && t.vars[name] == Json(items[1..][i]);
        assert items[i + 1] == items[1..][i];
      }
    }
  }

  lemma {:induction false} FailedSteps(c: Platform, s: Store, items: seq<Json>, acc: string, name: string, body: Json)
    requires acc in s.vars && acc !in Binders(c, body) && ReduceLoop(c, s, items, acc, name, body).result.Err?
    ensures acc in ReduceLoop(c, s, items, acc, name, body).store.vars
    decreases items
  {
    hide Eval, Binders;
    if name != "" {
      var u := SetVar(s, name, Json(items[0]));
      var r := Eval(c, u, body);
      OthersKept(c, u, body, acc);
      if r.result.Ok? { FailedSteps(c, SetVar(r.store, acc, r.result.value), items[1..], acc, name, body); }
    }
  }

  /**
   A `filter` or `map` whose first operand could be evaluated, and whose name is neither in the store
   nor bound in the body, leaves the store as that operand did when it fails before its loop begins,
   and leaves an element under its name when it fails inside.
   */
  lemma FailureLeaks(c: Platform, s: Store, e: Json, op: Op, key: string)
    requires FormOf(c, e) == Apply(op, key) && (op == Filter || op == Map) && Eval(c, s, e).result.Err?
    requires Eval(c, s, e.items[1]).result.Ok?
    requires NameIn(e.items[2]) !! Eval(c, s, e.items[1]).store.vars.Keys + Binders(c, e.items[3])
    ensures var a := Eval(c, s, e.items[1]);
            && (Eval(c, s, e).store == a.store <==> AsArray(a.result.value).Err? || NameIn(e.items[2]) <= {""})
            && (Eval(c, s, e).store != a.store ==>
                  && LiteralString(e.items[2]).value in Eval(c, s, e).store.vars
                  && (exists x :: x in AsArray(a.result.value).value && Eval(c, s, e).store.vars[LiteralString(e.items[2]).value] == Json(x)))
  {
    hide Eval, FilterLoop, MapLoop, Binders;
    OpIsLast(c, s, e, op, key);
    var a := Eval(c, s, e.items[1]);
    if AsArray(a.result.value).Ok? && LiteralString(e.items[2]).Ok? {
      var items, name := AsArray(a.result.value).value, LiteralString(e.items[2]).value;
      FailedLoop(c, a.store, items, name, e.items[3], op == Filter);
      var t := Loop(c, a.store, items, name, e.items[3], op == Filter).store;
      assert Eval(c, s, e).store == t;
      if name != "" {
        var i :| 0 <= i < |items| && t.vars[name] == Json(items[i]);
        assert items[i] in items;
      }
    }
  }

  /** The same for `reduce`: it leaves its accumulator when it fails after setting it, and nothing when before. */
  lemma FailedReduceLeaks(c: Platform, s: Store, v: JsValue, rest: seq<Json>)
    requires |rest| == 4 && Eval(c, s, rest[0]).result.Ok? && EvalReduce(c, s, v, rest).result.Err?
    requires NameIn(rest[1]) !! Eval(c, s, rest[0]).store.vars.Keys + Binders(c, rest[3])
    ensures AsArray(v).Ok? ==>
              var i := Eval(c, s, rest[0]);
              && (EvalReduce(c, s, v, rest).store == i.store <==> LiteralString(rest[2]).Err? || NameIn(rest[1]) <= {""})
              && (EvalReduce(c, s, v, rest).store != i.store ==> LiteralString(rest[1]).value in EvalReduce(c, s, v, rest).store.vars)
    ensures AsArray(v).Err? ==> EvalReduce(c, s, v, rest).store == s
  {
    hide Eval, ReduceLoop, Binders;
    var i := Eval(c, s, rest[0]);
    if AsArray(v).Ok? && LiteralString(rest[1]).Ok? && LiteralString(rest[2]).Ok? && LiteralString(rest[1]).value != "" {
      var acc := LiteralString(rest[1]).value;
      FailedSteps(c, SetVar(i.store, acc, i.result.value), AsArray(v).value, acc, LiteralString(rest[2]).value, rest[3]);
    }
  }

  lemma OpIsLast(c: Platform, s: Store, e: Json, op: Op, key: string)
    requires FormOf(c, e) == Apply(op, key) && (op == Filter || op == Map)
    ensures var a := Eval(c, s, e.items[1]);
            Eval(c, s, e) == if a.result.Err? then a
                             else if op == Filter then EvalFilter(c, a.store, a.result.value, e.items[2], e.items[3])
                             else EvalMap(c, a.store, a.result.value, e.items[2], e.items[3])
  {
    hide EvalFilter, EvalMap;
    assert Eval(c, s, e) == EvalOp(c, s, e, op, key);
  }

  // ---------------------------------------------------------------- where the two evaluators part

  const X_NAME := "x"
  /** Maps over an empty list under the name x. */
  const EMPTY_MAP := Array([String("map"), Array([Array([])]), String(X_NAME), Number(0.0)])
  const GET_X := Array([String("get"), String(X_NAME)])
  /** If the map is truthy, as every array is, the value of x. */
  const FORGETFUL := Array([String("if"), EMPTY_MAP, GET_X, Number(0.0)])
  const REBINDING := Array([String("map"), Array([Array([Number(0.0)])]), String(X_NAME), FORGETFUL])

  lemma GetX(c: Platform, s: Store)
    requires forall v :: c.point(v, "") == Ok(v)
    ensures Eval(c, s, GET_X) == Outcome(s, ThrowOnUndefined(GetVar(s, X_NAME), None))
    ensures Pure(c, s, GET_X) == ThrowOnUndefined(GetVar(s, X_NAME), None)
  {
    var name := Json(String(X_NAME));
    assert FormOf(c, GET_X) == Apply(Get, "get");
    assert Eval(c, s, GET_X.items[1]) == Outcome(s, Ok(name)) && Pure(c, s, GET_X.items[1]) == Ok(name);
    assert GET_X.items[2..] == [];
    assert NameEnd(X_NAME) == 1 by { assert X_NAME[1..] == ""; }
    assert X_NAME[..1] == X_NAME && X_NAME[1..] == "";
    assert ResolveVar(c, s, name) == Ok(GetVar(s, X_NAME));
    hide Eval, Pure;
    GetStep(c, s, GET_X, "get");
  }

  lemma GetStep(c: Platform, s: Store, e: Json, key: string)
    requires FormOf(c, e) == Apply(Get, key) && Eval(c, s, e.items[1]) == Outcome(s, Pure(c, s, e.items[1])) && Pure(c, s, e.items[1]).Ok?
    ensures Eval(c, s, e) == EvalGet(c, s, Pure(c, s, e.items[1]).value, e.items[2..])
    ensures Pure(c, s, e) == PureGet(c, s, Pure(c, s, e.items[1]).value, e.items[2..])
  {
    hide EvalGet, PureGet;
    assert Eval(c, s, e) == EvalOp(c, s, e, Get, key);
  }

  lemma EmptyMap(c: Platform, s: Store)
    ensures Eval(c, s, EMPTY_MAP) == Outcome(DelVar(s, X_NAME), Ok(Json(Array([]))))
    ensures Pure(c, s, EMPTY_MAP) == Ok(Json(Array([])))
  {
    var list := Json(Array([]));
    assert FormOf(c, EMPTY_MAP) == Apply(Map, "map");
    assert Eval(c, s, EMPTY_MAP.items[1]) == Outcome(s, Ok(list)) && Pure(c, s, EMPTY_MAP.items[1]) == Ok(list);
    hide Eval, Pure;
    MapStep(c, s, EMPTY_MAP, "map", list);
  }

  lemma MapStep(c: Platform, s: Store, e: Json, key: string, v: JsValue)
    requires FormOf(c, e) == Apply(Map, key) && Eval(c, s, e.items[1]) == Outcome(s, Ok(v)) && Pure(c, s, e.items[1]) == Ok(v)
    ensures Eval(c, s, e) == EvalMap(c, s, v, e.items[2], e.items[3])
    ensures Pure(c, s, e) == PureOver(c, s, v, e.items[2], e.items[3], false)
  {
    hide EvalMap, PureOver;
    assert Eval(c, s, e) == EvalOp(c, s, e, Map, key);
  }

  /** A name bound outside, in the store or by an operator around, is forgotten where it is bound again inside. */
  lemma Forgets(c: Platform, s: Store)
    requires (forall v :: c.point(v, "") == Ok(v)) && GetVar(s, X_NAME) != Undefined
    ensures Eval(c, s, FORGETFUL) == Outcome(DelVar(s, X_NAME), Err(NotFound))
    ensures Pure(c, s, FORGETFUL) == Ok(GetVar(s, X_NAME))
  {
    EmptyMap(c, s);
    GetX(c, s);
    GetX(c, DelVar(s, X_NAME));
    assert FormOf(c, FORGETFUL) == Apply(If, "if");
    hide Eval, Pure;
    IfStep(c, s, FORGETFUL, "if");
  }

  lemma IfStep(c: Platform, s: Store, e: Json, key: string)
    requires FormOf(c, e) == Apply(If, key) && Eval(c, s, e.items[1]).result == Pure(c, s, e.items[1])
    requires Pure(c, s, e.items[1]).Ok? && IsTruthy(Pure(c, s, e.items[1]).value)
    ensures Eval(c, s, e) == Eval(c, Eval(c, s, e.items[1]).store, e.items[2])
    ensures Pure(c, s, e) == Pure(c, s, e.items[2])
  {
    assert Eval(c, s, e) == EvalOp(c, s, e, If, key);
  }

  /** A name bound again inside a map over it: in any store, what has a value without sharing fails with it. */
  lemma RebindingFails(c: Platform, s: Store)
    requires forall v :: c.point(v, "") == Ok(v)
    ensures Eval(c, s, REBINDING).result == Err(NotFound) && Pure(c, s, REBINDING) == Ok(Json(Array([Number(0.0)])))
  {
    var zero := Json(Number(0.0));
    var list := Json(Array([Number(0.0)]));
    var u := SetVar(s, X_NAME, zero);
    assert FormOf(c, REBINDING) == Apply(Map, "map");
    assert Eval(c, s, REBINDING.items[1]) == Outcome(s, Ok(list)) && Pure(c, s, REBINDING.items[1]) == Ok(list);
    Forgets(c, u);
    hide Eval, Pure;
    MapStep(c, s, REBINDING, "map", list);
    OneElement(c, s, Number(0.0), X_NAME, FORGETFUL);
    assert ToJsons([zero]) == [Number(0.0)];
  }

  lemma OneElement(c: Platform, s: Store, item: Json, name: string, body: Json)
    requires name != ""
    ensures var r := Eval(c, SetVar(s, name, Json(item)), body); r.result.Err? ==> MapLoop(c, s, [item], name, body) == Listed(r.store, Err(r.result.error))
    ensures var p := Pure(c, SetVar(s, name, Json(item)), body); p.Ok? ==> PureEach(c, s, [item], name, body) == Ok([p.value])
  {
    hide Eval, Pure;
    assert [item][1..] == [] && PureEach(c, s, [], name, body) == Ok([]);
    var p := Pure(c, SetVar(s, name, Json(item)), body);
    if p.Ok? { assert [p.value] + [] == [p.value]; }
  }
}
