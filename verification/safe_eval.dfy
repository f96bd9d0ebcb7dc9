/**
 * The policy expression sandbox: a whitelist evaluator over the syntax tree
 * Python's `ast.parse(expr, mode="eval")` produces. Only the node kinds below
 * that the evaluator accepts are evaluated; every other kind is represented by
 * `OtherNode`, `OtherBinOp`, `OtherUnaryOp` or `OtherConstant`, so that
 * rejection of anything outside the whitelist can be stated.
 */
module SafeEval {
  import opened Wrappers
  import opened Decimals

  /** The eight variable names an expression may read. */
  const AllowedNames: set<string> :=
    {"kwh", "price_ct_per_kwh", "feedin_ct_per_kwh", "amount_eur_prev",
     "base_sum", "percent", "value", "qty"}

  /** The three functions an expression may call. */
  const AllowedFuncs: set<string> := {"min", "max", "round"}

  datatype BinOp = Add | Sub | Mult | Div | OtherBinOp      // OtherBinOp: **, %, //, <<, &, ...
  datatype UnaryOp = UAdd | USub | OtherUnaryOp             // OtherUnaryOp: not, ~

  /**
   * A literal. `Num` is an int or float literal with the exact decimal value of
   * its `str`; `Str` is a string literal with the value `Decimal` reads from it,
   * if it reads one; `Bool` is True/False (an `int` to Python, but `Decimal`
   * rejects its text); `OtherConstant` is None, bytes, complex or Ellipsis.
   */
  datatype Constant = Num(value: real) | Str(numeric: Option<real>) | Bool(b: bool) | OtherConstant

  datatype Expr =
    | BinOpNode(op: BinOp, left: Expr, right: Expr)
    | UnaryOpNode(uop: UnaryOp, operand: Expr)
    | Name(id: string)
    | Call(func: Expr, args: seq<Expr>, keywords: seq<(string, Expr)>)   // `f(a, ..., k=v, ...)`
    | Const(c: Constant)
    | OtherNode                       // Attribute, Subscript, Compare, BoolOp, Lambda, IfExp, ...

  /** The `ValueError`s the evaluator raises, one per message. */
  datatype EvalError =
    | OperatorNotAllowed
    | UnaryOpNotAllowed
    | NameNotAllowed(name: string)
    | FunctionNotAllowed
    | EmptyMinMax                     // `min([])` / `max([])`
    | BadRoundArgs
    | ConstantNotNumeric
    | ConstantTypeNotAllowed
    | ExpressionNotAllowed

  function MinOf(s: seq<real>): (m: real)
    requires |s| > 0
    ensures m in s && forall x :: x in s ==> m <= x
  {
    if |s| == 1 then s[0]
    else
      assert forall x :: x in s ==> x == s[0] || x in s[1..];
      Min(s[0], MinOf(s[1..]))
  }

  function MaxOf(s: seq<real>): (m: real)
    requires |s| > 0
    ensures m in s && forall x :: x in s ==> x <= m
  {
    if |s| == 1 then s[0]
    else
      assert forall x :: x in s ==> x == s[0] || x in s[1..];
      Max(s[0], MaxOf(s[1..]))
  }

  /** `visit_BinOp` once both operands are evaluated. */
  function ApplyBinOp(op: BinOp, l: real, r: real): Result<real, EvalError>
  {
    match op
    case Add => Ok(l + r)
    case Sub => Ok(l - r)
    case Mult => Ok(l * r)
    case Div => if r != 0.0 then Ok(l / r) else Ok(0.0)
    case OtherBinOp => Err(OperatorNotAllowed)
  }

  /** `visit_UnaryOp` once the operand is evaluated. */
  function ApplyUnaryOp(op: UnaryOp, v: real): Result<real, EvalError>
  {
    match op
    case USub => Ok(-v)
    case UAdd => Ok(v)
    case OtherUnaryOp => Err(UnaryOpNotAllowed)
  }

  /** `visit_Call` once the arguments are evaluated; `f` is already whitelisted. */
  function ApplyCall(f: string, args: seq<real>): Result<real, EvalError>
  {
    if f == "min" then (if |args| == 0 then Err(EmptyMinMax) else Ok(MinOf(args)))
    else if f == "max" then (if |args| == 0 then Err(EmptyMinMax) else Ok(MaxOf(args)))
    else if |args| == 1 then Ok(QuantizeHalfUp(args[0], 1.0))
    else if |args| == 2 then Ok(QuantizeHalfUp(args[0], Pow10(-Trunc(args[1]))))
    else Err(BadRoundArgs)
  }

  /** `visit_Constant` */
  function EvalConstant(c: Constant): Result<real, EvalError>
  {
    match c
    case Num(v) => Ok(v)
    case Str(n) => if n.Some? then Ok(n.value) else Err(ConstantNotNumeric)
    case Bool(_) => Err(ConstantNotNumeric)
    case OtherConstant => Err(ConstantTypeNotAllowed)
  }

  /** `vars.get(id, 0)` */
  function Lookup(vars: map<string, real>, id: string): real
  {
    if id in vars then vars[id] else 0.0
  }

  /**
   * `SafeEvaluator(vars).visit(e)`: operands and arguments are evaluated left
   * to right and the first error raised is the result.
   */
  function Eval(e: Expr, vars: map<string, real>): Result<real, EvalError>
    decreases e
  {
    match e
    case BinOpNode(op, l, r) =>
      var lv :- Eval(l, vars);
      var rv :- Eval(r, vars);
      ApplyBinOp(op, lv, rv)
    case UnaryOpNode(op, x) =>
      var v :- Eval(x, vars);
      ApplyUnaryOp(op, v)
    case Name(id) =>
      if id in AllowedNames then Ok(Lookup(vars, id)) else Err(NameNotAllowed(id))
    case Call(f, args, _) =>
      if !(f.Name? && f.id in AllowedFuncs) then Err(FunctionNotAllowed)
      else
        var vs :- EvalArgs(args, vars);
        ApplyCall(f.id, vs)
    case Const(c) => EvalConstant(c)
    case OtherNode => Err(ExpressionNotAllowed)
  }

  /** `[self.visit(a) for a in node.args]` */
  function EvalArgs(args: seq<Expr>, vars: map<string, real>): Result<seq<real>, EvalError>
    decreases args
  {
    if args == [] then Ok([])
    else
      var v :- Eval(args[0], vars);
      var vs :- EvalArgs(args[1..], vars);
      Ok([v] + vs)
  }

  /** `safe_eval(expr, variables)` on the already parsed tree of `expr`. */
  function SafeEvaluate(tree: Expr, vars: map<string, real>): Result<real, EvalError>
  {
    Eval(tree, vars)
  }

  /**
   * The whitelist as a grammar: the trees the evaluator accepts. Names from the
   * eight, calls by name to min/max with at least one argument or to round with
   * one or two, the four binary and two unary operators, numeric literals.
   */
  predicate Allowed(e: Expr)
    decreases e
  {
    match e
    case BinOpNode(op, l, r) => op != OtherBinOp && Allowed(l) && Allowed(r)
    case UnaryOpNode(op, x) => op != OtherUnaryOp && Allowed(x)
    case Name(id) => id in AllowedNames
    case Call(f, args, _) =>
      && f.Name?
      && (if f.id == "round" then 1 <= |args| <= 2
          else (f.id == "min" || f.id == "max") && |args| >= 1)
      && AllAllowed(args)
    case Const(c) => c.Num? || (c.Str? && c.numeric.Some?)
    case OtherNode => false
  }

  predicate AllAllowed(args: seq<Expr>)
    decreases args
  {
    args == [] || (Allowed(args[0]) && AllAllowed(args[1..]))
  }

  /**
   * Whitelist closure, both directions: evaluation succeeds exactly on the
   * trees of the whitelist grammar, whatever the variables are bound to.
   */
  lemma {:induction false} EvalSucceedsIffAllowed(e: Expr, vars: map<string, real>)
    ensures Eval(e, vars).Ok? <==> Allowed(e)
    decreases e
  {
    match e
    case BinOpNode(op, l, r) =>
      EvalSucceedsIffAllowed(l, vars);
      EvalSucceedsIffAllowed(r, vars);
    case UnaryOpNode(op, x) =>
      EvalSucceedsIffAllowed(x, vars);
    case Name(id) =>
    case Call(f, args, _) =>
      EvalArgsSucceedsIffAllowed(args, vars);
    case Const(c) =>
    case OtherNode =>
  }

  lemma {:induction false} EvalArgsSucceedsIffAllowed(args: seq<Expr>, vars: map<string, real>)
    ensures EvalArgs(args, vars).Ok? <==> AllAllowed(args)
    ensures EvalArgs(args, vars).Ok? ==> |EvalArgs(args, vars).value| == |args|
    decreases args
  {
    if args != [] {
      EvalSucceedsIffAllowed(args[0], vars);
      EvalArgsSucceedsIffAllowed(args[1..], vars);
    }
  }

  /** Any node kind outside the whitelist is rejected, whatever it contains. */
  lemma RejectsUnknownNodes(l: Expr, r: Expr, x: Expr, f: Expr, args: seq<Expr>, kws: seq<(string, Expr)>, id: string, vars: map<string, real>)
    requires id !in AllowedNames
    requires !(f.Name? && f.id in AllowedFuncs)
    ensures Eval(OtherNode, vars) == Err(ExpressionNotAllowed)
    ensures Eval(Name(id), vars) == Err(NameNotAllowed(id))
    ensures Eval(Call(f, args, kws), vars) == Err(FunctionNotAllowed)
    ensures Eval(Const(OtherConstant), vars) == Err(ConstantTypeNotAllowed)
    ensures Eval(BinOpNode(OtherBinOp, l, r), vars).Err?
    ensures Eval(UnaryOpNode(OtherUnaryOp, x), vars).Err?
  {
  }

  /** Division by zero gives 0 instead of failing; any other division is exact. */
  lemma DivisionByZeroIsZero(l: Expr, r: Expr, vars: map<string, real>)
    requires Eval(l, vars).Ok? && Eval(r, vars).Ok?
    ensures Eval(r, vars).value == 0.0 ==> Eval(BinOpNode(Div, l, r), vars) == Ok(0.0)
    ensures Eval(r, vars).value != 0.0 ==>
              Eval(BinOpNode(Div, l, r), vars) == Ok(Eval(l, vars).value / Eval(r, vars).value)
  {
    var a, b := Eval(l, vars).value, Eval(r, vars).value;
    assert Eval(BinOpNode(Div, l, r), vars) == ApplyBinOp(Div, a, b);
  }

  /** An allowed name that is not bound reads as 0. */
  lemma UnboundNameIsZero(id: string, vars: map<string, real>)
    requires id in AllowedNames && id !in vars
    ensures Eval(Name(id), vars) == Ok(0.0)
  {
  }

  /** `round(x)`: the nearest integer, ties away from zero. */
  lemma RoundOneArgument(x: Expr, vars: map<string, real>)
    requires Eval(x, vars).Ok?
    ensures var r := Eval(Call(Name("round"), [x], []), vars);
      var v := Eval(x, vars).value;
      && r.Ok?
      && r.value == RoundHalfUp(v) as real
      && -0.5 <= r.value - v <= 0.5
      && (r.value - v == 0.5 || r.value - v == -0.5 ==> Abs(r.value) > Abs(v))
  {
    var v := Eval(x, vars).value;
    assert [x][0] == x && [x][1..] == [];
    assert EvalArgs([], vars) == Ok([]);
    assert [v] + [] == [v];
    assert EvalArgs([x], vars) == Ok([v]);
    assert v / 1.0 == v;
  }

  /** `round(x, n)`: a multiple of 10^-int(n) within half of it, ties away from zero. */
  lemma RoundTwoArguments(x: Expr, n: Expr, vars: map<string, real>)
    requires Eval(x, vars).Ok? && Eval(n, vars).Ok?
    ensures var r := Eval(Call(Name("round"), [x, n], []), vars);
      var v := Eval(x, vars).value;
      var q := Pow10(-Trunc(Eval(n, vars).value));
      && r.Ok?
      && r.value == QuantizeHalfUp(v, q)
      && MultipleOf(r.value, q)
      && -q / 2.0 <= r.value - v <= q / 2.0
  {
    var v := Eval(x, vars).value;
    var w := Eval(n, vars).value;
    assert [x, n][0] == x && [x, n][1..] == [n];
    assert [n][0] == n && [n][1..] == [];
    assert EvalArgs([], vars) == Ok([]);
    assert [w] + [] == [w];
    assert EvalArgs([n], vars) == Ok([w]);
    assert [v] + [w] == [v, w];
    assert EvalArgs([x, n], vars) == Ok([v, w]);
    QuantizeHalfUpBounds(v, Pow10(-Trunc(w)));
  }

  /** `round` with no argument or more than two fails. */
  lemma RoundOtherArity(args: seq<Expr>, vars: map<string, real>)
    requires EvalArgs(args, vars).Ok?
    requires |args| == 0 || |args| > 2
    ensures Eval(Call(Name("round"), args, []), vars) == Err(BadRoundArgs)
  {
    EvalArgsSucceedsIffAllowed(args, vars);
  }

  /** `min` and `max` return an argument that bounds all the others. */
  lemma MinMaxSelect(args: seq<Expr>, vars: map<string, real>)
    requires EvalArgs(args, vars).Ok? && |args| > 0
    ensures var vs := EvalArgs(args, vars).value;
      var lo := Eval(Call(Name("min"), args, []), vars);
      var hi := Eval(Call(Name("max"), args, []), vars);
      && lo.Ok? && lo.value in vs && (forall v :: v in vs ==> lo.value <= v)
      && hi.Ok? && hi.value in vs && (forall v :: v in vs ==> v <= hi.value)
  {
    EvalArgsSucceedsIffAllowed(args, vars);
  }

  /**
   * Keyword arguments are never looked at: a call evaluates as the same call
   * without them, so `min(x, key=k)` is `min(x)`, whatever `k` is.
   */
  lemma KeywordsIgnored(f: Expr, args: seq<Expr>, kws: seq<(string, Expr)>, vars: map<string, real>)
    ensures Eval(Call(f, args, kws), vars) == Eval(Call(f, args, []), vars)
    ensures Allowed(Call(f, args, kws)) <==> Allowed(Call(f, args, []))
  {
  }

  /**
   * `round(x, ndigits=n)` takes the one-argument branch: it rounds to an
   * integer and never reads `n`, not even to check it.
   */
  lemma RoundKeywordDigitsIgnored(x: Expr, n: Expr, vars: map<string, real>)
    requires Eval(x, vars).Ok?
    ensures var r := Eval(Call(Name("round"), [x], [("ndigits", n)]), vars);
      && r.Ok?
      && r.value == RoundHalfUp(Eval(x, vars).value) as real
  {
    RoundOneArgument(x, vars);
  }

  /** The rate formula `kwh * price_ct_per_kwh / 100` with kwh = 100 and price 8 gives 8. */
  lemma RateFormulaExample()
    ensures SafeEvaluate(
              BinOpNode(Div, BinOpNode(Mult, Name("kwh"), Name("price_ct_per_kwh")), Const(Num(100.0))),
              map["kwh" := 100.0, "price_ct_per_kwh" := 8.0]) == Ok(8.0)
  {
  }
}
