/**
 * `PolicyEngine`: orders a policy's rules at construction and evaluates them
 * against one event. The pass keeps a running, insertion-ordered total per
 * output account that the percent-based rule kinds read, records one trace
 * entry per rule, and returns the accounts as ledger lines with their
 * unrounded totals plus the trace.
 */
module PolicyEngine {
  import opened Wrappers
  import opened Decimals
  import opened Books
  import SafeEval
  import opened PolicyRules
  import opened RuleOrder
  import opened Tariff

  const OperatorRole: string := "OPERATOR"

  /** What the trace shows as the formula: the rate expression when present, else the kind. */
  datatype Formula = Expression(e: SafeEval.Expr) | KindName(kind: Kind)

  datatype TraceEntry =
    | NotMatched(ruleId: string)
      /** A matched rule of an unknown kind: traced with result 0.00 and no effect. */
    | MatchedNoOp(ruleId: string)
    | Matched(ruleId: string, inputs: map<string, real>, formula: Formula, resultEur: real, beneficiary: Option<string>)

  datatype Totals = Totals(perAccount: map<string, real>, sumEventEur: real)
  datatype Trace = Trace(evaluations: seq<TraceEntry>, totals: Totals)
  datatype LedgerLine = LedgerLine(account: string, amountEur: real)

  type Pass = Result<(Book<string>, seq<TraceEntry>), SafeEval.EvalError>

  /** `params["percent"]` when present, else 0. */
  function Percent(rule: Rule): real
  {
    if "percent" in rule.params then rule.params["percent"] else 0.0
  }

  /** `(abs(base) * (pct / 100)).quantize(Decimal("0.0001"))` */
  function PercentAmount(base: real, pct: real): real
  {
    Quantize(Abs(base) * (pct / 100.0), Basis)
  }

  /** '+' keeps the amount; any other sign, the default '-' included, negates it. */
  function Signed(sign: string, amount: real): real
  {
    if sign == "+" then amount else -amount
  }

  /** Beneficiary redirection: the rule names the OPERATOR role and a (truthy, non-zero) operator id is given. */
  predicate RedirectsToOperator(rule: Rule, operatorId: Option<int>)
  {
    rule.beneficiaryRole == Some(OperatorRole) && operatorId.Some? && operatorId.value != 0
  }

  function FormulaOf(rule: Rule): Formula
  {
    if rule.rateExpr.Some? then Expression(rule.rateExpr.value) else KindName(rule.kind)
  }

  /** The variables a rate formula sees: `kwh`, overridden or extended by the rule's params. */
  function RateInputs(rule: Rule, ev: Event): map<string, real>
  {
    map["kwh" := ev.kwh] + rule.params
  }

  function RateFormula(rule: Rule): SafeEval.Expr
  {
    if rule.rateExpr.Some? then rule.rateExpr.value else SafeEval.Const(SafeEval.Num(0.0))
  }

  /** A rule that changes the running accounts: it applies and its kind is known. */
  predicate Effective(rule: Rule, ev: Event, role: Option<string>)
  {
    Applies(rule, ev, role) && !rule.kind.UnknownKind?
  }

  /** The unsigned amount of a matched rule of a known kind, and the inputs the trace shows. */
  function RuleAmount(rule: Rule, ev: Event, acc: Book<string>): Result<(real, map<string, real>), SafeEval.EvalError>
    requires !rule.kind.UnknownKind?
  {
    match rule.kind
    case Rate =>
      var inputs := RateInputs(rule, ev);
      var a :- SafeEval.SafeEvaluate(RateFormula(rule), inputs);
      Ok((a, inputs))
    case TieredCap =>
      Ok((TierAmount(rule.tiers, ev.kwh), map["kwh" := ev.kwh]))
    case PercentOfAccount =>
      var base := Get(acc, rule.baseAccount.GetOr(""));
      Ok((PercentAmount(base, Percent(rule)), map["base_sum" := base, "percent" := Percent(rule)]))
    case PercentOverSumAccounts =>
      var base := SumAccounts(acc, rule.accounts);
      Ok((PercentAmount(base, Percent(rule)), map["base_sum" := base, "percent" := Percent(rule)]))
  }

  /** One iteration of the evaluation loop. */
  function Step(acc: Book<string>, rule: Rule, ev: Event, role: Option<string>, operatorId: Option<int>)
    : Result<(Book<string>, TraceEntry), SafeEval.EvalError>
  {
    if !Applies(rule, ev, role) then Ok((acc, NotMatched(rule.id)))
    else if rule.kind.UnknownKind? then Ok((acc, MatchedNoOp(rule.id)))
    else
      var res :- RuleAmount(rule, ev, acc);
      var signed := Signed(rule.out.sign, res.0);
      var beneficiary := if RedirectsToOperator(rule, operatorId) then Some(OperatorRole) else None;
      Ok((Post(acc, rule.out.account, signed),
          Matched(rule.id, res.1, FormulaOf(rule), Quantize(signed, Cent), beneficiary)))
  }

  /** The evaluation loop over `rules` from running accounts `acc`: the final accounts and the trace entries. */
  function Run(rules: seq<Rule>, ev: Event, role: Option<string>, operatorId: Option<int>, acc: Book<string>): (r: Pass)
    requires Valid(acc)
    ensures r.Ok? ==> Valid(r.value.0)
    decreases |rules|
  {
    if rules == [] then Ok((acc, []))
    else
      var s :- Step(acc, rules[0], ev, role, operatorId);
      var rest :- Run(rules[1..], ev, role, operatorId, s.0);
      Ok((rest.0, [s.1] + rest.1))
  }

  /** Trace entries already recorded, followed by those of the rest of the pass. */
  function Prepend(evals: seq<TraceEntry>, r: Pass): Pass
  {
    if r.Ok? then Ok((r.value.0, evals + r.value.1)) else r
  }

  /** `_accounts_to_ledger`: one line per account, in first-touched order, with its unrounded total. */
  function AccountsToLedger(acc: Book<string>): (lines: seq<LedgerLine>)
    requires Valid(acc)
    ensures |lines| == |acc.keys|
    ensures forall i, j :: 0 <= i < j < |lines| ==> lines[i].account != lines[j].account
    ensures forall k :: k in acc.bal <==> exists i :: 0 <= i < |lines| && lines[i].account == k
    ensures forall i :: 0 <= i < |lines| ==> lines[i].account in acc.bal && lines[i].amountEur == acc.bal[lines[i].account]
    ensures forall i :: 0 <= i < |lines| ==> lines[i].account == acc.keys[i]
  {
    DistinctIndex(acc.keys);
    var lines := seq(|acc.keys|, i requires 0 <= i < |acc.keys| => LedgerLine(acc.keys[i], acc.bal[acc.keys[i]]));
    assert forall k :: k in acc.bal ==> exists i :: 0 <= i < |lines| && lines[i].account == k by {
      forall k | k in acc.bal
        ensures exists i :: 0 <= i < |lines| && lines[i].account == k
      {
        var i :| 0 <= i < |acc.keys| && acc.keys[i] == k;
        assert lines[i].account == k;
      }
    }
    lines
  }

  function LineAmounts(lines: seq<LedgerLine>): (r: seq<real>)
    ensures |r| == |lines| && forall i :: 0 <= i < |lines| ==> r[i] == lines[i].amountEur
  {
    seq(|lines|, i requires 0 <= i < |lines| => lines[i].amountEur)
  }

  /** The trace totals: each account's total and their sum, both quantized to 0.01. */
  function TotalsOf(acc: Book<string>): Totals
    requires Valid(acc)
  {
    Totals(map k | k in acc.bal :: Quantize(acc.bal[k], Cent), Quantize(Total(acc), Cent))
  }

  /** `evaluate_event(event, participant_role, operator_participant_id)` over ordered `rules`. */
  function Evaluate(rules: seq<Rule>, ev: Event, role: Option<string>, operatorId: Option<int>)
    : Result<(seq<LedgerLine>, Trace), SafeEval.EvalError>
  {
    var pass :- Run(rules, ev, role, operatorId, Empty());
    Ok((AccountsToLedger(pass.0), Trace(pass.1, TotalsOf(pass.0))))
  }

  lemma PrependNothing(r: Pass)
    ensures Prepend([], r) == r
  {
    if r.Ok? {
      assert [] + r.value.1 == r.value.1;
    }
  }

  lemma PrependAssoc(a: seq<TraceEntry>, b: seq<TraceEntry>, r: Pass)
    ensures Prepend(a, Prepend(b, r)) == Prepend(a + b, r)
  {
    if r.Ok? {
      assert a + (b + r.value.1) == (a + b) + r.value.1;
    }
  }

  /**
   * The trace has exactly one entry per rule, in rule order; an entry is
   * "not matched" exactly when its rule does not apply, a no-op exactly when a
   * matching rule has an unknown kind, and a matched entry names the operator
   * as beneficiary exactly when the rule's output is redirected.
   */
  lemma {:induction false} RunTrace(rules: seq<Rule>, ev: Event, role: Option<string>, operatorId: Option<int>, acc: Book<string>)
    requires Valid(acc)
    requires Run(rules, ev, role, operatorId, acc).Ok?
    ensures var ts := Run(rules, ev, role, operatorId, acc).value.1;
      && |ts| == |rules|
      && forall i :: 0 <= i < |rules| ==>
           && ts[i].ruleId == rules[i].id
           && (ts[i].NotMatched? <==> !Applies(rules[i], ev, role))
           && (ts[i].MatchedNoOp? <==> Applies(rules[i], ev, role) && rules[i].kind.UnknownKind?)
           && (ts[i].Matched? ==> (ts[i].beneficiary == Some(OperatorRole) <==> RedirectsToOperator(rules[i], operatorId)))
           && (ts[i].Matched? ==> (ts[i].beneficiary.None? <==> !RedirectsToOperator(rules[i], operatorId)))
    decreases |rules|
  {
    if rules != [] {
      var s := Step(acc, rules[0], ev, role, operatorId).value;
      RunTrace(rules[1..], ev, role, operatorId, s.0);
    }
  }

  /**
   * The accounts the pass touches are exactly the output accounts of the
   * rules that apply and have a known kind: rules that do not apply and rules
   * of unknown kinds never create an account.
   */
  lemma {:induction false} RunTouches(rules: seq<Rule>, ev: Event, role: Option<string>, operatorId: Option<int>, acc: Book<string>)
    requires Valid(acc)
    requires Run(rules, ev, role, operatorId, acc).Ok?
    ensures Run(rules, ev, role, operatorId, acc).value.0.bal.Keys == acc.bal.Keys + Touched(rules, ev, role)
    decreases |rules|
  {
    if rules != [] {
      var s := Step(acc, rules[0], ev, role, operatorId).value;
      StepTouches(acc, rules[0], ev, role, operatorId);
      RunTouches(rules[1..], ev, role, operatorId, s.0);
      TouchedCons(rules, ev, role);
    }
  }

  /** The output accounts of the rules that change the running accounts. */
  function Touched(rules: seq<Rule>, ev: Event, role: Option<string>): set<string>
  {
    set r | r in rules && Effective(r, ev, role) :: r.out.account
  }

  lemma TouchedCons(rules: seq<Rule>, ev: Event, role: Option<string>)
    requires rules != []
    ensures Touched(rules, ev, role) ==
      (if Effective(rules[0], ev, role) then {rules[0].out.account} else {}) + Touched(rules[1..], ev, role)
  {
    assert forall r :: r in rules <==> r == rules[0] || r in rules[1..];
  }

  /** One step creates the output account exactly when the rule is effective. */
  lemma StepTouches(acc: Book<string>, rule: Rule, ev: Event, role: Option<string>, operatorId: Option<int>)
    requires Step(acc, rule, ev, role, operatorId).Ok?
    ensures Step(acc, rule, ev, role, operatorId).value.0.bal.Keys ==
      acc.bal.Keys + (if Effective(rule, ev, role) then {rule.out.account} else {})
  {
  }

  /** The rules that change the running accounts, in order. */
  function EffectiveRules(rules: seq<Rule>, ev: Event, role: Option<string>): seq<Rule>
  {
    if rules == [] then []
    else if Effective(rules[0], ev, role) then [rules[0]] + EffectiveRules(rules[1..], ev, role)
    else EffectiveRules(rules[1..], ev, role)
  }

  function AccountsOf(r: Pass): Result<Book<string>, SafeEval.EvalError>
  {
    if r.Ok? then Ok(r.value.0) else Err(r.error)
  }

  /**
   * Unmatched rules and rules of unknown kinds leave the running accounts
   * alone: dropping them changes neither the final accounts nor the error.
   */
  lemma {:induction false} InertRulesChangeNothing(rules: seq<Rule>, ev: Event, role: Option<string>, operatorId: Option<int>, acc: Book<string>)
    requires Valid(acc)
    ensures AccountsOf(Run(rules, ev, role, operatorId, acc)) ==
            AccountsOf(Run(EffectiveRules(rules, ev, role), ev, role, operatorId, acc))
    decreases |rules|
  {
    if rules != [] {
      var eff := EffectiveRules(rules, ev, role);
      if Effective(rules[0], ev, role) {
        var st := Step(acc, rules[0], ev, role, operatorId);
        assert eff[0] == rules[0] && eff[1..] == EffectiveRules(rules[1..], ev, role);
        if st.Ok? {
          InertRulesChangeNothing(rules[1..], ev, role, operatorId, st.value.0);
        }
      } else {
        InertRulesChangeNothing(rules[1..], ev, role, operatorId, acc);
      }
    }
  }

  /**
   * The pass over `a + b` is the pass over `a` followed by the pass over `b`
   * from the accounts `a` left: a rule reads only totals written by the rules
   * before it, and later rules never change an earlier entry of the trace.
   */
  lemma {:induction false} RunConcat(a: seq<Rule>, b: seq<Rule>, ev: Event, role: Option<string>, operatorId: Option<int>, acc: Book<string>)
    requires Valid(acc)
    ensures Run(a + b, ev, role, operatorId, acc) ==
      (match Run(a, ev, role, operatorId, acc)
       case Err(e) => Err(e)
       case Ok(p) => Prepend(p.1, Run(b, ev, role, operatorId, p.0)))
    decreases |a|
  {
    if a == [] {
      assert a + b == b;
      PrependNothing(Run(b, ev, role, operatorId, acc));
    } else {
      assert (a + b)[0] == a[0] && (a + b)[1..] == a[1..] + b;
      var st := Step(acc, a[0], ev, role, operatorId);
      if st.Ok? {
        RunConcat(a[1..], b, ev, role, operatorId, st.value.0);
        var tail := Run(a[1..], ev, role, operatorId, st.value.0);
        if tail.Ok? {
          PrependAssoc([st.value.1], tail.value.1, Run(b, ev, role, operatorId, tail.value.0));
        }
      }
    }
  }

  /**
   * A percent-of-account rule at position i reads its base from the running
   * accounts that the rules before it produced.
   */
  lemma PercentReadsEarlierTotals(rules: seq<Rule>, i: nat, ev: Event, role: Option<string>, operatorId: Option<int>)
    requires i < |rules|
    requires Run(rules, ev, role, operatorId, Empty()).Ok?
    requires rules[i].kind == PercentOfAccount && Applies(rules[i], ev, role)
    ensures Run(rules[..i], ev, role, operatorId, Empty()).Ok?
    ensures |Run(rules, ev, role, operatorId, Empty()).value.1| == |rules|
    ensures var before := Run(rules[..i], ev, role, operatorId, Empty()).value.0;
      var t := Run(rules, ev, role, operatorId, Empty()).value.1[i];
      && t.Matched?
      && "base_sum" in t.inputs && "percent" in t.inputs
      && t.inputs["base_sum"] == Get(before, rules[i].baseAccount.GetOr(""))
      && t.inputs["percent"] == Percent(rules[i])
  {
    var e: Book<string> := Empty();
    assert rules == rules[..i] + rules[i..];
    RunConcat(rules[..i], rules[i..], ev, role, operatorId, e);
    var p := Run(rules[..i], ev, role, operatorId, e).value;
    RunLength(rules[..i], ev, role, operatorId, e);
    RunLength(rules[i..], ev, role, operatorId, p.0);
    FirstPercentStep(rules[i..], ev, role, operatorId, p.0);
  }

  /**
   * A matched percent-over-sum rule reads the running totals left by the rules
   * before it: its recorded base is the sum of its accounts in that state.
   */
  lemma PercentOverSumReadsEarlierTotals(rules: seq<Rule>, i: nat, ev: Event, role: Option<string>, operatorId: Option<int>)
    requires i < |rules|
    requires Run(rules, ev, role, operatorId, Empty()).Ok?
    requires rules[i].kind == PercentOverSumAccounts && Applies(rules[i], ev, role)
    ensures Run(rules[..i], ev, role, operatorId, Empty()).Ok?
    ensures |Run(rules, ev, role, operatorId, Empty()).value.1| == |rules|
    ensures var before := Run(rules[..i], ev, role, operatorId, Empty()).value.0;
      var t := Run(rules, ev, role, operatorId, Empty()).value.1[i];
      && t.Matched?
      && "base_sum" in t.inputs && "percent" in t.inputs
      && t.inputs["base_sum"] == SumAccounts(before, rules[i].accounts)
      && t.inputs["percent"] == Percent(rules[i])
  {
    var e: Book<string> := Empty();
    assert rules == rules[..i] + rules[i..];
    RunConcat(rules[..i], rules[i..], ev, role, operatorId, e);
    var p := Run(rules[..i], ev, role, operatorId, e).value;
    RunLength(rules[..i], ev, role, operatorId, e);
    RunLength(rules[i..], ev, role, operatorId, p.0);
    FirstSumStep(rules[i..], ev, role, operatorId, p.0);
  }

  /** The first entry of a pass that starts with a matched percent-over-sum rule. */
  lemma FirstSumStep(rest: seq<Rule>, ev: Event, role: Option<string>, operatorId: Option<int>, acc: Book<string>)
    requires Valid(acc) && rest != []
    requires rest[0].kind == PercentOverSumAccounts && Applies(rest[0], ev, role)
    requires Run(rest, ev, role, operatorId, acc).Ok?
    ensures |Run(rest, ev, role, operatorId, acc).value.1| > 0
    ensures var t := Run(rest, ev, role, operatorId, acc).value.1[0];
      && t.Matched?
      && "base_sum" in t.inputs && "percent" in t.inputs
      && t.inputs["base_sum"] == SumAccounts(acc, rest[0].accounts)
      && t.inputs["percent"] == Percent(rest[0])
  {
  }

  /** The trace has one entry per rule. */
  lemma {:induction false} RunLength(rules: seq<Rule>, ev: Event, role: Option<string>, operatorId: Option<int>, acc: Book<string>)
    requires Valid(acc)
    ensures Run(rules, ev, role, operatorId, acc).Ok? ==> |Run(rules, ev, role, operatorId, acc).value.1| == |rules|
    decreases |rules|
  {
    if rules != [] {
      var st := Step(acc, rules[0], ev, role, operatorId);
      if st.Ok? {
        RunLength(rules[1..], ev, role, operatorId, st.value.0);
      }
    }
  }

  /** The first entry of a pass that starts with a matched percent-of-account rule. */
  lemma FirstPercentStep(rest: seq<Rule>, ev: Event, role: Option<string>, operatorId: Option<int>, acc: Book<string>)
    requires Valid(acc) && rest != []
    requires rest[0].kind == PercentOfAccount && Applies(rest[0], ev, role)
    requires Run(rest, ev, role, operatorId, acc).Ok?
    ensures |Run(rest, ev, role, operatorId, acc).value.1| > 0
    ensures var t := Run(rest, ev, role, operatorId, acc).value.1[0];
      && t.Matched?
      && "base_sum" in t.inputs && "percent" in t.inputs
      && t.inputs["base_sum"] == Get(acc, rest[0].baseAccount.GetOr(""))
      && t.inputs["percent"] == Percent(rest[0])
  {
  }

  /**
   * A matched rule of a known kind changes only its output account, by +amount
   * when its sign is '+' and by -amount otherwise.
   */
  lemma StepEffect(acc: Book<string>, rule: Rule, ev: Event, role: Option<string>, operatorId: Option<int>)
    requires Effective(rule, ev, role)
    requires Step(acc, rule, ev, role, operatorId).Ok?
    ensures RuleAmount(rule, ev, acc).Ok?
    ensures var after := Step(acc, rule, ev, role, operatorId).value.0;
      var amount := RuleAmount(rule, ev, acc).value.0;
      && after.bal.Keys == acc.bal.Keys + {rule.out.account}
      && Get(after, rule.out.account) == Get(acc, rule.out.account) + (if rule.out.sign == "+" then amount else -amount)
      && forall k :: k in acc.bal && k != rule.out.account ==> after.bal[k] == acc.bal[k]
  {
  }

  /**
   * The percent kinds' amount is |base| * pct / 100 to within half of 0.0001,
   * and is never negative for a non-negative percentage.
   */
  lemma PercentAmountBounds(base: real, pct: real)
    ensures -Basis / 2.0 <= PercentAmount(base, pct) - Abs(base) * (pct / 100.0) <= Basis / 2.0
    ensures pct >= 0.0 ==> PercentAmount(base, pct) >= 0.0
  {
    QuantizeBounds(Abs(base) * (pct / 100.0), Basis);
    if pct >= 0.0 {
      assert Abs(base) * (pct / 100.0) >= 0.0;
      QuantizeNonNegative(Abs(base) * (pct / 100.0), Basis);
    }
  }

  /** A trace entry with its beneficiary cleared. */
  function Unredirected(t: TraceEntry): TraceEntry
  {
    if t.Matched? then t.(beneficiary := None) else t
  }

  /** A pass with the beneficiary of every trace entry cleared. */
  function Unredirect(r: Pass): Pass
  {
    if r.Ok? then Ok((r.value.0, UnredirectAll(r.value.1))) else r
  }

  function UnredirectAll(ts: seq<TraceEntry>): (u: seq<TraceEntry>)
    ensures |u| == |ts|
  {
    if ts == [] then [] else [Unredirected(ts[0])] + UnredirectAll(ts[1..])
  }

  /**
   * Beneficiary redirection never changes an amount or a sign: whatever
   * operator id is given, the pass fails alike or yields the same accounts and
   * the same trace, up to the beneficiary each matched entry names.
   */
  lemma {:induction false} OperatorIdChangesOnlyBeneficiary(rules: seq<Rule>, ev: Event, role: Option<string>, op1: Option<int>, op2: Option<int>, acc: Book<string>)
    requires Valid(acc)
    ensures Unredirect(Run(rules, ev, role, op1, acc)) == Unredirect(Run(rules, ev, role, op2, acc))
    decreases |rules|
  {
    if rules != [] {
      var s1 := Step(acc, rules[0], ev, role, op1);
      var s2 := Step(acc, rules[0], ev, role, op2);
      StepOperatorId(acc, rules[0], ev, role, op1, op2);
      if s1.Ok? {
        OperatorIdChangesOnlyBeneficiary(rules[1..], ev, role, op1, op2, s1.value.0);
        var r1 := Run(rules[1..], ev, role, op1, s1.value.0);
        var r2 := Run(rules[1..], ev, role, op2, s1.value.0);
        if r1.Ok? {
          assert UnredirectAll([s1.value.1] + r1.value.1) == [Unredirected(s1.value.1)] + UnredirectAll(r1.value.1);
          assert UnredirectAll([s2.value.1] + r2.value.1) == [Unredirected(s2.value.1)] + UnredirectAll(r2.value.1);
        }
      }
    }
  }

  /** One step under two operator ids: the same outcome up to the beneficiary. */
  lemma StepOperatorId(acc: Book<string>, rule: Rule, ev: Event, role: Option<string>, op1: Option<int>, op2: Option<int>)
    ensures var s1, s2 := Step(acc, rule, ev, role, op1), Step(acc, rule, ev, role, op2);
      && (s1.Ok? <==> s2.Ok?)
      && (s1.Err? ==> s1 == s2)
      && (s1.Ok? ==> s1.value.0 == s2.value.0 && Unredirected(s1.value.1) == Unredirected(s2.value.1))
  {
  }

  /**
   * The event's outputs agree with each other: the ledger has one line per
   * touched account with its unrounded total, the per-account totals are those
   * amounts quantized to 0.01, and `sum_event_eur` is their sum quantized to 0.01.
   */
  lemma EvaluateOutputs(rules: seq<Rule>, ev: Event, role: Option<string>, operatorId: Option<int>)
    requires Evaluate(rules, ev, role, operatorId).Ok?
    ensures var (ledger, trace) := Evaluate(rules, ev, role, operatorId).value;
      && |trace.evaluations| == |rules|
      && trace.totals.sumEventEur == Quantize(Sum(LineAmounts(ledger)), Cent)
      && (forall k :: k in trace.totals.perAccount <==> exists i :: 0 <= i < |ledger| && ledger[i].account == k)
      && (forall i :: 0 <= i < |ledger| ==> trace.totals.perAccount[ledger[i].account] == Quantize(ledger[i].amountEur, Cent))
  {
    var e: Book<string> := Empty();
    var pass := Run(rules, ev, role, operatorId, e).value;
    RunTrace(rules, ev, role, operatorId, e);
    var ledger := AccountsToLedger(pass.0);
    assert LineAmounts(ledger) == Amounts(pass.0.keys, pass.0.bal);
  }

  /** The engine: the policy's rules, in dependency order. */
  class Engine {
    var rules: seq<Rule>

    /** `PolicyEngine(policy_data)` on already parsed rules: orders them by dependency. */
    constructor (policyRules: seq<Rule>, ghost rank: map<string, nat>)
      requires Ranked(policyRules, rank)
      ensures rules == DfsOrder(policyRules, rank)
      ensures forall i :: 0 <= i < |rules| ==> Find(policyRules, rules[i].id) == Some(rules[i])
      ensures forall i, j :: 0 <= i < j < |rules| ==> rules[i].id != rules[j].id
      ensures IdsOf(rules) == IdsOf(policyRules)
      ensures DepsFirst(policyRules, rules)
      ensures (forall r :: r in policyRules ==> NoKnownDeps(policyRules, r)) ==> rules == FirstOccurrences(policyRules)
    {
      var ordered := OrderRules(policyRules, rank);
      rules := ordered;
    }

    /** `evaluate_event`: the ledger lines and the explain trace, or the sandbox error a rate formula raised. */
    method EvaluateEvent(ev: Event, role: Option<string>, operatorId: Option<int>)
      returns (r: Result<(seq<LedgerLine>, Trace), SafeEval.EvalError>)
      ensures r == Evaluate(rules, ev, role, operatorId)
    {
      var accounts: Book<string> := Empty();
      var evals: seq<TraceEntry> := [];
      assert rules[0..] == rules;
      PrependNothing(Run(rules, ev, role, operatorId, accounts));
      for i := 0 to |rules|
        invariant Valid(accounts)
        invariant Run(rules, ev, role, operatorId, Empty()) == Prepend(evals, Run(rules[i..], ev, role, operatorId, accounts))
      {
        Advance(rules, i, ev, role, operatorId, accounts, evals);
        var res := EvaluateRule(rules[i], ev, role, operatorId, accounts);
        if res.Err? {
          assert Run(rules, ev, role, operatorId, Empty()) == Err(res.error);
          return Err(res.error);
        }
        accounts := res.value.0;
        evals := evals + [res.value.1];
      }
      assert rules[|rules|..] == [];
      assert evals + [] == evals;
      r := Ok((AccountsToLedger(accounts), Trace(evals, TotalsOf(accounts))));
    }
  }

  /**
   * The body of the evaluation loop for one rule: the updated running accounts
   * and the rule's trace entry. It is the statement form of `Step`, which the
   * properties of the pass are proved about.
   */
  method EvaluateRule(rule: Rule, ev: Event, role: Option<string>, operatorId: Option<int>, accounts: Book<string>)
    returns (res: Result<(Book<string>, TraceEntry), SafeEval.EvalError>)
    ensures res == Step(accounts, rule, ev, role, operatorId)
  {
    if !Applies(rule, ev, role) {
      return Ok((accounts, NotMatched(rule.id)));
    }
    if rule.kind.UnknownKind? {
      return Ok((accounts, MatchedNoOp(rule.id)));
    }
    var amountAndInputs := MatchedAmount(rule, ev, accounts);
    if amountAndInputs.Err? {
      return Err(amountAndInputs.error);
    }
    var (amount, inputs) := amountAndInputs.value;
    var beneficiary: Option<string> := None;
    if rule.beneficiaryRole == Some(OperatorRole) {
      if operatorId.Some? && operatorId.value != 0 {
        beneficiary := Some(OperatorRole);
      }
    }
    var signed := if rule.out.sign == "+" then amount else -amount;
    res := Ok((Post(accounts, rule.out.account, signed), Matched(rule.id, inputs, FormulaOf(rule), Quantize(signed, Cent), beneficiary)));
  }

  /**
   * The amount branch of the evaluation loop, for a matched rule of a known
   * kind. It is the statement form of `RuleAmount`.
   */
  method MatchedAmount(rule: Rule, ev: Event, accounts: Book<string>)
    returns (res: Result<(real, map<string, real>), SafeEval.EvalError>)
    requires !rule.kind.UnknownKind?
    ensures res == RuleAmount(rule, ev, accounts)
  {
    match rule.kind {
      case Rate =>
        var inputs := RateInputs(rule, ev);
        var a := SafeEval.SafeEvaluate(RateFormula(rule), inputs);
        if a.Err? {
          return Err(a.error);
        }
        res := Ok((a.value, inputs));
      case TieredCap =>
        var amount := EvalTiers(rule.tiers, ev.kwh);
        res := Ok((amount, map["kwh" := ev.kwh]));
      case PercentOfAccount =>
        var base := Get(accounts, rule.baseAccount.GetOr(""));
        res := Ok((PercentAmount(base, Percent(rule)), map["base_sum" := base, "percent" := Percent(rule)]));
      case PercentOverSumAccounts =>
        var base := SumAccounts(accounts, rule.accounts);
        res := Ok((PercentAmount(base, Percent(rule)), map["base_sum" := base, "percent" := Percent(rule)]));
    }
  }

  /** One iteration of the loop moves one rule's step from the pending pass into the recorded trace. */
  lemma Advance(rules: seq<Rule>, i: nat, ev: Event, role: Option<string>, operatorId: Option<int>, acc: Book<string>, evals: seq<TraceEntry>)
    requires i < |rules| && Valid(acc)
    ensures var st := Step(acc, rules[i], ev, role, operatorId);
      && (st.Err? ==> Prepend(evals, Run(rules[i..], ev, role, operatorId, acc)) == Err(st.error))
      && (st.Ok? ==> Prepend(evals, Run(rules[i..], ev, role, operatorId, acc)) ==
                     Prepend(evals + [st.value.1], Run(rules[i + 1..], ev, role, operatorId, st.value.0)))
  {
    assert rules[i..][0] == rules[i] && rules[i..][1..] == rules[i + 1..];
    var st := Step(acc, rules[i], ev, role, operatorId);
    if st.Ok? {
      PrependAssoc(evals, [st.value.1], Run(rules[i + 1..], ev, role, operatorId, st.value.0));
    }
  }
}
