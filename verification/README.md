# Energy-netting policy engine and settlement, modelled in Dafny

This project models the computational core of an energy-community netting
service. There are two parts.

**The policy rule engine** (`app/policy_dsl.py`):
- a whitelist evaluator for arithmetic rate formulas (`SafeEvaluator`, `safe_eval`);
- parsed policy rules and their dependency ordering (`PolicyEngine._parse_policy`);
- the applicability test (`applies`) and the account sum (`_sum_accounts`);
- the block tariff (`_eval_tiers`);
- the evaluation pass over one event (`evaluate_event`) and its ledger output (`_accounts_to_ledger`).

**The settlement arithmetic** (`app/logic.py`):
- per-participant balances as a grouped sum of a cycle's ledger entries (`compute_balances`);
- the operator-fee skim and payout selection (`run_settlement`);
- per-participant statements (`statement_for_participant`).

Decimal values are exact rationals (`real`). The two rounding modes are kept
apart:
- `Decimals.Quantize` is ROUND_HALF_EVEN, the context default, used by every bare `quantize`;
- `Decimals.QuantizeHalfUp` is the ROUND_HALF_UP of the sandbox's `round`.

A Python `dict` that is built up and read in insertion order is a `Books.Book`:
- an ordered key list and a map;
- `Books.Valid` says each key is listed once and that the list and the map hold the same keys.

Database reads become parameters:
- the cycle's ledger entries;
- the participant list;
- the policy's `operator_fee_pct`.

Database inserts become returned values: the run record and its payouts.

Files:

| file | module | models |
|---|---|---|
| `wrappers.dfy` | `Wrappers` | `Option` and `Result` |
| `decimals.dfy` | `Decimals` | sums, the two roundings, `scaleb`, `int()` truncation |
| `books.dfy` | `Books` | insertion-ordered dictionaries of amounts |
| `safe_eval.dfy` | `SafeEval` | expression trees and the whitelist evaluator |
| `policy_rules.dfy` | `PolicyRules` | `Rule`, `RuleOut`, events, `applies`, `_sum_accounts` |
| `rule_order.dfy` | `RuleOrder` | the recursive dependency ordering, as methods |
| `tariff.dfy` | `Tariff` | `_eval_tiers` as a loop, against a recursive specification |
| `policy_engine.dfy` | `PolicyEngine` | the `PolicyEngine` class, the evaluation pass, ledger lines and totals |
| `settlement.dfy` | `Settlement` | balances, fee pass, payouts, run summary, statements |

Behaviour of the source that the model keeps, though a reader might expect otherwise:
- An expression error raised while evaluating one rule aborts the whole event evaluation. It is not recorded per rule in the trace.
- `compute_balances` does not quantize balances to cents.
- `operator_fee_pct` multiplies the balance directly. It is a fraction, not a percentage divided by 100.
- An unknown rule kind is traced as a match with result 0.00 and changes nothing.

## Model

| member | source | states |
|---|---|---|
| SafeEval.EvalSucceedsIffAllowed | app/policy_dsl.py:8-61 | Evaluation succeeds exactly on the trees of the whitelist grammar `Allowed`, in both directions and for any variable bindings. The grammar allows: the eight names; `+ - * /` and unary `+ -`; calls by plain name to `min`/`max` with at least one argument or to `round` with one or two; numeric literals. Keyword arguments play no part in either direction. |
| SafeEval.EvalArgsSucceedsIffAllowed | app/policy_dsl.py:42 | Evaluating a call's arguments succeeds exactly when every argument is allowed. It then yields one value per argument. |
| SafeEval.RejectsUnknownNodes | app/policy_dsl.py:20-61 | Each of these fails: an unlisted name (with its own error), a call to anything but a whitelisted name, another node kind, a non-numeric constant type, another binary operator, another unary operator. |
| SafeEval.KeywordsIgnored | app/policy_dsl.py:39-42 | A call evaluates, and is allowed, exactly as the same call without its keyword arguments: `min(x, key=k)` is `min(x)` whatever `k` is. |
| SafeEval.DivisionByZeroIsZero | app/policy_dsl.py:25 | `l / r` evaluates to 0 when `r` evaluates to 0, and to the exact quotient otherwise. |
| SafeEval.UnboundNameIsZero | app/policy_dsl.py:34-37 | An allowed name with no binding evaluates to 0. |
| SafeEval.RoundOneArgument | app/policy_dsl.py:45-46 | `round(x)` rounds half-up to an integer: the result is within 1/2 of `x`, and on a tie it lies farther from zero. |
| SafeEval.RoundTwoArguments | app/policy_dsl.py:47-49 | `round(x, n)` rounds half-up to a multiple of `10^-int(n)`, within half of that unit. |
| SafeEval.RoundKeywordDigitsIgnored | app/policy_dsl.py:42-46 | `round(x, ndigits=n)` rounds `x` half-up to an integer: the keyword digit count is never read. |
| SafeEval.RoundOtherArity | app/policy_dsl.py:45-50 | `round` with zero or more than two evaluated arguments fails with the bad-arguments error. |
| SafeEval.MinMaxSelect | app/policy_dsl.py:42-44 | `min`/`max` over evaluated arguments return one of the argument values, and that value bounds all the others. |
| SafeEval.MinOf | app/policy_dsl.py:43 | The minimum is an element of the list and no element is smaller. |
| SafeEval.MaxOf | app/policy_dsl.py:44 | The maximum is an element of the list and no element is larger. |
| SafeEval.RateFormulaExample | app/policy_dsl.py:197-204 | The formula `kwh * price_ct_per_kwh / 100` with 100 kWh at 8 ct evaluates to 8 EUR. |
| PolicyRules.Intersects | app/policy_dsl.py:148-149 | The tag facet holds exactly when some tag occurs in both lists. |
| PolicyRules.AppliesIffFacetsHold | app/policy_dsl.py:141-152 | A rule applies iff `applies_to` is absent or empty, or every present facet holds: the event source is among the allowed sources, the event tags meet the allowed tags, and the participant role equals the required role (a null required role is met only by a participant with no role). |
| PolicyRules.NullRoleFacet | app/policy_dsl.py:150-151 | A rule whose only facet is a null `role` applies exactly to participants without a role. |
| PolicyRules.SumAccountsConcat | app/policy_dsl.py:154-155 | The sum over a concatenation of account names is the sum of the two parts' sums. |
| PolicyRules.SumAccountsAbsent | app/policy_dsl.py:154-155 | Names with no running total each contribute 0. |
| RuleOrder.Find | app/policy_dsl.py:131-133 | The lookup by id yields a rule of the policy with that id, and finds nothing exactly when no rule has it. |
| RuleOrder.FindAt | app/policy_dsl.py:131-133 | The lookup returns the first rule carrying that id. |
| RuleOrder.AddRule | app/policy_dsl.py:127-136 | `add_rule` returns exactly the recursive visit `Visit`: the dependencies are visited first, in listed order, then the rule is appended unless its id is already placed. `added` stays equal to the placed ids. |
| RuleOrder.AddDependency | app/policy_dsl.py:129-134 | One dependency leaves the list unchanged when its id is already placed, and otherwise returns exactly `VisitNamed`: each rule carrying that id is visited in input order. `added` stays equal to the placed ids. |
| RuleOrder.OrderRules | app/policy_dsl.py:125-139 | For acyclic dependencies the result is exactly `DfsOrder`, the depth-first order of `_parse_policy`. It lists each input id once, as the first rule with that id, and after every rule its dependencies name. When no dependency names a rule, the order is the input order with repeated ids dropped. |
| RuleOrder.VisitPlaced | app/policy_dsl.py:127-136 | One visit keeps the placed list duplicate-free, made of first rules of their ids with dependencies first. It only extends the list and leaves the visited id placed. |
| RuleOrder.VisitNoKnownDeps | app/policy_dsl.py:127-136 | A rule none of whose dependencies names a rule is appended exactly when its id is new. |
| RuleOrder.VisitAllPlaced | app/policy_dsl.py:137-138 | The top-level loop keeps that invariant and places every input id. |
| RuleOrder.VisitAllFirstOccurrences | app/policy_dsl.py:137-138 | Without dependencies that name rules, the top-level loop keeps the first rule of each id, in input order. |
| RuleOrder.OrderExample | app/policy_dsl.py:125-139 | Rules `[p depending on b, a, b]` are ordered `[b, p, a]`: a dependency is pulled ahead of its dependent and of the rules listed before it. |
| RuleOrder.IdsOfFirstOccurrences | app/policy_dsl.py:135-138 | Dropping repeated ids keeps every id. |
| RuleOrder.FirstOccurrencesOfDistinct | app/policy_dsl.py:135-138 | With distinct ids, dropping repeated ids returns the input unchanged. |
| Tariff.EvalTiers | app/policy_dsl.py:157-178 | The loop's amount equals the recursive tier specification `TierAmount`: Σ qty×price over the tiers, divided by 100 and quantized half-even to 0.0001. |
| Tariff.NonPositiveQuantityIsFree | app/policy_dsl.py:159-172 | A quantity of 0 or less costs 0. |
| Tariff.SharesBounded | app/policy_dsl.py:162-176 | Every tier's charged quantity is non-negative, and together they never exceed the input quantity. Once a tier is marked `above`, all of the quantity is charged. |
| Tariff.SharesOfNonPositive | app/policy_dsl.py:171-172 | With nothing left to charge, every tier charges 0. |
| Tariff.TierExample | app/policy_dsl.py:157-178 | 80 kWh over [up to 50 at 10 ct, above at 8 ct] costs 7.40 EUR. |
| Books.Post | app/policy_dsl.py:237 | Adding to a key moves only that key's amount, by the added amount. A new key goes last in the order, and the book stays valid. |
| Books.TotalPost | app/logic.py:56 | Adding an amount to one key raises the sum of all values by exactly that amount. |
| Books.TotalSetBal | app/logic.py:55 | Overwriting one key's value changes the sum by exactly the difference. |
| PolicyEngine.Engine.constructor | app/policy_dsl.py:101-139 | The engine's rules are exactly `DfsOrder` of the policy's rules, with the properties `OrderRules` guarantees. |
| PolicyEngine.Engine.EvaluateEvent | app/policy_dsl.py:180-254 | The loop over the ordered rules returns exactly the ledger lines and trace of the specification `Evaluate`, including its errors. |
| PolicyEngine.RunTrace | app/policy_dsl.py:188-247 | A completed pass has exactly one trace entry per ordered rule, in order, with its id. An entry is unmatched iff the rule does not apply, and a 0.00 match iff it applies with an unknown kind. It names the OPERATOR beneficiary iff the rule asks for the operator role and a non-zero operator id is given. |
| PolicyEngine.RunTouches | app/policy_dsl.py:236-237 | The accounts after the pass are those before, plus the output accounts of the applicable rules of known kinds, and no others. |
| PolicyEngine.InertRulesChangeNothing | app/policy_dsl.py:188-226 | Removing the unmatched rules and the unknown-kind rules leaves the final running accounts unchanged. |
| PolicyEngine.RunConcat | app/policy_dsl.py:188 | A pass over `a + b` is the pass over `a` followed by a pass over `b` from where `a` left off. |
| PolicyEngine.PercentReadsEarlierTotals | app/policy_dsl.py:211-215 | A matched `percent_of_account` rule at position `i` reads as its base the running total of its base account after exactly the rules before `i`. It records that base and its percent. |
| PolicyEngine.PercentOverSumReadsEarlierTotals | app/policy_dsl.py:217-221 | A matched `percent_over_sum_accounts` rule at position `i` reads as its base the sum of its accounts' running totals after exactly the rules before `i`. It records that base and its percent. |
| PolicyEngine.StepEffect | app/policy_dsl.py:236-237 | A matched rule adds +amount to its output account when its sign is `+`, and −amount for any other sign (the default `-` included). Every other account is unchanged. |
| PolicyEngine.PercentAmountBounds | app/policy_dsl.py:211-221 | The percent amount is within 0.00005 of \|base\|×pct/100. It is non-negative for a non-negative percent. |
| PolicyEngine.OperatorIdChangesOnlyBeneficiary | app/policy_dsl.py:229-233 | Passes run with two different operator ids agree on success, on errors, on every running total and on every trace entry, apart from the beneficiary field. Redirection never changes a sign or an amount. |
| PolicyEngine.StepOperatorId | app/policy_dsl.py:229-237 | For one rule, the operator id affects only the beneficiary of its trace entry. |
| PolicyEngine.AccountsToLedger | app/policy_dsl.py:256-263 | There is exactly one ledger line per account touched, with no account repeated. The lines follow the order in which the accounts were first touched, and each carries that account's unrounded running total. |
| PolicyEngine.EvaluateOutputs | app/policy_dsl.py:249-254 | The trace has one evaluation per rule. `per_account` covers exactly the ledger's accounts, each quantized to 0.01. `sum_event_eur` is the 0.01-quantized sum of the ledger amounts. |
| Settlement.GroupSumKeys | app/logic.py:37 | Its keys are exactly the keys that occur in the rows. |
| Settlement.GroupSumIsSum | app/logic.py:35 | Each group's value is the sum of the amounts of its rows. |
| Settlement.GroupSumTotal | app/logic.py:35-39 | The groups together sum to the sum of all the rows. |
| Settlement.BalancesAreEntrySums | app/logic.py:33-39 | A participant has a balance iff it has an entry in the cycle. Its balance is the sum of its cycle entries, and all balances together sum to the cycle's entries. |
| Settlement.BalanceKeys | app/logic.py:33-39 | A participant has a balance key iff some ledger entry of the cycle is theirs. |
| Settlement.OperatorOf | app/logic.py:46 | The operator lookup finds nothing iff no participant has the OPERATOR role, and otherwise the first such participant. |
| Settlement.ApplyOperatorFee | app/logic.py:47-56 | With no operator or a zero fee, the balances come back unchanged. Otherwise the fee pass keeps the total of all balances. Each charged participant (not the operator, positive balance) keeps bal − round(bal×pct, 0.01), and everyone else keeps their balance. The operator gains exactly the sum of fees. Its key is added, last, exactly when someone was charged. |
| Settlement.FeeLoopApplies | app/logic.py:50-56 | The fee loop over a snapshot of the items has the per-participant effect described above and conserves the total. |
| Settlement.FeeLoopTotal | app/logic.py:53-56 | Each fee is subtracted from one participant and added to the operator, so the total never moves. |
| Settlement.FeeLoopBalances | app/logic.py:50-55 | A non-operator balance after the loop is its snapshot value minus its fee when charged, and otherwise unchanged. |
| Settlement.FeeLoopOperator | app/logic.py:56 | The operator's balance rises by exactly the fees of the visited participants. |
| Settlement.FeeLoopKeys | app/logic.py:56 | The operator's key is created, at the end, exactly when some visited participant was charged, even when that fee rounds to 0. |
| Settlement.FeeWithinBalance | app/logic.py:53-55 | For a cent-valued positive balance and a fee fraction in [0, 1], the fee is between 0 and the balance, so the charged participant stays non-negative. |
| Settlement.SelectPayouts | app/logic.py:64-68 | The payout loop emits one payout per strictly positive balance, in dictionary order, each for exactly that balance. No participant is paid twice, and zero or negative balances get nothing. |
| Settlement.PositivePaysOnce | app/logic.py:64-65 | Over distinct keys, the positive-balance selection pays each positive balance exactly once and nothing else. |
| Settlement.RunSettlement | app/logic.py:41-70 | Balances come from the cycle's entries, and the fee pass runs when there is an operator and a non-zero fee. The total is conserved. The summary's participant count is the number of balance keys after the fee pass. Payouts cover exactly the positive post-fee balances, the operator included. |
| Settlement.DistinctKeysCount | app/logic.py:59 | `len(balances)` equals the number of keys in the balance map. |
| Settlement.StatementTotalIsBalance | app/logic.py:78-83 | The statement total is the 0.01-quantized sum of the unrounded per-source sums. That equals the participant's cycle balance quantized, and the sum of their cycle entries quantized. |
| Settlement.StatementSources | app/logic.py:73-77 | The line sources are exactly the sources of the participant's cycle entries. |
| Settlement.StatementSourcesDistinct | app/logic.py:76 | No source appears on two lines. |
| Settlement.StatementAmounts | app/logic.py:82 | Each line is the 0.01-quantized sum of the participant's cycle entries from that source. |

## Left out

- `ast.parse` and the policy document's JSON. The model starts from expression trees and parsed `Rule` records, and the `KeyError`s raised on a malformed policy are not modelled.
- Float-to-Decimal conversion. Literals, params, `kwh` and tier fields are exact rationals, and so is `operator_fee_pct`, where the source converts a binary float.
- Decimal's 28-digit context precision. Addition, multiplication and division are exact, where the source rounds running totals, sums and products to 28 significant digits. The `InvalidOperation` that `quantize` raises when its result needs more than 28 digits is not modelled: `round(x, 30)` evaluates without error in the model. NaN, infinities and string literals such as `"NaN"` are not values of the model.
- `visit_Expression` and the final `Decimal(str(res))` in `safe_eval` are identities on the model's values.
- Cyclic rule dependencies. With distinct rule ids, a cycle makes the source recurse until Python raises `RecursionError`, which the model does not represent. `RuleOrder.OrderRules` and `PolicyEngine.Engine.constructor` therefore require a rank on rule ids that every dependency naming a rule lowers.
- RuleOrder.OrderRules: the rank also excludes a cycle that passes through a repeated rule id. The source can finish on such a policy, because a rule whose id is already placed is skipped. For example `[a, b depending on a, a depending on b]` gives `[a, b]`.
- `rule.__dict__.get("percent")` can only be 0 for a `Rule`, so the percent comes from `params` alone.
- The trace's rendering of inputs and amounts as strings. The trace holds the values, and the `ledger_line_id` placeholder (always null) of each trace entry is dropped.
- PolicyEngine.PercentAmountBounds: non-negativity is stated only for a non-negative percent, because a negative `percent` param makes the amount negative in the source too.
- Settlement.FeeWithinBalance: stated only for a balance that is a whole number of cents and a fee fraction in [0, 1]. The source accepts any balance and any fraction.
- The statement's `participant_external_id`, `cycle_label` and fixed `explanation` text are lookups and a constant. `Settlement.Statement` keeps the lines and the total only.
- SQL `GROUP BY` does not promise a row order. Groups are modelled in order of first appearance among the cycle's entries.
- The operator query `db.scalar(... role == OPERATOR)` is modelled as the first OPERATOR in the participant list.
- Database sessions, inserts and commits, and `db.get` for the participant's IBAN and remittance text. The payout keeps participant and amount only.
- `get_or_create_cycle`, `upsert_participant` and `add_ledger_entry` are database plumbing and are not modelled.
- Canonical hashing, the HTTP layer, API keys, schemas and the payout stub are not modelled.
- Day close, month close, the transfer optimizer and transfer audit hashes are not modelled. `app/main.py` calls them, but no implementation exists in the source.
