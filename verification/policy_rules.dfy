/**
 * Policy rules as parsed records, the events they are matched against, the
 * applicability predicate (`applies_to`) and the account sum that the
 * percent-over-sum rule kind reads.
 */
module PolicyRules {
  import opened Wrappers
  import opened Decimals
  import opened Books
  import SafeEval

  /**
   * A rule's `kind`. `UnknownKind` carries any other name; a parsed policy
   * never gives it one of the four known names, though the type admits it.
   */
  datatype Kind = Rate | TieredCap | PercentOfAccount | PercentOverSumAccounts | UnknownKind(name: string)

  /** Where a matched rule posts: the account and the sign ('+' credits, anything else debits). */
  datatype RuleOut = RuleOut(account: string, sign: string)

  /**
   * A non-empty `applies_to` dictionary: each facet is present or absent.
   * A dictionary with none of the three keys behaves like all three absent.
   * A present `role` may be null (`Some(None)`), which only a participant
   * without a role satisfies.
   */
  datatype Facets = Facets(source: Option<seq<string>>, tags: Option<seq<string>>, role: Option<Option<string>>)

  /** One tariff block: a price in cents per kWh, either up to a cumulative cap or open-ended ("above"). */
  datatype Tier = Tier(priceCtPerKwh: real, above: bool, uptoKwh: real)

  /**
   * A parsed rule. Absent optional fields of the policy document are `None`
   * or empty: `params` {} when absent, `accounts` [] when absent, `tiers` []
   * when absent. `appliesTo` is `None` when the key is absent or the
   * dictionary is empty.
   */
  datatype Rule = Rule(
    id: string,
    kind: Kind,
    appliesTo: Option<Facets>,
    dependsOn: seq<string>,
    out: RuleOut,
    params: map<string, real>,
    rateExpr: Option<SafeEval.Expr>,
    baseAccount: Option<string>,
    accounts: seq<string>,
    beneficiaryRole: Option<string>,
    tiers: seq<Tier>)

  /** The parts of an event the engine reads: `source`, `meta.tags` and `meta.kwh` (0 when absent). */
  datatype Event = Event(source: Option<string>, tags: seq<string>, kwh: real)

  /** `bool(set(a).intersection(set(b)))` */
  function Intersects(a: seq<string>, b: seq<string>): (r: bool)
    ensures r <==> exists t :: t in a && t in b
  {
    if a == [] then false else a[0] in b || Intersects(a[1..], b)
  }

  /** `PolicyEngine.applies` */
  function Applies(rule: Rule, ev: Event, role: Option<string>): bool
  {
    match rule.appliesTo
    case None => true
    case Some(f) =>
      var srcOk := f.source.None? || (ev.source.Some? && ev.source.value in f.source.value);
      var tagsOk := f.tags.None? || Intersects(ev.tags, f.tags.value);
      var roleOk := f.role.None? || role == f.role.value;
      srcOk && tagsOk && roleOk
  }

  /**
   * A rule applies iff it has no facets, or every facet it has holds: the
   * event's source is among the allowed ones, one of the event's tags is
   * among the allowed tags, the participant's role is the required role.
   */
  lemma AppliesIffFacetsHold(rule: Rule, ev: Event, role: Option<string>)
    ensures Applies(rule, ev, role) <==>
      (rule.appliesTo.None? ||
        var f := rule.appliesTo.value;
        && (f.source.Some? ==> ev.source.Some? && ev.source.value in f.source.value)
        && (f.tags.Some? ==> exists t :: t in ev.tags && t in f.tags.value)
        && (f.role.Some? ==> role == f.role.value))
  {
  }

  /** A null role facet admits exactly the participants that have no role. */
  lemma NullRoleFacet(rule: Rule, ev: Event, role: Option<string>)
    requires rule.appliesTo == Some(Facets(None, None, Some(None)))
    ensures Applies(rule, ev, role) <==> role.None?
  {
  }

  /** `PolicyEngine._sum_accounts`: names read as 0 when absent, and a name listed twice counts twice. */
  function SumAccounts(state: Book<string>, names: seq<string>): real
  {
    if names == [] then 0.0 else Get(state, names[0]) + SumAccounts(state, names[1..])
  }

  /** The sum over a concatenation of name lists is the sum of the sums; absent names contribute nothing. */
  lemma {:induction false} SumAccountsConcat(state: Book<string>, a: seq<string>, b: seq<string>)
    ensures SumAccounts(state, a + b) == SumAccounts(state, a) + SumAccounts(state, b)
  {
    if a == [] {
      assert a + b == b;
    } else {
      assert (a + b)[0] == a[0] && (a + b)[1..] == a[1..] + b;
      SumAccountsConcat(state, a[1..], b);
    }
  }

  lemma {:induction false} SumAccountsAbsent(state: Book<string>, names: seq<string>)
    requires forall n :: n in names ==> n !in state.bal
    ensures SumAccounts(state, names) == 0.0
  {
    if names != [] {
      SumAccountsAbsent(state, names[1..]);
    }
  }
}
