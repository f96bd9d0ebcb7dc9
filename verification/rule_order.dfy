/**
 * `PolicyEngine._parse_policy`'s dependency ordering: a recursive,
 * first-seen-stable pass (the closure `add_rule`) that appends each rule after
 * the rules its `depends_on` ids name, tracking appended ids in `added`. The
 * source has no cycle guard: on a cycle between distinct ids it recurses until
 * Python raises `RecursionError`. Acyclicity is therefore a precondition: a
 * rank on ids that every dependency naming a rule lowers.
 */
module RuleOrder {
  import opened Wrappers
  import opened PolicyRules

  function IdsOf(rules: seq<Rule>): set<string>
  {
    set r | r in rules :: r.id
  }

  /** The first rule in `rules` with the given id (what `for rr in self.rules: if rr.id == dep` reaches first). */
  function Find(rules: seq<Rule>, id: string): (r: Option<Rule>)
    ensures r.Some? ==> r.value in rules && r.value.id == id
    ensures r.None? <==> id !in IdsOf(rules)
  {
    if rules == [] then None
    else if rules[0].id == id then Some(rules[0])
    else
      assert forall x :: x in rules[1..] ==> x in rules;
      assert forall x :: x in rules && x != rules[0] ==> x in rules[1..];
      Find(rules[1..], id)
  }

  lemma {:induction false} FindAt(rules: seq<Rule>, k: nat)
    requires k < |rules|
    requires forall m :: 0 <= m < k ==> rules[m].id != rules[k].id
    ensures Find(rules, rules[k].id) == Some(rules[k])
  {
    if k > 0 {
      FindAt(rules[1..], k - 1);
    }
  }

  /** Acyclic dependencies: every dependency that names a rule has a smaller rank. */
  ghost predicate Ranked(rules: seq<Rule>, rank: map<string, nat>)
  {
    && (forall r :: r in rules ==> r.id in rank)
    && (forall r, d :: r in rules && d in r.dependsOn && d in IdsOf(rules) ==> d in rank && rank[d] < rank[r.id])
  }

  /** None of the rule's dependencies names a rule of the policy. */
  ghost predicate NoKnownDeps(rules: seq<Rule>, rule: Rule)
  {
    forall d :: d in rule.dependsOn ==> d !in IdsOf(rules)
  }

  /** Every dependency of an ordered rule that names a rule is the id of an earlier ordered rule. */
  ghost predicate DepsFirst(rules: seq<Rule>, ordered: seq<Rule>)
  {
    forall i, d :: 0 <= i < |ordered| && d in ordered[i].dependsOn && d in IdsOf(rules) ==> d in IdsOf(ordered[..i])
  }

  /** The state of the pass: `ordered`, and `added` as its set of ids. */
  ghost predicate Placed(rules: seq<Rule>, ordered: seq<Rule>, added: set<string>)
  {
    && added == IdsOf(ordered)
    && (forall i, j :: 0 <= i < j < |ordered| ==> ordered[i].id != ordered[j].id)
    && (forall i :: 0 <= i < |ordered| ==> Find(rules, ordered[i].id) == Some(ordered[i]))
    && DepsFirst(rules, ordered)
  }

  /** The input with every rule whose id already occurred dropped: the order when no dependency names a rule. */
  function FirstOccurrences(rules: seq<Rule>): seq<Rule>
  {
    if rules == [] then []
    else
      var init := rules[..|rules| - 1];
      if rules[|rules| - 1].id in IdsOf(init) then FirstOccurrences(init)
      else FirstOccurrences(init) + [rules[|rules| - 1]]
  }

  lemma IdsOfAppend(a: seq<Rule>, r: Rule)
    ensures IdsOf(a + [r]) == IdsOf(a) + {r.id}
  {
    assert forall x :: x in a + [r] <==> x in a || x == r;
  }

  lemma IdsOfPrefix(a: seq<Rule>, b: seq<Rule>)
    requires a <= b
    ensures IdsOf(a) <= IdsOf(b)
  {
    assert forall x :: x in a ==> x in b;
  }

  lemma {:induction false} IdsOfFirstOccurrences(rules: seq<Rule>)
    ensures IdsOf(FirstOccurrences(rules)) == IdsOf(rules)
  {
    if rules != [] {
      var init := rules[..|rules| - 1];
      var last := rules[|rules| - 1];
      assert rules == init + [last];
      IdsOfFirstOccurrences(init);
      IdsOfAppend(init, last);
      if last.id !in IdsOf(init) {
        IdsOfAppend(FirstOccurrences(init), last);
      }
    }
  }

  /** With distinct ids nothing is dropped: the first occurrences are the input itself. */
  lemma {:induction false} FirstOccurrencesOfDistinct(rules: seq<Rule>)
    requires forall i, j :: 0 <= i < j < |rules| ==> rules[i].id != rules[j].id
    ensures FirstOccurrences(rules) == rules
  {
    if rules != [] {
      var init := rules[..|rules| - 1];
      var last := rules[|rules| - 1];
      assert last.id !in IdsOf(init) by {
        forall x | x in init ensures x.id != last.id {
          var m :| 0 <= m < |init| && init[m] == x;
        }
      }
      FirstOccurrencesOfDistinct(init);
      assert init + [last] == rules;
    }
  }

  lemma DepsFirstAppend(rules: seq<Rule>, ordered: seq<Rule>, rule: Rule)
    requires DepsFirst(rules, ordered)
    requires forall d :: d in rule.dependsOn && d in IdsOf(rules) ==> d in IdsOf(ordered)
    ensures DepsFirst(rules, ordered + [rule])
  {
    var o := ordered + [rule];
    forall i, d | 0 <= i < |o| && d in o[i].dependsOn && d in IdsOf(rules)
      ensures d in IdsOf(o[..i])
    {
      if i < |ordered| {
        assert o[..i] == ordered[..i];
      } else {
        assert o[..i] == ordered;
      }
    }
  }

  lemma DepsFirstPrefix(rules: seq<Rule>, a: seq<Rule>, b: seq<Rule>)
    requires DepsFirst(rules, b) && a <= b
    ensures DepsFirst(rules, a)
  {
    forall i, d | 0 <= i < |a| && d in a[i].dependsOn && d in IdsOf(rules)
      ensures d in IdsOf(a[..i])
    {
      assert a[i] == b[i] && a[..i] == b[..i];
    }
  }

  /** Appending a rule whose id is new, which is the first rule with that id, and whose dependencies are placed keeps the pass's state. */
  lemma PlacedAppend(rules: seq<Rule>, ordered: seq<Rule>, added: set<string>, rule: Rule)
    requires Placed(rules, ordered, added)
    requires rule.id !in added && Find(rules, rule.id) == Some(rule)
    requires forall d :: d in rule.dependsOn && d in IdsOf(rules) ==> d in added
    ensures Placed(rules, ordered + [rule], added + {rule.id})
  {
    DepsFirstAppend(rules, ordered, rule);
    IdsOfAppend(ordered, rule);
    DistinctIdsAppend(ordered, rule);
    FoundAppend(rules, ordered, rule);
  }

  lemma DistinctIdsAppend(ordered: seq<Rule>, rule: Rule)
    requires forall i, j :: 0 <= i < j < |ordered| ==> ordered[i].id != ordered[j].id
    requires rule.id !in IdsOf(ordered)
    ensures var o := ordered + [rule];
      forall i, j :: 0 <= i < j < |o| ==> o[i].id != o[j].id
  {
    var o := ordered + [rule];
    forall i, j | 0 <= i < j < |o|
      ensures o[i].id != o[j].id
    {
      if j == |ordered| {
        assert o[i] in ordered;
      }
    }
  }

  lemma FoundAppend(rules: seq<Rule>, ordered: seq<Rule>, rule: Rule)
    requires forall i :: 0 <= i < |ordered| ==> Find(rules, ordered[i].id) == Some(ordered[i])
    requires Find(rules, rule.id) == Some(rule)
    ensures var o := ordered + [rule];
      forall i :: 0 <= i < |o| ==> Find(rules, o[i].id) == Some(o[i])
  {
  }

  /*** The order the recursive visit produces ***/

  /**
   * `add_rule(rule)` applied to the list appended so far (`added` is its set
   * of ids): the list once the call returns. The rank only bounds the
   * recursion.
   */
  ghost function Visit(rules: seq<Rule>, rank: map<string, nat>, rule: Rule, ordered: seq<Rule>): seq<Rule>
    requires Ranked(rules, rank) && rule in rules
    decreases rank[rule.id], 2, 0
  {
    var o := VisitDeps(rules, rank, rule, 0, ordered);
    if rule.id in IdsOf(o) then o else o + [rule]
  }

  /** `add_rule`'s loop over `rule.depends_on[i..]`: each dependency not yet added is visited. */
  ghost function VisitDeps(rules: seq<Rule>, rank: map<string, nat>, rule: Rule, i: nat, ordered: seq<Rule>): seq<Rule>
    requires Ranked(rules, rank) && rule in rules && i <= |rule.dependsOn|
    decreases rank[rule.id], 1, |rule.dependsOn| - i
  {
    if i == |rule.dependsOn| then ordered
    else
      var dep := rule.dependsOn[i];
      assert dep in rule.dependsOn;
      var next := if dep in IdsOf(ordered) then ordered else VisitNamed(rules, rank, dep, rank[rule.id], 0, ordered);
      VisitDeps(rules, rank, rule, i + 1, next)
  }

  /** `for rr in self.rules[j..]: if rr.id == dep: add_rule(rr)` */
  ghost function VisitNamed(rules: seq<Rule>, rank: map<string, nat>, dep: string, bound: nat, j: nat, ordered: seq<Rule>): seq<Rule>
    requires Ranked(rules, rank) && j <= |rules|
    requires dep in IdsOf(rules) ==> dep in rank && rank[dep] < bound
    decreases bound, 0, |rules| - j
  {
    if j == |rules| then ordered
    else
      assert rules[j] in rules;
      var next := if rules[j].id == dep then Visit(rules, rank, rules[j], ordered) else ordered;
      VisitNamed(rules, rank, dep, bound, j + 1, next)
  }

  /** The top-level loop `for rr in self.rules[i..]: add_rule(rr)`. */
  ghost function VisitAll(rules: seq<Rule>, rank: map<string, nat>, i: nat, ordered: seq<Rule>): seq<Rule>
    requires Ranked(rules, rank) && i <= |rules|
    decreases |rules| - i
  {
    if i == |rules| then ordered
    else
      assert rules[i] in rules;
      VisitAll(rules, rank, i + 1, Visit(rules, rank, rules[i], ordered))
  }

  /** One step of the dependency loop. */
  lemma VisitDepsNext(rules: seq<Rule>, rank: map<string, nat>, rule: Rule, i: nat, ordered: seq<Rule>, next: seq<Rule>)
    requires Ranked(rules, rank) && rule in rules && i < |rule.dependsOn|
    requires rule.dependsOn[i] in IdsOf(rules) ==> rank[rule.dependsOn[i]] < rank[rule.id]
    requires next == if rule.dependsOn[i] in IdsOf(ordered) then ordered
                     else VisitNamed(rules, rank, rule.dependsOn[i], rank[rule.id], 0, ordered)
    ensures VisitDeps(rules, rank, rule, i, ordered) == VisitDeps(rules, rank, rule, i + 1, next)
  {
  }

  /** The dependency loop finished, then the rule itself. */
  lemma VisitDepsDone(rules: seq<Rule>, rank: map<string, nat>, rule: Rule, ordered: seq<Rule>, o: seq<Rule>)
    requires Ranked(rules, rank) && rule in rules
    requires VisitDeps(rules, rank, rule, |rule.dependsOn|, o) == VisitDeps(rules, rank, rule, 0, ordered)
    ensures Visit(rules, rank, rule, ordered) == if rule.id in IdsOf(o) then o else o + [rule]
  {
  }

  /** One step of the loop over the rules carrying `dep`. */
  lemma VisitNamedNext(rules: seq<Rule>, rank: map<string, nat>, dep: string, bound: nat, j: nat, ordered: seq<Rule>, next: seq<Rule>)
    requires Ranked(rules, rank) && j < |rules|
    requires dep in IdsOf(rules) ==> dep in rank && rank[dep] < bound
    requires rules[j].id == dep ==> next == Visit(rules, rank, rules[j], ordered)
    requires rules[j].id != dep ==> next == ordered
    ensures VisitNamed(rules, rank, dep, bound, j, ordered) == VisitNamed(rules, rank, dep, bound, j + 1, next)
  {
    assert rules[j] in rules;
  }

  /** One step of the top-level loop. */
  lemma VisitAllNext(rules: seq<Rule>, rank: map<string, nat>, i: nat, ordered: seq<Rule>)
    requires Ranked(rules, rank) && i < |rules|
    ensures rules[i] in rules
    ensures VisitAll(rules, rank, i, ordered) == VisitAll(rules, rank, i + 1, Visit(rules, rank, rules[i], ordered))
  {
  }

  /** The order `_parse_policy` leaves in `self.rules`. */
  ghost function DfsOrder(rules: seq<Rule>, rank: map<string, nat>): seq<Rule>
    requires Ranked(rules, rank)
  {
    VisitAll(rules, rank, 0, [])
  }

  /*** The invariant the visit keeps ***/

  /**
   * `add_rule(rule)` keeps the appended list duplicate-free, made of first
   * rules with their ids, with dependencies first; it only extends the list
   * and leaves `rule`'s id placed.
   */
  lemma VisitPlaced(rules: seq<Rule>, rank: map<string, nat>, rule: Rule, ordered: seq<Rule>)
    requires Ranked(rules, rank) && rule in rules
    requires Placed(rules, ordered, IdsOf(ordered))
    requires rule.id in IdsOf(ordered) || Find(rules, rule.id) == Some(rule)
    ensures var o := Visit(rules, rank, rule, ordered);
      Placed(rules, o, IdsOf(o)) && ordered <= o && rule.id in IdsOf(o)
    decreases rank[rule.id], 2, 0
  {
    var o := VisitDeps(rules, rank, rule, 0, ordered);
    VisitDepsPlaced(rules, rank, rule, 0, ordered);
    IdsOfPrefix(ordered, o);
    if rule.id !in IdsOf(o) {
      PlacedAppend(rules, o, IdsOf(o), rule);
      IdsOfAppend(o, rule);
    }
  }

  /** The dependency loop from position `i` places every dependency that names a rule. */
  lemma VisitDepsPlaced(rules: seq<Rule>, rank: map<string, nat>, rule: Rule, i: nat, ordered: seq<Rule>)
    requires Ranked(rules, rank) && rule in rules && i <= |rule.dependsOn|
    requires Placed(rules, ordered, IdsOf(ordered))
    requires forall d :: d in rule.dependsOn[..i] && d in IdsOf(rules) ==> d in IdsOf(ordered)
    ensures var o := VisitDeps(rules, rank, rule, i, ordered);
      && Placed(rules, o, IdsOf(o)) && ordered <= o
      && forall d :: d in rule.dependsOn && d in IdsOf(rules) ==> d in IdsOf(o)
    decreases rank[rule.id], 1, |rule.dependsOn| - i
  {
    if i == |rule.dependsOn| {
      assert rule.dependsOn[..i] == rule.dependsOn;
    } else {
      var dep := rule.dependsOn[i];
      assert dep in rule.dependsOn;
      var next := if dep in IdsOf(ordered) then ordered else VisitNamed(rules, rank, dep, rank[rule.id], 0, ordered);
      if dep !in IdsOf(ordered) {
        VisitNamedPlaced(rules, rank, dep, rank[rule.id], 0, ordered);
      }
      IdsOfPrefix(ordered, next);
      assert rule.dependsOn[..i + 1] == rule.dependsOn[..i] + [dep];
      VisitDepsPlaced(rules, rank, rule, i + 1, next);
    }
  }

  /** Visiting the rules carrying `dep` from position `j` places `dep` when it names a rule. */
  lemma VisitNamedPlaced(rules: seq<Rule>, rank: map<string, nat>, dep: string, bound: nat, j: nat, ordered: seq<Rule>)
    requires Ranked(rules, rank) && j <= |rules|
    requires dep in IdsOf(rules) ==> dep in rank && rank[dep] < bound
    requires Placed(rules, ordered, IdsOf(ordered))
    requires dep in IdsOf(ordered) || forall m :: 0 <= m < j ==> rules[m].id != dep
    ensures var o := VisitNamed(rules, rank, dep, bound, j, ordered);
      Placed(rules, o, IdsOf(o)) && ordered <= o && (dep in IdsOf(rules) ==> dep in IdsOf(o))
    decreases bound, 0, |rules| - j
  {
    if j == |rules| {
      NamedSearched(rules, dep, ordered);
    } else {
      assert rules[j] in rules;
      if rules[j].id == dep {
        if dep !in IdsOf(ordered) {
          FindAt(rules, j);
        }
        var next := Visit(rules, rank, rules[j], ordered);
        VisitPlaced(rules, rank, rules[j], ordered);
        VisitNamedNext(rules, rank, dep, bound, j, ordered, next);
        VisitNamedPlaced(rules, rank, dep, bound, j + 1, next);
      } else {
        VisitNamedNext(rules, rank, dep, bound, j, ordered, ordered);
        VisitNamedPlaced(rules, rank, dep, bound, j + 1, ordered);
      }
    }
  }

  /** Once every rule has been searched for `dep`, `dep` is placed if it names a rule. */
  lemma NamedSearched(rules: seq<Rule>, dep: string, ordered: seq<Rule>)
    requires dep in IdsOf(ordered) || forall m :: 0 <= m < |rules| ==> rules[m].id != dep
    ensures dep in IdsOf(rules) ==> dep in IdsOf(ordered)
  {
    if dep in IdsOf(rules) {
      var r :| r in rules && r.id == dep;
      var m :| 0 <= m < |rules| && rules[m] == r;
    }
  }

  /** A rule none of whose dependencies names a rule is appended exactly when its id is new. */
  lemma VisitNoKnownDeps(rules: seq<Rule>, rank: map<string, nat>, rule: Rule, ordered: seq<Rule>)
    requires Ranked(rules, rank) && rule in rules && NoKnownDeps(rules, rule)
    ensures Visit(rules, rank, rule, ordered) == if rule.id in IdsOf(ordered) then ordered else ordered + [rule]
  {
    VisitDepsUnknown(rules, rank, rule, 0, ordered);
  }

  lemma {:induction false} VisitDepsUnknown(rules: seq<Rule>, rank: map<string, nat>, rule: Rule, i: nat, ordered: seq<Rule>)
    requires Ranked(rules, rank) && rule in rules && NoKnownDeps(rules, rule) && i <= |rule.dependsOn|
    ensures VisitDeps(rules, rank, rule, i, ordered) == ordered
    decreases |rule.dependsOn| - i
  {
    if i < |rule.dependsOn| {
      var dep := rule.dependsOn[i];
      assert dep in rule.dependsOn;
      VisitNamedUnknown(rules, rank, dep, rank[rule.id], 0, ordered);
      VisitDepsUnknown(rules, rank, rule, i + 1, ordered);
    }
  }

  /** A dependency id that names no rule visits nothing. */
  lemma {:induction false} VisitNamedUnknown(rules: seq<Rule>, rank: map<string, nat>, dep: string, bound: nat, j: nat, ordered: seq<Rule>)
    requires Ranked(rules, rank) && j <= |rules| && dep !in IdsOf(rules)
    ensures VisitNamed(rules, rank, dep, bound, j, ordered) == ordered
    decreases |rules| - j
  {
    if j < |rules| {
      assert rules[j] in rules;
      VisitNamedUnknown(rules, rank, dep, bound, j + 1, ordered);
    }
  }

  /*** The pass as methods ***/

  /**
   * The closure `add_rule(rule)`: first every dependency not yet added, then
   * `rule` itself unless its id is already added.
   */
  method AddRule(rules: seq<Rule>, rule: Rule, ordered: seq<Rule>, added: set<string>, ghost rank: map<string, nat>)
    returns (ordered': seq<Rule>, added': set<string>)
    requires Ranked(rules, rank) && rule in rules
    requires added == IdsOf(ordered)
    ensures ordered' == Visit(rules, rank, rule, ordered)
    ensures added' == IdsOf(ordered')
    decreases rank[rule.id], 1
  {
    ordered', added' := ordered, added;
    for i := 0 to |rule.dependsOn|
      invariant added' == IdsOf(ordered')
      invariant VisitDeps(rules, rank, rule, i, ordered') == VisitDeps(rules, rank, rule, 0, ordered)
    {
      var dep := rule.dependsOn[i];
      ghost var before := ordered';
      assert dep in rule.dependsOn;
      ordered', added' := AddDependency(rules, dep, ordered', added', rank, rank[rule.id]);
      VisitDepsNext(rules, rank, rule, i, before, ordered');
    }
    VisitDepsDone(rules, rank, rule, ordered, ordered');
    if rule.id !in added' {
      IdsOfAppend(ordered', rule);
      ordered' := ordered' + [rule];
      added' := added' + {rule.id};
    }
  }

  /**
   * One iteration of `add_rule`'s dependency loop: when `dep` is not yet
   * added, `add_rule` on every rule carrying that id, in input order.
   */
  method AddDependency(rules: seq<Rule>, dep: string, ordered: seq<Rule>, added: set<string>,
                       ghost rank: map<string, nat>, ghost bound: nat)
    returns (ordered': seq<Rule>, added': set<string>)
    requires Ranked(rules, rank)
    requires dep in IdsOf(rules) ==> dep in rank && rank[dep] < bound
    requires added == IdsOf(ordered)
    ensures ordered' == if dep in added then ordered else VisitNamed(rules, rank, dep, bound, 0, ordered)
    ensures added' == IdsOf(ordered')
    decreases bound, 0
  {
    ordered', added' := ordered, added;
    if dep !in added {
      for k := 0 to |rules|
        invariant added' == IdsOf(ordered')
        invariant VisitNamed(rules, rank, dep, bound, k, ordered') == VisitNamed(rules, rank, dep, bound, 0, ordered)
      {
        if rules[k].id == dep {
          assert rules[k] in rules;
          ghost var before := ordered';
          ordered', added' := AddRule(rules, rules[k], ordered', added', rank);
          VisitNamedNext(rules, rank, dep, bound, k, before, ordered');
        } else {
          VisitNamedNext(rules, rank, dep, bound, k, ordered', ordered');
        }
      }
    }
  }

  lemma IdsOfPrefixStep(rules: seq<Rule>, i: nat)
    requires i < |rules|
    ensures IdsOf(rules[..i + 1]) == IdsOf(rules[..i]) + {rules[i].id}
  {
    assert rules[..i + 1] == rules[..i] + [rules[i]];
    IdsOfAppend(rules[..i], rules[i]);
  }

  /** At the top-level call on `rules[i]`, that rule is the first with its id unless its id is added already. */
  lemma TopLevelCallOk(rules: seq<Rule>, i: nat, added: set<string>)
    requires i < |rules| && IdsOf(rules[..i]) <= added
    ensures rules[i].id in added || Find(rules, rules[i].id) == Some(rules[i])
  {
    if rules[i].id !in added {
      forall m | 0 <= m < i ensures rules[m].id != rules[i].id {
        assert rules[m] in rules[..i];
      }
      FindAt(rules, i);
    }
  }

  /** Without known dependencies one top-level call extends the first occurrences by one input rule. */
  lemma FirstOccurrencesStep(rules: seq<Rule>, i: nat, ordered: seq<Rule>, ordered': seq<Rule>)
    requires i < |rules|
    requires ordered == FirstOccurrences(rules[..i])
    requires ordered' == (if rules[i].id in IdsOf(ordered) then ordered else ordered + [rules[i]])
    ensures ordered' == FirstOccurrences(rules[..i + 1])
  {
    IdsOfFirstOccurrences(rules[..i]);
    assert (rules[..i + 1])[..i] == rules[..i];
    assert (rules[..i + 1])[i] == rules[i];
  }

  /** The top-level loop from position `i` keeps the invariant and places every input id. */
  lemma {:induction false} VisitAllPlaced(rules: seq<Rule>, rank: map<string, nat>, i: nat, ordered: seq<Rule>)
    requires Ranked(rules, rank) && i <= |rules|
    requires Placed(rules, ordered, IdsOf(ordered)) && IdsOf(rules[..i]) <= IdsOf(ordered)
    ensures var o := VisitAll(rules, rank, i, ordered);
      Placed(rules, o, IdsOf(o)) && IdsOf(rules) <= IdsOf(o)
    decreases |rules| - i
  {
    if i == |rules| {
      assert rules[..i] == rules;
    } else {
      TopLevelCallOk(rules, i, IdsOf(ordered));
      var next := Visit(rules, rank, rules[i], ordered);
      VisitAllNext(rules, rank, i, ordered);
      VisitPlaced(rules, rank, rules[i], ordered);
      IdsOfPrefix(ordered, next);
      IdsOfPrefixStep(rules, i);
      VisitAllPlaced(rules, rank, i + 1, next);
    }
  }

  /** Without dependencies that name rules, the top-level loop keeps the first rule of each id, in input order. */
  lemma {:induction false} VisitAllFirstOccurrences(rules: seq<Rule>, rank: map<string, nat>, i: nat, ordered: seq<Rule>)
    requires Ranked(rules, rank) && i <= |rules|
    requires forall r :: r in rules ==> NoKnownDeps(rules, r)
    requires ordered == FirstOccurrences(rules[..i])
    ensures VisitAll(rules, rank, i, ordered) == FirstOccurrences(rules)
    decreases |rules| - i
  {
    if i == |rules| {
      assert rules[..i] == rules;
    } else {
      var next := Visit(rules, rank, rules[i], ordered);
      VisitAllNext(rules, rank, i, ordered);
      VisitNoKnownDeps(rules, rank, rules[i], ordered);
      FirstOccurrencesStep(rules, i, ordered, next);
      VisitAllFirstOccurrences(rules, rank, i + 1, next);
    }
  }

  /**
   * The ordering pass over the parsed rules: the recursive visit's order,
   * which lists every input rule id exactly once (the first input rule
   * carrying it), each rule after every rule its dependencies name;
   * dependency ids that name no rule have no effect, and without such
   * dependencies the input order is kept.
   */
  method OrderRules(rules: seq<Rule>, ghost rank: map<string, nat>) returns (ordered: seq<Rule>)
    requires Ranked(rules, rank)
    ensures ordered == DfsOrder(rules, rank)
    ensures forall i :: 0 <= i < |ordered| ==> Find(rules, ordered[i].id) == Some(ordered[i])
    ensures forall i, j :: 0 <= i < j < |ordered| ==> ordered[i].id != ordered[j].id
    ensures IdsOf(ordered) == IdsOf(rules)
    ensures DepsFirst(rules, ordered)
    ensures (forall r :: r in rules ==> NoKnownDeps(rules, r)) ==> ordered == FirstOccurrences(rules)
  {
    var added: set<string> := {};
    ordered := [];
    for i := 0 to |rules|
      invariant added == IdsOf(ordered)
      invariant VisitAll(rules, rank, i, ordered) == DfsOrder(rules, rank)
    {
      VisitAllNext(rules, rank, i, ordered);
      ordered, added := AddRule(rules, rules[i], ordered, added, rank);
    }
    assert rules[..0] == [];
    VisitAllPlaced(rules, rank, 0, []);
    if forall r :: r in rules ==> NoKnownDeps(rules, r) {
      VisitAllFirstOccurrences(rules, rank, 0, []);
    }
    assert IdsOf(ordered) <= IdsOf(rules) by {
      forall x | x in ordered ensures x in rules {
        var m :| 0 <= m < |ordered| && ordered[m] == x;
      }
    }
  }

  /** A rule with the given id and dependencies and no other content. */
  function Bare(id: string, deps: seq<string>): Rule
  {
    Rule(id, Rate, None, deps, RuleOut("x", "+"), map[], None, None, [], None, [])
  }

  /**
   * The visit is first-seen-stable, not just dependencies-first: `p` pulls its
   * dependency `b` in ahead of itself, and `a`, although independent and
   * earlier than `b` in the input, comes after both.
   */
  lemma OrderExample()
    ensures DfsOrder([Bare("p", ["b"]), Bare("a", []), Bare("b", [])], map["p" := 1, "a" := 0, "b" := 0])
         == [Bare("b", []), Bare("p", ["b"]), Bare("a", [])]
  {
    var p, a, b := Bare("p", ["b"]), Bare("a", []), Bare("b", []);
    var rules := [p, a, b];
    var rank := map["p" := 1, "a" := 0, "b" := 0];
    assert IdsOf(rules) == {"p", "a", "b"};
    assert Ranked(rules, rank);
    assert Visit(rules, rank, b, []) == [b];
    assert VisitNamed(rules, rank, "b", 1, 3, [b]) == [b];
    assert VisitNamed(rules, rank, "b", 1, 2, []) == [b];
    assert VisitNamed(rules, rank, "b", 1, 1, []) == [b];
    assert VisitNamed(rules, rank, "b", 1, 0, []) == [b];
    assert Visit(rules, rank, p, []) == [b, p];
    assert Visit(rules, rank, a, [b, p]) == [b, p, a];
    assert Visit(rules, rank, b, [b, p, a]) == [b, p, a];
  }
}
