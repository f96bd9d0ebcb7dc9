/**
 * Settlement arithmetic for one billing cycle: per-participant balances as a
 * grouped sum of the cycle's ledger entries, the operator-fee skim over
 * positive balances, payout selection, and per-participant statements.
 * Database reads become parameters: the cycle's ledger entries and the
 * participant list. Inserts become returned values.
 */
module Settlement {
  import opened Wrappers
  import opened Decimals
  import opened Books

  datatype Role = Consumer | Prosumer | Operator
  datatype Participant = Participant(id: int, role: Role)
  datatype LedgerEntry = LedgerEntry(cycleId: int, participantId: int, amountEur: real, source: string)
  datatype Payout = Payout(participantId: int, amountEur: real)
  datatype SettlementRun = SettlementRun(cycleId: int, policyVersion: string, participants: nat, payouts: seq<Payout>)
  datatype StatementLine = StatementLine(source: string, amountEur: real)
  datatype Statement = Statement(lines: seq<StatementLine>, total: real)

  /*** Grouped sums ***/

  /** `GROUP BY key, SUM(amount)`, with groups in order of first appearance. */
  function GroupSum<K(==)>(pairs: seq<(K, real)>): (b: Book<K>)
    ensures Valid(b)
    decreases |pairs|
  {
    if pairs == [] then Empty()
    else
      var n := |pairs| - 1;
      Post(GroupSum(pairs[..n]), pairs[n].0, pairs[n].1)
  }

  function KeysOf<K>(pairs: seq<(K, real)>): set<K>
  {
    set i | 0 <= i < |pairs| :: pairs[i].0
  }

  /** The groups are exactly the keys that occur. */
  lemma {:induction false} GroupSumKeys<K>(pairs: seq<(K, real)>)
    ensures GroupSum(pairs).bal.Keys == KeysOf(pairs)
    decreases |pairs|
  {
    if pairs != [] {
      var n := |pairs| - 1;
      GroupSumKeys(pairs[..n]);
      KeysOfSnoc(pairs);
    }
  }

  lemma KeysOfSnoc<K>(pairs: seq<(K, real)>)
    requires pairs != []
    ensures KeysOf(pairs) == KeysOf(pairs[..|pairs| - 1]) + {pairs[|pairs| - 1].0}
  {
    var n := |pairs| - 1;
    forall k | k in KeysOf(pairs)
      ensures k in KeysOf(pairs[..n]) + {pairs[n].0}
    {
      var i :| 0 <= i < |pairs| && pairs[i].0 == k;
      if i < n {
        assert pairs[..n][i] == pairs[i];
      }
    }
    forall k | k in KeysOf(pairs[..n])
      ensures k in KeysOf(pairs)
    {
      var i :| 0 <= i < n && pairs[..n][i].0 == k;
      assert pairs[i] == pairs[..n][i];
    }
  }

  /** The amounts of the pairs whose key is `k`, in order. */
  function AmountsFor<K(==)>(pairs: seq<(K, real)>, k: K): seq<real>
    decreases |pairs|
  {
    if pairs == [] then []
    else
      var n := |pairs| - 1;
      AmountsFor(pairs[..n], k) + (if pairs[n].0 == k then [pairs[n].1] else [])
  }

  function AllAmounts<K(==)>(pairs: seq<(K, real)>): seq<real>
    decreases |pairs|
  {
    if pairs == [] then [] else AllAmounts(pairs[..|pairs| - 1]) + [pairs[|pairs| - 1].1]
  }

  lemma SumAppend(s: seq<real>, x: real)
    ensures Sum(s + [x]) == Sum(s) + x
  {
    SumConcat(s, [x]);
    SumSingle(x);
  }

  /** Each group's total is the sum of exactly the amounts carrying its key. */
  lemma {:induction false} GroupSumIsSum<K>(pairs: seq<(K, real)>, k: K)
    ensures Get(GroupSum(pairs), k) == Sum(AmountsFor(pairs, k))
    decreases |pairs|
  {
    if pairs != [] {
      var n := |pairs| - 1;
      GroupSumIsSum(pairs[..n], k);
      GetPost(GroupSum(pairs[..n]), pairs[n].0, pairs[n].1, k);
      if pairs[n].0 == k {
        SumAppend(AmountsFor(pairs[..n], k), pairs[n].1);
      } else {
        var prefix := AmountsFor(pairs[..n], k);
        assert AmountsFor(pairs, k) == prefix + [];
        assert prefix + [] == prefix;
      }
    }
  }

  /** Grouping conserves the grand total. */
  lemma {:induction false} GroupSumTotal<K>(pairs: seq<(K, real)>)
    ensures Total(GroupSum(pairs)) == Sum(AllAmounts(pairs))
    decreases |pairs|
  {
    if pairs != [] {
      var n := |pairs| - 1;
      GroupSumTotal(pairs[..n]);
      TotalPost(GroupSum(pairs[..n]), pairs[n].0, pairs[n].1);
      SumAppend(AllAmounts(pairs[..n]), pairs[n].1);
    }
  }

  /*** Ledger selections ***/

  function ParticipantKey(e: LedgerEntry): int { e.participantId }
  function SourceKey(e: LedgerEntry): string { e.source }

  /** `(key(e), e.amount_eur)` for each entry. */
  function Pairs<K(==)>(es: seq<LedgerEntry>, key: LedgerEntry -> K): (r: seq<(K, real)>)
    ensures |r| == |es|
    ensures forall i :: 0 <= i < |es| ==> r[i].0 == key(es[i])
    decreases |es|
  {
    if es == [] then [] else Pairs(es[..|es| - 1], key) + [(key(es[|es| - 1]), es[|es| - 1].amountEur)]
  }

  /** The entries whose key is `k`. */
  function With<K(==)>(es: seq<LedgerEntry>, key: LedgerEntry -> K, k: K): seq<LedgerEntry>
    decreases |es|
  {
    if es == [] then []
    else
      var n := |es| - 1;
      With(es[..n], key, k) + (if key(es[n]) == k then [es[n]] else [])
  }

  /** `WHERE cycle_id = cycle` */
  function InCycle(es: seq<LedgerEntry>, cycle: int): (r: seq<LedgerEntry>)
    ensures forall e :: e in r <==> e in es && e.cycleId == cycle
    decreases |es|
  {
    if es == [] then []
    else
      var n := |es| - 1;
      assert es == es[..n] + [es[n]];
      InCycle(es[..n], cycle) + (if es[n].cycleId == cycle then [es[n]] else [])
  }

  function EntryAmounts(es: seq<LedgerEntry>): seq<real>
    decreases |es|
  {
    if es == [] then [] else EntryAmounts(es[..|es| - 1]) + [es[|es| - 1].amountEur]
  }

  lemma {:induction false} AmountsForPairs<K>(es: seq<LedgerEntry>, key: LedgerEntry -> K, k: K)
    ensures AmountsFor(Pairs(es, key), k) == EntryAmounts(With(es, key, k))
    decreases |es|
  {
    if es != [] {
      var n := |es| - 1;
      var ps := Pairs(es, key);
      assert ps[..n] == Pairs(es[..n], key);
      AmountsForPairs(es[..n], key, k);
      if key(es[n]) == k {
        assert With(es, key, k)[..|With(es, key, k)| - 1] == With(es[..n], key, k);
      } else {
        assert With(es, key, k) == With(es[..n], key, k);
      }
    }
  }

  lemma {:induction false} AllAmountsOfPairs<K>(es: seq<LedgerEntry>, key: LedgerEntry -> K)
    ensures AllAmounts(Pairs(es, key)) == EntryAmounts(es)
    decreases |es|
  {
    if es != [] {
      var n := |es| - 1;
      assert Pairs(es, key)[..n] == Pairs(es[..n], key);
      AllAmountsOfPairs(es[..n], key);
    }
  }

  lemma KeysOfPairs<K>(es: seq<LedgerEntry>, key: LedgerEntry -> K)
    ensures KeysOf(Pairs(es, key)) == set i | 0 <= i < |es| :: key(es[i])
  {
  }

  /*** Balances ***/

  /** `compute_balances`: each participant's summed ledger amounts in the cycle. */
  function ComputeBalances(entries: seq<LedgerEntry>, cycle: int): (b: Book<int>)
    ensures Valid(b)
  {
    GroupSum(Pairs(InCycle(entries, cycle), ParticipantKey))
  }

  /** A participant has a balance exactly when it has an entry in the cycle. */
  lemma BalanceKeys(entries: seq<LedgerEntry>, cycle: int, pid: int)
    ensures pid in ComputeBalances(entries, cycle).bal <==>
      exists e :: e in entries && e.cycleId == cycle && e.participantId == pid
  {
    var es := InCycle(entries, cycle);
    GroupKeyIsEntry(es, pid);
    if pid in ComputeBalances(entries, cycle).bal {
      var e :| e in es && e.participantId == pid;
      assert e in entries && e.cycleId == cycle;
    }
  }

  lemma GroupKeyIsEntry(es: seq<LedgerEntry>, pid: int)
    ensures pid in GroupSum(Pairs(es, ParticipantKey)).bal <==> exists e :: e in es && e.participantId == pid
  {
    var ps := Pairs(es, ParticipantKey);
    GroupSumKeys(ps);
    KeysOfPairs(es, ParticipantKey);
    if pid in GroupSum(ps).bal {
      var i :| 0 <= i < |es| && es[i].participantId == pid;
      assert es[i] in es;
    } else {
      forall e | e in es
        ensures e.participantId != pid
      {
        var i :| 0 <= i < |es| && es[i] == e;
        assert ParticipantKey(es[i]) in KeysOf(ps);
      }
    }
  }

  /**
   * A participant has a balance exactly when it has an entry in the cycle,
   * the balance is the sum of its entries' amounts there, and all balances
   * together sum to the cycle's entries.
   */
  lemma BalancesAreEntrySums(entries: seq<LedgerEntry>, cycle: int, pid: int)
    ensures var b := ComputeBalances(entries, cycle);
      && (pid in b.bal <==> exists e :: e in entries && e.cycleId == cycle && e.participantId == pid)
      && Get(b, pid) == Sum(EntryAmounts(With(InCycle(entries, cycle), ParticipantKey, pid)))
      && Total(b) == Sum(EntryAmounts(InCycle(entries, cycle)))
  {
    BalanceKeys(entries, cycle, pid);
    BalanceIsSum(InCycle(entries, cycle), pid);
    BalancesTotal(InCycle(entries, cycle));
  }

  lemma BalanceIsSum(es: seq<LedgerEntry>, pid: int)
    ensures Get(GroupSum(Pairs(es, ParticipantKey)), pid) == Sum(EntryAmounts(With(es, ParticipantKey, pid)))
  {
    GroupSumIsSum(Pairs(es, ParticipantKey), pid);
    AmountsForPairs(es, ParticipantKey, pid);
  }

  lemma BalancesTotal(es: seq<LedgerEntry>)
    ensures Total(GroupSum(Pairs(es, ParticipantKey))) == Sum(EntryAmounts(es))
  {
    GroupSumTotal(Pairs(es, ParticipantKey));
    AllAmountsOfPairs(es, ParticipantKey);
  }

  /*** Operator fee ***/

  /** `operator = first participant with role OPERATOR` */
  function OperatorOf(ps: seq<Participant>): (r: Option<int>)
    ensures r.None? <==> forall i :: 0 <= i < |ps| ==> ps[i].role != Operator
    ensures r.Some? ==> exists i :: 0 <= i < |ps| && ps[i].role == Operator && ps[i].id == r.value &&
                                    forall j :: 0 <= j < i ==> ps[j].role != Operator
  {
    if ps == [] then None
    else if ps[0].role == Operator then Some(ps[0].id)
    else
      var r := OperatorOf(ps[1..]);
      assert forall j :: 0 < j < |ps| ==> ps[j] == ps[1..][j - 1];
      r
  }

  /** `(bal * pct).quantize(Decimal("0.01"))`, half-even. */
  function Fee(bal: real, feePct: real): real
  {
    Quantize(bal * feePct, Cent)
  }

  /** A participant the fee pass charges: present, not the operator, with a positive balance. */
  predicate Charged(b: Book<int>, k: int, op: int)
  {
    k in b.bal && k != op && b.bal[k] > 0.0
  }

  /** The balance a participant keeps after the fee pass. */
  function AfterFee(b: Book<int>, k: int, op: int, feePct: real): real
    requires k in b.bal
  {
    if Charged(b, k, op) then b.bal[k] - Fee(b.bal[k], feePct) else b.bal[k]
  }

  /** The fees collected from the participants listed in `ks`. */
  function FeesOver(b: Book<int>, ks: seq<int>, op: int, feePct: real): real
    decreases |ks|
  {
    if ks == [] then 0.0
    else
      var n := |ks| - 1;
      FeesOver(b, ks[..n], op, feePct) + (if Charged(b, ks[n], op) then Fee(b.bal[ks[n]], feePct) else 0.0)
  }

  predicate AnyCharged(b: Book<int>, ks: seq<int>, op: int)
  {
    exists i :: 0 <= i < |ks| && Charged(b, ks[i], op)
  }

  /** The operator's key is added (last) exactly when someone among `ks` was charged. */
  ghost predicate OperatorKey(b: Book<int>, r: Book<int>, ks: seq<int>, op: int)
  {
    && r.bal.Keys == (if AnyCharged(b, ks, op) then b.bal.Keys + {op} else b.bal.Keys)
    && r.keys == (if op !in b.bal && AnyCharged(b, ks, op) then b.keys + [op] else b.keys)
  }

  /**
   * The outcome of the fee pass on `b`: every charged participant keeps its
   * balance minus its fee, every other participant keeps its balance, the
   * operator gains exactly the fees, and the operator's key is added (last)
   * exactly when someone was charged.
   */
  ghost predicate FeeApplied(b: Book<int>, r: Book<int>, op: int, feePct: real)
    requires Valid(b)
  {
    && (forall k :: k in b.bal && k != op ==> k in r.bal && r.bal[k] == AfterFee(b, k, op, feePct))
    && Get(r, op) == Get(b, op) + FeesOver(b, b.keys, op, feePct)
    && OperatorKey(b, r, b.keys, op)
  }

  /**
   * The running balances once the fee loop has visited the snapshot items
   * `ks` of `b`: each charged item is set to its snapshot balance minus the
   * fee, and the fee is posted to the operator.
   */
  function FeeLoop(b: Book<int>, ks: seq<int>, op: int, feePct: real): (r: Book<int>)
    ensures b.bal.Keys <= r.bal.Keys
    decreases |ks|
  {
    if ks == [] then b else Skim(FeeLoop(b, ks[..|ks| - 1], op, feePct), b, ks[|ks| - 1], op, feePct)
  }

  /** One iteration of the fee loop on the running balances `r`, for snapshot item `k` of `b`. */
  function Skim(r: Book<int>, b: Book<int>, k: int, op: int, feePct: real): (t: Book<int>)
    requires b.bal.Keys <= r.bal.Keys
    ensures b.bal.Keys <= t.bal.Keys
  {
    if Charged(b, k, op) then Post(SetBal(r, k, b.bal[k] - Fee(b.bal[k], feePct)), op, Fee(b.bal[k], feePct)) else r
  }

  lemma FeeLoopUnfold(b: Book<int>, ks: seq<int>, op: int, feePct: real)
    requires ks != []
    ensures FeeLoop(b, ks, op, feePct) == Skim(FeeLoop(b, ks[..|ks| - 1], op, feePct), b, ks[|ks| - 1], op, feePct)
  {
  }

  /** Visiting one more snapshot item is one more step. */
  lemma FeeLoopNext(b: Book<int>, ks: seq<int>, i: int, op: int, feePct: real)
    requires 0 <= i < |ks|
    ensures FeeLoop(b, ks[..i + 1], op, feePct) == Skim(FeeLoop(b, ks[..i], op, feePct), b, ks[i], op, feePct)
  {
    assert ks[..i + 1][..i] == ks[..i];
    FeeLoopUnfold(b, ks[..i + 1], op, feePct);
  }

  /** One step adds the operator's key, at the end if it is new, exactly when it charges. */
  lemma SkimKeys(r: Book<int>, b: Book<int>, k: int, op: int, feePct: real)
    requires b.bal.Keys <= r.bal.Keys
    ensures Skim(r, b, k, op, feePct).bal.Keys == if Charged(b, k, op) then r.bal.Keys + {op} else r.bal.Keys
    ensures Skim(r, b, k, op, feePct).keys == if Charged(b, k, op) && op !in r.bal then r.keys + [op] else r.keys
  {
  }

  lemma SkimCharged(r: Book<int>, b: Book<int>, k: int, op: int, feePct: real)
    requires b.bal.Keys <= r.bal.Keys && Charged(b, k, op)
    ensures Skim(r, b, k, op, feePct) == Post(SetBal(r, k, b.bal[k] - Fee(b.bal[k], feePct)), op, Fee(b.bal[k], feePct))
  {
  }

  /** The loop body's two assignments, for a charged item, are one step. */
  lemma ChargeIsSkim(r: Book<int>, b: Book<int>, k: int, op: int, feePct: real, bal: real, fee: real)
    requires b.bal.Keys <= r.bal.Keys && Charged(b, k, op)
    requires bal == b.bal[k] && fee == Fee(bal, feePct)
    ensures Post(SetBal(r, k, bal - fee), op, fee) == Skim(r, b, k, op, feePct)
  {
    SkimCharged(r, b, k, op, feePct);
  }

  lemma SkimKept(r: Book<int>, b: Book<int>, k: int, op: int, feePct: real)
    requires b.bal.Keys <= r.bal.Keys && !Charged(b, k, op)
    ensures Skim(r, b, k, op, feePct) == r
  {
  }

  /** A step keeps every key listed once. */
  lemma SkimValid(r: Book<int>, b: Book<int>, k: int, op: int, feePct: real)
    requires Valid(r) && b.bal.Keys <= r.bal.Keys
    ensures Valid(Skim(r, b, k, op, feePct))
  {
    if Charged(b, k, op) {
      SkimCharged(r, b, k, op, feePct);
    }
  }

  /** Taking `fee` from `k` and posting it to `op` keeps the total. */
  lemma ChargeTotal(r: Book<int>, k: int, bal: real, op: int, fee: real)
    requires Valid(r) && k in r.bal && r.bal[k] == bal
    ensures Valid(Post(SetBal(r, k, bal - fee), op, fee))
    ensures Total(Post(SetBal(r, k, bal - fee), op, fee)) == Total(r)
  {
    TotalSetBal(r, k, bal - fee);
    TotalPostFrom(SetBal(r, k, bal - fee), op, fee, Total(r) - fee);
  }

  /** One step moves a fee from one participant to the operator: the total is unchanged. */
  lemma SkimTotal(r: Book<int>, b: Book<int>, k: int, op: int, feePct: real)
    requires Valid(r) && b.bal.Keys <= r.bal.Keys
    requires Charged(b, k, op) ==> r.bal[k] == b.bal[k]
    ensures Valid(Skim(r, b, k, op, feePct)) && Total(Skim(r, b, k, op, feePct)) == Total(r)
  {
    SkimValid(r, b, k, op, feePct);
    if Charged(b, k, op) {
      SkimChargedTotal(r, b, k, op, feePct);
    } else {
      assert Skim(r, b, k, op, feePct) == r;
    }
  }

  lemma SkimChargedTotal(r: Book<int>, b: Book<int>, k: int, op: int, feePct: real)
    requires Valid(r) && b.bal.Keys <= r.bal.Keys && Charged(b, k, op)
    requires r.bal[k] == b.bal[k]
    ensures Total(Skim(r, b, k, op, feePct)) == Total(r)
  {
    var fee := Fee(b.bal[k], feePct);
    ChargeTotal(r, k, b.bal[k], op, fee);
    ChargeIsSkim(r, b, k, op, feePct, b.bal[k], fee);
  }

  /** One step raises the operator's balance by the fee it charges. */
  lemma SkimOperator(r: Book<int>, b: Book<int>, k: int, op: int, feePct: real)
    requires b.bal.Keys <= r.bal.Keys
    ensures Get(Skim(r, b, k, op, feePct), op) == Get(r, op) + if Charged(b, k, op) then Fee(b.bal[k], feePct) else 0.0
  {
    if Charged(b, k, op) {
      var fee := Fee(b.bal[k], feePct);
      var s := SetBal(r, k, b.bal[k] - fee);
      assert Get(s, op) == Get(r, op);
      GetPost(s, op, fee, op);
    }
  }

  /** The items visited so far hold their after-fee balance; the rest, their snapshot balance. */
  lemma {:induction false} FeeLoopBalances(b: Book<int>, ks: seq<int>, op: int, feePct: real, k: int)
    requires k in b.bal && k != op
    ensures FeeLoop(b, ks, op, feePct).bal[k] == if k in ks then AfterFee(b, k, op, feePct) else b.bal[k]
    decreases |ks|
  {
    if ks != [] {
      var n := |ks| - 1;
      FeeLoopBalances(b, ks[..n], op, feePct, k);
      assert k in ks <==> k in ks[..n] || k == ks[n] by {
        assert ks == ks[..n] + [ks[n]];
      }
    }
  }

  /** Every charge moves money from a participant to the operator, so the total never changes. */
  lemma {:induction false} FeeLoopTotal(b: Book<int>, ks: seq<int>, op: int, feePct: real)
    requires Valid(b) && Distinct(ks) && forall k :: k in ks ==> k in b.bal
    ensures Valid(FeeLoop(b, ks, op, feePct)) && Total(FeeLoop(b, ks, op, feePct)) == Total(b)
    decreases |ks|
  {
    if ks != [] {
      var n := |ks| - 1;
      var k := ks[n];
      DistinctFront(ks);
      FeeLoopTotal(b, ks[..n], op, feePct);
      FeeLoopUnfold(b, ks, op, feePct);
      SkimValid(FeeLoop(b, ks[..n], op, feePct), b, k, op, feePct);
      if k != op {
        FeeLoopBalances(b, ks[..n], op, feePct, k);
      }
      SkimTotal(FeeLoop(b, ks[..n], op, feePct), b, k, op, feePct);
    }
  }

  /** The operator's balance rises by exactly the fees of the items visited. */
  lemma {:induction false} FeeLoopOperator(b: Book<int>, ks: seq<int>, op: int, feePct: real)
    ensures Get(FeeLoop(b, ks, op, feePct), op) == Get(b, op) + FeesOver(b, ks, op, feePct)
    decreases |ks|
  {
    if ks != [] {
      var n := |ks| - 1;
      FeeLoopOperator(b, ks[..n], op, feePct);
      FeeLoopUnfold(b, ks, op, feePct);
      SkimOperator(FeeLoop(b, ks[..n], op, feePct), b, ks[n], op, feePct);
    }
  }

  /** The operator's key appears, after all snapshot keys, exactly once someone is charged. */
  lemma {:induction false} FeeLoopKeys(b: Book<int>, ks: seq<int>, op: int, feePct: real)
    ensures OperatorKey(b, FeeLoop(b, ks, op, feePct), ks, op)
    decreases |ks|
  {
    if ks != [] {
      var n := |ks| - 1;
      var r := FeeLoop(b, ks[..n], op, feePct);
      FeeLoopKeys(b, ks[..n], op, feePct);
      assert AnyCharged(b, ks, op) <==> AnyCharged(b, ks[..n], op) || Charged(b, ks[n], op) by {
        assert forall j :: 0 <= j < n ==> ks[..n][j] == ks[j];
      }
      FeeLoopUnfold(b, ks, op, feePct);
      SkimKeys(r, b, ks[n], op, feePct);
    }
  }

  /** Visiting every snapshot item gives exactly the promised fee outcome. */
  lemma FeeLoopApplies(b: Book<int>, op: int, feePct: real)
    requires Valid(b)
    ensures FeeApplied(b, FeeLoop(b, b.keys, op, feePct), op, feePct)
    ensures Valid(FeeLoop(b, b.keys, op, feePct)) && Total(FeeLoop(b, b.keys, op, feePct)) == Total(b)
  {
    forall k | k in b.bal && k != op
      ensures FeeLoop(b, b.keys, op, feePct).bal[k] == AfterFee(b, k, op, feePct)
    {
      FeeLoopBalances(b, b.keys, op, feePct, k);
    }
    FeeLoopOperator(b, b.keys, op, feePct);
    FeeLoopKeys(b, b.keys, op, feePct);
    FeeLoopTotal(b, b.keys, op, feePct);
  }

  /**
   * The operator-fee pass of `run_settlement`: over a snapshot of the
   * balances, every positive non-operator balance pays its fee to the operator.
   */
  method ApplyOperatorFee(balances: Book<int>, operator: Option<int>, feePct: real) returns (r: Book<int>)
    requires Valid(balances)
    ensures Valid(r)
    ensures Total(r) == Total(balances)
    ensures operator.None? || feePct == 0.0 ==> r == balances
    ensures operator.Some? && feePct != 0.0 ==> r == FeeLoop(balances, balances.keys, operator.value, feePct)
    ensures operator.Some? && feePct != 0.0 ==> FeeApplied(balances, r, operator.value, feePct)
  {
    r := balances;
    if operator.None? || feePct == 0.0 {
      return;
    }
    var op := operator.value;
    var items := balances.keys;
    assert items[..0] == [];
    for i := 0 to |items|
      invariant r == FeeLoop(balances, items[..i], op, feePct)
    {
      FeeLoopNext(balances, items, i, op, feePct);
      var pid := items[i];
      var bal := balances.bal[pid];
      if pid == op {
        SkimKept(r, balances, pid, op, feePct);
        continue;
      }
      if bal > 0.0 {
        var fee := Fee(bal, feePct);
        ChargeIsSkim(r, balances, pid, op, feePct, bal, fee);
        r := SetBal(r, pid, bal - fee);
        r := Post(r, op, fee);
      } else {
        SkimKept(r, balances, pid, op, feePct);
      }
    }
    assert items[..|items|] == items;
    FeeLoopApplies(balances, op, feePct);
  }

  /**
   * For a whole-cent positive balance and a fee fraction between 0 and 1, the
   * fee is non-negative and the participant keeps between 0 and its balance.
   */
  lemma FeeWithinBalance(bal: real, feePct: real)
    requires bal > 0.0 && MultipleOf(bal, Cent)
    requires 0.0 <= feePct <= 1.0
    ensures 0.0 <= Fee(bal, feePct) <= bal
    ensures 0.0 <= bal - Fee(bal, feePct) <= bal
  {
    var y := bal * feePct / Cent;
    var hi := (bal / Cent).Floor;
    assert bal * feePct <= bal;
    assert y <= bal / Cent;
    RoundHalfEvenBetween(y, 0, hi);
    var n := RoundHalfEven(y);
    assert Fee(bal, feePct) == n as real * Cent;
    assert n as real <= bal / Cent;
    assert n as real * Cent <= (bal / Cent) * Cent;
  }

  /*** Payouts and the run ***/

  /** One payout per participant with a strictly positive balance, for exactly that balance. */
  ghost predicate PayoutsFor(b: Book<int>, ks: seq<int>, payouts: seq<Payout>)
    requires forall k :: k in ks ==> k in b.bal
  {
    && (forall i :: 0 <= i < |payouts| ==>
          payouts[i].participantId in ks && payouts[i].amountEur == b.bal[payouts[i].participantId] && payouts[i].amountEur > 0.0)
    && (forall i, j :: 0 <= i < j < |payouts| ==> payouts[i].participantId != payouts[j].participantId)
    && (forall k :: k in ks && b.bal[k] > 0.0 ==> exists i :: 0 <= i < |payouts| && payouts[i].participantId == k)
  }

  /** The payouts for the listed participants with a positive balance, in list order. */
  function Positive(b: Book<int>, ks: seq<int>): seq<Payout>
    requires forall k :: k in ks ==> k in b.bal
    decreases |ks|
  {
    if ks == [] then []
    else
      var n := |ks| - 1;
      var k := ks[n];
      assert k in ks && forall j :: j in ks[..n] ==> j in ks;
      Positive(b, ks[..n]) + (if b.bal[k] > 0.0 then [Payout(k, b.bal[k])] else [])
  }

  /** Over a list of distinct keys, `Positive` pays each positive balance exactly once. */
  lemma {:induction false} PositivePaysOnce(b: Book<int>, ks: seq<int>)
    requires Distinct(ks) && forall k :: k in ks ==> k in b.bal
    ensures PayoutsFor(b, ks, Positive(b, ks))
    decreases |ks|
  {
    if ks != [] {
      var n := |ks| - 1;
      var front, last := ks[..n], ks[n];
      DistinctFront(ks);
      assert ks == front + [last];
      PositivePaysOnce(b, front);
      if b.bal[last] > 0.0 {
        PaysNewPositive(b, front, last, Positive(b, front));
      } else {
        assert Positive(b, ks) == Positive(b, front) + [] == Positive(b, front);
        PaysNoNonPositive(b, front, last, Positive(b, front));
      }
    }
  }

  /** A new key with a positive balance adds its payout at the end. */
  lemma PaysNewPositive(b: Book<int>, front: seq<int>, last: int, p: seq<Payout>)
    requires (forall k :: k in front ==> k in b.bal) && last in b.bal && last !in front
    requires b.bal[last] > 0.0 && PayoutsFor(b, front, p)
    ensures PayoutsFor(b, front + [last], p + [Payout(last, b.bal[last])])
  {
    var ks, q := front + [last], p + [Payout(last, b.bal[last])];
    forall k | k in ks && b.bal[k] > 0.0
      ensures exists i :: 0 <= i < |q| && q[i].participantId == k
    {
      if k == last {
        assert q[|p|].participantId == k;
      } else {
        assert k in front;
        var i :| 0 <= i < |p| && p[i].participantId == k;
        assert q[i].participantId == k;
      }
    }
  }

  /** A new key without a positive balance adds no payout. */
  lemma PaysNoNonPositive(b: Book<int>, front: seq<int>, last: int, p: seq<Payout>)
    requires (forall k :: k in front ==> k in b.bal) && last in b.bal
    requires b.bal[last] <= 0.0 && PayoutsFor(b, front, p)
    ensures PayoutsFor(b, front + [last], p)
  {
    forall k | k in front + [last] && b.bal[k] > 0.0
      ensures exists i :: 0 <= i < |p| && p[i].participantId == k
    {
      assert k in front;
    }
  }

  /** The payout loop of `run_settlement`, over the balances in insertion order. */
  method SelectPayouts(balances: Book<int>) returns (payouts: seq<Payout>)
    requires Valid(balances)
    ensures payouts == Positive(balances, balances.keys)
    ensures PayoutsFor(balances, balances.keys, payouts)
  {
    payouts := [];
    var items := balances.keys;
    assert items[..0] == [];
    for i := 0 to |items|
      invariant payouts == Positive(balances, items[..i])
    {
      assert items[..i + 1][..i] == items[..i];
      var pid := items[i];
      var bal := balances.bal[pid];
      if bal > 0.0 {
        payouts := payouts + [Payout(pid, bal)];
      }
    }
    assert items[..|items|] == items;
    PositivePaysOnce(balances, items);
  }

  /** `operator_fee_pct` from the policy: missing, null or 0 all mean no fee. */
  function FeePctOf(setting: Option<real>): real
  {
    if setting.Some? then setting.value else 0.0
  }

  /**
   * `run_settlement`: balances, the operator fee, the run record (whose
   * summary counts the balance keys after the fee pass) and its payouts.
   * `settled` is the balance map after the fee pass.
   */
  method RunSettlement(entries: seq<LedgerEntry>, participants: seq<Participant>, cycle: int,
                       policyVersion: string, feeSetting: Option<real>)
    returns (run: SettlementRun, settled: Book<int>)
    ensures var b := ComputeBalances(entries, cycle);
      var op := OperatorOf(participants);
      && Valid(settled)
      && Total(settled) == Total(b)
      && (op.None? || FeePctOf(feeSetting) == 0.0 ==> settled == b)
      && (op.Some? && FeePctOf(feeSetting) != 0.0 ==> FeeApplied(b, settled, op.value, FeePctOf(feeSetting)))
    ensures run.cycleId == cycle && run.policyVersion == policyVersion
    ensures run.participants == |settled.keys| == |settled.bal|
    ensures PayoutsFor(settled, settled.keys, run.payouts)
  {
    var balances := ComputeBalances(entries, cycle);
    var operator := OperatorOf(participants);
    settled := ApplyOperatorFee(balances, operator, FeePctOf(feeSetting));
    DistinctKeysCount(settled);
    var payouts := SelectPayouts(settled);
    run := SettlementRun(cycle, policyVersion, |settled.keys|, payouts);
  }

  /** A book lists as many keys as its map holds. */
  lemma DistinctKeysCount<K>(b: Book<K>)
    requires Valid(b)
    ensures |b.keys| == |b.bal|
  {
    DistinctCard(b.keys);
    assert b.bal.Keys == set k | k in b.keys;
  }

  lemma {:induction false} DistinctCard<K>(s: seq<K>)
    requires Distinct(s)
    ensures |set k | k in s| == |s|
    decreases |s|
  {
    if s != [] {
      var n := |s| - 1;
      DistinctFront(s);
      DistinctCard(s[..n]);
      assert (set k | k in s) == (set k | k in s[..n]) + {s[n]};
      assert s[n] !in s[..n];
    }
  }

  /*** Statements ***/

  /** The participant's entries in the cycle. */
  function EntriesOf(entries: seq<LedgerEntry>, cycle: int, pid: int): seq<LedgerEntry>
  {
    With(InCycle(entries, cycle), ParticipantKey, pid)
  }

  /** The participant's cycle sums per source, in order of first appearance. */
  function SourceSums(entries: seq<LedgerEntry>, cycle: int, pid: int): (g: Book<string>)
    ensures Valid(g)
  {
    GroupSum(Pairs(EntriesOf(entries, cycle, pid), SourceKey))
  }

  /**
   * `statement_for_participant`: the participant's cycle entries grouped by
   * source, each line quantized to 0.01, and the total of the unrounded line
   * sums quantized to 0.01.
   */
  function StatementFor(entries: seq<LedgerEntry>, cycle: int, pid: int): Statement
  {
    var g := SourceSums(entries, cycle, pid);
    Statement(
      seq(|g.keys|, i requires 0 <= i < |g.keys| => StatementLine(g.keys[i], Quantize(g.bal[g.keys[i]], Cent))),
      Quantize(Total(g), Cent))
  }

  lemma StatementShape(entries: seq<LedgerEntry>, cycle: int, pid: int)
    ensures var g := SourceSums(entries, cycle, pid);
      && |StatementFor(entries, cycle, pid).lines| == |g.keys|
      && forall i :: 0 <= i < |g.keys| ==>
           StatementFor(entries, cycle, pid).lines[i] == StatementLine(g.keys[i], Quantize(g.bal[g.keys[i]], Cent))
  {
  }

  /**
   * A statement's total is the participant's balance quantized to 0.01: it
   * sums the unrounded per-source sums, not the rounded lines.
   */
  lemma StatementTotalIsBalance(entries: seq<LedgerEntry>, cycle: int, pid: int)
    ensures StatementFor(entries, cycle, pid).total == Quantize(Get(ComputeBalances(entries, cycle), pid), Cent)
    ensures StatementFor(entries, cycle, pid).total == Quantize(Sum(EntryAmounts(EntriesOf(entries, cycle, pid))), Cent)
  {
    var mine := EntriesOf(entries, cycle, pid);
    GroupSumTotal(Pairs(mine, SourceKey));
    AllAmountsOfPairs(mine, SourceKey);
    BalancesAreEntrySums(entries, cycle, pid);
  }

  /** A statement lists each source once. */
  lemma StatementSourcesDistinct(entries: seq<LedgerEntry>, cycle: int, pid: int)
    ensures var lines := StatementFor(entries, cycle, pid).lines;
      forall i, j :: 0 <= i < j < |lines| ==> lines[i].source != lines[j].source
  {
    StatementShape(entries, cycle, pid);
    DistinctIndex(SourceSums(entries, cycle, pid).keys);
  }

  /** A statement's sources are exactly the sources among the participant's cycle entries. */
  lemma StatementSources(entries: seq<LedgerEntry>, cycle: int, pid: int)
    ensures var lines := StatementFor(entries, cycle, pid).lines;
      var mine := EntriesOf(entries, cycle, pid);
      (set i | 0 <= i < |lines| :: lines[i].source) == (set i | 0 <= i < |mine| :: mine[i].source)
  {
    SourceSumsKeys(entries, cycle, pid);
    LineSources(entries, cycle, pid);
  }

  lemma LineSources(entries: seq<LedgerEntry>, cycle: int, pid: int)
    ensures var lines := StatementFor(entries, cycle, pid).lines;
      (set i | 0 <= i < |lines| :: lines[i].source) == SourceSums(entries, cycle, pid).bal.Keys
  {
    var g := SourceSums(entries, cycle, pid);
    var lines := StatementFor(entries, cycle, pid).lines;
    StatementShape(entries, cycle, pid);
    forall k | k in g.bal
      ensures k in (set i | 0 <= i < |lines| :: lines[i].source)
    {
      var i :| 0 <= i < |g.keys| && g.keys[i] == k;
      assert lines[i].source == k;
    }
  }

  /** The groups are the sources that occur among the participant's cycle entries. */
  lemma SourceSumsKeys(entries: seq<LedgerEntry>, cycle: int, pid: int)
    ensures var mine := EntriesOf(entries, cycle, pid);
      SourceSums(entries, cycle, pid).bal.Keys == set i | 0 <= i < |mine| :: mine[i].source
  {
    var mine := EntriesOf(entries, cycle, pid);
    GroupSumKeys(Pairs(mine, SourceKey));
    KeysOfPairs(mine, SourceKey);
  }

  /** Each line is the 0.01-quantized sum of that source's amounts. */
  lemma StatementAmounts(entries: seq<LedgerEntry>, cycle: int, pid: int)
    ensures var lines := StatementFor(entries, cycle, pid).lines;
      var mine := EntriesOf(entries, cycle, pid);
      forall i :: 0 <= i < |lines| ==>
        lines[i].amountEur == Quantize(Sum(EntryAmounts(With(mine, SourceKey, lines[i].source))), Cent)
  {
    var mine := EntriesOf(entries, cycle, pid);
    var g := SourceSums(entries, cycle, pid);
    var lines := StatementFor(entries, cycle, pid).lines;
    StatementShape(entries, cycle, pid);
    forall i | 0 <= i < |lines|
      ensures lines[i].amountEur == Quantize(Sum(EntryAmounts(With(mine, SourceKey, lines[i].source))), Cent)
    {
      GroupSumIsSum(Pairs(mine, SourceKey), g.keys[i]);
      AmountsForPairs(mine, SourceKey, g.keys[i]);
    }
  }
}
