/**
 * `PolicyEngine._eval_tiers`: an increasing block tariff. The loop walks the
 * tiers in order, charging each the part of the remaining quantity that falls
 * into its block (all of it for an open-ended "above" tier), and stops once
 * nothing remains. Prices are in cents per kWh; the sum is converted to
 * currency units and quantized to 0.0001 (half-even).
 */
module Tariff {
  import opened Decimals
  import opened PolicyRules

  /** `qty` of one iteration: the remaining quantity for an "above" tier, else the part below its cap. */
  function TierQty(t: Tier, remaining: real, prevCap: real): real
  {
    if t.above then remaining else Max(0.0, Min(remaining, t.uptoKwh - prevCap))
  }

  /** `prev_cap` after one iteration: only a capped tier moves it. */
  function NextCap(t: Tier, prevCap: real): real
  {
    if t.above then prevCap else t.uptoKwh
  }

  function Zeros(n: nat): (z: seq<real>)
    ensures |z| == n && forall i :: 0 <= i < n ==> z[i] == 0.0
  {
    seq(n, _ => 0.0)
  }

  /**
   * The quantity each tier is charged for, in tier order: 0 for a tier the
   * loop skips (`qty <= 0`) and for every tier after it stops.
   */
  function Shares(tiers: seq<Tier>, remaining: real, prevCap: real): (s: seq<real>)
    ensures |s| == |tiers|
    decreases |tiers|
  {
    if tiers == [] then []
    else
      var q := TierQty(tiers[0], remaining, prevCap);
      var cap := NextCap(tiers[0], prevCap);
      if q <= 0.0 then [0.0] + Shares(tiers[1..], remaining, cap)
      else if remaining - q <= 0.0 then [q] + Zeros(|tiers| - 1)
      else [q] + Shares(tiers[1..], remaining - q, cap)
  }

  /** Sum of quantity times tier price, in cents. */
  function CostCt(shares: seq<real>, tiers: seq<Tier>): real
    requires |shares| == |tiers|
  {
    if shares == [] then 0.0 else shares[0] * tiers[0].priceCtPerKwh + CostCt(shares[1..], tiers[1..])
  }

  /** The tariff of `kwh` in currency units, quantized to 0.0001. */
  function TierAmount(tiers: seq<Tier>, kwh: real): real
  {
    Quantize(CostCt(Shares(tiers, kwh, 0.0), tiers) / 100.0, Basis)
  }

  lemma {:induction false} CostOfZeros(n: nat, tiers: seq<Tier>)
    requires |tiers| == n
    ensures CostCt(Zeros(n), tiers) == 0.0
  {
    if n > 0 {
      assert Zeros(n)[1..] == Zeros(n - 1);
      CostOfZeros(n - 1, tiers[1..]);
    }
  }

  /** One step of the walk, in terms of the cost of the tiers after the first. */
  lemma CostStep(rest: seq<Tier>, remaining: real, prevCap: real)
    requires rest != []
    ensures var q := TierQty(rest[0], remaining, prevCap);
      var cap := NextCap(rest[0], prevCap);
      CostCt(Shares(rest, remaining, prevCap), rest) ==
        if q <= 0.0 then CostCt(Shares(rest[1..], remaining, cap), rest[1..])
        else if remaining - q <= 0.0 then q * rest[0].priceCtPerKwh
        else q * rest[0].priceCtPerKwh + CostCt(Shares(rest[1..], remaining - q, cap), rest[1..])
  {
    var q := TierQty(rest[0], remaining, prevCap);
    if q > 0.0 && remaining - q <= 0.0 {
      CostOfZeros(|rest| - 1, rest[1..]);
    }
  }

  /** The cost in cents of the tiers from index `i` on, walked from `remaining` and `prevCap`. */
  function CostFrom(tiers: seq<Tier>, i: nat, remaining: real, prevCap: real): real
    requires i <= |tiers|
  {
    CostCt(Shares(tiers[i..], remaining, prevCap), tiers[i..])
  }

  /** One iteration of the loop, for the values `qty` and `prev_cap` it computes. */
  lemma CostFromStep(tiers: seq<Tier>, i: nat, remaining: real, prevCap: real, q: real, cap: real)
    requires i < |tiers|
    requires q == TierQty(tiers[i], remaining, prevCap) && cap == NextCap(tiers[i], prevCap)
    ensures q <= 0.0 ==> CostFrom(tiers, i, remaining, prevCap) == CostFrom(tiers, i + 1, remaining, cap)
    ensures q > 0.0 && remaining - q <= 0.0 ==>
      CostFrom(tiers, i, remaining, prevCap) == q * tiers[i].priceCtPerKwh
    ensures q > 0.0 && remaining - q > 0.0 ==>
      CostFrom(tiers, i, remaining, prevCap) == q * tiers[i].priceCtPerKwh + CostFrom(tiers, i + 1, remaining - q, cap)
  {
    var rest := tiers[i..];
    assert rest[0] == tiers[i] && rest[1..] == tiers[i + 1..];
    CostStep(rest, remaining, prevCap);
  }

  lemma CostFromEnds(tiers: seq<Tier>, kwh: real, remaining: real, prevCap: real)
    ensures CostFrom(tiers, 0, kwh, 0.0) == CostCt(Shares(tiers, kwh, 0.0), tiers)
    ensures CostFrom(tiers, |tiers|, remaining, prevCap) == 0.0
  {
    assert tiers[0..] == tiers;
    assert tiers[|tiers|..] == [];
  }

  /** `_eval_tiers(tiers, kwh)` */
  method EvalTiers(tiers: seq<Tier>, kwh: real) returns (amount: real)
    ensures amount == TierAmount(tiers, kwh)
  {
    var remaining := kwh;
    var totalCt := 0.0;
    var prevCap := 0.0;
    ghost var full := CostFrom(tiers, 0, kwh, 0.0);
    var i := 0;
    while i < |tiers|
      invariant 0 <= i <= |tiers|
      invariant totalCt + CostFrom(tiers, i, remaining, prevCap) == full
    {
      var t := tiers[i];
      var qty;
      var cap := prevCap;
      if t.above {
        qty := remaining;
      } else {
        var upto := t.uptoKwh;
        qty := Max(0.0, Min(remaining, upto - prevCap));
        cap := upto;
      }
      CostFromStep(tiers, i, remaining, prevCap, qty, cap);
      prevCap := cap;
      if qty <= 0.0 {
        i := i + 1;
        continue;
      }
      totalCt := totalCt + qty * t.priceCtPerKwh;
      remaining := remaining - qty;
      if remaining <= 0.0 {
        break;
      }
      i := i + 1;
    }
    CostFromEnds(tiers, kwh, remaining, prevCap);
    assert totalCt == full;
    amount := Quantize(totalCt / 100.0, Basis);
  }

  /** A quantity that is not positive costs nothing. */
  lemma {:induction false} SharesOfNonPositive(tiers: seq<Tier>, remaining: real, prevCap: real)
    requires remaining <= 0.0
    ensures forall i :: 0 <= i < |tiers| ==> Shares(tiers, remaining, prevCap)[i] == 0.0
    decreases |tiers|
  {
    if tiers != [] {
      SharesOfNonPositive(tiers[1..], remaining, NextCap(tiers[0], prevCap));
    }
  }

  lemma NonPositiveQuantityIsFree(tiers: seq<Tier>, kwh: real)
    requires kwh <= 0.0
    ensures TierAmount(tiers, kwh) == 0.0
  {
    SharesOfNonPositive(tiers, kwh, 0.0);
    assert Shares(tiers, kwh, 0.0) == Zeros(|tiers|);
    CostOfZeros(|tiers|, tiers);
  }

  /**
   * No tier is charged a negative quantity, and the quantities charged over
   * all tiers never exceed the input; once an "above" tier is reached all of
   * it is charged.
   */
  lemma {:induction false} SharesBounded(tiers: seq<Tier>, remaining: real, prevCap: real)
    requires remaining > 0.0
    ensures forall i :: 0 <= i < |tiers| ==> Shares(tiers, remaining, prevCap)[i] >= 0.0
    ensures Sum(Shares(tiers, remaining, prevCap)) <= remaining
    ensures (exists i :: 0 <= i < |tiers| && tiers[i].above) ==> Sum(Shares(tiers, remaining, prevCap)) == remaining
    decreases |tiers|
  {
    if tiers != [] {
      var s := Shares(tiers, remaining, prevCap);
      var q := TierQty(tiers[0], remaining, prevCap);
      var cap := NextCap(tiers[0], prevCap);
      assert 0.0 <= q <= remaining;
      assert forall i :: 1 <= i < |tiers| ==> tiers[i] == tiers[1..][i - 1];
      if q <= 0.0 {
        SharesBounded(tiers[1..], remaining, cap);
        assert s == [0.0] + Shares(tiers[1..], remaining, cap);
      } else if remaining - q <= 0.0 {
        assert s == [q] + Zeros(|tiers| - 1);
        SumOfZeros(|tiers| - 1);
      } else {
        SharesBounded(tiers[1..], remaining - q, cap);
        assert s == [q] + Shares(tiers[1..], remaining - q, cap);
        assert !tiers[0].above;
      }
    }
  }

  lemma {:induction false} SumOfZeros(n: nat)
    ensures Sum(Zeros(n)) == 0.0
  {
    if n > 0 {
      assert Zeros(n)[1..] == Zeros(n - 1);
      SumOfZeros(n - 1);
    }
  }

  /** 80 kWh over [up to 50 kWh at 10 ct, above at 8 ct] costs (50*10 + 30*8)/100 = 7.40. */
  lemma TierExample()
    ensures TierAmount([Tier(10.0, false, 50.0), Tier(8.0, true, 0.0)], 80.0) == 7.4
  {
    var tiers := [Tier(10.0, false, 50.0), Tier(8.0, true, 0.0)];
    assert tiers[1..] == [Tier(8.0, true, 0.0)];
    assert Shares(tiers[1..], 30.0, 50.0) == [30.0] + Zeros(0);
    assert Shares(tiers, 80.0, 0.0) == [50.0, 30.0];
    assert CostCt([50.0, 30.0], tiers) == 740.0;
    assert (740.0 / 100.0) / Basis == 74000.0;
  }
}
