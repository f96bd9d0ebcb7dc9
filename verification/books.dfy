/**
 * An insertion-ordered dictionary from keys to decimal amounts, as Python's
 * `dict` behaves: `keys` lists each key once, in the order it was first
 * written, and `bal` holds the current amounts. Both the rule engine's
 * running accounts and the settlement's balance map are books.
 */
module Books {
  import opened Decimals

  datatype Book<K> = Book(keys: seq<K>, bal: map<K, real>)

  /** The empty dictionary `{}`. */
  function Empty<K>(): Book<K> { Book([], map[]) }

  /**
   * Every element occurs once. The quantifier fires only on an explicit
   * `Apart` term, so uses go through `DistinctIndex` and its neighbours.
   */
  predicate Distinct<K(==)>(s: seq<K>)
  {
    forall i, j :: 0 <= i < j < |s| ==> Apart(s, i, j)
  }

  /** Positions `i < j` of `s` hold different elements. */
  predicate Apart<K(==)>(s: seq<K>, i: int, j: int)
    requires 0 <= i < j < |s|
  {
    s[i] != s[j]
  }

  /** `Distinct` spelled out over positions. */
  lemma DistinctIndex<K>(s: seq<K>)
    requires Distinct(s)
    ensures forall i, j :: 0 <= i < j < |s| ==> s[i] != s[j]
  {
    forall i, j | 0 <= i < j < |s|
      ensures s[i] != s[j]
    {
      assert Apart(s, i, j);
    }
  }

  /** The prefix without the last element is distinct and does not hold that element. */
  lemma DistinctFront<K>(s: seq<K>)
    requires Distinct(s) && s != []
    ensures Distinct(s[..|s| - 1]) && s[|s| - 1] !in s[..|s| - 1]
  {
    DistinctIndex(s);
  }

  /** The suffix without the first element is distinct and does not hold that element. */
  lemma DistinctTail<K>(s: seq<K>)
    requires Distinct(s) && s != []
    ensures Distinct(s[1..]) && s[0] !in s[1..]
  {
    DistinctIndex(s);
  }

  /** Appending a new element keeps a sequence distinct. */
  lemma DistinctSnoc<K>(s: seq<K>, k: K)
    ensures Distinct(s) && k !in s ==> Distinct(s + [k])
  {
    if Distinct(s) && k !in s {
      DistinctIndex(s);
    }
  }

  /** Every key listed once, and the listed keys are exactly the map's keys. */
  ghost predicate Valid<K>(b: Book<K>)
  {
    && Distinct(b.keys)
    && (forall k :: k in b.keys ==> k in b.bal)
    && (forall k :: k in b.bal ==> k in b.keys)
  }

  /** `d.get(k, 0)` */
  function Get<K(==)>(b: Book<K>, k: K): real
  {
    if k in b.bal then b.bal[k] else 0.0
  }

  /** `d[k] = v` for a key already present. */
  function SetBal<K(==)>(b: Book<K>, k: K, v: real): (r: Book<K>)
    requires k in b.bal
    ensures Valid(b) ==> Valid(r)
  {
    Book(b.keys, b.bal[k := v])
  }

  /** `d[k] = d.get(k, 0) + a`: a new key goes to the end of the order. */
  function Post<K(==)>(b: Book<K>, k: K, a: real): (r: Book<K>)
    ensures Valid(b) ==> Valid(r)
    ensures r.bal.Keys == b.bal.Keys + {k}
    ensures r.bal[k] == Get(b, k) + a
    ensures forall j :: j in b.bal && j != k ==> r.bal[j] == b.bal[j]
    ensures r.keys == if k in b.bal then b.keys else b.keys + [k]
  {
    if k in b.bal then Book(b.keys, b.bal[k := b.bal[k] + a])
    else DistinctSnoc(b.keys, k); Book(b.keys + [k], b.bal[k := a])
  }

  /** The amounts of `keys`, in order, read from `bal`. */
  function Amounts<K(==)>(keys: seq<K>, bal: map<K, real>): (r: seq<real>)
    ensures |r| == |keys|
    ensures forall i {:trigger r[i]} :: 0 <= i < |keys| && keys[i] in bal ==> r[i] == bal[keys[i]]
  {
    if keys == [] then [] else [if keys[0] in bal then bal[keys[0]] else 0.0] + Amounts(keys[1..], bal)
  }

  /** `sum(d.values())` */
  function Total<K(==)>(b: Book<K>): real
  {
    Sum(Amounts(b.keys, b.bal))
  }

  lemma AmountsConcat<K>(a: seq<K>, c: seq<K>, bal: map<K, real>)
    requires forall k :: k in a + c ==> k in bal
    ensures Amounts(a + c, bal) == Amounts(a, bal) + Amounts(c, bal)
  {
  }

  /** Changing the amount of one listed key changes the sum by the difference. */
  lemma {:induction false} SumAmountsUpdate<K>(keys: seq<K>, bal: map<K, real>, k: K, v: real)
    requires Distinct(keys) && k in keys
    requires forall j :: j in keys ==> j in bal
    ensures Sum(Amounts(keys, bal[k := v])) == Sum(Amounts(keys, bal)) - bal[k] + v
  {
    DistinctTail(keys);
    if keys[0] == k {
      AmountsUnchanged(keys[1..], bal, k, v);
    } else {
      SumAmountsUpdate(keys[1..], bal, k, v);
    }
  }

  lemma {:induction false} AmountsUnchanged<K>(keys: seq<K>, bal: map<K, real>, k: K, v: real)
    requires k !in keys
    requires forall j :: j in keys ==> j in bal
    ensures Amounts(keys, bal[k := v]) == Amounts(keys, bal)
  {
    if keys != [] {
      AmountsUnchanged(keys[1..], bal, k, v);
    }
  }

  /** Setting one key's amount changes the total by exactly the difference. */
  lemma TotalSetBal<K>(b: Book<K>, k: K, v: real)
    requires Valid(b) && k in b.bal
    ensures Valid(SetBal(b, k, v))
    ensures Total(SetBal(b, k, v)) == Total(b) - b.bal[k] + v
  {
    SumAmountsUpdate(b.keys, b.bal, k, v);
  }

  /** Posting to `k` moves `Get` at `k` by the amount and nowhere else. */
  lemma GetPost<K>(b: Book<K>, k: K, a: real, j: K)
    ensures Get(Post(b, k, a), j) == Get(b, j) + (if j == k then a else 0.0)
  {
    if j != k {
      assert j in Post(b, k, a).bal <==> j in b.bal;
    }
  }

  /** Posting an amount to a key raises the total by exactly that amount. */
  lemma TotalPost<K>(b: Book<K>, k: K, a: real)
    requires Valid(b)
    ensures Total(Post(b, k, a)) == Total(b) + a
  {
    var r := Post(b, k, a);
    if k in b.bal {
      assert r == SetBal(b, k, b.bal[k] + a);
      TotalSetBal(b, k, b.bal[k] + a);
    } else {
      assert r == Book(b.keys + [k], b.bal[k := a]);
      SumAppendNew(b.keys, b.bal, k, a);
    }
  }

  /** `TotalPost` for a book whose total is already known; keeps the caller's context small. */
  lemma TotalPostFrom<K>(b: Book<K>, k: K, a: real, t: real)
    requires Valid(b) && Total(b) == t
    ensures Total(Post(b, k, a)) == t + a
  {
    TotalPost(b, k, a);
  }

  lemma SumAppendNew<K>(keys: seq<K>, bal: map<K, real>, k: K, a: real)
    requires k !in keys
    requires forall j :: j in keys ==> j in bal
    ensures Sum(Amounts(keys + [k], bal[k := a])) == Sum(Amounts(keys, bal)) + a
  {
    var m := bal[k := a];
    AmountsUnchanged(keys, bal, k, a);
    AmountsConcat(keys, [k], m);
    assert Amounts([k], m) == [a];
    SumConcat(Amounts(keys, m), [a]);
    SumSingle(a);
  }
}
