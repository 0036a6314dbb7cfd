/** The probability list of `calculate_H` and `analyze_text` in Lab_1.py,
    `[freq / total for freq in d.values()]` with `total = sum(d.values())`,
    over exact rationals instead of floating point. The entropy computed
    from it is not part of the model. */
module Probabilities {
  import opened FrequencyMaps

  datatype Option<T> = None | Some(value: T)

  /** `sum` over a list of counts. */
  function SumNat(xs: seq<nat>): (r: nat)
    ensures r == 0 <==> forall k :: 0 <= k < |xs| ==> xs[k] == 0
  {
    if xs == [] then 0
    else
      var init := xs[..|xs| - 1];
      assert forall k :: 0 <= k < |init| ==> init[k] == xs[k];
      SumNat(init) + xs[|xs| - 1]
  }

  /** `sum` over a list of probabilities. */
  function SumReal(xs: seq<real>): real {
    if xs == [] then 0.0 else SumReal(xs[..|xs| - 1]) + xs[|xs| - 1]
  }

  /** Divides every count by the sum of all counts. Python raises
      `ZeroDivisionError` (here `None`) only when some count is divided by a
      zero sum, that is, when the list is non-empty and all its counts are
      zero; an empty list gives an empty list. */
  function Probabilities(values: seq<nat>): (r: Option<seq<real>>)
    ensures r.None? <==> values != [] && SumNat(values) == 0
    ensures r.Some? ==> |r.value| == |values|
    ensures r.Some? ==> forall k :: 0 <= k < |values| ==>
      r.value[k] * (SumNat(values) as real) == values[k] as real
  {
    var total := SumNat(values);
    if values != [] && total == 0 then None
    else
      Some(seq(|values|, k requires 0 <= k < |values| =>
        values[k] as real / total as real))
  }

  // ---------------------------------------------------------------------
  // Lemmas

  /** A count never exceeds the sum of the counts. */
  lemma {:induction false} CountAtMostSum(xs: seq<nat>, k: nat)
    requires k < |xs|
    ensures xs[k] <= SumNat(xs)
  {
    var n := |xs| - 1;
    if k < n {
      CountAtMostSum(xs[..n], k);
    }
  }

  /** A list of positive counts (the values of a frequency dictionary) never
      makes the division fail. */
  lemma PositiveCountsNeverFail(values: seq<nat>)
    requires forall k :: 0 <= k < |values| ==> values[k] >= 1
    ensures Probabilities(values).Some?
  {
    if values != [] {
      CountAtMostSum(values, 0);
    }
  }

  /** Every probability lies between 0 and 1. */
  lemma ProbabilitiesInRange(values: seq<nat>)
    requires Probabilities(values).Some?
    ensures forall p :: p in Probabilities(values).value ==> 0.0 <= p <= 1.0
  {
    var ps := Probabilities(values).value;
    var total := SumNat(values) as real;
    forall k | 0 <= k < |ps| ensures 0.0 <= ps[k] <= 1.0 {
      CountAtMostSum(values, k);
      QuotientAtMostOne(values[k] as real, total);
    }
  }

  /** The sum of the first `n` quotients is the sum of the first `n` counts
      over the total. */
  lemma {:induction false} PrefixQuotientSum(values: seq<nat>, total: real, n: nat)
    requires total > 0.0 && n <= |values|
    ensures SumReal(seq(n, k requires 0 <= k < n => values[k] as real / total))
      == SumNat(values[..n]) as real / total
  {
    var qs := seq(n, k requires 0 <= k < n => values[k] as real / total);
    if n > 0 {
      var prev := seq(n - 1, k requires 0 <= k < n - 1 => values[k] as real / total);
      assert qs[..n - 1] == prev;
      PrefixQuotientSum(values, total, n - 1);
      var a, b := SumNat(values[..n - 1]) as real, values[n - 1] as real;
      assert values[..n][..n - 1] == values[..n - 1];
      assert SumNat(values[..n]) as real == a + b;
      assert SumReal(qs) == a / total + b / total;
      AddQuotients(a, b, total);
    }
  }

  lemma AddQuotients(a: real, b: real, t: real)
    requires t > 0.0
    ensures a / t + b / t == (a + b) / t
  {
  }

  /** When the counts do not all vanish, the probabilities add up to 1. */
  lemma ProbabilitiesSumToOne(values: seq<nat>)
    requires SumNat(values) > 0
    ensures Probabilities(values).Some?
    ensures SumReal(Probabilities(values).value) == 1.0
  {
    var total := SumNat(values) as real;
    var qs := seq(|values|, k requires 0 <= k < |values| => values[k] as real / total);
    assert Probabilities(values).value == qs;
    PrefixQuotientSum(values, total, |values|);
    assert values[..|values|] == values;
    DivSelf(total);
  }

  lemma DivSelf(b: real)
    requires b > 0.0
    ensures b / b == 1.0
  {
  }

  lemma QuotientAtMostOne(a: real, b: real)
    requires 0.0 <= a <= b && b > 0.0
    ensures 0.0 <= a / b <= 1.0
  {
  }

  // ---------------------------------------------------------------------
  // The values of a frequency dictionary

  /** The values of `m` listed in the order of the keys `ks`, as
      `m.values()` lists them in the dictionary's own key order. */
  function Values<K>(m: map<K, nat>, ks: seq<K>): (vs: seq<nat>)
    requires forall i :: 0 <= i < |ks| ==> ks[i] in m
    ensures |vs| == |ks|
  {
    seq(|ks|, i requires 0 <= i < |ks| => m[ks[i]])
  }

  /** `ks` lists every key of `m` exactly once. */
  predicate ListsKeys<K>(m: map<K, nat>, ks: seq<K>) {
    && (forall i, j :: 0 <= i < j < |ks| ==> ks[i] != ks[j])
    && (forall i :: 0 <= i < |ks| ==> ks[i] in m)
    && (forall k :: k in m ==> k in ks)
  }

  /** Summing the listed values gives the sum of the dictionary, whatever
      order the keys are listed in. */
  lemma {:induction false} SumOfValues<K>(m: map<K, nat>, ks: seq<K>)
    requires ListsKeys(m, ks)
    ensures SumNat(Values(m, ks)) == Total(m)
    decreases |ks|
  {
    if ks == [] {
      assert m.Keys == {};
    } else {
      var n := |ks| - 1;
      var rest := m - {ks[n]};
      ListsKeysInit(m, ks);
      SumOfValues(rest, ks[..n]);
      ValuesInit(m, ks);
      TotalRemove(m, ks[n]);
    }
  }

  /** The sum of the listed values splits off the last listed key, whose
      removal from the dictionary leaves the values of the other keys. */
  lemma ValuesInit<K>(m: map<K, nat>, ks: seq<K>)
    requires ListsKeys(m, ks) && ks != []
    ensures var n := |ks| - 1;
      SumNat(Values(m, ks)) == SumNat(Values(m - {ks[n]}, ks[..n])) + m[ks[n]]
  {
    var n := |ks| - 1;
    var vs := Values(m, ks);
    assert vs[..n] == Values(m - {ks[n]}, ks[..n]);
  }

  /** Dropping the last listed key from the list and from the dictionary
      keeps the listing exact. */
  lemma ListsKeysInit<K>(m: map<K, nat>, ks: seq<K>)
    requires ListsKeys(m, ks) && ks != []
    ensures ListsKeys(m - {ks[|ks| - 1]}, ks[..|ks| - 1])
  {
    var n := |ks| - 1;
    var rest, init := m - {ks[n]}, ks[..n];
    forall k | k in rest ensures k in init {
      var i :| 0 <= i < |ks| && ks[i] == k;
      assert init[i] == k;
    }
  }

  /** The probability list of a frequency dictionary of a non-empty input,
      its values listed in any order, adds up to 1; for an empty input it is
      empty and no division happens. */
  lemma FrequencyProbabilities<T>(xs: seq<T>, ks: seq<T>)
    requires ListsKeys(Tally(xs), ks)
    ensures xs == [] ==> Probabilities(Values(Tally(xs), ks)) == Some([])
    ensures xs != [] ==> Probabilities(Values(Tally(xs), ks)).Some?
    ensures xs != [] ==> SumReal(Probabilities(Values(Tally(xs), ks)).value) == 1.0
  {
    var vs := Values(Tally(xs), ks);
    SumOfValues(Tally(xs), ks);
    TallyTotal(xs);
    if xs == [] {
      TallyEmpty(xs);
    } else {
      ProbabilitiesSumToOne(vs);
    }
  }
}
