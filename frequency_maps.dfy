/** Frequency dictionaries: the value built by `collections.Counter` and by
    the hand-written counting loops of Lab_1.py, and the sum of its values
    (`sum(d.values())`). */
module FrequencyMaps {

  /** The frequency dictionary of a token sequence: one key per distinct
      token, mapped to its number of occurrences. */
  function Tally<T(==)>(xs: seq<T>): (m: map<T, nat>)
    ensures |m| <= |xs|
  {
    var m := map x | x in xs :: multiset(xs)[x];
    assert m.Keys == set x | x in xs;
    DistinctAtMostLength(xs);
    assert xs != [] ==> xs[0] in m;
    m
  }

  /** A sequence has at most as many distinct items as elements. */
  lemma {:induction false} DistinctAtMostLength<T>(xs: seq<T>)
    ensures |set x | x in xs| <= |xs|
  {
    if xs != [] {
      DistinctAtMostLength(xs[1..]);
      assert (set x | x in xs) == (set x | x in xs[1..]) + {xs[0]};
    }
  }

  /** `sum(m.values())`. */
  ghost function Total<K>(m: map<K, nat>): (r: nat)
    ensures forall k :: k in m ==> m[k] <= r
    decreases |m|
  {
    if |m| == 0 then 0
    else
      var k := Pick(m);
      assert (m - {k}).Keys == m.Keys - {k};
      assert forall j :: j in m && j != k ==> j in m - {k} && m[j] == (m - {k})[j];
      m[k] + Total(m - {k})
  }

  /** Some key of a non-empty dictionary. */
  ghost function Pick<K>(m: map<K, nat>): (k: K)
    requires |m| > 0
    ensures k in m
  {
    assert m.Keys != {};
    var k :| k in m; k
  }

  /** The sum does not depend on which key is taken out first. */
  lemma {:induction false} TotalRemove<K>(m: map<K, nat>, k: K)
    requires k in m
    ensures Total(m) == m[k] + Total(m - {k})
    decreases |m|
  {
    var j := Pick(m);
    assert (m - {j}).Keys == m.Keys - {j};
    assert Total(m) == m[j] + Total(m - {j});
    if j != k {
      var mj, mk := m - {j}, m - {k};
      assert (mk).Keys == m.Keys - {k};
      TotalRemove(mj, k);
      TotalRemove(mk, j);
      assert mj - {k} == mk - {j};
    }
  }

  /** Setting one entry changes the sum by the difference. */
  lemma TotalUpdate<K>(m: map<K, nat>, k: K, v: nat)
    ensures Total(m[k := v]) == Total(m - {k}) + v
  {
    TotalRemove(m[k := v], k);
    assert m[k := v] - {k} == m - {k};
  }

  /** Appending one token increments its entry, creating it with 1 when the
      token is new: the `if key in d: d[key] += 1 else: d[key] = 1` step. */
  lemma TallySnoc<T>(xs: seq<T>, x: T)
    ensures Tally(xs + [x]) ==
      Tally(xs)[x := if x in Tally(xs) then Tally(xs)[x] + 1 else 1]
  {
    var ys := xs + [x];
    assert multiset(ys) == multiset(xs) + multiset{x};
    assert forall y :: y in ys <==> y in xs || y == x;
  }

  /** The counting step at position `i`: the dictionary of the first
      `i + 1` items is that of the first `i` with `xs[i]` incremented. */
  lemma TallyStep<T>(xs: seq<T>, i: nat)
    requires i < |xs|
    ensures Tally(xs[..i + 1]) == Tally(xs[..i])[xs[i] :=
      if xs[i] in Tally(xs[..i]) then Tally(xs[..i])[xs[i]] + 1 else 1]
  {
    assert xs[..i + 1] == xs[..i] + [xs[i]];
    TallySnoc(xs[..i], xs[i]);
  }

  /** One increment step raises the sum by one. */
  lemma TotalIncrement<K>(m: map<K, nat>, k: K)
    ensures Total(m[k := if k in m then m[k] + 1 else 1]) == Total(m) + 1
  {
    TotalUpdate(m, k, if k in m then m[k] + 1 else 1);
    if k in m {
      TotalRemove(m, k);
    } else {
      assert m - {k} == m;
    }
  }

  /** The counts of a frequency dictionary add up to the number of tokens
      counted. */
  lemma {:induction false} TallyTotal<T>(xs: seq<T>)
    ensures Total(Tally(xs)) == |xs|
  {
    if xs == [] {
      assert Tally(xs) == map[];
    } else {
      var ys, x := xs[..|xs| - 1], xs[|xs| - 1];
      assert xs == ys + [x];
      var before := Tally(ys);
      var after := before[x := if x in before then before[x] + 1 else 1];
      TallyTotal(ys);
      TallySnoc(ys, x);
      TotalIncrement(before, x);
      calc {
        Total(Tally(xs));
        { assert Tally(xs) == after; }
        Total(after);
        Total(before) + 1;
      }
    }
  }

  /** Every key of a frequency dictionary is a token of the input and has a
      positive count; the number of keys is the number of distinct tokens. */
  lemma TallyKeys<T>(xs: seq<T>)
    ensures Tally(xs).Keys == set x | x in xs
    ensures forall x :: x in Tally(xs) ==> Tally(xs)[x] >= 1
    ensures |Tally(xs)| == |set x | x in xs|
  {
    assert Tally(xs).Keys == set x | x in xs;
  }

  /** Only the empty input has the empty dictionary. */
  lemma TallyEmpty<T>(xs: seq<T>)
    ensures Tally(xs) == map[] <==> xs == []
  {
    if xs != [] {
      assert xs[0] in Tally(xs);
    }
  }
}
