/** The counting loops of Lab_1.py: `count_character_frequencies`,
    `count_bigram_frequencies` and `count_bigram_frequencies_step`. Each
    builds a dictionary by incrementing entries in place; here each is a
    method over a `map` accumulator, proved to build the frequency
    dictionary (`Tally`) of the tokens it scans. */
module FrequencyCounting {
  import opened FrequencyMaps

  // ---------------------------------------------------------------------
  // Window starts: `range(0, n - 1, step)`

  /** `len(range(0, n - 1, step))` for a positive step. */
  function NumWindows(n: nat, step: nat): (r: nat)
    requires step >= 1
    ensures r == 0 <==> n < 2
    ensures n >= 2 ==> r <= n - 1
  {
    if n < 2 then 0
    else
      DivAtMost(n - 2, step);
      (n - 2) / step + 1
  }

  lemma DivAtMost(a: nat, b: nat)
    requires b >= 1
    ensures a / b <= a
  {
    var q, r := a / b, a % b;
    assert a == q * b + r && r >= 0;
    MulMonotone(1, b, q);
  }

  /** The `k`-th element of `range(0, n - 1, step)` is `k * step`; it exists
      exactly when `k * step < n - 1`, that is when the two-character window
      starting there lies inside a string of length `n`. */
  lemma StartInRange(n: nat, step: nat, k: nat)
    requires step >= 1
    ensures k < NumWindows(n, step) <==> k * step + 2 <= n
  {
    if n >= 2 {
      var q, r := (n - 2) / step, (n - 2) % step;
      assert n - 2 == q * step + r && 0 <= r < step;
      if k <= q {
        MulMonotone(k, q, step);
      } else {
        MulMonotone(q + 1, k, step);
        assert (q + 1) * step == q * step + step;
      }
    }
  }

  lemma NextStart(k: nat, step: nat)
    ensures (k + 1) * step == k * step + step
  {
  }

  lemma MulMonotone(a: nat, b: nat, c: nat)
    requires a <= b
    ensures a * c <= b * c
  {
  }

  // ---------------------------------------------------------------------
  // The bigram windows

  /** The window `text[k * step : k * step + 2]`, which lies inside `text`. */
  function Window(text: string, step: nat, k: nat): (w: string)
    requires step >= 1 && k < NumWindows(|text|, step)
    ensures |w| == 2
  {
    StartInRange(|text|, step, k);
    text[k * step .. k * step + 2]
  }

  /** The bigrams `string[i:i + 2]` for `i in range(0, len(string) - 1, step)`,
      in scan order. */
  function Windows(text: string, step: nat): (ws: seq<string>)
    requires step >= 1
    ensures |ws| == NumWindows(|text|, step)
  {
    seq(NumWindows(|text|, step), k requires 0 <= k < NumWindows(|text|, step) => Window(text, step, k))
  }

  /** The sum of the lengths of the pieces. */
  function SumLengths(lst: seq<string>): nat {
    if lst == [] then 0 else |lst[|lst| - 1]| + SumLengths(lst[..|lst| - 1])
  }

  /** `''.join(lst)`. */
  function Join(lst: seq<string>): (r: string)
    ensures |r| == SumLengths(lst)
    ensures lst != [] ==> lst[0] <= r
    ensures forall k :: 0 <= k < |lst| ==> |lst[k]| <= |r|
  {
    if lst == [] then ""
    else
      SumLengthsHead(lst);
      lst[0] + Join(lst[1..])
  }

  /** The lengths can also be summed from the first piece. */
  lemma {:induction false} SumLengthsHead(lst: seq<string>)
    requires lst != []
    ensures SumLengths(lst) == |lst[0]| + SumLengths(lst[1..])
  {
    var n := |lst| - 1;
    if n > 0 {
      SumLengthsHead(lst[..n]);
      assert lst[..n][1..] == lst[1..][..n - 1];
    }
  }

  /** Python's slice `s[lo:hi]` for `lo <= hi`: bounds past the end are
      clipped to the length, so the slice may be shorter than `hi - lo`. */
  function Slice(s: string, lo: nat, hi: nat): (r: string)
    requires lo <= hi
    ensures |r| == if lo >= |s| then 0 else (if hi <= |s| then hi else |s|) - lo
    ensures forall i :: 0 <= i < |r| ==> r[i] == s[lo + i]
  {
    if lo >= |s| then "" else if hi >= |s| then s[lo..] else s[lo..hi]
  }

  /** The windows of `count_bigram_frequencies_step`: the starts come from
      `range(0, len(lst) - 1, step)`, the slices from `''.join(lst)`. */
  function StepWindows(lst: seq<string>, step: nat): (ws: seq<string>)
    requires step >= 1
    ensures |ws| == NumWindows(|lst|, step)
  {
    var s := Join(lst);
    seq(NumWindows(|lst|, step), k requires 0 <= k < NumWindows(|lst|, step) => Slice(s, k * step, k * step + 2))
  }

  // ---------------------------------------------------------------------
  // The counting loops

  /** `count_character_frequencies`: one pass over the list, incrementing
      the entry of each element. */
  method CountCharacterFrequencies<T(==)>(lst: seq<T>) returns (charFreq: map<T, nat>)
    ensures charFreq == Tally(lst)
    ensures Total(charFreq) == |lst|
  {
    charFreq := map[];
    assert lst[..0] == [];
    for i := 0 to |lst|
      invariant charFreq == Tally(lst[..i])
    {
      var c := lst[i];
      TallyStep(lst, i);
      ghost var counted := Tally(lst[..i]);
      if c in charFreq {
        charFreq := charFreq[c := charFreq[c] + 1];
      } else {
        charFreq := charFreq[c := 1];
      }
      assert charFreq == counted[c := if c in counted then counted[c] + 1 else 1];
    }
    assert lst[..|lst|] == lst;
    TallyTotal(lst);
  }

  /** `count_bigram_frequencies(text, step)` on a string (joining a string
      gives the string back). */
  method CountBigramFrequencies(text: string, step: nat) returns (bigramFrequencies: map<string, nat>)
    requires step >= 1
    ensures bigramFrequencies == Tally(Windows(text, step))
  {
    var s := text;
    ghost var ws := Windows(s, step);
    bigramFrequencies := map[];
    var i := 0;
    ghost var k := 0;
    while i < |s| - 1
      invariant i == k * step
      invariant k <= |ws|
      invariant bigramFrequencies == Tally(ws[..k])
      decreases |s| - i
    {
      StartInRange(|s|, step, k);
      var bigram := s[i..i + 2];
      WindowIsSlice(s, step, k);
      assert bigram == ws[k];
      TallyStep(ws, k);
      ghost var counted := Tally(ws[..k]);
      if bigram in bigramFrequencies {
        bigramFrequencies := bigramFrequencies[bigram := bigramFrequencies[bigram] + 1];
      } else {
        bigramFrequencies := bigramFrequencies[bigram := 1];
      }
      assert bigramFrequencies == counted[bigram := if bigram in counted then counted[bigram] + 1 else 1];
      NextStart(k, step);
      i := i + step;
      k := k + 1;
    }
    StartInRange(|s|, step, k);
    assert ws[..k] == ws;
  }

  /** `count_bigram_frequencies_step(lst, step)`: the loop bound is the
      length of the list, the slices are taken from the joined string. */
  method CountBigramFrequenciesStep(lst: seq<string>, step: nat) returns (bigrFreq: map<string, nat>)
    requires step >= 1
    ensures bigrFreq == Tally(StepWindows(lst, step))
  {
    var s := Join(lst);
    ghost var ws := StepWindows(lst, step);
    bigrFreq := map[];
    var i := 0;
    ghost var k := 0;
    while i < |lst| - 1
      invariant i == k * step
      invariant k <= |ws|
      invariant bigrFreq == Tally(ws[..k])
      decreases |lst| - i
    {
      StartInRange(|lst|, step, k);
      var bigr := Slice(s, i, i + 2);
      assert bigr == ws[k] by {
        assert ws[k] == Slice(s, k * step, k * step + 2);
      }
      TallyStep(ws, k);
      ghost var counted := Tally(ws[..k]);
      if bigr in bigrFreq {
        bigrFreq := bigrFreq[bigr := bigrFreq[bigr] + 1];
      } else {
        bigrFreq := bigrFreq[bigr := 1];
      }
      assert bigrFreq == counted[bigr := if bigr in counted then counted[bigr] + 1 else 1];
      NextStart(k, step);
      i := i + step;
      k := k + 1;
    }
    StartInRange(|lst|, step, k);
    assert ws[..k] == ws;
  }

  // ---------------------------------------------------------------------
  // What the bigram dictionaries contain

  /** `i` is a start the bigram loop visits in a string of length `n`. */
  predicate IsWindowStart(n: nat, step: nat, i: int)
    requires step >= 1
  {
    0 <= i && i + 2 <= n && i % step == 0
  }

  /** The starts `i` of the scan at which `text[i:i + 2]` is `w`. */
  function MatchingStarts(text: string, step: nat, w: string): set<nat>
    requires step >= 1
  {
    set i: nat | i + 2 <= |text| && IsWindowStart(|text|, step, i) && text[i..i + 2] == w
  }

  /** Overlapping scanning visits `n - 1` windows, non-overlapping scanning
      `n / 2`: the last character of an odd-length text starts no window. */
  lemma WindowCounts(n: nat)
    ensures NumWindows(n, 1) == if n == 0 then 0 else n - 1
    ensures NumWindows(n, 2) == n / 2
  {
  }

  /** The counts of a bigram dictionary add up to the number of windows
      scanned, and the dictionary is empty exactly when the text has fewer
      than two characters. */
  lemma BigramTotal(text: string, step: nat)
    requires step >= 1
    ensures Total(Tally(Windows(text, step))) == NumWindows(|text|, step)
    ensures step == 1 ==> Total(Tally(Windows(text, step))) == if |text| == 0 then 0 else |text| - 1
    ensures step == 2 ==> Total(Tally(Windows(text, step))) == |text| / 2
    ensures Tally(Windows(text, step)) == map[] <==> |text| < 2
  {
    TallyTotal(Windows(text, step));
    WindowCounts(|text|);
  }

  lemma MulMod(k: nat, step: nat)
    requires step >= 1
    ensures (k * step) % step == 0 && (k * step) / step == k
  {
    var q, r := (k * step) / step, (k * step) % step;
    assert k * step == q * step + r && 0 <= r < step;
    if q < k {
      MulMonotone(q + 1, k, step);
      NextStart(q, step);
    } else if q > k {
      MulMonotone(k + 1, q, step);
      NextStart(k, step);
    }
    assert q == k;
  }

  /** The keys of a bigram dictionary are exactly the two-character slices
      of the text taken at a start of the scan, each with a positive count. */
  lemma BigramKeys(text: string, step: nat, w: string)
    requires step >= 1
    ensures w in Tally(Windows(text, step)) <==>
      exists i :: IsWindowStart(|text|, step, i) && text[i..i + 2] == w
    ensures w in Tally(Windows(text, step)) ==> |w| == 2 && Tally(Windows(text, step))[w] >= 1
  {
    var ws := Windows(text, step);
    if w in ws {
      var k :| 0 <= k < |ws| && ws[k] == w;
      WindowIsSlice(text, step, k);
    }
    forall i | IsWindowStart(|text|, step, i) && text[i..i + 2] == w
      ensures w in Windows(text, step)
    {
      SliceIsWindow(text, step, i);
    }
  }

  /** The `k`-th scanned window is the slice at the start `k * step`. */
  lemma WindowIsSlice(text: string, step: nat, k: nat)
    requires step >= 1 && k < NumWindows(|text|, step)
    ensures IsWindowStart(|text|, step, k * step)
    ensures text[k * step..k * step + 2] == Windows(text, step)[k]
  {
    StartInRange(|text|, step, k);
    MulMod(k, step);
  }

  /** The slice at each start of the scan is one of the windows. */
  lemma SliceIsWindow(text: string, step: nat, i: int)
    requires step >= 1 && IsWindowStart(|text|, step, i)
    ensures text[i..i + 2] in Windows(text, step)
  {
    var k := i / step;
    assert i == k * step;
    StartInRange(|text|, step, k);
    assert Windows(text, step)[k] == text[i..i + 2];
  }

  /** The positions of `xs` that hold `x`. */
  function IndicesOf<T(==)>(xs: seq<T>, x: T): set<nat> {
    set k: nat | k < |xs| && xs[k] == x
  }

  /** The number of occurrences of `x` is the number of indices holding it. */
  lemma {:induction false} CountIndices<T>(xs: seq<T>, x: T)
    ensures multiset(xs)[x] == |IndicesOf(xs, x)|
  {
    if xs != [] {
      var ys := xs[..|xs| - 1];
      var last := xs[|xs| - 1];
      assert xs == ys + [last];
      CountIndices(ys, x);
      if last == x {
        assert IndicesOf(xs, x) == IndicesOf(ys, x) + {|ys|};
      } else {
        assert IndicesOf(xs, x) == IndicesOf(ys, x);
      }
    }
  }

  /** `ks` scaled by `step`. */
  function Scaled(ks: set<nat>, step: nat): set<nat> {
    set k | k in ks :: k * step
  }

  lemma MulInjective(j: nat, k: nat, step: nat)
    requires step >= 1 && j != k
    ensures j * step != k * step
  {
    if j < k {
      MulMonotone(j + 1, k, step);
      NextStart(j, step);
    } else {
      MulMonotone(k + 1, j, step);
      NextStart(k, step);
    }
  }

  /** Scaling by a positive step is injective, so it keeps set sizes. */
  lemma {:induction false} ScaledSize(ks: set<nat>, step: nat)
    requires step >= 1
    ensures |Scaled(ks, step)| == |ks|
    decreases |ks|
  {
    if ks != {} {
      var k :| k in ks;
      var rest := ks - {k};
      var scaledRest := Scaled(rest, step);
      ScaledSize(rest, step);
      forall i | i in Scaled(ks, step) ensures i in scaledRest + {k * step} {
        var j :| j in ks && i == j * step;
        if j != k {
          assert j in rest;
        }
      }
      forall i | i in scaledRest ensures i in Scaled(ks, step) && i != k * step {
        var j :| j in rest && i == j * step;
        MulInjective(j, k, step);
      }
      assert Scaled(ks, step) == scaledRest + {k * step};
    } else {
      assert Scaled(ks, step) == {};
    }
  }

  /** The matching starts are the scaled indices of the matching windows. */
  lemma MatchingStartsScaled(text: string, step: nat, w: string)
    requires step >= 1
    ensures MatchingStarts(text, step, w) == Scaled(IndicesOf(Windows(text, step), w), step)
  {
    var ws := Windows(text, step);
    var ks := IndicesOf(ws, w);
    forall i | i in MatchingStarts(text, step, w) ensures i in Scaled(ks, step) {
      var k := i / step;
      assert i == k * step;
      StartInRange(|text|, step, k);
      assert ws[k] == w;
      assert k in ks;
    }
    forall i | i in Scaled(ks, step) ensures i in MatchingStarts(text, step, w) {
      var k :| k in ks && i == k * step;
      StartInRange(|text|, step, k);
      MulMod(k, step);
    }
  }

  /** The count of a bigram is exactly the number of scan starts at which it
      occurs; a bigram that is not a key occurs at no start. */
  lemma BigramCount(text: string, step: nat, w: string)
    requires step >= 1
    ensures w in Tally(Windows(text, step)) ==> Tally(Windows(text, step))[w] == |MatchingStarts(text, step, w)|
    ensures w !in Tally(Windows(text, step)) ==> MatchingStarts(text, step, w) == {}
  {
    var ws := Windows(text, step);
    CountIndices(ws, w);
    MatchingStartsScaled(text, step, w);
    ScaledSize(IndicesOf(ws, w), step);
  }

  // ---------------------------------------------------------------------
  // The list version against the string version

  /** Joining one-character strings gives a string of the same length whose
      characters are theirs. */
  lemma {:induction false} JoinCharacters(lst: seq<string>)
    requires forall k :: 0 <= k < |lst| ==> |lst[k]| == 1
    ensures |Join(lst)| == |lst|
    ensures forall k :: 0 <= k < |lst| ==> Join(lst)[k] == lst[k][0]
  {
    if lst != [] {
      JoinCharacters(lst[1..]);
    }
  }

  /** On a list of single characters, `count_bigram_frequencies_step(lst,
      step)` scans exactly the windows of `count_bigram_frequencies(
      ''.join(lst), step)`, so the two dictionaries are equal. */
  lemma StepWindowsOfCharacters(lst: seq<string>, step: nat)
    requires step >= 1
    requires forall k :: 0 <= k < |lst| ==> |lst[k]| == 1
    ensures StepWindows(lst, step) == Windows(Join(lst), step)
    ensures Tally(StepWindows(lst, step)) == Tally(Windows(Join(lst), step))
  {
    var s := Join(lst);
    assert |s| == |lst| by {
      JoinCharacters(lst);
    }
    var sw, ws := StepWindows(lst, step), Windows(s, step);
    forall k | 0 <= k < |sw| ensures sw[k] == ws[k] {
      StepWindowIsWindow(s, |lst|, step, k);
    }
    assert sw == ws;
  }

  /** Where the list and its join have the same length, the `k`-th clipped
      slice is the `k`-th window. */
  lemma StepWindowIsWindow(s: string, n: nat, step: nat, k: nat)
    requires step >= 1 && n == |s| && k < NumWindows(n, step)
    ensures Slice(s, k * step, k * step + 2) == Window(s, step, k)
  {
    StartInRange(n, step, k);
  }
}
