/** The counting and cardinality part of `analyze_text` and
    `analyze_text_without_spaces` in Lab_1.py: normalise the text, count its
    letters (`Counter`), its overlapping and its non-overlapping bigrams,
    and take the number of distinct letters and its square. The entropy
    and redundancy figures computed from these are not part of the model. */
module Analysis {
  import opened TextNormalization
  import opened FrequencyMaps
  import opened FrequencyCounting
  import Probabilities

  /** The integer results of `analyze_text`: the three dictionaries it
      returns, `N_letters` and `N_bigrams`. */
  datatype TextCounts = TextCounts(
    letterCount: map<char, nat>,
    bigramFrequencies: map<string, nat>,
    bigramFrequenciesNoOverlap: map<string, nat>,
    nLetters: nat,
    nBigrams: nat)

  /** The counts `analyze_text` computes at lines 38-52 from its
      preprocessed text `t`: the letter dictionary (`Counter`), both bigram
      dictionaries, the number of distinct characters and its square. */
  function CountsOf(t: string): (r: TextCounts)
    requires AllAccepted(t)
    ensures r.letterCount == Tally(t)
    ensures r.bigramFrequencies == Tally(Windows(t, 1))
    ensures r.bigramFrequenciesNoOverlap == Tally(Windows(t, 2))
    ensures r.nLetters == |set c | c in t|
    ensures forall c :: c in r.letterCount ==> IsAccepted(c)
    ensures r.nLetters == |r.letterCount| <= 34
    ensures r.nBigrams == r.nLetters * r.nLetters
  {
    var letterCount := Tally(t);
    assert && (forall c :: c in letterCount ==> IsAccepted(c))
           && |letterCount| <= 34
           && |letterCount| == |set c | c in t|
    by {
      AcceptedLettersBound(t);
      TallyKeys(t);
    }
    TextCounts(
      letterCount,
      Tally(Windows(t, 1)),
      Tally(Windows(t, 2)),
      |letterCount|,
      |letterCount| * |letterCount|)
  }

  /** `analyze_text` without its floating-point part: preprocess, then
      count. */
  function AnalyzeCounts(text: string): (r: TextCounts)
    ensures r.letterCount == Tally(Normalize(text))
    ensures r.bigramFrequencies == Tally(Windows(Normalize(text), 1))
    ensures r.bigramFrequenciesNoOverlap == Tally(Windows(Normalize(text), 2))
    ensures r.nLetters == |set c | c in Normalize(text)|
    ensures forall c :: c in r.letterCount ==> IsAccepted(c)
    ensures r.nLetters == |r.letterCount| <= 34
    ensures r.nBigrams == r.nLetters * r.nLetters
  {
    CollapseAccepted(Filter(text));
    CountsOf(Normalize(text))
  }

  /** The letter counts add up to the length of the normalised text, the
      overlapping bigram counts to one less (none for empty text), the
      non-overlapping ones to half of it; no letter is counted for empty
      text, and the bigram of two spaces never occurs. */
  lemma AnalyzeCountsTotals(text: string)
    ensures var t, r := Normalize(text), AnalyzeCounts(text);
      && Total(r.letterCount) == |t|
      && Total(r.bigramFrequencies) == (if |t| == 0 then 0 else |t| - 1)
      && Total(r.bigramFrequenciesNoOverlap) == |t| / 2
      && (r.nLetters == 0 <==> t == "")
      && "  " !in r.bigramFrequencies && "  " !in r.bigramFrequenciesNoOverlap
  {
    var t := Normalize(text);
    NormalizeShape(text);
    TallyTotal(t);
    BigramTotal(t, 1);
    BigramTotal(t, 2);
    NoDoubleSpaceBigram(t, 1);
    NoDoubleSpaceBigram(t, 2);
  }

  /** `analyze_text_without_spaces`: normalise, strip every space, then run
      `analyze_text`, whose own normalisation leaves the stripped text as it
      is; no space is counted and at most the 33 letters occur. */
  function AnalyzeWithoutSpaces(text: string): (r: TextCounts)
    ensures var stripped := RemoveSpaces(Normalize(text));
      && r.letterCount == Tally(stripped)
      && r.bigramFrequencies == Tally(Windows(stripped, 1))
      && r.bigramFrequenciesNoOverlap == Tally(Windows(stripped, 2))
    ensures r.nLetters == |set c | c in RemoveSpaces(Normalize(text))|
    ensures ' ' !in r.letterCount
    ensures r.nLetters <= 33
    ensures r.nBigrams == r.nLetters * r.nLetters
  {
    var stripped := RemoveSpaces(Normalize(text));
    NormalizeStrippedText(text);
    NormalizeShape(text);
    RemoveSpacesAccepted(Normalize(text));
    AcceptedLettersBound(stripped);
    TallyKeys(stripped);
    AnalyzeCounts(stripped)
  }

  /** `analyze_text` as a whole. `calculate_redundancy` divides by
      `log2(N_letters)`, so with fewer than two distinct characters the call
      raises at line 44 (`ValueError` from `log2(0)`, `ZeroDivisionError`
      from dividing by `log2(1)`) and returns nothing; otherwise it returns
      the counts, and `N_bigrams` is at least 4, so the bigram redundancies
      divide by a positive logarithm. */
  function AnalyzeText(text: string): (r: Probabilities.Option<TextCounts>)
    ensures r.None? <==> |set c | c in Normalize(text)| <= 1
    ensures r.Some? ==> r.value == AnalyzeCounts(text) && r.value.nBigrams >= 4
  {
    var counts := AnalyzeCounts(text);
    if counts.nLetters <= 1 then Probabilities.None
    else
      SquareAtLeastFour(counts.nLetters);
      Probabilities.Some(counts)
  }

  /** `analyze_text_without_spaces` as a whole: it raises exactly when the
      stripped text has fewer than two distinct letters. */
  function AnalyzeTextWithoutSpaces(text: string): (r: Probabilities.Option<TextCounts>)
    ensures r.None? <==> |set c | c in RemoveSpaces(Normalize(text))| <= 1
    ensures r.Some? ==> r.value == AnalyzeWithoutSpaces(text) && r.value.nBigrams >= 4
  {
    var counts := AnalyzeWithoutSpaces(text);
    if counts.nLetters <= 1 then Probabilities.None
    else
      SquareAtLeastFour(counts.nLetters);
      Probabilities.Some(counts)
  }

  // ---------------------------------------------------------------------
  // Lemmas

  lemma SquareAtLeastFour(n: nat)
    requires n >= 2
    ensures n * n >= 4
  {
  }

  /** A text without any lower-case Cyrillic letter normalises to "" or " ",
      so `analyze_text` raises on it. */
  lemma NoLetterRaises(text: string)
    requires forall i :: 0 <= i < |text| ==> text[i] == ' ' || !IsAccepted(text[i])
    ensures AnalyzeText(text).None?
  {
    var t := Normalize(text);
    NoLetterFilter(text);
    assert forall c :: c in t ==> c in Filter(text);
    SubsetSize(set c | c in t, {' '});
  }

  /** Filtering such a text keeps only its spaces. */
  lemma {:induction false} NoLetterFilter(text: string)
    requires forall i :: 0 <= i < |text| ==> text[i] == ' ' || !IsAccepted(text[i])
    ensures forall c :: c in Filter(text) ==> c == ' '
  {
    if text != [] {
      NoLetterFilter(text[1..]);
    }
  }

  lemma SubsetSize<T>(a: set<T>, b: set<T>)
    requires a <= b
    ensures |a| <= |b|
  {
    assert b == a + (b - a);
  }

  /** Text over the alphabet has at most 34 distinct characters, and at
      most 33 when it holds no space. */
  lemma AcceptedLettersBound(t: string)
    requires AllAccepted(t)
    ensures forall c :: c in Tally(t) ==> IsAccepted(c)
    ensures |Tally(t)| <= 34
    ensures ' ' !in t ==> |Tally(t)| <= 33
  {
    TallyKeys(t);
    var keys := set x | x in t;
    var accepted := set x | x in RussianAlphabet + " ";
    var letters := set x | x in RussianAlphabet;
    forall c | c in keys ensures c in accepted && (c != ' ' ==> c in letters) {
      AcceptedIsAlphabetMembership(c);
      assert c in RussianAlphabet + " ";
      assert c != ' ' ==> c in RussianAlphabet;
    }
    DistinctAtMostLength(RussianAlphabet + " ");
    SubsetSize(keys, accepted);
    if ' ' !in t {
      DistinctAtMostLength(RussianAlphabet);
      SubsetSize(keys, letters);
    }
  }

  /** Normalised text has no double space, so "  " is never a bigram. */
  lemma NoDoubleSpaceBigram(t: string, step: nat)
    requires step >= 1 && !HasDoubleSpace(t)
    ensures "  " !in Tally(Windows(t, step))
  {
    var ws := Windows(t, step);
    forall k | 0 <= k < |ws| ensures ws[k] != "  " {
      StartInRange(|t|, step, k);
      assert ws[k][0] == t[k * step] && ws[k][1] == t[k * step + 1];
    }
  }
}
