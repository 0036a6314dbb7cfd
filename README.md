# Text statistics of Lab_1.py, modelled in Dafny

`Lab_1.py` measures the entropy and redundancy of Russian text. It first
normalises the text to the 33 lower-case Cyrillic letters plus space with
runs of spaces collapsed (`preprocess_text`). Then it counts letters
(`Counter`, `count_character_frequencies`) and bigrams, either overlapping
(stride 1) or non-overlapping (stride 2) (`count_bigram_frequencies`,
`count_bigram_frequencies_step`). From these counts it takes the number of
distinct letters and its square, and turns each count into a probability.

This project models those discrete steps and proves what they compute:

- `text_normalization.dfy` (module `TextNormalization`): the filter, one
  `str.replace('  ', ' ')` pass, and the collapse loop of `preprocess_text`
  as a method. The method is proved equal to a reference definition,
  "filter, then shrink every maximal run of spaces to one space". The
  output never holds a double space, and normalising twice changes nothing.
- `frequency_maps.dfy` (module `FrequencyMaps`): the frequency dictionary
  of a sequence (`Tally`, the meaning of `Counter` and of the counting
  loops) and the sum of its values (`Total`, `sum(d.values())`).
- `frequency_counting.dfy` (module `FrequencyCounting`): the three
  counting loops as methods over `map` accumulators, each proved to build
  the `Tally` of its windows. It also proves the window count, the total
  of the counts, the shape of every key and the meaning of every value.
- `analysis.dfy` (module `Analysis`): the integer results of
  `analyze_text` and `analyze_text_without_spaces`, and when they raise:
  `calculate_redundancy` divides by `log2(N_letters)`, so both raise on
  every text whose normalised form has fewer than two distinct characters.
- `probabilities.dfy` (module `Probabilities`): the list
  `[freq / total for freq in values]` over exact rationals. It sums to 1
  whenever the total is positive, so in particular for the letter counts
  of any non-empty text, in whatever order the counts are listed.

## Upper-case letters are dropped, not lowered

`preprocess_text` calls `.lower()`, which suggests the text was meant to
be lower-cased. But the membership test at `Lab_1.py:14` runs first, so
an upper-case letter fails it and is dropped, and `.lower()` never changes
a surviving character: `"Привет   мир!!"` normalises to `"ривет мир"`. The
model follows the code: `TextNormalization.UpperCaseDropped` and
`TextNormalization.NormalizeDropsCapitalAndCollapses` state this
behaviour.

## Model

| member | source | states |
|---|---|---|
| TextNormalization.IsAccepted | lab1/nevmerzhytska_fb-23_cp1/Lab_1.py:14 | the membership test of the filter; no upper-case Cyrillic letter passes it |
| TextNormalization.AcceptedIsAlphabetMembership | lab1/nevmerzhytska_fb-23_cp1/Lab_1.py:5 | a character passes the filter exactly when it is one of the 33 alphabet letters or a space |
| TextNormalization.Filter | lab1/nevmerzhytska_fb-23_cp1/Lab_1.py:14 | the filtered text is no longer than the input and holds only alphabet letters and spaces |
| TextNormalization.FilterAppend | lab1/nevmerzhytska_fb-23_cp1/Lab_1.py:14 | the filter works character by character, so it distributes over concatenation |
| TextNormalization.FilterCounts | lab1/nevmerzhytska_fb-23_cp1/Lab_1.py:14 | every accepted character keeps its exact number of occurrences; every other character occurs zero times |
| TextNormalization.FilterKeepsAccepted | lab1/nevmerzhytska_fb-23_cp1/Lab_1.py:14 | text already over the alphabet passes the filter unchanged |
| TextNormalization.FilterDropsRejected | lab1/nevmerzhytska_fb-23_cp1/Lab_1.py:14 | text with no accepted character filters to the empty string |
| TextNormalization.UpperCaseDropped | lab1/nevmerzhytska_fb-23_cp1/Lab_1.py:14 | an upper-case Cyrillic letter fails the test and is dropped, not lowered |
| TextNormalization.HasDoubleSpace | lab1/nevmerzhytska_fb-23_cp1/Lab_1.py:15 | the loop condition `'  ' in cleaned` holds exactly when some two-character slice of the text is two spaces |
| TextNormalization.Pair | lab1/nevmerzhytska_fb-23_cp1/Lab_1.py:15 | a two-character slice holds the two characters at its start, and equals two spaces exactly when both are spaces |
| TextNormalization.ReplaceDoubleSpace | lab1/nevmerzhytska_fb-23_cp1/Lab_1.py:16 | one `replace` pass strictly shortens a string that holds a double space and leaves any other string unchanged; it keeps every non-space character in order and keeps whether the string starts with a space |
| TextNormalization.ReplacePreservesAccepted | lab1/nevmerzhytska_fb-23_cp1/Lab_1.py:16 | a `replace` pass introduces no character outside the alphabet |
| TextNormalization.ReplacePreservesCollapse | lab1/nevmerzhytska_fb-23_cp1/Lab_1.py:15-16 | a `replace` pass leaves the collapsed form unchanged, so the loop converges to it |
| TextNormalization.Collapse | lab1/nevmerzhytska_fb-23_cp1/Lab_1.py:15-17 | the meaning of the loop: every run of spaces shrinks to one space; the result is never longer, is empty only for empty input, and holds only characters of the input |
| TextNormalization.CollapseFixesSingleSpaced | lab1/nevmerzhytska_fb-23_cp1/Lab_1.py:15-17 | a string with no double space, where the loop stops, is its own collapsed form |
| TextNormalization.PreprocessText | lab1/nevmerzhytska_fb-23_cp1/Lab_1.py:13-17 | the loop terminates; its result equals filtering followed by collapsing every run of spaces, holds only alphabet letters and spaces, and never holds two adjacent spaces |
| TextNormalization.CollapseShape | lab1/nevmerzhytska_fb-23_cp1/Lab_1.py:15-17 | collapsing leaves no double space, keeps the non-space characters in order with their multiplicity, does not trim a leading or trailing space, and maps only the empty string to the empty string |
| TextNormalization.CollapseAppend | lab1/nevmerzhytska_fb-23_cp1/Lab_1.py:15-17 | runs of spaces separated by other text collapse independently |
| TextNormalization.CollapseRun | lab1/nevmerzhytska_fb-23_cp1/Lab_1.py:15-17 | a maximal run of any positive number of spaces becomes exactly one space |
| TextNormalization.CollapseIdempotent | lab1/nevmerzhytska_fb-23_cp1/Lab_1.py:15-17 | collapsing twice is the same as collapsing once |
| TextNormalization.CollapseAccepted | lab1/nevmerzhytska_fb-23_cp1/Lab_1.py:15-16 | collapsing introduces no character outside the alphabet |
| TextNormalization.Normalize | lab1/nevmerzhytska_fb-23_cp1/Lab_1.py:13-17 | what `preprocess_text` returns: only alphabet letters and spaces, never two adjacent spaces, and never longer than the input |
| TextNormalization.NormalizeShape | lab1/nevmerzhytska_fb-23_cp1/Lab_1.py:13-17 | the normalised text holds only alphabet letters and single spaces, keeps the filtered non-space characters, and keeps a leading or trailing space of the filtered text |
| TextNormalization.NormalizeIdempotent | lab1/nevmerzhytska_fb-23_cp1/Lab_1.py:13-17 | normalising already-normalised text changes nothing, so the second normalisation in `analyze_text` is harmless |
| TextNormalization.NormalizeDropsCapitalAndCollapses | lab1/nevmerzhytska_fb-23_cp1/Lab_1.py:13-17 | a capital letter, a word, a run of spaces, a word and trailing punctuation normalise to the two words joined by one space, with the capital gone |
| TextNormalization.RemoveSpaces | lab1/nevmerzhytska_fb-23_cp1/Lab_1.py:61 | `replace(' ', '')` leaves no space and never lengthens the text |
| TextNormalization.RemoveSpacesCounts | lab1/nevmerzhytska_fb-23_cp1/Lab_1.py:61 | removing spaces keeps every other character with its multiplicity |
| TextNormalization.RemoveSpacesAccepted | lab1/nevmerzhytska_fb-23_cp1/Lab_1.py:61 | removing spaces from alphabet text leaves alphabet text |
| TextNormalization.NormalizeStrippedText | lab1/nevmerzhytska_fb-23_cp1/Lab_1.py:60-62 | the space-free text handed to `analyze_text` comes out of its normalisation unchanged |
| FrequencyMaps.Tally | lab1/nevmerzhytska_fb-23_cp1/Lab_1.py:38 | the frequency dictionary computed by `Counter` and the counting loops has at most as many keys as the input has items |
| FrequencyMaps.TallySnoc | lab1/nevmerzhytska_fb-23_cp1/Lab_1.py:80-83 | one more token increments its count, or creates it with count 1, and leaves every other entry alone |
| FrequencyMaps.Total | lab1/nevmerzhytska_fb-23_cp1/Lab_1.py:39 | `sum(d.values())` is at least every single value |
| FrequencyMaps.TotalRemove | lab1/nevmerzhytska_fb-23_cp1/Lab_1.py:31 | the sum of the values does not depend on the order in which the keys are visited |
| FrequencyMaps.TallyTotal | lab1/nevmerzhytska_fb-23_cp1/Lab_1.py:77-84 | the counts of a frequency dictionary add up to the number of tokens counted |
| FrequencyMaps.TallyEmpty | lab1/nevmerzhytska_fb-23_cp1/Lab_1.py:77-84 | the dictionary is empty exactly when the input is empty |
| FrequencyMaps.TallyKeys | lab1/nevmerzhytska_fb-23_cp1/Lab_1.py:77-84 | the keys are exactly the distinct tokens, every count is at least 1, and the number of keys is the number of distinct tokens |
| FrequencyCounting.NumWindows | lab1/nevmerzhytska_fb-23_cp1/Lab_1.py:22 | `len(range(0, n - 1, step))` is 0 exactly when `n < 2`, and otherwise at most `n - 1` |
| FrequencyCounting.StartInRange | lab1/nevmerzhytska_fb-23_cp1/Lab_1.py:22 | the `k`-th start `k * step` of `range(0, n - 1, step)` exists exactly when a whole two-character window fits there |
| FrequencyCounting.WindowCounts | lab1/nevmerzhytska_fb-23_cp1/Lab_1.py:22 | stride 1 visits `n - 1` windows (none when `n` is 0) and stride 2 visits `n / 2` |
| FrequencyCounting.Windows | lab1/nevmerzhytska_fb-23_cp1/Lab_1.py:22-23 | there is one window per start of the range |
| FrequencyCounting.Window | lab1/nevmerzhytska_fb-23_cp1/Lab_1.py:23 | every window has exactly two characters |
| FrequencyCounting.Join | lab1/nevmerzhytska_fb-23_cp1/Lab_1.py:87 | `''.join(lst)` is as long as all the pieces together, begins with the first piece and is at least as long as every piece |
| FrequencyCounting.Slice | lab1/nevmerzhytska_fb-23_cp1/Lab_1.py:90 | Python's clipped slice `s[lo:hi]`: its length is `min(hi, len(s)) - lo`, or 0 when `lo` is past the end, and its characters are those of `s` from `lo` on |
| FrequencyCounting.StepWindows | lab1/nevmerzhytska_fb-23_cp1/Lab_1.py:89-90 | the list version visits one window per start of `range(0, len(lst) - 1, step)` |
| FrequencyCounting.CountCharacterFrequencies | lab1/nevmerzhytska_fb-23_cp1/Lab_1.py:77-84 | the loop builds the frequency dictionary of the list, whose counts add up to its length |
| FrequencyCounting.CountBigramFrequencies | lab1/nevmerzhytska_fb-23_cp1/Lab_1.py:19-28 | the loop builds the frequency dictionary of the windows `text[i:i + 2]` for `i` in `range(0, len(text) - 1, step)` |
| FrequencyCounting.CountBigramFrequenciesStep | lab1/nevmerzhytska_fb-23_cp1/Lab_1.py:86-95 | the loop builds the frequency dictionary of the windows of the joined list, with starts bounded by the list's length |
| FrequencyCounting.BigramTotal | lab1/nevmerzhytska_fb-23_cp1/Lab_1.py:22-27 | the bigram counts add up to the number of windows: `len - 1` for stride 1, `len / 2` for stride 2; the dictionary is empty exactly when the text is shorter than 2 |
| FrequencyCounting.BigramKeys | lab1/nevmerzhytska_fb-23_cp1/Lab_1.py:22-27 | a string is a key exactly when it is the slice at some start that is a multiple of the step with the window inside the text; every key has length 2 and a count of at least 1 |
| FrequencyCounting.CountIndices | lab1/nevmerzhytska_fb-23_cp1/Lab_1.py:24-27 | the number of occurrences of a token is the number of positions holding it |
| FrequencyCounting.BigramCount | lab1/nevmerzhytska_fb-23_cp1/Lab_1.py:22-27 | the count of a bigram is exactly the number of visited starts at which it occurs, and a bigram that is not a key occurs at no visited start |
| FrequencyCounting.JoinCharacters | lab1/nevmerzhytska_fb-23_cp1/Lab_1.py:87 | joining one-character strings gives a string of the same length holding those characters in order |
| FrequencyCounting.StepWindowsOfCharacters | lab1/nevmerzhytska_fb-23_cp1/Lab_1.py:86-95 | on a list of single characters, the list version sees the same windows, and so builds the same dictionary, as the string version on the joined string |
| Analysis.CountsOf | lab1/nevmerzhytska_fb-23_cp1/Lab_1.py:38-52 | from preprocessed text: the letter dictionary is the `Counter` of the text, the two bigram dictionaries are the tallies of its stride-1 and stride-2 windows, `N_letters` is the number of distinct characters (at most 34, all alphabet letters or a space) and `N_bigrams` its square |
| Analysis.AnalyzeCounts | lab1/nevmerzhytska_fb-23_cp1/Lab_1.py:35-52 | the same counts for the text as `preprocess_text` leaves it: the dictionaries are those of the normalised text and `N_letters` is its number of distinct characters |
| Analysis.AnalyzeCountsTotals | lab1/nevmerzhytska_fb-23_cp1/Lab_1.py:36-52 | the letter counts sum to the normalised length, the overlapping bigram counts to one less, the non-overlapping ones to half of it; these counts have `N_letters` 0 exactly for empty normalised text, though `analyze_text` then raises (see `Analysis.AnalyzeText`); two spaces are never a bigram |
| Analysis.AnalyzeWithoutSpaces | lab1/nevmerzhytska_fb-23_cp1/Lab_1.py:60-62 | the dictionaries are those of the normalised text with every space removed, no space is counted, at most 33 letters occur, and `N_bigrams` is the square of `N_letters` |
| Analysis.AnalyzeText | lab1/nevmerzhytska_fb-23_cp1/Lab_1.py:35-57 | `analyze_text` raises at line 44 exactly when the normalised text has fewer than two distinct characters (`log2(0)` or a division by `log2(1)`); otherwise it returns the counts of `AnalyzeCounts`, with `N_bigrams` at least 4 so the later divisions by `log2(N_bigrams)` are defined |
| Analysis.AnalyzeTextWithoutSpaces | lab1/nevmerzhytska_fb-23_cp1/Lab_1.py:60-62 | `analyze_text_without_spaces` raises exactly when the normalised text stripped of spaces has fewer than two distinct letters; otherwise it returns the counts of `AnalyzeWithoutSpaces` |
| Analysis.NoLetterRaises | lab1/nevmerzhytska_fb-23_cp1/Lab_1.py:35-44 | a text with no lower-case Cyrillic letter, such as Latin text, normalises to "" or " ", so `analyze_text` raises on it |
| Analysis.AcceptedLettersBound | lab1/nevmerzhytska_fb-23_cp1/Lab_1.py:43 | text over the alphabet has at most 34 distinct characters, and at most 33 without a space |
| Analysis.NoDoubleSpaceBigram | lab1/nevmerzhytska_fb-23_cp1/Lab_1.py:46-47 | in text with no double space, two spaces never form a counted bigram, with either stride |
| Probabilities.SumNat | lab1/nevmerzhytska_fb-23_cp1/Lab_1.py:31 | the sum of a list of counts is zero exactly when every count is zero |
| Probabilities.Probabilities | lab1/nevmerzhytska_fb-23_cp1/Lab_1.py:30-32 | the division fails exactly when some count is divided by a zero total; otherwise each probability times the total is its count |
| Probabilities.CountAtMostSum | lab1/nevmerzhytska_fb-23_cp1/Lab_1.py:31 | no count exceeds the sum of the counts |
| Probabilities.PositiveCountsNeverFail | lab1/nevmerzhytska_fb-23_cp1/Lab_1.py:31-32 | the counts of a frequency dictionary, all at least 1, never make the division fail |
| Probabilities.ProbabilitiesInRange | lab1/nevmerzhytska_fb-23_cp1/Lab_1.py:32 | every probability lies between 0 and 1 |
| Probabilities.ProbabilitiesSumToOne | lab1/nevmerzhytska_fb-23_cp1/Lab_1.py:39-40 | when the counts do not all vanish, the probabilities add up to exactly 1 |
| Probabilities.Values | lab1/nevmerzhytska_fb-23_cp1/Lab_1.py:32 | `d.values()` listed in the order of a key list: one value per listed key |
| Probabilities.SumOfValues | lab1/nevmerzhytska_fb-23_cp1/Lab_1.py:31 | summing the values of a dictionary, listed in any order of its keys, gives `sum(d.values())` |
| Probabilities.FrequencyProbabilities | lab1/nevmerzhytska_fb-23_cp1/Lab_1.py:39-40 | the letter probabilities of a non-empty text add up to 1 whatever order the counts are listed in; for empty text the list is empty and nothing is divided |

## Left out

- File reading and writing (`read_text_from_file`, `write_cleaned_text_to_file`, lines 65-74) and the module-level driver (lines 101-107): these are I/O with no logic of their own.
- The printed tables, their sorting by count and the console output (lines 109-141): presentation only.
- `calculate_entropy`, `calculate_redundancy`, `calculate_R` and the entropy and redundancy figures of `calculate_H` and `analyze_text` (lines 7-11, 33, 42-54, 97-99): they are floating-point `math.log2` arithmetic, which Dafny does not have. Whether line 44 raises is modelled: `analyze_text` raises there when `N_letters <= 1`, with `ValueError` from `log2(0)` or `ZeroDivisionError` from dividing by `log2(1)`, and `Analysis.AnalyzeText` and `Analysis.AnalyzeTextWithoutSpaces` return `None` exactly then. `Analysis.AnalyzeCounts` and `Analysis.AnalyzeWithoutSpaces` still give the counts of lines 38-47 for those texts, values the program never returns.
- `collections.Counter` (line 38) is a library call; it is modelled by the same frequency dictionary, `FrequencyMaps.Tally`, that specifies `count_character_frequencies`.
- Dictionary insertion order: a `map` has no order, so the order in which Python yields keys and values is not modelled.
- Probabilities.Probabilities: takes the dictionary's values as a list. `Probabilities.Values` lists them in any order of the keys, and `Probabilities.SumOfValues` shows the order does not change their sum; which order `dict.values()` actually uses is not modelled, and neither is rounding of the floating-point quotients.
- FrequencyCounting.CountBigramFrequencies: takes a string, the only kind of argument `analyze_text` passes; `''.join(text)` on a string is the string itself. The list argument is covered by `CountBigramFrequenciesStep`.
- FrequencyCounting.CountBigramFrequencies, FrequencyCounting.CountBigramFrequenciesStep: require `step >= 1`. Python raises `ValueError` for step 0. For a negative step, `range(0, len - 1, step)` yields only start 0, and only when the text (or list) is empty, so the result is `{"": 1}`. No caller passes either kind of step.
- `.lower()` at line 14 is not modelled: it is applied only to characters already in the lower-case alphabet or to a space, where it changes nothing.
