/** Normalisation of raw text to the 33-letter lower-case Cyrillic alphabet
    plus the space character, as done by `preprocess_text` in Lab_1.py, and
    the space stripping used for the "without spaces" statistics. */
module TextNormalization {

  /** The module-level alphabet string of Lab_1.py: 33 lower-case letters. */
  const RussianAlphabet: string := "абвгдеёжзийклмнопрстуфхцчшщъыьэюя"

  /** The upper-case counterparts of the alphabet letters. They are not in
      the accepted set: the filter tests a character before lowering it. */
  const UpperAlphabet: string := "АБВГДЕЁЖЗИЙКЛМНОПРСТУФХЦЧШЩЪЫЬЭЮЯ"

  /** `ch in russian_alphabet + ' '` for a single character `ch`, written
      over code points: the alphabet is U+0430..U+044F together with 'ё'
      (U+0451). AcceptedIsAlphabetMembership proves the two forms equal. */
  predicate IsAccepted(c: char)
    ensures IsAccepted(c) ==> c != 'Ё' && !('А' <= c <= 'Я')
  {
    c == ' ' || c == 'ё' || 'а' <= c <= 'я'
  }

  predicate AllAccepted(s: string) {
    forall i :: 0 <= i < |s| ==> IsAccepted(s[i])
  }

  /** The test `'  ' in cleaned`: two adjacent spaces somewhere in `s`,
      which is the substring test for `"  "`. */
  predicate HasDoubleSpace(s: string)
    ensures HasDoubleSpace(s) <==> exists i: nat :: i + 2 <= |s| && Pair(s, i) == "  "
  {
    assert forall i :: 0 <= i < |s| - 1 && s[i] == ' ' && s[i + 1] == ' ' ==> Pair(s, i) == "  ";
    exists i :: 0 <= i < |s| - 1 && s[i] == ' ' && s[i + 1] == ' '
  }

  /** The two characters `s[i:i + 2]`. */
  function Pair(s: string, i: nat): (p: string)
    requires i + 2 <= |s|
    ensures |p| == 2 && p[0] == s[i] && p[1] == s[i + 1]
    ensures p == "  " <==> s[i] == ' ' && s[i + 1] == ' '
  {
    assert s[i..i + 2] == [s[i], s[i + 1]];
    s[i..i + 2]
  }

  predicate StartsWithSpace(s: string) {
    |s| > 0 && s[0] == ' '
  }

  predicate EndsWithSpace(s: string) {
    |s| > 0 && s[|s| - 1] == ' '
  }

  /** A string of `k` spaces. */
  function Spaces(k: nat): (r: string)
    ensures |r| == k && forall i :: 0 <= i < k ==> r[i] == ' '
  {
    if k == 0 then "" else " " + Spaces(k - 1)
  }

  /** The list comprehension of `preprocess_text`: the characters of `text`
      that are alphabet letters or spaces, in their order. Lowering such a
      character leaves it unchanged, so `.lower()` is the identity here. */
  function Filter(text: string): (r: string)
    ensures |r| <= |text|
    ensures AllAccepted(r)
  {
    if text == [] then ""
    else
      (if IsAccepted(text[0]) then [text[0]] else "") + Filter(text[1..])
  }

  /** One call `s.replace('  ', ' ')`: non-overlapping occurrences of two
      spaces, found from left to right, each become one space. */
  function ReplaceDoubleSpace(s: string): (r: string)
    ensures |r| <= |s|
    ensures HasDoubleSpace(s) ==> |r| < |s|
    ensures !HasDoubleSpace(s) ==> r == s
    ensures StartsWithSpace(r) == StartsWithSpace(s)
    ensures RemoveSpaces(r) == RemoveSpaces(s)
  {
    if |s| >= 2 && s[0] == ' ' && s[1] == ' ' then
      assert s == "  " + s[2..];
      RemoveSpacesAppend("  ", s[2..]);
      RemoveSpacesAppend(" ", ReplaceDoubleSpace(s[2..]));
      " " + ReplaceDoubleSpace(s[2..])
    else if s == [] then ""
    else
      assert s == [s[0]] + s[1..];
      assert HasDoubleSpace(s) ==> HasDoubleSpace(s[1..]) by {
        if HasDoubleSpace(s) {
          var i :| 0 <= i < |s| - 1 && s[i] == ' ' && s[i + 1] == ' ';
          assert i > 0;
          assert s[1..][i - 1] == ' ' && s[1..][i] == ' ';
        }
      }
      assert !HasDoubleSpace(s[1..]) ==> !HasDoubleSpace(s) by {
        if HasDoubleSpace(s[1..]) {
          var i :| 0 <= i < |s[1..]| - 1 && s[1..][i] == ' ' && s[1..][i + 1] == ' ';
          assert s[i + 1] == ' ' && s[i + 2] == ' ';
        }
      }
      RemoveSpacesAppend([s[0]], s[1..]);
      RemoveSpacesAppend([s[0]], ReplaceDoubleSpace(s[1..]));
      [s[0]] + ReplaceDoubleSpace(s[1..])
  }

  /** `s.replace(' ', '')`: every space removed. */
  function RemoveSpaces(s: string): (r: string)
    ensures ' ' !in r
    ensures |r| <= |s|
  {
    if s == [] then ""
    else
      (if s[0] == ' ' then "" else [s[0]]) + RemoveSpaces(s[1..])
  }

  /** Reference meaning of the collapse loop: every maximal run of spaces
      in `s` becomes a single space; a space is dropped exactly when the
      next character is a space too. */
  function Collapse(s: string): (r: string)
    ensures |r| <= |s|
    ensures r == "" <==> s == ""
    ensures forall c :: c in r ==> c in s
  {
    if s == [] then ""
    else if |s| >= 2 && s[0] == ' ' && s[1] == ' ' then Collapse(s[1..])
    else [s[0]] + Collapse(s[1..])
  }

  /** The full specification of `preprocess_text`: only alphabet letters
      and single spaces remain. */
  function Normalize(text: string): (r: string)
    ensures AllAccepted(r) && !HasDoubleSpace(r)
    ensures |r| <= |text|
  {
    CollapseAccepted(Filter(text));
    CollapseNoDoubleSpace(Filter(text));
    Collapse(Filter(text))
  }

  /** `preprocess_text`: filter to the alphabet, then apply
      `replace('  ', ' ')` while a double space remains. */
  method PreprocessText(text: string) returns (cleaned: string)
    ensures cleaned == Normalize(text)
    ensures AllAccepted(cleaned) && !HasDoubleSpace(cleaned)
  {
    cleaned := Filter(text);
    while HasDoubleSpace(cleaned)
      invariant AllAccepted(cleaned)
      invariant Collapse(cleaned) == Normalize(text)
      decreases |cleaned|
    {
      ReplacePreservesCollapse(cleaned);
      ReplacePreservesAccepted(cleaned);
      cleaned := ReplaceDoubleSpace(cleaned);
    }
    CollapseFixesSingleSpaced(cleaned);
  }

  // ---------------------------------------------------------------------
  // Lemmas about the pieces

  lemma {:induction false} RemoveSpacesAppend(a: string, b: string)
    ensures RemoveSpaces(a + b) == RemoveSpaces(a) + RemoveSpaces(b)
  {
    if a != [] {
      assert (a + b)[1..] == a[1..] + b;
      RemoveSpacesAppend(a[1..], b);
    } else {
      assert a + b == b;
    }
  }

  /** The filter works character by character: it distributes over
      concatenation, so surviving characters keep their relative order. */
  lemma {:induction false} FilterAppend(a: string, b: string)
    ensures Filter(a + b) == Filter(a) + Filter(b)
  {
    if a != [] {
      assert (a + b)[1..] == a[1..] + b;
      FilterAppend(a[1..], b);
    } else {
      assert a + b == b;
    }
  }

  /** Each accepted character occurs in the filtered text exactly as often
      as in the input; every other character does not occur at all. */
  lemma {:induction false} FilterCounts(text: string)
    ensures forall c :: multiset(Filter(text))[c] == if IsAccepted(c) then multiset(text)[c] else 0
  {
    if text != [] {
      FilterCounts(text[1..]);
      assert text == [text[0]] + text[1..];
    }
  }

  /** Removing spaces keeps every other character with its multiplicity. */
  lemma {:induction false} RemoveSpacesCounts(s: string)
    ensures forall c :: multiset(RemoveSpaces(s))[c] == if c == ' ' then 0 else multiset(s)[c]
  {
    if s != [] {
      RemoveSpacesCounts(s[1..]);
      assert s == [s[0]] + s[1..];
    }
  }

  /** Text already over the alphabet passes the filter unchanged. */
  lemma {:induction false} FilterKeepsAccepted(s: string)
    requires AllAccepted(s)
    ensures Filter(s) == s
  {
    if s != [] {
      FilterKeepsAccepted(s[1..]);
    }
  }

  /** The code-point test is exactly membership in the alphabet string
      extended by a space. */
  lemma AcceptedIsAlphabetMembership(c: char)
    ensures IsAccepted(c) <==> c in RussianAlphabet + " "
  {
    assert forall i :: 0 <= i < |RussianAlphabet| ==>
      RussianAlphabet[i] == (if i < 6 then (0x430 + i) as char else if i == 6 then 'ё' else (0x42F + i) as char);
    if IsAccepted(c) {
      if c == ' ' {
        assert (RussianAlphabet + " ")[33] == c;
      } else if c == 'ё' {
        assert RussianAlphabet[6] == c;
      } else if c < 'ж' {
        assert RussianAlphabet[c as int - 0x430] == c;
      } else {
        assert RussianAlphabet[c as int - 0x42F] == c;
      }
    }
  }

  /** Upper-case Cyrillic letters are dropped, not lowered. */
  lemma UpperCaseDropped(c: char)
    requires c in UpperAlphabet
    ensures !IsAccepted(c)
    ensures Filter([c]) == ""
  {
    assert forall i :: 0 <= i < |UpperAlphabet| ==> ' ' < UpperAlphabet[i] < 'а';
  }

  lemma {:induction false} ReplacePreservesAccepted(s: string)
    requires AllAccepted(s)
    ensures AllAccepted(ReplaceDoubleSpace(s))
  {
    var r := ReplaceDoubleSpace(s);
    forall c | c in r ensures IsAccepted(c) {
      // every character of the result is a space or a non-space of `s`
      if c != ' ' {
        RemoveSpacesCounts(r);
        RemoveSpacesCounts(s);
        assert multiset(RemoveSpaces(r))[c] == multiset(r)[c] > 0;
        assert multiset(s)[c] > 0;
      } else {
        assert IsAccepted(' ');
      }
    }
  }

  /** Unfolding `Collapse` after a leading character. */
  lemma CollapseCons(c: char, x: string)
    ensures Collapse([c] + x) ==
      if c == ' ' && StartsWithSpace(x) then Collapse(x) else [c] + Collapse(x)
  {
    assert ([c] + x)[1..] == x;
  }

  /** One replacement pass does not change the collapsed form: this is why
      the loop of `preprocess_text` computes `Normalize`. */
  lemma {:induction false} ReplacePreservesCollapse(s: string)
    ensures Collapse(ReplaceDoubleSpace(s)) == Collapse(s)
  {
    if |s| >= 2 && s[0] == ' ' && s[1] == ' ' {
      var t := s[2..];
      ReplacePreservesCollapse(t);
      CollapseCons(' ', ReplaceDoubleSpace(t));
      assert s[1..] == [' '] + t;
      CollapseCons(' ', t);
    } else if s != [] {
      var t := s[1..];
      ReplacePreservesCollapse(t);
      assert s == [s[0]] + t;
      CollapseCons(s[0], ReplaceDoubleSpace(t));
      CollapseCons(s[0], t);
    }
  }

  /** A string with no double space is its own collapsed form. */
  lemma {:induction false} CollapseFixesSingleSpaced(s: string)
    requires !HasDoubleSpace(s)
    ensures Collapse(s) == s
  {
    if s != [] {
      CollapseFixesSingleSpaced(s[1..]);
      assert s == [s[0]] + s[1..];
      CollapseCons(s[0], s[1..]);
    }
  }

  /** Collapsing leaves no double space, keeps every non-space character in
      order and keeps a leading and a trailing space (nothing is trimmed). */
  lemma CollapseShape(s: string)
    ensures !HasDoubleSpace(Collapse(s))
    ensures RemoveSpaces(Collapse(s)) == RemoveSpaces(s)
    ensures StartsWithSpace(Collapse(s)) == StartsWithSpace(s)
    ensures EndsWithSpace(Collapse(s)) == EndsWithSpace(s)
    ensures Collapse(s) == "" <==> s == ""
  {
    CollapseNoDoubleSpace(s);
    CollapseKeepsNonSpaces(s);
    CollapseKeepsEnd(s);
  }

  lemma {:induction false} CollapseNoDoubleSpace(s: string)
    ensures !HasDoubleSpace(Collapse(s))
    ensures StartsWithSpace(Collapse(s)) == StartsWithSpace(s)
    ensures Collapse(s) == "" <==> s == ""
  {
    if s != [] {
      var t := s[1..];
      CollapseNoDoubleSpace(t);
      assert s == [s[0]] + t;
      CollapseCons(s[0], t);
      if !(s[0] == ' ' && StartsWithSpace(t)) {
        var r := [s[0]] + Collapse(t);
        forall i | 0 <= i < |r| - 1 ensures !(r[i] == ' ' && r[i + 1] == ' ') {
          if i > 0 {
            assert r[i] == Collapse(t)[i - 1] && r[i + 1] == Collapse(t)[i];
          }
        }
      }
    }
  }

  lemma {:induction false} CollapseKeepsNonSpaces(s: string)
    ensures RemoveSpaces(Collapse(s)) == RemoveSpaces(s)
  {
    if s != [] {
      var t := s[1..];
      CollapseKeepsNonSpaces(t);
      assert s == [s[0]] + t;
      CollapseCons(s[0], t);
      RemoveSpacesAppend([s[0]], t);
      RemoveSpacesAppend([s[0]], Collapse(t));
    }
  }

  lemma {:induction false} CollapseKeepsEnd(s: string)
    ensures EndsWithSpace(Collapse(s)) == EndsWithSpace(s)
  {
    if s != [] {
      var t := s[1..];
      CollapseKeepsEnd(t);
      CollapseNoDoubleSpace(t);
      assert s == [s[0]] + t;
      CollapseCons(s[0], t);
    }
  }

  /** Maximal runs collapse independently: where `a` does not end with a
      space, collapsing `a + b` collapses `a` and `b` separately. */
  lemma {:induction false} CollapseAppend(a: string, b: string)
    requires !EndsWithSpace(a)
    ensures Collapse(a + b) == Collapse(a) + Collapse(b)
  {
    if a != [] {
      var t := a[1..];
      assert a + b == [a[0]] + (t + b);
      assert a == [a[0]] + t;
      CollapseCons(a[0], t + b);
      CollapseCons(a[0], t);
      if t == [] {
        assert t + b == b;
        assert a[0] != ' ';
      } else {
        assert a[|a| - 1] == t[|t| - 1];
        CollapseAppend(t, b);
        assert StartsWithSpace(t + b) == StartsWithSpace(t);
      }
    } else {
      assert a + b == b;
    }
  }

  /** A run of `k >= 1` spaces in front of text that does not start with a
      space becomes exactly one space. */
  lemma {:induction false} CollapseRun(k: nat, b: string)
    requires k >= 1 && !StartsWithSpace(b)
    ensures Collapse(Spaces(k) + b) == " " + Collapse(b)
  {
    assert Spaces(k) + b == [' '] + (Spaces(k - 1) + b);
    CollapseCons(' ', Spaces(k - 1) + b);
    if k == 1 {
      assert Spaces(0) + b == b;
    } else {
      CollapseRun(k - 1, b);
    }
  }

  /** Collapsing twice is collapsing once. */
  lemma CollapseIdempotent(s: string)
    ensures Collapse(Collapse(s)) == Collapse(s)
  {
    CollapseShape(s);
    CollapseFixesSingleSpaced(Collapse(s));
  }

  // ---------------------------------------------------------------------
  // Properties of preprocess_text

  /** The output holds only alphabet letters and spaces, never two spaces
      in a row, and exactly the accepted non-space characters of the input,
      in order; a leading or trailing space of the filtered text stays. */
  lemma NormalizeShape(text: string)
    ensures AllAccepted(Normalize(text))
    ensures !HasDoubleSpace(Normalize(text))
    ensures RemoveSpaces(Normalize(text)) == RemoveSpaces(Filter(text))
    ensures StartsWithSpace(Normalize(text)) == StartsWithSpace(Filter(text))
    ensures EndsWithSpace(Normalize(text)) == EndsWithSpace(Filter(text))
  {
    CollapseShape(Filter(text));
    CollapseAccepted(Filter(text));
  }

  lemma {:induction false} CollapseAccepted(s: string)
    requires AllAccepted(s)
    ensures AllAccepted(Collapse(s))
  {
    if s != [] {
      CollapseAccepted(s[1..]);
      assert s == [s[0]] + s[1..];
      CollapseCons(s[0], s[1..]);
    }
  }

  /** `preprocess_text` is idempotent. */
  lemma NormalizeIdempotent(text: string)
    ensures Normalize(Normalize(text)) == Normalize(text)
  {
    NormalizeShape(text);
    FilterKeepsAccepted(Normalize(text));
    CollapseFixesSingleSpaced(Normalize(text));
  }

  /** The text built by `analyze_text_without_spaces` (normalised, then all
      spaces removed) passes the second normalisation in `analyze_text`
      unchanged. */
  lemma NormalizeStrippedText(text: string)
    ensures Normalize(RemoveSpaces(Normalize(text))) == RemoveSpaces(Normalize(text))
  {
    var s := RemoveSpaces(Normalize(text));
    NormalizeShape(text);
    RemoveSpacesAccepted(Normalize(text));
    FilterKeepsAccepted(s);
    assert forall i :: 0 <= i < |s| ==> s[i] != ' ';
    CollapseFixesSingleSpaced(s);
  }

  lemma {:induction false} RemoveSpacesAccepted(s: string)
    requires AllAccepted(s)
    ensures AllAccepted(RemoveSpaces(s))
  {
    if s != [] {
      RemoveSpacesAccepted(s[1..]);
    }
  }

  /** Text with no accepted character disappears entirely. */
  lemma {:induction false} FilterDropsRejected(p: string)
    requires forall i :: 0 <= i < |p| ==> !IsAccepted(p[i])
    ensures Filter(p) == ""
  {
    if p != [] {
      FilterDropsRejected(p[1..]);
    }
  }

  /** Text made of a capital letter, a word, a run of spaces, a word, then
      punctuation: the capital is dropped rather than lowered, so is the
      punctuation, and the run of spaces becomes one space. */
  lemma NormalizeDropsCapitalAndCollapses(text: string, u: char, w1: string, k: nat, w2: string, p: string)
    requires text == [u] + w1 + Spaces(k) + w2 + p
    requires u in UpperAlphabet
    requires AllAccepted(w1) && ' ' !in w1
    requires AllAccepted(w2) && ' ' !in w2
    requires k >= 1
    requires forall i :: 0 <= i < |p| ==> !IsAccepted(p[i])
    ensures Normalize(text) == w1 + " " + w2
  {
    var filtered := w1 + (Spaces(k) + w2);
    UpperCaseDropped(u);
    FilterExampleShape(u, w1, k, w2, p);
    assert text == [u] + (w1 + (Spaces(k) + (w2 + p)));
    assert Filter(text) == filtered;
    assert !EndsWithSpace(w1);
    CollapseAppend(w1, Spaces(k) + w2);
    CollapseRun(k, w2);
    assert forall i :: 0 <= i < |w1| ==> w1[i] != ' ';
    assert forall i :: 0 <= i < |w2| ==> w2[i] != ' ';
    CollapseFixesSingleSpaced(w1);
    CollapseFixesSingleSpaced(w2);
    assert Collapse(filtered) == w1 + (" " + w2);
    assert Normalize(text) == w1 + " " + w2;
  }

  lemma FilterExampleShape(u: char, w1: string, k: nat, w2: string, p: string)
    requires !IsAccepted(u)
    requires AllAccepted(w1) && AllAccepted(w2)
    requires forall i :: 0 <= i < |p| ==> !IsAccepted(p[i])
    ensures Filter([u] + (w1 + (Spaces(k) + (w2 + p)))) == w1 + (Spaces(k) + w2)
  {
    var tail := w2 + p;
    var mid := Spaces(k) + tail;
    var rest := w1 + mid;
    FilterAppend(w2, p);
    FilterKeepsAccepted(w2);
    FilterDropsRejected(p);
    assert Filter(tail) == w2;
    FilterAppend(Spaces(k), tail);
    FilterKeepsSpaces(k);
    assert Filter(mid) == Spaces(k) + w2;
    FilterAppend(w1, mid);
    FilterKeepsAccepted(w1);
    assert Filter(rest) == w1 + (Spaces(k) + w2);
    FilterDropsHead(u, rest);
  }

  lemma FilterDropsHead(u: char, rest: string)
    requires !IsAccepted(u)
    ensures Filter([u] + rest) == Filter(rest)
  {
    assert ([u] + rest)[1..] == rest;
  }

  lemma FilterKeepsSpaces(k: nat)
    ensures Filter(Spaces(k)) == Spaces(k)
  {
    assert IsAccepted(' ');
    FilterKeepsAccepted(Spaces(k));
  }
}
