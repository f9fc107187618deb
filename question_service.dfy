/** `question_service.py`: multiple-choice questions generated from the text
    of a PDF. The text is cut into sentences; for each sentence a known
    concept (or, failing that, a keyword) becomes the answer and other words
    of the text become the distractors. */
module QuestionService {
  import opened Common
  import opened Text

  // ---------------------------------------------------------------------
  // Sentences

  /** The characters `re.split(r'[\.!?\n]+', ...)` cuts at. */
  predicate IsSeparator(c: char) {
    c == '.' || c == '!' || c == '?' || c == '\n'
  }

  predicate NoSeparator(s: string) {
    forall i :: 0 <= i < |s| ==> !IsSeparator(s[i])
  }

  /** One more character after the pieces so far: a separator starts a new
      piece, any other character extends the last one. */
  function AddToPieces(ps: seq<string>, c: char): (r: seq<string>)
    requires |ps| >= 1
    ensures |r| >= 1
  {
    if IsSeparator(c) then ps + [""]
    else ps[..|ps| - 1] + [ps[|ps| - 1] + [c]]
  }

  /** The text cut at every separator character. A run of separators gives
      empty pieces between its characters where the regular expression gives
      none; the length filter of `SplitSentences` drops those, so the
      sentences are the same. */
  function Pieces(s: string): (ps: seq<string>)
    ensures |ps| >= 1
  {
    if s == [] then [""] else AddToPieces(Pieces(s[..|s| - 1]), s[|s| - 1])
  }

  /** No piece holds a separator. */
  lemma {:induction false} PiecesHaveNoSeparator(s: string)
    ensures forall k :: 0 <= k < |Pieces(s)| ==> NoSeparator(Pieces(s)[k])
  {
    if s != [] {
      PiecesHaveNoSeparator(s[..|s| - 1]);
    }
  }

  lemma AddToPiecesAppend(pa: seq<string>, pb: seq<string>, c: char)
    requires |pb| >= 1
    ensures AddToPieces(pa + pb, c) == pa + AddToPieces(pb, c)
  {
    if !IsSeparator(c) {
      AppendButLast(pa, pb);
    }
  }

  /** A separator splits the text in two independent halves. */
  lemma {:induction false} PiecesAtSeparator(a: string, c: char, b: string)
    requires IsSeparator(c)
    ensures Pieces(a + [c] + b) == Pieces(a) + Pieces(b)
  {
    var s := a + [c] + b;
    if b == [] {
      assert s[..|s| - 1] == a;
    } else {
      var init := b[..|b| - 1];
      var x := b[|b| - 1];
      assert s[..|s| - 1] == a + [c] + init && s[|s| - 1] == x;
      calc {
        Pieces(s);
        AddToPieces(Pieces(a + [c] + init), x);
        { PiecesAtSeparator(a, c, init); }
        AddToPieces(Pieces(a) + Pieces(init), x);
        { AddToPiecesAppend(Pieces(a), Pieces(init), x); }
        Pieces(a) + AddToPieces(Pieces(init), x);
        Pieces(a) + Pieces(b);
      }
    }
  }

  /** Text without separators is one piece. */
  lemma {:induction false} PiecesOfPlainText(s: string)
    requires NoSeparator(s)
    ensures Pieces(s) == [s]
  {
    if s != [] {
      PiecesOfPlainText(s[..|s| - 1]);
      assert s[..|s| - 1] + [s[|s| - 1]] == s;
    }
  }

  /** A piece of text contains no separator, and neither does anything in it. */
  lemma NoSeparatorInside(s: string, r: string, a: int)
    requires NoSeparator(s) && OccursAt(s, r, a)
    ensures NoSeparator(r)
  {
    forall i | 0 <= i < |r| ensures !IsSeparator(r[i]) {
      assert r[i] == s[a + i];
    }
  }

  lemma StripKeepsNoSeparator(p: string)
    ensures NoSeparator(p) ==> NoSeparator(Strip(p))
  {
    var t := Strip(p);
    var a :| 0 <= a <= |p| - |t| && OccursAt(p, t, a);
    if NoSeparator(p) {
      NoSeparatorInside(p, t, a);
    }
  }

  /** What `_split_sentences` keeps: more than 20 characters, no separator,
      no surrounding white space. */
  predicate IsSentence(t: string) {
    |t| > 20 && NoSeparator(t) && !IsSpace(t[0]) && !IsSpace(t[|t| - 1])
  }

  /** The stripped pieces longer than 20 characters, in order. */
  function LongPieces(ps: seq<string>): (r: seq<string>)
    requires forall k :: 0 <= k < |ps| ==> NoSeparator(ps[k])
    ensures forall k :: 0 <= k < |r| ==> IsSentence(r[k])
  {
    if ps == [] then []
    else
      var p := ps[|ps| - 1];
      var t := Strip(p);
      StripKeepsNoSeparator(p);
      var init := ps[..|ps| - 1];
      assert forall k :: 0 <= k < |init| ==> init[k] == ps[k];
      LongPieces(init) + (if |t| > 20 then [t] else [])
  }

  /** `_split_sentences`. */
  function SplitSentences(text: string): (r: seq<string>)
    ensures forall k :: 0 <= k < |r| ==> IsSentence(r[k])
  {
    PiecesHaveNoSeparator(text);
    LongPieces(Pieces(text))
  }

  /** One long sentence without separators is kept whole, stripped. */
  lemma OneSentence(text: string)
    requires NoSeparator(text) && |Strip(text)| > 20
    ensures SplitSentences(text) == [Strip(text)]
  {
    PiecesOfPlainText(text);
    PiecesHaveNoSeparator(text);
    assert [text][..0] == [];
    assert LongPieces([text]) == LongPieces([]) + [Strip(text)];
  }

  // ---------------------------------------------------------------------
  // Words and keywords

  predicate AllLetters(s: string) {
    forall i :: 0 <= i < |s| ==> IsLetter(s[i])
  }

  predicate EndsInLetter(s: string) {
    s != [] && IsLetter(s[|s| - 1])
  }

  /** One more character after the letter runs so far: a letter extends the
      current run or starts a new one, anything else ends the run. */
  function AddToRuns(rs: seq<string>, inRun: bool, c: char): (r: seq<string>)
    requires inRun ==> |rs| >= 1
    ensures IsLetter(c) ==> |r| >= 1
  {
    if !IsLetter(c) then rs
    else if inRun then rs[..|rs| - 1] + [rs[|rs| - 1] + [c]]
    else rs + [[c]]
  }

  /** The maximal runs of ASCII letters, left to right. */
  function Runs(s: string): (rs: seq<string>)
    ensures EndsInLetter(s) ==> |rs| >= 1
  {
    if s == [] then []
    else AddToRuns(Runs(s[..|s| - 1]), EndsInLetter(s[..|s| - 1]), s[|s| - 1])
  }

  predicate LetterRuns(rs: seq<string>) {
    forall k :: 0 <= k < |rs| ==> |rs[k]| >= 1 && AllLetters(rs[k])
  }

  /** One more character keeps every run a non-empty run of letters. */
  lemma AddToRunsLetters(rs: seq<string>, inRun: bool, c: char)
    requires inRun ==> |rs| >= 1
    requires LetterRuns(rs)
    ensures LetterRuns(AddToRuns(rs, inRun, c))
  {
    if IsLetter(c) && inRun {
      var n := |rs|;
      var r := AddToRuns(rs, inRun, c);
      assert forall k :: 0 <= k < n - 1 ==> r[k] == rs[k];
      assert r[n - 1] == rs[n - 1] + [c];
    } else if IsLetter(c) {
      var r := AddToRuns(rs, inRun, c);
      assert forall k :: 0 <= k < |rs| ==> r[k] == rs[k];
    }
  }

  lemma {:induction false} RunsAreLetters(s: string)
    ensures LetterRuns(Runs(s))
  {
    if s != [] {
      RunsAreLetters(s[..|s| - 1]);
      AddToRunsLetters(Runs(s[..|s| - 1]), EndsInLetter(s[..|s| - 1]), s[|s| - 1]);
    }
  }

  lemma AddToRunsAppend(ra: seq<string>, rb: seq<string>, inRun: bool, c: char)
    requires inRun ==> |rb| >= 1
    ensures AddToRuns(ra + rb, inRun, c) == ra + AddToRuns(rb, inRun, c)
  {
    if IsLetter(c) && inRun {
      AppendButLast(ra, rb);
    }
  }

  /** A non-letter between two texts separates their runs. */
  lemma {:induction false} RunsAtNonLetter(a: string, c: char, b: string)
    requires !IsLetter(c)
    ensures Runs(a + [c] + b) == Runs(a) + Runs(b)
  {
    var s := a + [c] + b;
    if b == [] {
      assert s[..|s| - 1] == a;
    } else {
      var init := b[..|b| - 1];
      var x := b[|b| - 1];
      assert s[..|s| - 1] == a + [c] + init && s[|s| - 1] == x;
      assert EndsInLetter(a + [c] + init) == EndsInLetter(init);
      calc {
        Runs(s);
        AddToRuns(Runs(a + [c] + init), EndsInLetter(init), x);
        { RunsAtNonLetter(a, c, init); }
        AddToRuns(Runs(a) + Runs(init), EndsInLetter(init), x);
        { AddToRunsAppend(Runs(a), Runs(init), EndsInLetter(init), x); }
        Runs(a) + AddToRuns(Runs(init), EndsInLetter(init), x);
        Runs(a) + Runs(b);
      }
    }
  }

  /** The runs of at least four letters. */
  function LongRuns(rs: seq<string>): (r: seq<string>)
    ensures forall k :: 0 <= k < |r| ==> r[k] in rs && |r[k]| >= 4
  {
    if rs == [] then []
    else LongRuns(rs[..|rs| - 1]) + (if |rs[|rs| - 1]| >= 4 then [rs[|rs| - 1]] else [])
  }

  lemma {:induction false} LongRunsAppend(a: seq<string>, b: seq<string>)
    ensures LongRuns(a + b) == LongRuns(a) + LongRuns(b)
  {
    if b == [] {
      assert a + b == a;
    } else {
      LongRunsAppend(a, b[..|b| - 1]);
      assert (a + b)[..|a + b| - 1] == a + b[..|b| - 1];
    }
  }

  /** `re.findall(r'[A-Za-z]{4,}', s)`: the greedy matcher takes each run of
      letters whole, and keeps it when it is at least four letters long. */
  function Words(s: string): (ws: seq<string>)
    ensures forall k :: 0 <= k < |ws| ==> |ws[k]| >= 4 && AllLetters(ws[k])
  {
    RunsAreLetters(s);
    LongRuns(Runs(s))
  }

  /** ... so the words of the two sides are found independently. */
  lemma WordsAtNonLetter(a: string, c: char, b: string)
    requires !IsLetter(c)
    ensures Words(a + [c] + b) == Words(a) + Words(b)
  {
    RunsAtNonLetter(a, c, b);
    LongRunsAppend(Runs(a), Runs(b));
  }

  /** The first occurrence of each value, in order of first occurrence. */
  function Dedup<T(==,!new)>(s: seq<T>): (r: seq<T>)
    ensures Distinct(r) && |r| <= |s|
    ensures forall x :: x in r <==> x in s
  {
    if s == [] then []
    else
      var r := Dedup(s[..|s| - 1]);
      var x := s[|s| - 1];
      assert forall y :: y in s <==> y in s[..|s| - 1] || y == x;
      if x in r then r else r + [x]
  }

  /** Deduplicating a prefix gives a prefix of the deduplicated whole: each
      value stands where it first occurred. */
  lemma {:induction false} DedupPrefix<T(!new)>(s: seq<T>, i: nat)
    requires i <= |s|
    ensures Dedup(s[..i]) <= Dedup(s)
  {
    if i < |s| {
      DedupPrefix(s[..|s| - 1], i);
      assert s[..|s| - 1][..i] == s[..i];
    } else {
      assert s[..i] == s;
    }
  }

  function LowerAll(ws: seq<string>): (r: seq<string>)
    ensures |r| == |ws| && forall k :: 0 <= k < |ws| ==> r[k] == Lower(ws[k])
  {
    seq(|ws|, k requires 0 <= k < |ws| => Lower(ws[k]))
  }

  /** What `_keywords` returns: the first five distinct lower-cased words. */
  function KeywordsOf(sentence: string): seq<string> {
    Take(Dedup(LowerAll(Words(sentence))), 5)
  }

  lemma LowerKeepsLetters(w: string)
    requires AllLetters(w)
    ensures AllLetters(Lower(w)) && IsLowerCase(Lower(w)) && |Lower(w)| == |w|
  {
  }

  /** `_keywords(sentence)`. */
  method Keywords(sentence: string) returns (keys: seq<string>)
    ensures keys == KeywordsOf(sentence)
    ensures |keys| <= 5 && Distinct(keys)
    ensures forall k :: 0 <= k < |keys| ==> |keys[k]| >= 4 && AllLetters(keys[k]) && IsLowerCase(keys[k])
  {
    var words := Words(sentence);
    var uniq := DedupLower(words);
    keys := Take(uniq, 5);
    KeywordsShape(sentence);
  }

  /** The loop of `_keywords`: lower-case each word and keep it when it was
      not seen before. */
  method DedupLower(words: seq<string>) returns (uniq: seq<string>)
    ensures uniq == Dedup(LowerAll(words))
  {
    uniq := [];
    var i := 0;
    while i < |words|
      invariant 0 <= i <= |words|
      invariant uniq == Dedup(LowerAll(words)[..i])
    {
      assert LowerAll(words)[..i + 1][..i] == LowerAll(words)[..i];
      var w := Lower(words[i]);
      if w !in uniq {
        uniq := uniq + [w];
      }
      i := i + 1;
    }
    assert LowerAll(words)[..i] == LowerAll(words);
  }

  /** At most five keywords, all different, each a lower-case word of four
      or more letters. */
  lemma KeywordsShape(sentence: string)
    ensures var keys := KeywordsOf(sentence);
            && |keys| <= 5 && Distinct(keys)
            && forall k :: 0 <= k < |keys| ==> |keys[k]| >= 4 && AllLetters(keys[k]) && IsLowerCase(keys[k])
  {
    var words := Words(sentence);
    var uniq := Dedup(LowerAll(words));
    var keys := Take(uniq, 5);
    forall k | 0 <= k < |keys| ensures |keys[k]| >= 4 && AllLetters(keys[k]) && IsLowerCase(keys[k]) {
      assert keys[k] in uniq;
      var j :| 0 <= j < |words| && LowerAll(words)[j] == keys[k];
      LowerKeepsLetters(words[j]);
    }
    forall p, q | 0 <= p < q < |keys| ensures keys[p] != keys[q] {
      assert keys[p] == uniq[p] && keys[q] == uniq[q];
    }
  }

  // ---------------------------------------------------------------------
  // Concepts

  /** The lower-cased forms of the kept concepts. */
  function LowerSet(r: seq<string>): set<string> {
    set y | y in r :: Lower(y)
  }

  /** The concept candidates kept by `_extract_concepts` before the cut at
      50: those of four or more characters whose lower-cased form was not
      seen before. */
  function UniqueConcepts(ms: seq<string>): (r: seq<string>)
    ensures |r| <= |ms|
    ensures forall k :: 0 <= k < |r| ==> |r[k]| >= 4 && r[k] in ms
    ensures forall p, q :: 0 <= p < q < |r| ==> !SameIgnoringCase(r[p], r[q])
  {
    if ms == [] then []
    else
      var r := UniqueConcepts(ms[..|ms| - 1]);
      var c := ms[|ms| - 1];
      if |c| >= 4 && Lower(c) !in LowerSet(r) then
        assert forall k :: 0 <= k < |r| ==> Lower(r[k]) in LowerSet(r);
        r + [c]
      else r
  }

  lemma LowerSetSnoc(r: seq<string>, c: string)
    ensures LowerSet(r + [c]) == LowerSet(r) + {Lower(c)}
  {
  }

  /** One more match: kept when it is long enough and new ignoring case. */
  lemma UniqueConceptsStep(ms: seq<string>, i: nat)
    requires i < |ms|
    ensures var r := UniqueConcepts(ms[..i]);
            var c := ms[i];
            UniqueConcepts(ms[..i + 1]) == if |c| >= 4 && Lower(c) !in LowerSet(r) then r + [c] else r
  {
    assert ms[..i + 1][..i] == ms[..i];
  }

  /** `_extract_concepts`, given the matches of its two regular expressions
      (concatenated). */
  method ExtractConcepts(matches: seq<string>) returns (unique: seq<string>)
    ensures unique == Take(UniqueConcepts(matches), 50)
    ensures |unique| <= 50
    ensures forall k :: 0 <= k < |unique| ==> |unique[k]| >= 4 && unique[k] in matches
    ensures forall p, q :: 0 <= p < q < |unique| ==> !SameIgnoringCase(unique[p], unique[q])
  {
    var seen: set<string> := {};
    unique := [];
    var i := 0;
    while i < |matches|
      invariant 0 <= i <= |matches|
      invariant unique == UniqueConcepts(matches[..i]) && seen == LowerSet(unique)
    {
      UniqueConceptsStep(matches, i);
      var c := matches[i];
      var lower := Lower(c);
      if lower !in seen && |c| >= 4 {
        LowerSetSnoc(unique, c);
        seen := seen + {lower};
        unique := unique + [c];
      }
      i := i + 1;
    }
    assert matches[..i] == matches;
    unique := Take(unique, 50);
    ConceptsShape(matches);
  }

  /** At most fifty concepts, each of four or more characters, taken from
      the matches, no two the same ignoring case. */
  lemma ConceptsShape(matches: seq<string>)
    ensures var unique := Take(UniqueConcepts(matches), 50);
            && |unique| <= 50
            && (forall k :: 0 <= k < |unique| ==> |unique[k]| >= 4 && unique[k] in matches)
            && forall p, q :: 0 <= p < q < |unique| ==> !SameIgnoringCase(unique[p], unique[q])
  {
    var all := UniqueConcepts(matches);
    var unique := Take(all, 50);
    forall k | 0 <= k < |unique| ensures |unique[k]| >= 4 && unique[k] in matches {
      assert unique[k] == all[k];
    }
    forall p, q | 0 <= p < q < |unique| ensures !SameIgnoringCase(unique[p], unique[q]) {
      assert unique[p] == all[p] && unique[q] == all[q];
    }
  }

  // ---------------------------------------------------------------------
  // One question

  /** The random draws a question makes: the keyword index for
      `random.choice`, and the selection orders for the two shuffles. */
  datatype Dice = Dice(pick: nat, distractorOrder: seq<nat>, optionOrder: seq<nat>)

  /** `random.shuffle`: repeatedly move the element the next draw selects to
      the front of the remainder. Every order can be drawn. */
  function Shuffle<T>(s: seq<T>, draws: seq<nat>): (r: seq<T>)
    ensures multiset(r) == multiset(s) && |r| == |s|
    decreases |s|
  {
    if s == [] || draws == [] then s
    else
      var i := draws[0] % |s|;
      assert s == s[..i] + [s[i]] + s[i + 1..];
      [s[i]] + Shuffle(s[..i] + s[i + 1..], draws[1..])
  }

  /** The first concept found (ignoring case) in the sentence. */
  function FirstConcept(concepts: seq<string>, sentenceLower: string): (r: Option<nat>)
    ensures r.Some? ==> r.value < |concepts| && Contains(sentenceLower, Lower(concepts[r.value]))
    ensures r.Some? ==> forall j :: 0 <= j < r.value ==> !Contains(sentenceLower, Lower(concepts[j]))
    ensures r.None? ==> forall j :: 0 <= j < |concepts| ==> !Contains(sentenceLower, Lower(concepts[j]))
  {
    if concepts == [] then None
    else if Contains(sentenceLower, Lower(concepts[0])) then Some(0)
    else match FirstConcept(concepts[1..], sentenceLower)
      case None => None
      case Some(k) => Some(k + 1)
  }

  /** The answer: the first concept in the sentence, or else a randomly
      chosen keyword; none when the sentence has neither. */
  function ChosenAnswer(sentence: string, concepts: seq<string>, pick: nat): (r: Option<string>)
    ensures r.Some? ==> r.value != ""
  {
    var found := FirstConcept(concepts, Lower(sentence));
    if found.Some? && concepts[found.value] != "" then Some(concepts[found.value])
    else
      var keys := KeywordsOf(sentence);
      if keys == [] then None
      else
        assert keys[pick % |keys|] in Dedup(LowerAll(Words(sentence)));
        Some(keys[pick % |keys|])
  }

  /** The distractor candidates: other words (ignoring case) of four or
      more characters, each once. */
  function DistractorPool(allWords: seq<string>, answer: string): (r: seq<string>)
    ensures Distinct(r)
    ensures forall w :: w in r <==> w in allWords && Lower(w) != Lower(answer) && |w| >= 4
  {
    Dedup(Candidates(allWords, answer))
  }

  function Candidates(allWords: seq<string>, answer: string): (r: seq<string>)
    ensures forall w :: w in r <==> w in allWords && Lower(w) != Lower(answer) && |w| >= 4
  {
    if allWords == [] then []
    else
      var w := allWords[0];
      (if Lower(w) != Lower(answer) && |w| >= 4 then [w] else []) + Candidates(allWords[1..], answer)
  }

  /** The position of the first occurrence (`list.index`). */
  function IndexOf<T(==)>(s: seq<T>, x: T): (i: nat)
    requires x in s
    ensures i < |s| && s[i] == x && forall j :: 0 <= j < i ==> s[j] != x
  {
    if s[0] == x then 0 else 1 + IndexOf(s[1..], x)
  }

  const QuestionPrefix: string := "According to the text: '"
  const QuestionSuffix: string := "', which term is most relevant?"

  /** The sentence cut to 150 characters, marked with "..." when it was longer. */
  function Excerpt(sentence: string): (r: string)
    ensures |sentence| <= 150 ==> r == sentence
    ensures |sentence| > 150 ==> r == sentence[..150] + "..."
  {
    sentence[..if |sentence| < 150 then |sentence| else 150] + (if |sentence| > 150 then "..." else "")
  }

  function QuestionText(sentence: string): string {
    QuestionPrefix + Excerpt(sentence) + QuestionSuffix
  }

  /** A generated question (`source: 'pdf'`). */
  datatype GeneratedQuestion = GeneratedQuestion(question: string, options: seq<string>, correctAnswer: nat, difficulty: string)

  /** Two to four different options, the correct one among them exactly once. */
  predicate WellFormed(q: GeneratedQuestion) {
    && 2 <= |q.options| <= 4
    && Distinct(q.options)
    && q.correctAnswer < |q.options|
    && multiset(q.options)[q.options[q.correctAnswer]] == 1
  }

  /** The options before the final shuffle: the answer, then up to three
      distractors. */
  function OptionsOf(answer: string, distractors: seq<string>): seq<string> {
    [answer] + Take(distractors, 3)
  }

  lemma OptionsDistinct(answer: string, distractors: seq<string>)
    requires Distinct(distractors) && forall w <- distractors :: Lower(w) != Lower(answer)
    ensures Distinct(OptionsOf(answer, distractors))
    ensures forall k :: 1 <= k < |OptionsOf(answer, distractors)| ==> !SameIgnoringCase(OptionsOf(answer, distractors)[k], answer)
  {
    var t := Take(distractors, 3);
    assert forall k :: 0 <= k < |t| ==> t[k] == distractors[k];
    assert forall k :: 0 <= k < |t| ==> t[k] in distractors;
  }

  /** The shuffled options: two to four different strings, the answer
      among them and no other equal to it ignoring case. */
  lemma ShuffledOptions(answer: string, distractors: seq<string>, order: seq<nat>)
    requires distractors != [] && Distinct(distractors)
    requires forall w <- distractors :: Lower(w) != Lower(answer)
    ensures var options := Shuffle(OptionsOf(answer, distractors), order);
            && 2 <= |options| <= 4 && Distinct(options) && answer in options
            && forall k :: 0 <= k < |options| && options[k] != answer ==> !SameIgnoringCase(options[k], answer)
  {
    var before := OptionsOf(answer, distractors);
    var options := Shuffle(before, order);
    OptionsDistinct(answer, distractors);
    DistinctPermutation(before, options);
    assert answer in multiset(options);
    forall k | 0 <= k < |options| && options[k] != answer ensures !SameIgnoringCase(options[k], answer) {
      assert options[k] in multiset(before);
      var j :| 0 <= j < |before| && before[j] == options[k];
      assert j != 0;
    }
  }

  /** The question built around a chosen answer: none when the text has
      no distractor for it. */
  function QuestionAbout(sentence: string, answer: string, allWords: seq<string>, dice: Dice): (q: Option<GeneratedQuestion>)
    ensures q.None? <==> DistractorPool(allWords, answer) == []
  {
    var distractors := Shuffle(DistractorPool(allWords, answer), dice.distractorOrder);
    if distractors == [] then None
    else
      var options := Shuffle(OptionsOf(answer, distractors), dice.optionOrder);
      DistractorsOk(allWords, answer, dice.distractorOrder);
      ShuffledOptions(answer, distractors, dice.optionOrder);
      Some(GeneratedQuestion(QuestionText(sentence), options, IndexOf(options, answer), "medium"))
  }

  /** The question about an answer is well formed, its correct option is
      that answer and no other option equals it ignoring case. */
  lemma QuestionAboutWellFormed(sentence: string, answer: string, allWords: seq<string>, dice: Dice)
    ensures var q := QuestionAbout(sentence, answer, allWords, dice);
            q.Some? ==>
              && WellFormed(q.value)
              && q.value.options[q.value.correctAnswer] == answer
              && (forall k :: 0 <= k < |q.value.options| && k != q.value.correctAnswer ==>
                    !SameIgnoringCase(q.value.options[k], answer))
              && q.value.question == QuestionText(sentence)
              && q.value.difficulty == "medium"
  {
    var q := QuestionAbout(sentence, answer, allWords, dice);
    if q.Some? {
      var distractors := Shuffle(DistractorPool(allWords, answer), dice.distractorOrder);
      DistractorsOk(allWords, answer, dice.distractorOrder);
      ShuffledOptions(answer, distractors, dice.optionOrder);
      var options := Shuffle(OptionsOf(answer, distractors), dice.optionOrder);
      OptionsMakeQuestion(QuestionText(sentence), options, answer);
    }
  }

  lemma OptionsMakeQuestion(text: string, options: seq<string>, answer: string)
    requires 2 <= |options| <= 4 && Distinct(options) && answer in options
    requires forall k :: 0 <= k < |options| && options[k] != answer ==> !SameIgnoringCase(options[k], answer)
    ensures var i := IndexOf(options, answer);
            && WellFormed(GeneratedQuestion(text, options, i, "medium"))
            && forall k :: 0 <= k < |options| && k != i ==> !SameIgnoringCase(options[k], answer)
  {
    var i := IndexOf(options, answer);
    DistinctCount(options, answer);
    forall k | 0 <= k < |options| && k != i ensures !SameIgnoringCase(options[k], answer) {
      assert options[k] != options[i];
    }
  }

  /** `_create_question_from_sentence` as a value: no question when the
      sentence yields no answer or the text no distractor. */
  function QuestionFor(sentence: string, concepts: seq<string>, allWords: seq<string>, dice: Dice): (q: Option<GeneratedQuestion>)
    ensures var answer := ChosenAnswer(sentence, concepts, dice.pick);
            q.None? <==> answer.None? || DistractorPool(allWords, answer.value) == []
  {
    match ChosenAnswer(sentence, concepts, dice.pick)
    case None => None
    case Some(answer) => QuestionAbout(sentence, answer, allWords, dice)
  }

  /** A generated question is well formed and its correct option is the
      chosen answer. */
  lemma QuestionForWellFormed(sentence: string, concepts: seq<string>, allWords: seq<string>, dice: Dice)
    ensures var q := QuestionFor(sentence, concepts, allWords, dice);
            q.Some? ==>
              && WellFormed(q.value)
              && Some(q.value.options[q.value.correctAnswer]) == ChosenAnswer(sentence, concepts, dice.pick)
              && q.value.difficulty == "medium"
  {
    var answer := ChosenAnswer(sentence, concepts, dice.pick);
    if answer.Some? {
      QuestionAboutWellFormed(sentence, answer.value, allWords, dice);
    }
  }

  /** The shuffled distractors are different from each other and from the
      answer, ignoring case. */
  lemma DistractorsOk(allWords: seq<string>, answer: string, draws: seq<nat>)
    ensures var d := Shuffle(DistractorPool(allWords, answer), draws);
            Distinct(d) && forall w <- d :: Lower(w) != Lower(answer)
  {
    var pool := DistractorPool(allWords, answer);
    var d := Shuffle(pool, draws);
    DistinctPermutation(pool, d);
    forall w | w in d ensures Lower(w) != Lower(answer) {
      assert w in multiset(pool);
    }
  }

  /** The concept loop of `_create_question_from_sentence`. */
  method FindConcept(concepts: seq<string>, sentenceLower: string) returns (found: Option<nat>)
    ensures found == FirstConcept(concepts, sentenceLower)
  {
    found := None;
    var i := 0;
    while i < |concepts|
      invariant 0 <= i <= |concepts|
      invariant forall j :: 0 <= j < i ==> !Contains(sentenceLower, Lower(concepts[j]))
    {
      if Contains(sentenceLower, Lower(concepts[i])) {
        found := Some(i);
        FirstConceptAt(concepts, sentenceLower, i);
        return;
      }
      i := i + 1;
    }
    FirstConceptNone(concepts, sentenceLower);
  }

  lemma FirstConceptAt(concepts: seq<string>, sentenceLower: string, i: nat)
    requires i < |concepts| && Contains(sentenceLower, Lower(concepts[i]))
    requires forall j :: 0 <= j < i ==> !Contains(sentenceLower, Lower(concepts[j]))
    ensures FirstConcept(concepts, sentenceLower) == Some(i)
  {
    var r := FirstConcept(concepts, sentenceLower);
    assert !(r.Some? && r.value < i);
  }

  lemma FirstConceptNone(concepts: seq<string>, sentenceLower: string)
    requires forall j :: 0 <= j < |concepts| ==> !Contains(sentenceLower, Lower(concepts[j]))
    ensures FirstConcept(concepts, sentenceLower) == None
  {
  }

  /** `_create_question_from_sentence`. */
  method CreateQuestionFromSentence(sentence: string, concepts: seq<string>, allWords: seq<string>, dice: Dice)
    returns (q: Option<GeneratedQuestion>)
    ensures q == QuestionFor(sentence, concepts, allWords, dice)
  {
    var found := FindConcept(concepts, Lower(sentence));
    var answer: string;
    if found.Some? && concepts[found.value] != "" {
      answer := concepts[found.value];
    } else {
      var keys := Keywords(sentence);
      if keys == [] {
        return None;
      }
      answer := keys[dice.pick % |keys|];
    }
    q := QuestionAbout(sentence, answer, allWords, dice);
  }

  // ---------------------------------------------------------------------
  // All questions

  /** The draws for the `i`-th sentence (no shuffling when none are left). */
  function DiceAt(dice: seq<Dice>, i: nat): Dice {
    if i < |dice| then dice[i] else Dice(0, [], [])
  }

  /** What each sentence yields, in sentence order: the question made from
      it with its draws, or none. */
  function Outcomes(sentences: seq<string>, concepts: seq<string>, allWords: seq<string>, dice: seq<Dice>)
    : (r: seq<Option<GeneratedQuestion>>)
    ensures |r| == |sentences|
  {
    seq(|sentences|, k requires 0 <= k < |sentences| => QuestionFor(sentences[k], concepts, allWords, DiceAt(dice, k)))
  }

  /** A well-formed question of medium difficulty, as the generator makes them. */
  predicate Usable(q: GeneratedQuestion) {
    WellFormed(q) && q.difficulty == "medium"
  }

  /** Every question a sentence yields is usable. */
  lemma OutcomesUsable(sentences: seq<string>, concepts: seq<string>, allWords: seq<string>, dice: seq<Dice>)
    ensures var r := Outcomes(sentences, concepts, allWords, dice);
            forall k :: 0 <= k < |r| && r[k].Some? ==> Usable(r[k].value)
  {
    forall k | 0 <= k < |sentences| {
      QuestionForWellFormed(sentences[k], concepts, allWords, DiceAt(dice, k));
    }
  }

  /** The questions of the first `n` outcomes, in order. */
  function Collected(outcomes: seq<Option<GeneratedQuestion>>, n: nat): (r: seq<GeneratedQuestion>)
    requires n <= |outcomes|
    ensures |r| <= n
  {
    if n == 0 then []
    else
      var before := Collected(outcomes, n - 1);
      match outcomes[n - 1]
      case None => before
      case Some(q) => before + [q]
  }

  /** Trying more sentences only adds questions at the end. */
  lemma {:induction false} CollectedPrefix(outcomes: seq<Option<GeneratedQuestion>>, j: nat, n: nat)
    requires j <= n <= |outcomes|
    ensures Collected(outcomes, j) <= Collected(outcomes, n)
  {
    if j < n {
      CollectedPrefix(outcomes, j, n - 1);
    }
  }

  /** Collecting usable outcomes gives usable questions. */
  lemma {:induction false} CollectedUsable(outcomes: seq<Option<GeneratedQuestion>>, n: nat)
    requires n <= |outcomes|
    requires forall k :: 0 <= k < |outcomes| && outcomes[k].Some? ==> Usable(outcomes[k].value)
    ensures forall q <- Collected(outcomes, n) :: Usable(q)
  {
    if n > 0 {
      CollectedUsable(outcomes, n - 1);
    }
  }

  /** The sentence loop goes on past its first `n` sentences: one is left,
      fewer than `maxQuestions` questions are collected, and one more try
      stays within three tries per question. */
  predicate Continues(outcomes: seq<Option<GeneratedQuestion>>, maxQuestions: int, n: nat)
    requires n <= |outcomes|
  {
    n < |outcomes| && |Collected(outcomes, n)| < maxQuestions && n + 1 <= 3 * maxQuestions
  }

  /** Where the sentence loop stops once it has tried `n` sentences. */
  function StopFrom(outcomes: seq<Option<GeneratedQuestion>>, maxQuestions: int, n: nat): (a: nat)
    requires n <= |outcomes|
    ensures n <= a <= |outcomes|
    decreases |outcomes| - n
  {
    if Continues(outcomes, maxQuestions, n) then StopFrom(outcomes, maxQuestions, n + 1) else n
  }

  /** The loop stops at a point where it cannot go on, and went on at every
      point before it. */
  lemma {:induction false} StopFromStops(outcomes: seq<Option<GeneratedQuestion>>, maxQuestions: int, n: nat)
    requires n <= |outcomes|
    ensures !Continues(outcomes, maxQuestions, StopFrom(outcomes, maxQuestions, n))
    ensures forall j :: n <= j < StopFrom(outcomes, maxQuestions, n) ==> Continues(outcomes, maxQuestions, j)
    decreases |outcomes| - n
  {
    if Continues(outcomes, maxQuestions, n) {
      StopFromStops(outcomes, maxQuestions, n + 1);
    }
  }

  /** Where the loop cannot go on, it stops. */
  lemma StopFromHere(outcomes: seq<Option<GeneratedQuestion>>, maxQuestions: int, n: nat)
    requires n <= |outcomes| && !Continues(outcomes, maxQuestions, n)
    ensures StopFrom(outcomes, maxQuestions, n) == n
  {
  }

  /** Where the loop goes on, it stops where it stops from the next point. */
  lemma StopFromNext(outcomes: seq<Option<GeneratedQuestion>>, maxQuestions: int, n: nat)
    requires n <= |outcomes| && Continues(outcomes, maxQuestions, n)
    ensures StopFrom(outcomes, maxQuestions, n + 1) == StopFrom(outcomes, maxQuestions, n)
  {
  }

  /** The bounds of the loop's output, for any outcomes: at most
      `maxQuestions` questions, from at most three tries per question. */
  lemma StopFromBounds(outcomes: seq<Option<GeneratedQuestion>>, maxQuestions: int)
    ensures |Collected(outcomes, StopFrom(outcomes, maxQuestions, 0))| <= Max(maxQuestions, 0)
    ensures StopFrom(outcomes, maxQuestions, 0) <= Max(3 * maxQuestions, 0)
  {
    var a := StopFrom(outcomes, maxQuestions, 0);
    StopFromStops(outcomes, maxQuestions, 0);
    if a > 0 {
      assert Continues(outcomes, maxQuestions, a - 1);
    }
  }

  /** The sentence loop of `generate_mcqs_from_text`: sentences are tried in
      order until `maxQuestions` questions are made, `3 * maxQuestions`
      sentences are tried, or the sentences run out. */
  method CollectQuestions(sentences: seq<string>, concepts: seq<string>, allWords: seq<string>, dice: seq<Dice>,
                          maxQuestions: int)
    returns (questions: seq<GeneratedQuestion>, attempted: nat)
    ensures attempted == StopFrom(Outcomes(sentences, concepts, allWords, dice), maxQuestions, 0)
    ensures questions == Collected(Outcomes(sentences, concepts, allWords, dice), attempted)
  {
    ghost var outcomes := Outcomes(sentences, concepts, allWords, dice);
    ghost var stop := StopFrom(outcomes, maxQuestions, 0);
    questions := [];
    attempted := 0;
    while attempted < |sentences|
      invariant attempted <= |sentences| == |outcomes|
      invariant StopFrom(outcomes, maxQuestions, attempted) == stop
      invariant questions == Collected(outcomes, attempted)
    {
      if |questions| >= maxQuestions || attempted + 1 > maxQuestions * 3 {
        assert !Continues(outcomes, maxQuestions, attempted);
        StopFromHere(outcomes, maxQuestions, attempted);
        break;
      }
      assert Continues(outcomes, maxQuestions, attempted);
      StopFromNext(outcomes, maxQuestions, attempted);
      var q := CreateQuestionFromSentence(sentences[attempted], concepts, allWords, DiceAt(dice, attempted));
      assert q == outcomes[attempted];
      if q.Some? {
        questions := questions + [q.value];
      }
      attempted := attempted + 1;
    }
    if attempted == |sentences| {
      StopFromHere(outcomes, maxQuestions, attempted);
    }
  }

  /** One outcome per sentence of the text, with the concepts and the
      distinct words `generate_mcqs_from_text` works from. */
  function McqsOutcomes(text: string, conceptMatches: seq<string>, dice: seq<Dice>)
    : (r: seq<Option<GeneratedQuestion>>)
    ensures |r| == |SplitSentences(text)|
  {
    Outcomes(SplitSentences(text), Take(UniqueConcepts(conceptMatches), 50), Dedup(Words(text)), dice)
  }

  /** The questions `generate_mcqs_from_text` returns: those of the
      sentences tried before the loop stops. */
  function Mcqs(text: string, maxQuestions: int, conceptMatches: seq<string>, dice: seq<Dice>)
    : (r: seq<GeneratedQuestion>)
    ensures |r| <= |SplitSentences(text)|
  {
    var outcomes := McqsOutcomes(text, conceptMatches, dice);
    Collected(outcomes, StopFrom(outcomes, maxQuestions, 0))
  }

  /** At most `maxQuestions` questions come back, from at most three
      sentences per question. */
  lemma McqsAtMost(text: string, maxQuestions: int, conceptMatches: seq<string>, dice: seq<Dice>)
    ensures |Mcqs(text, maxQuestions, conceptMatches, dice)| <= Max(maxQuestions, 0)
    ensures StopFrom(McqsOutcomes(text, conceptMatches, dice), maxQuestions, 0) <= Max(3 * maxQuestions, 0)
  {
    StopFromBounds(McqsOutcomes(text, conceptMatches, dice), maxQuestions);
  }

  /** Every question that comes back is well formed and of medium
      difficulty. */
  lemma McqsUsable(text: string, maxQuestions: int, conceptMatches: seq<string>, dice: seq<Dice>)
    ensures forall q <- Mcqs(text, maxQuestions, conceptMatches, dice) :: Usable(q)
  {
    var concepts := Take(UniqueConcepts(conceptMatches), 50);
    var outcomes := McqsOutcomes(text, conceptMatches, dice);
    OutcomesUsable(SplitSentences(text), concepts, Dedup(Words(text)), dice);
    CollectedUsable(outcomes, StopFrom(outcomes, maxQuestions, 0));
  }

  /** A text of plain sentences stops at the cap: with enough sentences
      that each make a question, exactly `maxQuestions` come back. */
  lemma {:induction false} StopAtCap(outcomes: seq<Option<GeneratedQuestion>>, maxQuestions: nat, n: nat)
    requires n <= maxQuestions <= |outcomes|
    requires forall k :: 0 <= k < |outcomes| ==> outcomes[k].Some?
    ensures |Collected(outcomes, n)| == n
    ensures StopFrom(outcomes, maxQuestions, n) == maxQuestions
    decreases maxQuestions - n
  {
    CollectedAllSome(outcomes, n);
    if n < maxQuestions {
      StopAtCap(outcomes, maxQuestions, n + 1);
    }
  }

  /** Outcomes that all hold a question are all collected. */
  lemma {:induction false} CollectedAllSome(outcomes: seq<Option<GeneratedQuestion>>, n: nat)
    requires n <= |outcomes|
    requires forall k :: 0 <= k < |outcomes| ==> outcomes[k].Some?
    ensures |Collected(outcomes, n)| == n
  {
    if n > 0 {
      CollectedAllSome(outcomes, n - 1);
    }
  }

  /** `generate_mcqs_from_text`, given the matches of the concept patterns;
      `set(...)` of the text's words is taken in first-occurrence order. */
  method GenerateMcqs(text: string, maxQuestions: int, conceptMatches: seq<string>, dice: seq<Dice>)
    returns (questions: seq<GeneratedQuestion>)
    ensures questions == Mcqs(text, maxQuestions, conceptMatches, dice)
    ensures |questions| <= Max(maxQuestions, 0)
    ensures forall q <- questions :: Usable(q)
  {
    var sentences := SplitSentences(text);
    var concepts := ExtractConcepts(conceptMatches);
    var allWords := Dedup(Words(text));
    var attempted;
    questions, attempted := CollectQuestions(sentences, concepts, allWords, dice, maxQuestions);
    McqsAtMost(text, maxQuestions, conceptMatches, dice);
    McqsUsable(text, maxQuestions, conceptMatches, dice);
  }
}
