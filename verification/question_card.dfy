/** The admin question card (preplensadmin/components/QuestionCard.tsx): which option is shown
    as correct, the letter shown with it, the summary and warning boxes, the legacy-record
    note and the difficulty badge colour. */
module QuestionCard {
  import opened Js
  import opened JsString

  /** A question as the card receives it. `correctOptionIndex` keeps apart an absent property,
      a stored `null` and a number, because the card tests it with `!== undefined`. */
  datatype CardQuestion = CardQuestion(
    text: string,
    options: Option<seq<string>>,
    answer: Option<string>,
    correctOptionIndex: Slot<int>,
    correctOptionLetter: Option<string>,
    difficulty: Option<string>)

  /** A string property used as a condition: present and non-empty. */
  predicate Given(v: Option<string>) {
    v.Some? && v.value != ""
  }

  const CardLetters: seq<string> := ["A", "B", "C", "D"]

  /** `CardLetters.indexOf(letter)`. */
  function LetterPosition(letter: string): (i: int)
    ensures -1 <= i < |CardLetters|
    ensures i >= 0 ==> CardLetters[i] == letter
    ensures i == -1 <==> letter !in CardLetters
  {
    if letter == "A" then 0 else if letter == "B" then 1
    else if letter == "C" then 2 else if letter == "D" then 3 else -1
  }

  /** `options.findIndex(opt => opt === answer)`: the first position holding `answer`, or -1. */
  function FindIndex(options: seq<string>, answer: string): (i: int)
    ensures -1 <= i < |options|
    ensures i >= 0 ==> options[i] == answer && answer !in options[..i]
    ensures i == -1 <==> answer !in options
  {
    if |options| == 0 then -1
    else if options[0] == answer then 0
    else
      var k := FindIndex(options[1..], answer);
      assert options == [options[0]] + options[1..];
      if k == -1 then -1
      else
        assert options[..k + 1] == [options[0]] + options[1..][..k];
        k + 1
  }

  // ---------------------------------------------------------------------------
  // The resolution chain as written
  // ---------------------------------------------------------------------------

  /** What `getCorrectOptionIndex` can return: a stored `null` comes back unchanged. */
  datatype Resolved = NullIndex | Index(i: int)

  /** `getCorrectOptionIndex` as written: a stored index unless it is `undefined` (so a stored
      `null` is returned as is), else the stored letter's position in A-D, else the first option
      equal to a non-empty answer, else -1. */
  function ResolveAsWritten(q: CardQuestion): (r: Resolved)
    ensures q.correctOptionIndex.Nulled? <==> r.NullIndex?
    ensures q.correctOptionIndex.Present? ==> r == Index(q.correctOptionIndex.value)
    ensures q.correctOptionIndex.Absent? ==> r == Index(LegacyIndex(q))
  {
    match q.correctOptionIndex
    case Present(i) => Index(i)
    case Nulled => NullIndex
    case Absent => Index(LegacyIndex(q))
  }

  /** The chain's fallbacks, used when no index is stored. */
  function LegacyIndex(q: CardQuestion): (i: int)
    ensures -1 <= i
    ensures Given(q.correctOptionLetter) ==> i == LetterPosition(q.correctOptionLetter.value)
    ensures !Given(q.correctOptionLetter) && Given(q.answer) && q.options.Some? ==>
      i == FindIndex(q.options.value, q.answer.value)
    ensures !Given(q.correctOptionLetter) && !(Given(q.answer) && q.options.Some?) ==> i == -1
    ensures i >= 0 ==> (Given(q.correctOptionLetter) && i < |CardLetters|)
                       || (q.options.Some? && i < |q.options.value|)
  {
    if Given(q.correctOptionLetter) then LetterPosition(q.correctOptionLetter.value)
    else if Given(q.answer) && q.options.Some? then FindIndex(q.options.value, q.answer.value)
    else -1
  }

  /** The JavaScript test `correctIndex >= 0`: `null` converts to 0, so it passes. */
  predicate AtLeastZeroAsWritten(r: Resolved) {
    r.NullIndex? || r.i >= 0
  }

  /** The "Correct Answer" summary box as written. */
  predicate ShowsSummaryAsWritten(q: CardQuestion) {
    AtLeastZeroAsWritten(ResolveAsWritten(q))
  }

  /** The "No Correct Answer Set" warning as written (`=== -1`). */
  predicate ShowsWarningAsWritten(q: CardQuestion) {
    ResolveAsWritten(q) == Index(-1)
  }

  /** A record stored with a `null` index (a spreadsheet row whose answer letter was missing or
      outside A-D) shows the summary box with no option marked, and no warning, whatever its
      letter says. */
  lemma NullIndexHidesWarning(q: CardQuestion)
    requires q.correctOptionIndex == Nulled
    ensures ShowsSummaryAsWritten(q)
    ensures !ShowsWarningAsWritten(q)
  {
  }

  /** The concrete case: letter `E`, index `null`. The card claims an answer and does not warn. */
  lemma NullIndexExample()
    ensures var q := CardQuestion("Q", Some(["a", "b", "c", "d"]), Some(""), Nulled, Some("E"), None);
      ShowsSummaryAsWritten(q) && !ShowsWarningAsWritten(q) && LegacyIndex(q) == -1
  {
    assert "E" !in CardLetters;
  }

  /** `idx === correctIndex` as written: a `null` index equals no position. */
  predicate MarkedAsWritten(q: CardQuestion, idx: int) {
    ResolveAsWritten(q) == Index(idx)
  }

  /** `correctLetter` as written: the stored letter when it is non-empty. Otherwise a `null`
      index passes `>= 0` and looks up `['A', 'B', 'C', 'D'][null]`, which is `undefined`; a
      number 0 or more gives its letter (`undefined` past D) and a negative one gives `null`. */
  function CorrectLetterAsWritten(q: CardQuestion): (r: Value)
    ensures Given(q.correctOptionLetter) ==> r == Str(q.correctOptionLetter.value)
    ensures !Given(q.correctOptionLetter) && q.correctOptionIndex.Nulled? ==> r == Undefined
    ensures !Given(q.correctOptionLetter) ==> (r.Str? <==> ResolveAsWritten(q) in {Index(0), Index(1), Index(2), Index(3)})
  {
    if Given(q.correctOptionLetter) then Str(q.correctOptionLetter.value)
    else
      match ResolveAsWritten(q)
      case NullIndex => Undefined
      case Index(i) => if i >= 0 then (if i < |CardLetters| then Str(CardLetters[i]) else Undefined) else Null
  }

  /** A record stored with a `null` index and no letter (what `POST /questions` stores when no
      answer is chosen) marks no option and shows an `undefined` letter, whatever its answer
      text says. */
  lemma NullIndexMarksNothing(q: CardQuestion, idx: int)
    requires q.correctOptionIndex == Nulled && !Given(q.correctOptionLetter)
    ensures !MarkedAsWritten(q, idx)
    ensures CorrectLetterAsWritten(q) == Undefined
  {
  }

  /** The concrete case: options a-d, answer `b`, index and letter stored as `null`. The card
      as written marks nothing and shows no letter; the corrected chain marks option B. */
  lemma NullIndexAnswerExample()
    ensures var q := CardQuestion("Q", Some(["a", "b", "c", "d"]), Some("b"), Nulled, None, None);
      && (forall idx :: !MarkedAsWritten(q, idx))
      && CorrectLetterAsWritten(q) == Undefined
      && Marked(q, 1) && CorrectLetter(q) == Str("B")
  {
    var q := CardQuestion("Q", Some(["a", "b", "c", "d"]), Some("b"), Nulled, None, None);
    assert FindIndex(["a", "b", "c", "d"], "b") == 1 by {
      assert ["a", "b", "c", "d"][1..] == ["b", "c", "d"];
    }
  }

  // ---------------------------------------------------------------------------
  // The resolution chain as intended
  // ---------------------------------------------------------------------------

  /** `getCorrectOptionIndex` with a stored `null` treated like a missing index, which is what
      the fallbacks are for: the result is always a number. */
  function CorrectIndex(q: CardQuestion): (i: int)
    ensures q.correctOptionIndex.Present? ==> i == q.correctOptionIndex.value
    ensures !q.correctOptionIndex.Present? ==> i == LegacyIndex(q)
    ensures !q.correctOptionIndex.Present? ==> i >= -1
  {
    if q.correctOptionIndex.Present? then q.correctOptionIndex.value else LegacyIndex(q)
  }

  /** Where an index or no index at all is stored, the corrected chain agrees with the code. */
  lemma CorrectIndexAgrees(q: CardQuestion)
    requires !q.correctOptionIndex.Nulled?
    ensures ResolveAsWritten(q) == Index(CorrectIndex(q))
  {
  }

  /** Where an index or no index at all is stored, the corrected display is the card as
      written: the same option is marked, the same boxes show and the same letter is shown. */
  lemma DisplayAgrees(q: CardQuestion, idx: int)
    requires !q.correctOptionIndex.Nulled?
    ensures MarkedAsWritten(q, idx) <==> Marked(q, idx)
    ensures ShowsSummaryAsWritten(q) <==> ShowsSummary(q)
    ensures ShowsWarningAsWritten(q) <==> ShowsWarning(q)
    ensures CorrectLetterAsWritten(q) == CorrectLetter(q)
  {
    CorrectIndexAgrees(q);
  }

  /** With the corrected chain a record with neither a usable index, nor a letter in A-D, nor a
      matching answer shows the warning. */
  lemma UnresolvedShowsWarning(q: CardQuestion)
    requires !q.correctOptionIndex.Present?
    requires Given(q.correctOptionLetter) ==> q.correctOptionLetter.value !in CardLetters
    requires !Given(q.correctOptionLetter) && Given(q.answer) && q.options.Some? ==>
      q.answer.value !in q.options.value
    ensures ShowsWarning(q) && !ShowsSummary(q)
  {
  }

  // ---------------------------------------------------------------------------
  // What the card shows
  // ---------------------------------------------------------------------------

  /** Option `idx` is highlighted as the correct one, with the corrected chain. */
  predicate Marked(q: CardQuestion, idx: int) {
    idx == CorrectIndex(q)
  }

  predicate ShowsSummary(q: CardQuestion) {
    CorrectIndex(q) >= 0
  }

  predicate ShowsWarning(q: CardQuestion) {
    CorrectIndex(q) == -1
  }

  /** With the corrected chain, at most one option is highlighted, and the summary and the
      warning never show together; when the index is -1 or more, exactly one of them shows. */
  lemma DisplayExclusive(q: CardQuestion, a: int, b: int)
    requires Marked(q, a) && Marked(q, b)
    ensures a == b
    ensures !(ShowsSummary(q) && ShowsWarning(q))
    ensures CorrectIndex(q) >= -1 ==> ShowsSummary(q) || ShowsWarning(q)
  {
  }

  /** `correctLetter` with the corrected chain: the stored letter when it is non-empty, else
      the letter at the resolved index when that is 0 or more (which is `undefined` past D),
      else `null`. */
  function CorrectLetter(q: CardQuestion): (r: Value)
    ensures Given(q.correctOptionLetter) ==> r == Str(q.correctOptionLetter.value)
    ensures !Given(q.correctOptionLetter) && 0 <= CorrectIndex(q) < |CardLetters| ==>
      r == Str(CardLetters[CorrectIndex(q)])
    ensures !Given(q.correctOptionLetter) && CorrectIndex(q) >= |CardLetters| ==> r == Undefined
    ensures !Given(q.correctOptionLetter) && CorrectIndex(q) < 0 ==> r == Null
  {
    if Given(q.correctOptionLetter) then Str(q.correctOptionLetter.value)
    else
      var i := CorrectIndex(q);
      if i >= 0 then (if i < |CardLetters| then Str(CardLetters[i]) else Undefined) else Null
  }

  /** The letter shown agrees with the highlighted option whenever the record was found by its
      letter, and a letter is shown exactly when it is stored or the index is A-D. */
  lemma CorrectLetterAgrees(q: CardQuestion)
    requires !q.correctOptionIndex.Present? && Given(q.correctOptionLetter)
    requires q.correctOptionLetter.value in CardLetters
    ensures CorrectLetter(q) == Str(CardLetters[CorrectIndex(q)])
  {
  }

  /** `hasNewAnswerStructure`: an index property exists (even `null`) or a letter is stored. */
  predicate HasNewAnswerStructure(q: CardQuestion) {
    !q.correctOptionIndex.Absent? || Given(q.correctOptionLetter)
  }

  /** The note about records from before the answer update appears inside the summary box only
      for records with neither an index property nor a letter. */
  function ShowsLegacyNote(q: CardQuestion): (r: bool)
    ensures r ==> q.correctOptionIndex.Absent? && !Given(q.correctOptionLetter)
    ensures r ==> (&& Given(q.answer) && q.options.Some?
                   && 0 <= CorrectIndex(q) < |q.options.value|
                   && q.options.value[CorrectIndex(q)] == q.answer.value)
    ensures (&& q.correctOptionIndex.Absent? && !Given(q.correctOptionLetter) && Given(q.answer)
             && q.options.Some? && q.answer.value in q.options.value) ==> r
  {
    ShowsSummary(q) && !HasNewAnswerStructure(q)
  }

  // ---------------------------------------------------------------------------
  // Difficulty badge
  // ---------------------------------------------------------------------------

  datatype BadgeColour = Green | Yellow | Red | Gray

  /** `difficultyBadge`: no badge for a missing or empty difficulty; easy, medium and hard in any
      letter case are green, yellow and red; any other text is gray. */
  function DifficultyBadge(difficulty: Option<string>): (r: Option<BadgeColour>)
    ensures r.None? <==> !Given(difficulty)
    ensures r == Some(Green) <==> Given(difficulty) && ToLower(difficulty.value) == "easy"
    ensures r == Some(Yellow) <==> Given(difficulty) && ToLower(difficulty.value) == "medium"
    ensures r == Some(Red) <==> Given(difficulty) && ToLower(difficulty.value) == "hard"
  {
    if !Given(difficulty) then None
    else
      var d := ToLower(difficulty.value);
      if d == "easy" then Some(Green)
      else if d == "medium" then Some(Yellow)
      else if d == "hard" then Some(Red)
      else Some(Gray)
  }

  /** The badge colour does not depend on letter case. */
  lemma BadgeIgnoresCase(d: string)
    requires d != ""
    ensures DifficultyBadge(Some(ToUpper(d))) == DifficultyBadge(Some(d))
  {
    assert ToLower(ToUpper(d)) == ToLower(d);
  }

  lemma BadgeExamples()
    ensures DifficultyBadge(Some("Hard")) == Some(Red)
    ensures DifficultyBadge(Some("EASY")) == Some(Green)
    ensures DifficultyBadge(Some("tricky")) == Some(Gray)
    ensures DifficultyBadge(Some("")) == None
  {
    assert ToLower("Hard") == "hard";
    assert ToLower("EASY") == "easy";
    assert ToLower("tricky") == "tricky";
  }
}
