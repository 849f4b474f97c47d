/** The question-creation form logic that both copies of CreateQuestionForm.tsx share, line for
    line: the field state, `validateForm`, the request payload, the single-field edits and the
    reset after a successful submission. */
module QuestionForm {
  import opened Js
  import opened JsString
  import Seqs
  import CreateQuestion
  import Store

  /** The keys `validateForm` can set. */
  datatype ErrorKey = QuestionTextKey | OptionsKey | CorrectAnswerKey | MarksKey | TimerKey

  const QuestionTextRequired := "Question text is required"
  const OptionsRequired := "All options must be filled"
  const CorrectAnswerRequired := "Please select the correct answer"
  const MarksRequired := "Marks are required"
  const MarksPositive := "Marks must be greater than 0"
  const TimerRequired := "Time limit is required"
  const TimerPositive := "Time limit must be greater than 0"

  const OptionCount: nat := 4

  /** The form's state. `correctAnswer` is the selected option (`null` until one is chosen);
      `imageUrl` is the uploaded diagram's address: `null` when there is none, and `undefined`
      when an upload reply carried no address. */
  datatype Fields = Fields(
    questionType: string,
    questionText: string,
    solutionText: string,
    options: seq<string>,
    correctAnswer: Option<int>,
    marks: string,
    timer: string,
    tags: string,
    imageUrl: Slot<string>,
    errors: map<ErrorKey, string>,
    success: bool)

  /** Four option fields, and a selected answer is one of them: what the form's inputs allow. */
  predicate WellFormed(f: Fields) {
    |f.options| == OptionCount && (f.correctAnswer.Some? ==> 0 <= f.correctAnswer.value < OptionCount)
  }

  function EmptyOptions(): (r: seq<string>)
    ensures |r| == OptionCount && forall i :: 0 <= i < |r| ==> r[i] == ""
  {
    ["", "", "", ""]
  }

  /** The state on first render. */
  const Initial: Fields := Fields("static", "", "", EmptyOptions(), None, "", "", "", Nulled, map[], false)

  /** An error message is on screen for `key` (the form tests `errors.key` for truthiness). */
  predicate Shows(f: Fields, key: ErrorKey) {
    key in f.errors && f.errors[key] != ""
  }

  // ---------------------------------------------------------------------------
  // Validation
  // ---------------------------------------------------------------------------

  predicate SomeOptionBlank(options: seq<string>) {
    exists i :: 0 <= i < |options| && IsBlank(options[i])
  }

  /** The number check for marks and the time limit, given whether the text is blank and what
      `parseInt` reads from it: required when blank, else refused when the number read is not
      positive. A text `parseInt` cannot read (NaN) passes, because `NaN <= 0` is false. */
  function NumberError(blank: bool, parsed: Parsed, required: string, positive: string): (r: Option<string>)
    ensures blank ==> r == Some(required)
    ensures !blank ==> (r.Some? <==> parsed.Int? && parsed.value <= 0)
    ensures !blank && r.Some? ==> r.value == positive
  {
    if blank then Some(required)
    else if parsed.Int? && parsed.value <= 0 then Some(positive)
    else None
  }

  function MarksError(f: Fields): Option<string> {
    NumberError(IsBlank(f.marks), ParseInt(f.marks), MarksRequired, MarksPositive)
  }

  function TimerError(f: Fields): Option<string> {
    NumberError(IsBlank(f.timer), ParseInt(f.timer), TimerRequired, TimerPositive)
  }

  /** Records `message` under `key` when there is one. */
  function Record(errors: map<ErrorKey, string>, key: ErrorKey, message: Option<string>): (r: map<ErrorKey, string>)
    ensures key in r <==> key in errors || message.Some?
    ensures message.Some? ==> r[key] == message.value
    ensures forall k :: k != key ==> (k in r <==> k in errors)
    ensures forall k :: k != key && k in errors ==> r[k] == errors[k]
  {
    if message.Some? then errors[key := message.value] else errors
  }

  /** The error object from the five checks' results, recorded in the order `validateForm`
      runs them. */
  function Collect(textBlank: bool, optionBlank: bool, noAnswer: bool,
                   marks: Option<string>, timer: Option<string>): (errs: map<ErrorKey, string>)
    ensures QuestionTextKey in errs <==> textBlank
    ensures OptionsKey in errs <==> optionBlank
    ensures CorrectAnswerKey in errs <==> noAnswer
    ensures MarksKey in errs <==> marks.Some?
    ensures TimerKey in errs <==> timer.Some?
    ensures QuestionTextKey in errs ==> errs[QuestionTextKey] == QuestionTextRequired
    ensures OptionsKey in errs ==> errs[OptionsKey] == OptionsRequired
    ensures CorrectAnswerKey in errs ==> errs[CorrectAnswerKey] == CorrectAnswerRequired
    ensures MarksKey in errs ==> errs[MarksKey] == marks.value
    ensures TimerKey in errs ==> errs[TimerKey] == timer.value
  {
    var e1 := Record(map[], QuestionTextKey, if textBlank then Some(QuestionTextRequired) else None);
    var e2 := Record(e1, OptionsKey, if optionBlank then Some(OptionsRequired) else None);
    var e3 := Record(e2, CorrectAnswerKey, if noAnswer then Some(CorrectAnswerRequired) else None);
    var e4 := Record(e3, MarksKey, marks);
    Record(e4, TimerKey, timer)
  }

  /** `validateForm`'s error object. */
  function Validate(f: Fields): (errs: map<ErrorKey, string>)
    ensures QuestionTextKey in errs <==> IsBlank(f.questionText)
    ensures OptionsKey in errs <==> SomeOptionBlank(f.options)
    ensures CorrectAnswerKey in errs <==> f.correctAnswer.None?
    ensures MarksKey in errs <==> MarksError(f).Some?
    ensures TimerKey in errs <==> TimerError(f).Some?
    ensures MarksKey in errs ==> errs[MarksKey] == MarksError(f).value
    ensures TimerKey in errs ==> errs[TimerKey] == TimerError(f).value
  {
    Collect(IsBlank(f.questionText), SomeOptionBlank(f.options), f.correctAnswer.None?,
            MarksError(f), TimerError(f))
  }

  /** `validateForm`'s verdict taken check by check: the text is non-blank, no option is blank,
      an answer is selected, and neither marks nor time limit has a message. */
  predicate IsValid(f: Fields) {
    && !IsBlank(f.questionText)
    && !SomeOptionBlank(f.options)
    && f.correctAnswer.Some?
    && MarksError(f).None?
    && TimerError(f).None?
  }

  /** The error object is empty (`Object.keys(newErrors).length === 0`) exactly when the form is
      valid, and that is when the text and every option are non-blank, an answer is selected,
      and marks and time limit are non-blank and not read as a number below 1. */
  lemma ValidIff(f: Fields)
    ensures |Validate(f)| == 0 <==> IsValid(f)
    ensures IsValid(f) <==>
      && !IsBlank(f.questionText)
      && (forall i :: 0 <= i < |f.options| ==> !IsBlank(f.options[i]))
      && f.correctAnswer.Some?
      && !IsBlank(f.marks) && !(ParseInt(f.marks).Int? && ParseInt(f.marks).value <= 0)
      && !IsBlank(f.timer) && !(ParseInt(f.timer).Int? && ParseInt(f.timer).value <= 0)
  {
    var e := Validate(f);
    if |e| == 0 {
      assert QuestionTextKey !in e && OptionsKey !in e && CorrectAnswerKey !in e;
      assert MarksKey !in e && TimerKey !in e;
    } else {
      var k :| k in e;
      match k
      case QuestionTextKey =>
      case OptionsKey =>
      case CorrectAnswerKey =>
      case MarksKey =>
      case TimerKey =>
    }
  }

  /** Marks that `parseInt` cannot read pass validation: a text starting with a letter or
      other non-digit is neither blank nor a number at most 0, and is sent as NaN. */
  lemma UnreadableMarksPass(f: Fields)
    requires |f.marks| > 0 && !IsSpace(f.marks[0]) && f.marks[0] != '-' && f.marks[0] != '+'
    requires DigitValue(f.marks[0], 10) < 0
    ensures MarksError(f).None?
    ensures NumberFieldOf(f.marks) == NotANumber
  {
    ParseIntNoDigits(f.marks);
    assert !AllSpace(f.marks);
    BlankIffAllSpace(f.marks);
  }

  // ---------------------------------------------------------------------------
  // Payload
  // ---------------------------------------------------------------------------

  /** `pieces.map(t => t.trim())`. */
  function TrimAll(pieces: seq<string>): (r: seq<string>)
    ensures |r| == |pieces|
    ensures forall i :: 0 <= i < |r| ==> r[i] == Trim(pieces[i])
  {
    seq(|pieces|, i requires 0 <= i < |pieces| => Trim(pieces[i]))
  }

  /** A tag string kept by `filter(Boolean)`. */
  predicate NonEmpty(s: string) {
    s != ""
  }

  /** A tag as the form can send it: non-empty, comma-free and with no white space at either
      end. */
  predicate CleanTag(t: string) {
    t != "" && ',' !in t && !IsSpace(t[0]) && !IsSpace(t[|t| - 1])
  }

  /** The tag list the form sends, `tags.split(',').map(t => t.trim()).filter(Boolean)`: the
      trimmed comma-separated pieces, in order, each non-empty one kept as often as it occurs
      and the empty ones dropped; every tag is clean. */
  function ParseTags(tags: string): (r: seq<string>)
    ensures forall i :: 0 <= i < |r| ==> CleanTag(r[i])
    ensures |r| <= |Split(tags, ',')|
    ensures Seqs.Subsequence(r, TrimAll(Split(tags, ',')))
    ensures forall t :: multiset(r)[t] == if t == "" then 0 else multiset(TrimAll(Split(tags, ',')))[t]
  {
    var pieces := Split(tags, ',');
    var trimmed := TrimAll(pieces);
    SplitPieces(tags, ',');
    TrimmedPiecesClean(pieces);
    KeptTags(trimmed);
    Seqs.Filter(trimmed, NonEmpty)
  }

  /** `filter(Boolean)` on strings keeps each non-empty one as often as it occurs. */
  lemma KeptTags(trimmed: seq<string>)
    ensures forall t :: multiset(Seqs.Filter(trimmed, NonEmpty))[t] == if t == "" then 0 else multiset(trimmed)[t]
  {
    Seqs.FilterMultiplicity(trimmed, NonEmpty);
  }

  /** Every piece that is not blank contributes its trimmed text. */
  lemma ParseTagsKeepsText(tags: string, k: int)
    requires 0 <= k < |Split(tags, ',')| && !IsBlank(Split(tags, ',')[k])
    ensures Trim(Split(tags, ',')[k]) in ParseTags(tags)
  {
    var pieces := Split(tags, ',');
    var trimmed := TrimAll(pieces);
    assert trimmed[k] == Trim(pieces[k]);
    assert NonEmpty(trimmed[k]);
  }

  /** There are at most as many tags as commas plus one. */
  lemma ParseTagsCount(tags: string)
    ensures |ParseTags(tags)| <= CountChar(tags, ',') + 1
  {
    SplitPieces(tags, ',');
  }

  /** Trimming comma-free pieces leaves each one either empty or a clean tag. */
  lemma TrimmedPiecesClean(pieces: seq<string>)
    requires forall k :: 0 <= k < |pieces| ==> ',' !in pieces[k]
    ensures forall k :: 0 <= k < |pieces| && NonEmpty(TrimAll(pieces)[k]) ==> CleanTag(TrimAll(pieces)[k])
  {
    var trimmed := TrimAll(pieces);
    forall k | 0 <= k < |pieces| && NonEmpty(trimmed[k])
      ensures CleanTag(trimmed[k])
    {
      TrimmedPieceClean(pieces[k]);
    }
  }

  lemma TrimmedPieceClean(p: string)
    requires ',' !in p && Trim(p) != ""
    ensures CleanTag(Trim(p))
  {
    TrimKeepsOut(p, ',');
  }

  /** Tags typed as a comma-separated list come back as that list: `ParseTags` inverts joining
      clean tags with commas. */
  lemma ParseTagsJoin(ts: seq<string>)
    requires |ts| >= 1
    requires forall k :: 0 <= k < |ts| ==> CleanTag(ts[k])
    ensures ParseTags(Join(ts, ',')) == ts
  {
    assert forall k :: 0 <= k < |ts| ==> ',' !in ts[k];
    SplitJoin(ts, ',');
    TrimAllClean(ts);
    Seqs.FilterAll(ts, NonEmpty);
  }

  /** Clean tags are their own trims. */
  lemma TrimAllClean(ts: seq<string>)
    requires forall k :: 0 <= k < |ts| ==> CleanTag(ts[k])
    ensures TrimAll(ts) == ts
  {
    forall k | 0 <= k < |ts|
      ensures Trim(ts[k]) == ts[k]
    {
      TrimNoop(ts[k]);
    }
  }

  /** White space around a tag and an entry holding only white space disappear: `" t , "`
      sends just `t`. */
  lemma ParseTagsDropsPadding(w1: string, t: string, w2: string, w3: string)
    requires AllSpace(w1) && AllSpace(w2) && AllSpace(w3)
    requires CleanTag(t)
    ensures ParseTags(w1 + t + w2 + [','] + w3) == [t]
  {
    var p := w1 + t + w2;
    PaddedSplit(p, w3);
    TrimPadded(w1, t, w2);
    BlankIffAllSpace(w3);
    TrimPair(p, w3, t);
    FilterDropsEmpty(t);
  }

  lemma PaddedSplit(p: string, w: string)
    requires ',' !in p && AllSpace(w)
    ensures Split(p + [','] + w, ',') == [p, w]
  {
    SpaceIsNotComma(w);
    SplitFirst(p, ',', w);
    assert Split(w, ',') == [w];
  }

  lemma TrimPair(a: string, b: string, t: string)
    requires Trim(a) == t && Trim(b) == ""
    ensures TrimAll([a, b]) == [t, ""]
  {
  }

  lemma FilterDropsEmpty(t: string)
    requires t != ""
    ensures Seqs.Filter([t, ""], NonEmpty) == [t]
  {
    assert [t, ""] == [t] + [""];
    Seqs.FilterAppend([t], [""], NonEmpty);
    Seqs.FilterAll([t], NonEmpty);
    assert Seqs.Filter([""], NonEmpty) == [];
  }

  lemma SpaceIsNotComma(w: string)
    requires AllSpace(w)
    ensures ',' !in w
  {
    assert !IsSpace(',');
  }

  /** An empty tag field sends no tags. */
  lemma ParseTagsEmpty()
    ensures ParseTags("") == []
  {
    assert Split("", ',') == [""];
    assert TrimAll([""]) == [""] by {
      TrimNoop("");
    }
    assert Seqs.Filter([""], NonEmpty) == [];
  }

  /** `marks ? parseInt(marks) : undefined` and its JSON form. */
  datatype NumberField = Omitted | NotANumber | Number(n: int)

  function NumberFieldOf(s: string): (r: NumberField)
    ensures r.Omitted? <==> s == ""
    ensures s != "" && ParseInt(s).Int? ==> r == Number(ParseInt(s).value)
    ensures s != "" && ParseInt(s).NaN? ==> r.NotANumber?
  {
    if s == "" then Omitted
    else match ParseInt(s)
      case NaN => NotANumber
      case Int(v) => Number(v)
  }

  /** The request body `handleSubmit` sends. */
  datatype Payload = Payload(
    qtype: string,
    text: string,
    solution: string,
    options: seq<string>,
    correctAnswer: Option<int>,
    marks: NumberField,
    timeLimit: NumberField,
    tags: seq<string>,
    imageUrl: Slot<string>)

  function BuildPayload(f: Fields): (p: Payload)
    ensures p.options == f.options && p.correctAnswer == f.correctAnswer
    ensures p.text == f.questionText && p.solution == f.solutionText && p.imageUrl == f.imageUrl
    ensures p.tags == ParseTags(f.tags)
    ensures p.marks == NumberFieldOf(f.marks) && p.timeLimit == NumberFieldOf(f.timer)
  {
    Payload(f.questionType, f.questionText, f.solutionText, f.options, f.correctAnswer,
            NumberFieldOf(f.marks), NumberFieldOf(f.timer), ParseTags(f.tags), f.imageUrl)
  }

  /** What validation guarantees about the numbers sent: marks and time limit are present,
      and each is either NaN or a positive number. */
  lemma ValidPayloadNumbers(f: Fields)
    requires IsValid(f)
    ensures var p := BuildPayload(f);
      && (p.marks.NotANumber? || (p.marks.Number? && p.marks.n > 0))
      && (p.timeLimit.NotANumber? || (p.timeLimit.Number? && p.timeLimit.n > 0))
  {
    PassingNumber(f.marks, MarksRequired, MarksPositive);
    PassingNumber(f.timer, TimerRequired, TimerPositive);
  }

  /** A text the number check lets through is sent as NaN or as a positive number. */
  lemma PassingNumber(s: string, required: string, positive: string)
    requires NumberError(IsBlank(s), ParseInt(s), required, positive).None?
    ensures NumberFieldOf(s).NotANumber? || (NumberFieldOf(s).Number? && NumberFieldOf(s).n > 0)
  {
    assert IsBlank("") by {
      TrimNoop("");
    }
  }

  /** How the payload arrives at `POST /questions` after `JSON.stringify`: an omitted field is
      `undefined`, NaN and `null` are `null`. */
  function ToBody(p: Payload): (b: CreateQuestion.Body)
    ensures b.options == Some(seq(|p.options|, i requires 0 <= i < |p.options| => Str(p.options[i])))
    ensures p.correctAnswer.Some? <==> b.correctAnswer.Present?
    ensures p.correctAnswer.Some? ==> b.correctAnswer.value == p.correctAnswer.value
    ensures p.imageUrl.Nulled? ==> b.imageUrl == Null
    ensures p.imageUrl.Absent? ==> b.imageUrl == Undefined
    ensures p.imageUrl.Present? ==> b.imageUrl == Str(p.imageUrl.value)
    ensures b.answer == Undefined && b.tags == p.tags
  {
    CreateQuestion.Body(
      text := Str(p.text),
      answer := Undefined,
      options := Some(seq(|p.options|, i requires 0 <= i < |p.options| => Str(p.options[i]))),
      subject := Undefined, exam := Undefined, difficulty := Undefined,
      tags := p.tags,
      marks := JsonNumber(p.marks),
      timeLimit := JsonNumber(p.timeLimit),
      blooms := Undefined,
      qtype := Str(p.qtype),
      imageUrl := match p.imageUrl
        case Present(u) => Str(u)
        case Nulled => Null
        case Absent => Undefined,
      correctAnswer := if p.correctAnswer.Some? then Present(p.correctAnswer.value) else Nulled,
      solution := Str(p.solution))
  }

  function JsonNumber(n: NumberField): Value {
    match n
    case Omitted => Undefined
    case NotANumber => Null
    case Number(v) => Num(v)
  }

  /** A valid, well-formed form produces a stored question whose index, letter and answer text
      agree: the answer text is the selected option. */
  lemma SubmittedQuestionConsistent(f: Fields)
    requires WellFormed(f) && IsValid(f)
    ensures var d := CreateQuestion.NewDoc(ToBody(BuildPayload(f)));
      && d.correctOptionIndex == Present(f.correctAnswer.value)
      && d.answer == Str(f.options[f.correctAnswer.value])
      && Store.AnswerConsistent(d)
  {
    ValidIff(f);
    var k := f.correctAnswer.value;
    assert !IsBlank(f.options[k]);
    NonBlankNonEmpty(f.options[k]);
    SelectedOptionStored(f);
  }

  lemma NonBlankNonEmpty(s: string)
    requires !IsBlank(s)
    ensures s != ""
  {
    TrimNoop("");
  }

  /** The document stored for a form with an answer selected among non-empty options. */
  lemma SelectedOptionStored(f: Fields)
    requires WellFormed(f) && f.correctAnswer.Some? && f.options[f.correctAnswer.value] != ""
    ensures var d := CreateQuestion.NewDoc(ToBody(BuildPayload(f)));
      && d.correctOptionIndex == Present(f.correctAnswer.value)
      && d.answer == Str(f.options[f.correctAnswer.value])
      && Store.AnswerConsistent(d)
  {
    PayloadStored(BuildPayload(f));
  }

  lemma PayloadStored(p: Payload)
    requires |p.options| == OptionCount && p.correctAnswer.Some?
    requires 0 <= p.correctAnswer.value < OptionCount && p.options[p.correctAnswer.value] != ""
    ensures var d := CreateQuestion.NewDoc(ToBody(p));
      && d.correctOptionIndex == Present(p.correctAnswer.value)
      && d.answer == Str(p.options[p.correctAnswer.value])
      && Store.AnswerConsistent(d)
  {
    var b := ToBody(p);
    assert CreateQuestion.MapsAnswer(b);
    CreateQuestion.NewDocConsistent(b);
  }

  // ---------------------------------------------------------------------------
  // Edits
  // ---------------------------------------------------------------------------

  /** `prev.map((opt, i) => i === idx ? value : opt)`. */
  function ReplaceAt(options: seq<string>, idx: int, value: string): (r: seq<string>)
    ensures |r| == |options|
    ensures forall i :: 0 <= i < |r| ==> r[i] == (if i == idx then value else options[i])
  {
    seq(|options|, i requires 0 <= i < |options| => if i == idx then value else options[i])
  }

  /** `setErrors(prev => ({ ...prev, key: '' }))` when `errors.key` is set: the message is
      blanked, the key stays. */
  function ClearError(errors: map<ErrorKey, string>, key: ErrorKey): (r: map<ErrorKey, string>)
    ensures r.Keys == errors.Keys
    ensures key in r ==> r[key] == ""
    ensures forall k :: k in errors && k != key ==> r[k] == errors[k]
  {
    if key in errors && errors[key] != "" then errors[key := ""] else errors
  }

  /** `handleOptionChange`: only option `idx` takes the new text; the options message is
      cleared. */
  function OptionChange(f: Fields, idx: int, value: string): (r: Fields)
    ensures |r.options| == |f.options|
    ensures 0 <= idx < |f.options| ==> r.options[idx] == value
    ensures forall i :: 0 <= i < |f.options| && i != idx ==> r.options[i] == f.options[i]
    ensures !Shows(r, OptionsKey)
    ensures r == f.(options := r.options, errors := r.errors)
    ensures WellFormed(f) ==> WellFormed(r)
  {
    f.(options := ReplaceAt(f.options, idx, value), errors := ClearError(f.errors, OptionsKey))
  }

  /** Choosing the radio button of option `idx` selects it and clears its message. */
  function SelectCorrect(f: Fields, idx: int): (r: Fields)
    requires 0 <= idx < |f.options|
    ensures r.correctAnswer == Some(idx)
    ensures !Shows(r, CorrectAnswerKey)
    ensures WellFormed(f) ==> WellFormed(r)
    ensures r == f.(correctAnswer := r.correctAnswer, errors := r.errors)
  {
    f.(correctAnswer := Some(idx), errors := ClearError(f.errors, CorrectAnswerKey))
  }

  /** Typing in the marks field clears its message. */
  function SetMarks(f: Fields, value: string): (r: Fields)
    ensures r.marks == value && !Shows(r, MarksKey)
    ensures r == f.(marks := value, errors := r.errors)
  {
    f.(marks := value, errors := ClearError(f.errors, MarksKey))
  }

  /** Typing in the time-limit field clears its message. */
  function SetTimer(f: Fields, value: string): (r: Fields)
    ensures r.timer == value && !Shows(r, TimerKey)
    ensures r == f.(timer := value, errors := r.errors)
  {
    f.(timer := value, errors := ClearError(f.errors, TimerKey))
  }

  // ---------------------------------------------------------------------------
  // Submission
  // ---------------------------------------------------------------------------

  /** The fields after a successful submission: everything the user typed is cleared and the
      success message shows; the question type stays. */
  function Reset(f: Fields): (r: Fields)
    ensures r.questionText == "" && r.solutionText == "" && r.options == EmptyOptions()
    ensures r.correctAnswer.None? && r.marks == "" && r.timer == "" && r.tags == ""
    ensures r.imageUrl.Nulled? && r.errors == map[] && r.success
    ensures r.questionType == f.questionType
    ensures WellFormed(r)
  {
    Initial.(questionType := f.questionType, success := true)
  }

  datatype Outcome = Outcome(fields: Fields, sent: Option<Payload>)

  /** `handleSubmit`. An invalid form shows its messages and sends nothing. A valid one sends the
      payload; `responseOk` is whether the reply was `ok`. On success the form is reset; on any
      other reply the fields stay as typed. */
  function Submit(f: Fields, responseOk: bool): (r: Outcome)
    ensures r.sent.Some? <==> IsValid(f)
    ensures r.sent.Some? ==> r.sent.value == BuildPayload(f)
    ensures !IsValid(f) ==> r.fields == f.(errors := Validate(f))
    ensures IsValid(f) && responseOk ==> r.fields == Reset(f)
    ensures IsValid(f) && !responseOk ==> r.fields == f.(errors := map[], success := false)
    ensures WellFormed(f) ==> WellFormed(r.fields)
  {
    var errors := Validate(f);
    ValidIff(f);
    if |errors| != 0 then Outcome(f.(errors := errors), None)
    else
      var payload := BuildPayload(f);
      if responseOk then Outcome(Reset(f), Some(payload))
      else Outcome(f.(errors := errors, success := false), Some(payload))
  }

  /** A failed submission keeps every message `validateForm` produced, so each shows. */
  lemma RejectedShowsEveryError(f: Fields, responseOk: bool, key: ErrorKey)
    requires !IsValid(f) && key in Validate(f)
    ensures Shows(Submit(f, responseOk).fields, key)
  {
  }

  // ---------------------------------------------------------------------------
  // Summary box
  // ---------------------------------------------------------------------------

  /** An option the summary counts as filled: something other than white space. */
  predicate Filled(option: string) {
    !IsBlank(option)
  }

  /** What the summary box shows: the selected letter (`undefined` past D), the selected
      option's text, marks and time limit (`Not set` when empty) and how many options are
      filled. */
  datatype Summary = Summary(letter: Value, answer: string, marks: string, timer: string, filled: nat)

  const NotSet := "Not set"

  /** The summary box: shown when an answer is selected and that option's text is non-empty (a
      text of spaces is enough). It prints the letter and text of the selected option, the marks
      and time limit as typed (`Not set` when empty) and the number of options that are not
      blank. */
  function SummaryOf(f: Fields): (r: Option<Summary>)
    ensures r.Some? <==>
      f.correctAnswer.Some? && 0 <= f.correctAnswer.value < |f.options| && f.options[f.correctAnswer.value] != ""
    ensures r.Some? ==> r.value.answer == f.options[f.correctAnswer.value]
    ensures r.Some? ==> r.value.letter == Store.LetterAt(f.correctAnswer.value)
    ensures r.Some? && f.marks != "" ==> r.value.marks == f.marks
    ensures r.Some? && f.marks == "" ==> r.value.marks == NotSet
    ensures r.Some? && f.timer != "" ==> r.value.timer == f.timer
    ensures r.Some? && f.timer == "" ==> r.value.timer == NotSet
    ensures r.Some? ==> r.value.filled == Seqs.Count(f.options, Filled)
    ensures r.Some? ==> r.value.filled <= |f.options|
  {
    match f.correctAnswer
    case None => None
    case Some(i) =>
      if 0 <= i < |f.options| && f.options[i] != "" then
        Seqs.FilterCount(f.options, Filled);
        Some(Summary(Store.LetterAt(i), f.options[i],
                     if f.marks == "" then NotSet else f.marks,
                     if f.timer == "" then NotSet else f.timer,
                     |Seqs.Filter(f.options, Filled)|))
      else None
  }

  /** The summary reports every option filled exactly when the options check passes. */
  lemma {:induction false} FilledCountIff(options: seq<string>)
    ensures Seqs.Count(options, Filled) <= |options|
    ensures Seqs.Count(options, Filled) == |options| <==> !SomeOptionBlank(options)
  {
    if |options| > 0 {
      var tail := options[1..];
      FilledCountIff(tail);
      if SomeOptionBlank(tail) {
        var i :| 0 <= i < |tail| && IsBlank(tail[i]);
        assert IsBlank(options[i + 1]);
      }
      if SomeOptionBlank(options) && !IsBlank(options[0]) {
        var i :| 0 <= i < |options| && IsBlank(options[i]);
        assert IsBlank(tail[i - 1]);
      }
    }
  }

  /** A form that passes validation shows the summary, with the selected letter, every option
      counted as filled, and the marks and time limit as typed. */
  lemma ValidFormSummary(f: Fields)
    requires WellFormed(f) && IsValid(f)
    ensures SummaryOf(f).Some?
    ensures SummaryOf(f).value.letter == Str(Store.Letters[f.correctAnswer.value])
    ensures SummaryOf(f).value.filled == OptionCount
    ensures SummaryOf(f).value.marks == f.marks && SummaryOf(f).value.timer == f.timer
  {
    ValidFilled(f);
    NonBlankNonEmpty(f.marks);
    NonBlankNonEmpty(f.timer);
    NonBlankNonEmpty(f.options[f.correctAnswer.value]);
    FilledSummary(f);
  }

  /** The summary of a form whose options are all filled and whose numbers are typed. */
  lemma FilledSummary(f: Fields)
    requires WellFormed(f) && f.correctAnswer.Some? && !SomeOptionBlank(f.options)
    requires f.options[f.correctAnswer.value] != "" && f.marks != "" && f.timer != ""
    ensures SummaryOf(f) == Some(Summary(Str(Store.Letters[f.correctAnswer.value]),
      f.options[f.correctAnswer.value], f.marks, f.timer, OptionCount))
  {
    FilledCountIff(f.options);
  }

  /** What the summary needs from validation: an answer, non-blank options, marks and time. */
  lemma ValidFilled(f: Fields)
    requires IsValid(f)
    ensures f.correctAnswer.Some? && !SomeOptionBlank(f.options)
    ensures !IsBlank(f.marks) && !IsBlank(f.timer)
  {
  }
}
