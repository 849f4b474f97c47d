/** `POST /questions` (preplensadmin/backend/index.js:170-203): one question from a JSON body
    whose `correctAnswer` is a 0-based option index. */
module CreateQuestion {
  import opened Js
  import opened Store

  /** The JSON body. `options` is `None` when absent or `null`; an absent `tags` array is the
      empty array the schema defaults it to; `qtype` is the `type` field. */
  datatype Body = Body(
    text: Value,
    answer: Value,
    options: Option<seq<Value>>,
    subject: Value, exam: Value, difficulty: Value,
    tags: seq<string>,
    marks: Value, timeLimit: Value, blooms: Value, qtype: Value,
    imageUrl: Value,
    correctAnswer: Slot<int>,
    solution: Value)

  /** The guard of the answer mapping: `correctAnswer` is neither `null` nor `undefined` (so 0
      counts) and `options` is a non-empty array. */
  predicate MapsAnswer(b: Body) {
    b.correctAnswer.Present? && b.options.Some? && |b.options.value| > 0
  }

  /** The document the route saves. */
  function NewDoc(b: Body): (d: Doc)
    ensures MapsAnswer(b) ==>
      var k := b.correctAnswer.value;
      && d.correctOptionIndex == Present(k)
      && d.correctOptionLetter == LetterAt(k)
      && d.answer == (if Truthy(At(b.options.value, k)) then At(b.options.value, k) else b.answer)
    ensures !MapsAnswer(b) ==>
      d.correctOptionIndex == Nulled && d.correctOptionLetter == Null && d.answer == b.answer
    ensures d.qtype == (if Truthy(b.qtype) then b.qtype else Str("static"))
    ensures d.solution == (if Truthy(b.solution) then b.solution else Str(""))
    ensures d.text == b.text && d.imageUrl == b.imageUrl && d.marks == b.marks
    ensures d.options == (if b.options.Some? then b.options.value else [])
    ensures d.tags == b.tags
    ensures d.subject == b.subject && d.exam == b.exam && d.difficulty == b.difficulty
    ensures d.timeLimit == b.timeLimit && d.blooms == b.blooms
  {
    var options := if b.options.Some? then b.options.value else [];
    var mapped := MapsAnswer(b);
    Doc(
      text := b.text,
      options := options,
      answer := if mapped then Or(At(options, b.correctAnswer.value), b.answer) else b.answer,
      correctOptionIndex := if mapped then b.correctAnswer else Nulled,
      correctOptionLetter := if mapped then LetterAt(b.correctAnswer.value) else Null,
      solution := Or(b.solution, Str("")),
      subject := b.subject,
      exam := b.exam,
      difficulty := b.difficulty,
      tags := b.tags,
      marks := b.marks,
      timeLimit := b.timeLimit,
      blooms := b.blooms,
      qtype := Or(b.qtype, Str("static")),
      imageUrl := b.imageUrl)
  }

  datatype Outcome = Outcome(store: seq<Doc>, created: Option<Doc>)

  /** The route: the document is appended when `save` succeeds (`saveOk`); a failed save is an
      unhandled rejection, so nothing is stored and no document is returned. */
  function AddQuestion(store: seq<Doc>, b: Body, saveOk: bool): (r: Outcome)
    ensures saveOk ==> r.store == InsertMany(store, [NewDoc(b)]) && r.created == Some(NewDoc(b))
    ensures !saveOk ==> r.store == store && r.created == None
  {
    if saveOk then Outcome(store + [NewDoc(b)], Some(NewDoc(b))) else Outcome(store, None)
  }

  /** A selected index that names an existing option among A-D yields an answer-consistent
      document; an index of 4 or more, or past the options, does not. */
  lemma NewDocConsistent(b: Body)
    requires MapsAnswer(b) ==> 0 <= b.correctAnswer.value < |Letters| && b.correctAnswer.value < |b.options.value|
    ensures AnswerConsistent(NewDoc(b))
  {
  }

  /** An index past the letter table stores an index with no letter: the record is not
      answer-consistent. */
  lemma IndexPastLettersInconsistent(b: Body)
    requires MapsAnswer(b) && b.correctAnswer.value >= |Letters|
    ensures NewDoc(b).correctOptionLetter == Undefined
    ensures !AnswerConsistent(NewDoc(b))
  {
  }

  /** Index 2 over options a-d stores letter C and answer text `c`, overriding any answer the
      caller sent. */
  lemma IndexTwoExample(b: Body)
    requires b.correctAnswer == Present(2)
    requires b.options == Some([Str("a"), Str("b"), Str("c"), Str("d")])
    ensures NewDoc(b).correctOptionIndex == Present(2)
    ensures NewDoc(b).correctOptionLetter == Str("C")
    ensures NewDoc(b).answer == Str("c")
  {
  }

  /** Index 0 is a real selection, not a missing one. */
  lemma IndexZeroMaps(b: Body)
    requires b.correctAnswer == Present(0) && b.options.Some? && |b.options.value| > 0
    ensures NewDoc(b).correctOptionIndex == Present(0)
    ensures NewDoc(b).correctOptionLetter == Str("A")
  {
  }
}
