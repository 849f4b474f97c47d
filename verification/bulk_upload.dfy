/** `POST /bulk-upload` (preplensadmin/backend/index.js:76-121): every spreadsheet row is mapped
    to a question document, with shared batch values for marks, time limit, blooms and type,
    and the whole batch is inserted with one `insertMany`. Reading the workbook is not modelled:
    the rows arrive as the sequence the sheet reader produced. */
module BulkUpload {
  import opened Js
  import opened JsString
  import opened Store
  import Seqs

  /** One row object as the sheet reader yields it: a missing cell is `undefined`, a numeric
      cell a number, any other cell a string. `qtype` is the `type` column. */
  datatype Row = Row(
    text: Value,
    optionA: Value, optionB: Value, optionC: Value, optionD: Value,
    answer: Value,
    solution: Value,
    subject: Value, exam: Value, difficulty: Value,
    tags: Value,
    marks: Value, timeLimit: Value, blooms: Value, qtype: Value)

  /** The multipart text fields sent with the file (`undefined` when not sent). */
  datatype Batch = Batch(marks: Value, timeLimit: Value, blooms: Value, qtype: Value)

  /** The TypeError a row throws when a string method is called on a numeric cell. */
  datatype RowError = AnswerNotText | TagsNotText

  /** `row.answer?.toUpperCase()`. */
  function AnswerLetter(answer: Value): (r: Result<Value, RowError>)
    ensures r.Err? <==> answer.Num?
    ensures answer.Str? ==> r == Ok(Str(ToUpper(answer.s)))
    ensures (answer.Undefined? || answer.Null?) ==> r == Ok(Undefined)
  {
    match answer
    case Undefined => Ok(Undefined)
    case Null => Ok(Undefined)
    case Num(_) => Err(AnswerNotText)
    case Str(s) => Ok(Str(ToUpper(s)))
  }

  /** `['A', 'B', 'C', 'D'].indexOf(letter)` under strict equality. */
  function LetterIndex(letter: Value): (i: int)
    ensures -1 <= i < |Letters|
    ensures i >= 0 ==> letter == Str(Letters[i])
    ensures i == -1 <==> forall k :: 0 <= k < |Letters| ==> letter != Str(Letters[k])
  {
    if letter == Str("A") then 0
    else if letter == Str("B") then 1
    else if letter == Str("C") then 2
    else if letter == Str("D") then 3
    else -1
  }

  /** `row.tags ? row.tags.split(',') : []`. */
  function RowTags(tags: Value): (r: Result<seq<string>, RowError>)
    ensures r.Err? <==> (tags.Num? && tags.n != 0)
    ensures r.Ok? && Truthy(tags) ==> |r.value| >= 1 && Join(r.value, ',') == tags.s
    ensures !Truthy(tags) ==> r == Ok([])
  {
    if !Truthy(tags) then Ok([])
    else if tags.Num? then Err(TagsNotText)
    else
      JoinSplit(tags.s, ',');
      Ok(Split(tags.s, ','))
  }

  function RowOptions(row: Row): seq<Value> {
    [row.optionA, row.optionB, row.optionC, row.optionD]
  }

  /** The per-row mapping of `rows.map`, including the TypeErrors it can throw. The answer
      letter is upper-cased and looked up in A-D; a letter outside A-D leaves the index `null`
      and the answer text empty but still yields a document. */
  function MapRow(row: Row, batch: Batch): (r: Result<Doc, RowError>)
    ensures r.Err? <==> row.answer.Num? || (row.tags.Num? && row.tags.n != 0)
    ensures r.Ok? ==>
      var d := r.value;
      var letter := AnswerLetter(row.answer).value;
      && d.options == RowOptions(row)
      && d.correctOptionLetter == letter
      && (LetterIndex(letter) >= 0 ==>
            d.correctOptionIndex == Present(LetterIndex(letter))
            && d.answer == Or(RowOptions(row)[LetterIndex(letter)], Str("")))
      && (LetterIndex(letter) < 0 ==> d.correctOptionIndex == Nulled && d.answer == Str(""))
      && AnswerConsistent(d)
    ensures r.Ok? && Truthy(row.text) ==> r.value.text == row.text
    ensures r.Ok? && !Truthy(row.text) ==> r.value.text == Str("")
    ensures r.Ok? && Truthy(row.solution) ==> r.value.solution == row.solution
    ensures r.Ok? && !Truthy(row.solution) ==> r.value.solution == Str("")
    ensures r.Ok? ==> r.value.subject == row.subject && r.value.exam == row.exam
    ensures r.Ok? ==> r.value.difficulty == row.difficulty
    ensures r.Ok? ==> RowTags(row.tags).Ok? && r.value.tags == RowTags(row.tags).value
    ensures r.Ok? ==> r.value.imageUrl == Undefined
  {
    var options := RowOptions(row);
    var letterOrError := AnswerLetter(row.answer);
    if letterOrError.Err? then Err(letterOrError.error)
    else
      var letter := letterOrError.value;
      var k := LetterIndex(letter);
      var answerText := Or(At(options, k), Str(""));
      var tagsOrError := RowTags(row.tags);
      if tagsOrError.Err? then Err(tagsOrError.error)
      else
        var batchType := Or(batch.qtype, Str("static"));
        Ok(Doc(
          text := Or(row.text, Str("")),
          options := options,
          answer := answerText,
          correctOptionIndex := if k >= 0 then Present(k) else Nulled,
          correctOptionLetter := letter,
          solution := Or(row.solution, Str("")),
          subject := row.subject,
          exam := row.exam,
          difficulty := row.difficulty,
          tags := tagsOrError.value,
          marks := Or(batch.marks, Or(row.marks, Num(4))),
          timeLimit := Or(batch.timeLimit, Or(row.timeLimit, Num(60))),
          blooms := Or(batch.blooms, Or(row.blooms, Str(""))),
          qtype := Or(row.qtype, batchType),
          imageUrl := Undefined))
  }

  /** `rows.map(...)`: all documents in row order, or the error of the first row that throws. */
  function MapRows(rows: seq<Row>, batch: Batch): (r: Result<seq<Doc>, RowError>)
    ensures r.Ok? <==> forall i :: 0 <= i < |rows| ==> MapRow(rows[i], batch).Ok?
    ensures r.Ok? ==> |r.value| == |rows|
    ensures r.Ok? ==> forall i :: 0 <= i < |rows| ==> r.value[i] == MapRow(rows[i], batch).value
  {
    if |rows| == 0 then Ok([])
    else
      var first := MapRow(rows[0], batch);
      if first.Err? then Err(first.error)
      else
        var rest := MapRows(rows[1..], batch);
        if rest.Err? then
          Err(rest.error)
        else
          Ok([first.value] + rest.value)
  }

  /** The route's reply: the inserted documents, or the 500 "Failed to parse file" error. */
  datatype Reply = Added(added: nat, questions: seq<Doc>) | Failed(cause: Failure)

  datatype Failure = RowThrew(error: RowError) | InsertRejected

  datatype Outcome = Outcome(store: seq<Doc>, reply: Reply)

  /** The route body after the workbook is read. `insertOk` is whether the store accepted the
      batch (schema casting and validation are the store's and are not modelled); `insertMany`
      stores all documents or none. */
  function Upload(store: seq<Doc>, rows: seq<Row>, batch: Batch, insertOk: bool): (r: Outcome)
    ensures r.reply.Added? <==> insertOk && forall i :: 0 <= i < |rows| ==> MapRow(rows[i], batch).Ok?
    ensures r.reply.Added? ==>
      && r.reply.added == |rows| == |r.reply.questions|
      && r.store == InsertMany(store, r.reply.questions)
      && forall i :: 0 <= i < |rows| ==> r.reply.questions[i] == MapRow(rows[i], batch).value
    ensures r.reply.Failed? ==> r.store == store
  {
    var mapped := MapRows(rows, batch);
    if mapped.Err? then Outcome(store, Failed(RowThrew(mapped.error)))
    else if !insertOk then Outcome(store, Failed(InsertRejected))
    else Outcome(InsertMany(store, mapped.value), Added(|mapped.value|, mapped.value))
  }

  /** Batch values win over row values for marks, time limit and blooms when they are truthy;
      the hard-coded defaults 4, 60 and '' apply only when both are falsy. For `type` the row
      wins, then the batch value, then 'static'. */
  lemma DefaultPrecedence(row: Row, batch: Batch)
    requires MapRow(row, batch).Ok?
    ensures var d := MapRow(row, batch).value;
      && d.marks == (if Truthy(batch.marks) then batch.marks
                     else if Truthy(row.marks) then row.marks else Num(4))
      && d.timeLimit == (if Truthy(batch.timeLimit) then batch.timeLimit
                         else if Truthy(row.timeLimit) then row.timeLimit else Num(60))
      && d.blooms == (if Truthy(batch.blooms) then batch.blooms
                      else if Truthy(row.blooms) then row.blooms else Str(""))
      && d.qtype == (if Truthy(row.qtype) then row.qtype
                     else if Truthy(batch.qtype) then batch.qtype else Str("static"))
      && Truthy(d.marks) && Truthy(d.timeLimit) && Truthy(d.qtype)
  {
    OrChain(batch.marks, row.marks, Num(4));
    OrChain(batch.timeLimit, row.timeLimit, Num(60));
    OrChain(batch.blooms, row.blooms, Str(""));
  }

  /** An answer cell that upper-cases to A-D resolves to that position, whatever its case. */
  lemma LetterResolves(row: Row, batch: Batch, k: nat)
    requires k < |Letters|
    requires row.answer.Str? && ToUpper(row.answer.s) == Letters[k]
    requires !(row.tags.Num? && row.tags.n != 0)
    ensures MapRow(row, batch).Ok?
    ensures MapRow(row, batch).value.correctOptionIndex == Present(k)
    ensures MapRow(row, batch).value.answer == Or(RowOptions(row)[k], Str(""))
  {
  }

  /** A row whose answer is missing or not one of A-D (after upper-casing) is still stored,
      with a `null` index, empty answer text and the raw upper-cased letter. */
  lemma UnresolvedRowDegrades(row: Row, batch: Batch)
    requires !row.answer.Num? && !(row.tags.Num? && row.tags.n != 0)
    requires row.answer.Str? ==> ToUpper(row.answer.s) !in Letters
    ensures MapRow(row, batch).Ok?
    ensures MapRow(row, batch).value.correctOptionIndex == Nulled
    ensures MapRow(row, batch).value.answer == Str("")
    ensures MapRow(row, batch).value.correctOptionLetter ==
              (if row.answer.Str? then Str(ToUpper(row.answer.s)) else Undefined)
  {
  }

  /** The lower-case letter `b` resolves to option B. */
  lemma LowerCaseLetterExample(row: Row, batch: Batch)
    requires row.answer == Str("b") && row.tags == Undefined
    ensures MapRow(row, batch).Ok?
    ensures MapRow(row, batch).value.correctOptionIndex == Present(1)
    ensures MapRow(row, batch).value.correctOptionLetter == Str("B")
  {
    assert ToUpper("b") == "B";
  }

  /** A row whose answer letter is `E` keeps the letter but has no index and no answer text. */
  lemma OutOfRangeLetterExample(row: Row, batch: Batch)
    requires row.answer == Str("E") && row.tags == Undefined
    ensures MapRow(row, batch).Ok?
    ensures MapRow(row, batch).value.correctOptionIndex == Nulled
    ensures MapRow(row, batch).value.answer == Str("")
    ensures MapRow(row, batch).value.correctOptionLetter == Str("E")
  {
    assert ToUpper("E") == "E";
  }

  /** The tag cell is split on commas only: joining the stored tags with commas gives the cell
      back, so spaces around tags and empty tags are kept. */
  lemma TagsNotTrimmed(row: Row, batch: Batch)
    requires MapRow(row, batch).Ok? && row.tags.Str? && row.tags.s != ""
    ensures Join(MapRow(row, batch).value.tags, ',') == row.tags.s
    ensures |MapRow(row, batch).value.tags| == CountChar(row.tags.s, ',') + 1
  {
    SplitPieces(row.tags.s, ',');
  }

  /** A successful upload leaves every document of the batch answer-consistent. */
  lemma UploadConsistent(store: seq<Doc>, rows: seq<Row>, batch: Batch, insertOk: bool)
    requires Upload(store, rows, batch, insertOk).reply.Added?
    ensures forall d :: d in Upload(store, rows, batch, insertOk).reply.questions ==> AnswerConsistent(d)
  {
    var qs := Upload(store, rows, batch, insertOk).reply.questions;
    forall d | d in qs
      ensures AnswerConsistent(d)
    {
      var i :| 0 <= i < |qs| && qs[i] == d;
      assert MapRow(rows[i], batch).Ok?;
    }
  }
}
