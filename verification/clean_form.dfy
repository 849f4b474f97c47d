/** The other copy of the question form (preplens-clean/components/CreateQuestionForm.tsx). Its
    validation, payload, single-field edits and reset are the shared ones of `QuestionForm`;
    what it does differently is the diagram, which it uploads itself and records straight from
    the upload reply. */
module CleanForm {
  import opened Js
  import QuestionForm
  import CreateQuestion
  import Statistics

  /** What the upload reply's `url` property holds: an address, `null`, or nothing at all (a
      reply without the property, such as an error reply). */
  type ReplyUrl = Slot<string>

  /** `handleDiagramChange`: with no file chosen nothing happens; otherwise the reply's `url` is
      stored as it comes, replacing any earlier diagram, and nothing else changes. */
  function DiagramChange(f: QuestionForm.Fields, reply: Option<ReplyUrl>): (r: QuestionForm.Fields)
    ensures reply.None? ==> r == f
    ensures reply.Some? ==> r.imageUrl == reply.value
    ensures r == f.(imageUrl := r.imageUrl)
    ensures QuestionForm.WellFormed(f) ==> QuestionForm.WellFormed(r)
  {
    if reply.Some? then f.(imageUrl := reply.value) else f
  }

  /** A reply without an address wipes the diagram: the request then carries no `imageUrl`
      (JSON leaves out `undefined`), the stored question has none, and both ways of counting
      images count it as without one, whatever was uploaded before. */
  lemma MissingUrlDropsDiagram(f: QuestionForm.Fields)
    ensures var r := DiagramChange(f, Some(Absent));
      var d := CreateQuestion.NewDoc(QuestionForm.ToBody(QuestionForm.BuildPayload(r)));
      && QuestionForm.ToBody(QuestionForm.BuildPayload(r)).imageUrl == Undefined
      && d.imageUrl == Undefined
      && !Statistics.HasImageAsWritten(d) && !Statistics.HasImage(d)
  {
  }

  /** A reply with an address sends and stores exactly that address. */
  lemma UploadedDiagramStored(f: QuestionForm.Fields, url: string)
    ensures var r := DiagramChange(f, Some(Present(url)));
      CreateQuestion.NewDoc(QuestionForm.ToBody(QuestionForm.BuildPayload(r))).imageUrl == Str(url)
  {
  }

  /** The diagram does not take part in validation: a form's validity is the same whatever the
      reply stored. */
  lemma DiagramIgnoredByValidation(f: QuestionForm.Fields, reply: Option<ReplyUrl>)
    ensures QuestionForm.Validate(DiagramChange(f, reply)) == QuestionForm.Validate(f)
  {
  }
}
