/** The admin copy of the question form (preplensadmin/components/CreateQuestionForm.tsx). It
    shares validation, the payload and the single-field edits with the other copy (module
    `QuestionForm`) and adds images inside option texts, LaTeX insertion through the math editor
    and a diagram chosen through the image uploader. */
module AdminForm {
  import opened Js
  import opened JsString
  import Seqs
  import QuestionForm
  import MathEditor
  import CreateQuestion
  import Statistics

  /** The admin form's state: the shared fields, the uploaded image address per option, and the
      math editor's visibility, target and option index. */
  datatype Admin = Admin(
    form: QuestionForm.Fields,
    optionImages: map<int, string>,
    showMathEditor: bool,
    mathTarget: MathEditor.Target,
    mathOptionIndex: int)

  const Initial: Admin := Admin(QuestionForm.Initial, map[], false, MathEditor.QuestionText, 0)

  /** `handleImageChange`: the uploader reports an address, or `null` once the image is removed. */
  function ImageChange(s: Admin, imageUrl: Option<string>): (r: Admin)
    ensures imageUrl.Some? ==> r.form.imageUrl == Present(imageUrl.value)
    ensures imageUrl.None? ==> r.form.imageUrl == Nulled
    ensures r == s.(form := s.form.(imageUrl := r.form.imageUrl))
  {
    s.(form := s.form.(imageUrl := if imageUrl.Some? then Present(imageUrl.value) else Nulled))
  }

  /** The admin form never sends an `imageUrl` of `undefined`: the diagram address it sends is
      the uploader's string or `null`. */
  lemma AdminImageNeverUndefined(s: Admin, imageUrl: Option<string>)
    requires !s.form.imageUrl.Absent?
    ensures !ImageChange(s, imageUrl).form.imageUrl.Absent?
    ensures QuestionForm.ToBody(QuestionForm.BuildPayload(ImageChange(s, imageUrl).form)).imageUrl
         == (if imageUrl.Some? then Str(imageUrl.value) else Null)
  {
  }

  // ---------------------------------------------------------------------------
  // Math editor wiring
  // ---------------------------------------------------------------------------

  /** `openMathEditor`: the target is set, the option index only when one is given, and the
      editor is shown. */
  function OpenMathEditor(s: Admin, target: MathEditor.Target, optionIndex: Option<int>): (r: Admin)
    ensures r.showMathEditor && r.mathTarget == target
    ensures r.mathOptionIndex == (if optionIndex.Some? then optionIndex.value else s.mathOptionIndex)
    ensures r.form == s.form && r.optionImages == s.optionImages
  {
    s.(showMathEditor := true, mathTarget := target,
       mathOptionIndex := if optionIndex.Some? then optionIndex.value else s.mathOptionIndex)
  }

  /** The editor's `onClose`. */
  function CloseMathEditor(s: Admin): (r: Admin)
    ensures !r.showMathEditor && r == s.(showMathEditor := false)
  {
    s.(showMathEditor := false)
  }

  /** `prev.map((opt, i) => i === k ? opt + latex : opt)`. */
  function AppendAt(options: seq<string>, k: int, latex: string): (r: seq<string>)
    ensures |r| == |options|
    ensures forall i :: 0 <= i < |r| ==> r[i] == (if i == k then options[i] + latex else options[i])
  {
    seq(|options|, i requires 0 <= i < |options| => if i == k then options[i] + latex else options[i])
  }

  /** `handleMathInsert`: the LaTeX goes at the end of exactly one text: the question, the
      solution, or option `k`, where the target and `k` fall back to the form's own when the
      caller gives none. An option index outside the options changes nothing. */
  function MathInsert(s: Admin, latex: string, target: Option<MathEditor.Target>, optionIndex: Option<int>): (r: Admin)
    ensures var t := if target.Some? then target.value else s.mathTarget;
      && (t == MathEditor.QuestionText ==>
            r == s.(form := s.form.(questionText := s.form.questionText + latex)))
      && (t == MathEditor.SolutionText ==>
            r == s.(form := s.form.(solutionText := s.form.solutionText + latex)))
      && (t == MathEditor.OptionText ==> r == s.(form := s.form.(options := r.form.options)))
    ensures var k := if optionIndex.Some? then optionIndex.value else s.mathOptionIndex;
      (if target.Some? then target.value else s.mathTarget) == MathEditor.OptionText ==>
        && |r.form.options| == |s.form.options|
        && (0 <= k < |s.form.options| ==> r.form.options[k] == s.form.options[k] + latex)
        && (forall i :: 0 <= i < |s.form.options| && i != k ==> r.form.options[i] == s.form.options[i])
    ensures QuestionForm.WellFormed(s.form) ==> QuestionForm.WellFormed(r.form)
  {
    var t := if target.Some? then target.value else s.mathTarget;
    var k := if optionIndex.Some? then optionIndex.value else s.mathOptionIndex;
    match t
    case QuestionText => s.(form := s.form.(questionText := s.form.questionText + latex))
    case SolutionText => s.(form := s.form.(solutionText := s.form.solutionText + latex))
    case OptionText => s.(form := s.form.(options := AppendAt(s.form.options, k, latex)))
  }

  /** Inserting into an option that does not exist leaves the whole form as it was. */
  lemma MathInsertOutOfRange(s: Admin, latex: string, k: int)
    requires !(0 <= k < |s.form.options|)
    ensures MathInsert(s, latex, Some(MathEditor.OptionText), Some(k)) == s
  {
    var r := MathInsert(s, latex, Some(MathEditor.OptionText), Some(k));
    assert forall i :: 0 <= i < |r.form.options| ==> r.form.options[i] == s.form.options[i];
    assert r.form.options == s.form.options;
  }

  /** Inserting the empty text changes nothing, whatever the target. */
  lemma MathInsertEmpty(s: Admin, target: Option<MathEditor.Target>, optionIndex: Option<int>)
    ensures MathInsert(s, "", target, optionIndex) == s
  {
    var r := MathInsert(s, "", target, optionIndex);
    assert s.form.questionText + "" == s.form.questionText;
    assert s.form.solutionText + "" == s.form.solutionText;
    forall i | 0 <= i < |s.form.options|
      ensures s.form.options[i] + "" == s.form.options[i]
    {
    }
    assert AppendAt(s.form.options, s.mathOptionIndex, "") == s.form.options;
  }

  /** The editor's insert button, with the editor mounted on the form's target and option index
      (it receives them as props, and its effect copies them in): `onInsert` is `MathInsert`,
      `onClose` is `CloseMathEditor`. */
  function EditorInsert(s: Admin, e: MathEditor.Editor): (r: (Admin, MathEditor.Editor))
    ensures var synced := MathEditor.SyncProps(e, Some(s.mathTarget), Some(s.mathOptionIndex));
      var res := MathEditor.Insert(synced);
      && r.1 == res.editor
      && (res.call.None? ==> r.0 == s)
      && (res.call.Some? ==> r.0 == CloseMathEditor(MathInsert(s, res.call.value.latex,
            Some(res.call.value.target), Some(res.call.value.optionIndex))))
  {
    var synced := MathEditor.SyncProps(e, Some(s.mathTarget), Some(s.mathOptionIndex));
    var res := MathEditor.Insert(synced);
    match res.call
    case None => (s, res.editor)
    case Some(c) =>
      var s1 := MathInsert(s, c.latex, Some(c.target), Some(c.optionIndex));
      (if res.closed then CloseMathEditor(s1) else s1, res.editor)
  }

  /** The f(x) button of option `idx`, some LaTeX typed, then Insert: the LaTeX lands at the end
      of that option and nowhere else, the editor closes and its buffer is empty. */
  lemma OptionMathRoundTrip(s: Admin, e: MathEditor.Editor, idx: int, latex: string)
    requires 0 <= idx < |s.form.options|
    requires !IsBlank(latex)
    ensures var s1 := OpenMathEditor(s, MathEditor.OptionText, Some(idx));
      var r := EditorInsert(s1, MathEditor.EditLatex(e, latex));
      && r.0.form == s.form.(options := r.0.form.options)
      && |r.0.form.options| == |s.form.options|
      && r.0.form.options[idx] == s.form.options[idx] + latex
      && (forall i :: 0 <= i < |s.form.options| && i != idx ==> r.0.form.options[i] == s.form.options[i])
      && !r.0.showMathEditor
      && r.1.latex == ""
  {
  }

  /** The question's f(x) button followed by Insert appends the LaTeX to the question text and
      changes nothing else in the form. */
  lemma QuestionMathRoundTrip(s: Admin, e: MathEditor.Editor, latex: string)
    requires !IsBlank(latex)
    ensures var s1 := OpenMathEditor(s, MathEditor.QuestionText, None);
      var r := EditorInsert(s1, MathEditor.EditLatex(e, latex));
      r.0.form == s.form.(questionText := s.form.questionText + latex) && !r.0.showMathEditor
  {
  }

  /** Insert with a blank buffer leaves the form and the editor untouched, and the editor open. */
  lemma BlankInsertNoEffect(s: Admin, e: MathEditor.Editor)
    requires IsBlank(e.latex)
    ensures EditorInsert(s, e).0 == s
    ensures EditorInsert(s, e).1 == MathEditor.SyncProps(e, Some(s.mathTarget), Some(s.mathOptionIndex))
  {
  }

  // ---------------------------------------------------------------------------
  // Option images
  // ---------------------------------------------------------------------------

  const ImgOpen := "<img"
  const LineBreak := "<br/>"

  const SrcOpen := " src=\""
  const AltOpen := "\" alt=\"Option "
  const AltClose := " image\" style=\""
  const StyleClose := "max-width: 200px; height: auto;\" /"

  /** The tag text between `<img` and the closing `>`. */
  function TagInside(url: string, idx: nat): (t: string)
    ensures '>' !in url ==> '>' !in t
  {
    var n := NatToString(idx + 1);
    assert '>' !in n;
    assert '>' !in SrcOpen && '>' !in AltOpen && '>' !in AltClose;
    assert '>' !in StyleClose;
    SrcOpen + url + AltOpen + n + AltClose + StyleClose
  }

  /** The `<img>` tag added to option `idx` (its alt text numbers options from 1). */
  function ImageTag(url: string, idx: nat): (t: string)
    ensures |t| > 4 && t[..4] == ImgOpen && t[|t| - 1] == '>'
    ensures t == ImgOpen + t[4..|t| - 1] + ">"
    ensures '>' !in url ==> '>' !in t[4..|t| - 1]
  {
    var inside := TagInside(url, idx);
    var t := ImgOpen + inside + ">";
    assert t[4..|t| - 1] == inside;
    t
  }

  /** The option text after an image is added: a line break first when the option is not
      empty, then the tag. */
  function WithImage(option: string, tag: string): (r: string)
    ensures option == "" ==> r == tag
    ensures option != "" ==> r == option + LineBreak + tag
  {
    option + (if option != "" then LineBreak else "") + tag
  }

  /** The text update of `handleOptionImageUpload`: only when the upload reply carries a truthy
      `url` is it recorded for option `idx` and the tag appended to that option alone. A reply
      without one, or a failed request, changes nothing. */
  function OptionImageUploaded(s: Admin, idx: nat, url: Option<string>): (r: Admin)
    ensures !(url.Some? && url.value != "") ==> r == s
    ensures url.Some? && url.value != "" ==>
      && r.optionImages == s.optionImages[idx := url.value]
      && |r.form.options| == |s.form.options|
      && (idx < |s.form.options| ==>
            r.form.options[idx] == WithImage(s.form.options[idx], ImageTag(url.value, idx)))
      && (forall i :: 0 <= i < |s.form.options| && i != idx ==> r.form.options[i] == s.form.options[i])
      && r == s.(optionImages := r.optionImages, form := s.form.(options := r.form.options))
    ensures QuestionForm.WellFormed(s.form) ==> QuestionForm.WellFormed(r.form)
  {
    if url.Some? && url.value != "" then
      var tag := ImageTag(url.value, idx);
      var options := seq(|s.form.options|, i requires 0 <= i < |s.form.options| =>
        if i == idx then WithImage(s.form.options[i], tag) else s.form.options[i]);
      s.(optionImages := s.optionImages[idx := url.value], form := s.form.(options := options))
    else s
  }

  /** `text.replace(/<img[^>]*>/g, '')`: from left to right, every `<img` followed somewhere
      by a `>` is removed up to and including the first such `>`, and the scan goes on after
      it; a `<img` with no `>` after it stays. */
  function StripImgTags(s: string): (r: string)
    ensures |r| <= |s|
    decreases |s|
  {
    if |s| == 0 then ""
    else if StartsWith(s, ImgOpen) && '>' in s[4..] then
      StripImgTags(s[4 + FirstIndex(s[4..], '>') + 1..])
    else
      [s[0]] + StripImgTags(s[1..])
  }

  /** Removing image tags only deletes characters: what remains is a subsequence of the text. */
  lemma {:induction false} StripOnlyDeletes(s: string)
    ensures Seqs.Subsequence(StripImgTags(s), s)
    decreases |s|
  {
    if |s| == 0 {
    } else if StartsWith(s, ImgOpen) && '>' in s[4..] {
      var j := 4 + FirstIndex(s[4..], '>') + 1;
      StripOnlyDeletes(s[j..]);
      SubsequenceDrop(StripImgTags(s[j..]), s, j);
    } else {
      var r := StripImgTags(s[1..]);
      StripOnlyDeletes(s[1..]);
      assert ([s[0]] + r)[1..] == r;
    }
  }

  /** Dropping a prefix of the longer sequence keeps a subsequence relation. */
  lemma {:induction false} SubsequenceDrop(a: seq<char>, b: seq<char>, k: nat)
    requires k <= |b| && Seqs.Subsequence(a, b[k..])
    ensures Seqs.Subsequence(a, b)
    decreases k
  {
    if k > 0 {
      assert b[k - 1..] == [b[k - 1]] + b[k..];
      Seqs.SubsequenceSkip(a, b[k..], b[k - 1]);
      SubsequenceDrop(a, b, k - 1);
    }
  }

  /** Where no `<img` starts, the first character is kept and the scan moves on by one. */
  lemma KeepFirst(s: string)
    requires |s| > 0 && !StartsWith(s, ImgOpen)
    ensures StripImgTags(s) == [s[0]] + StripImgTags(s[1..])
  {
  }

  /** A text whose first character is not `<`, or whose second is not `i`, does not start
      with `<img`. */
  lemma NotImgStart(s: string)
    requires |s| > 0 && (s[0] != '<' || (|s| > 1 && s[1] != 'i'))
    ensures !StartsWith(s, ImgOpen)
  {
  }

  /** A text that does not contain `<img` anywhere is left unchanged. */
  lemma {:induction false} StripWithoutImg(s: string)
    requires !Includes(s, ImgOpen)
    ensures StripImgTags(s) == s
    decreases |s|
  {
    if |s| > 0 {
      KeepFirst(s);
      StripWithoutImg(s[1..]);
      assert s == [s[0]] + s[1..];
    }
  }

  /** A leading text with no `<` passes through untouched. */
  lemma {:induction false} StripPlainPrefix(a: string, b: string)
    requires '<' !in a
    ensures StripImgTags(a + b) == a + StripImgTags(b)
    decreases |a|
  {
    if |a| > 0 {
      var s := a + b;
      assert s[0] == a[0];
      NotImgStart(s);
      KeepFirst(s);
      assert s[1..] == a[1..] + b;
      StripPlainPrefix(a[1..], b);
      calc {
        StripImgTags(s);
        [a[0]] + StripImgTags(a[1..] + b);
        [a[0]] + (a[1..] + StripImgTags(b));
        { assert a == [a[0]] + a[1..]; }
        a + StripImgTags(b);
      }
    } else {
      assert a + b == b;
    }
  }

  /** The first `c` of `a + [c] + b`, when `a` holds none, is right after `a`. */
  lemma FirstIndexAfter(a: string, c: char, b: string)
    requires c !in a
    ensures FirstIndex(a + [c] + b, c) == |a|
  {
    var s := a + [c] + b;
    assert s[|a|] == c && s[..|a|] == a;
  }

  /** A tag followed by more text: the tag is one match, and the scan resumes after it. */
  lemma TagMatch(inner: string, rest: string)
    requires '>' !in inner
    ensures StripImgTags(ImgOpen + inner + ">" + rest) == StripImgTags(rest)
  {
    var s := ImgOpen + inner + ">" + rest;
    assert s[..4] == ImgOpen;
    assert s[4..] == inner + ['>'] + rest;
    FirstIndexAfter(inner, '>', rest);
    assert s[4 + |inner| + 1..] == rest;
  }

  /** A tag whose address has no `>` is removed whole, and the scan resumes right after it. */
  lemma StripImageTag(url: string, idx: nat, rest: string)
    requires '>' !in url
    ensures StripImgTags(ImageTag(url, idx) + rest) == StripImgTags(rest)
  {
    var t := ImageTag(url, idx);
    TagMatch(t[4..|t| - 1], rest);
  }

  /** The line break the upload puts before a tag is not a tag and stays. */
  lemma StripLineBreak(rest: string)
    ensures StripImgTags(LineBreak + rest) == LineBreak + StripImgTags(rest)
  {
    var s := LineBreak + rest;
    assert s[0] == '<' && s[1] == 'b';
    NotImgStart(s);
    KeepFirst(s);
    assert s[1..] == "br/>" + rest;
    StripPlainPrefix("br/>", rest);
  }

  /** Cutting the tags from an option that had no `<` and then received an image gives the
      option back with the line break the upload added. */
  lemma StripWithImage(option: string, url: string, idx: nat)
    requires '<' !in option && '>' !in url
    ensures StripImgTags(WithImage(option, ImageTag(url, idx)))
         == option + (if option != "" then LineBreak else "")
  {
    var tag := ImageTag(url, idx);
    StripImageTag(url, idx, "");
    assert tag + "" == tag;
    if option != "" {
      assert WithImage(option, tag) == option + (LineBreak + tag);
      StripPlainPrefix(option, LineBreak + tag);
      StripLineBreak(tag);
    }
  }

  /** `handleRemoveOptionImage`: the option's recorded image is forgotten and every image tag
      is cut from that option alone. */
  function RemoveOptionImage(s: Admin, idx: int): (r: Admin)
    ensures r.optionImages == s.optionImages - {idx}
    ensures |r.form.options| == |s.form.options|
    ensures 0 <= idx < |s.form.options| ==> r.form.options[idx] == StripImgTags(s.form.options[idx])
    ensures forall i :: 0 <= i < |s.form.options| && i != idx ==> r.form.options[i] == s.form.options[i]
    ensures r == s.(optionImages := r.optionImages, form := s.form.(options := r.form.options))
    ensures QuestionForm.WellFormed(s.form) ==> QuestionForm.WellFormed(r.form)
  {
    var options := seq(|s.form.options|, i requires 0 <= i < |s.form.options| =>
      if i == idx then StripImgTags(s.form.options[i]) else s.form.options[i]);
    s.(optionImages := s.optionImages - {idx}, form := s.form.(options := options))
  }

  /** Uploading an image into a plain option and removing it again forgets the image and gives
      back the option text, except that the line break put before the tag stays. */
  lemma UploadThenRemove(s: Admin, idx: nat, url: string)
    requires idx < |s.form.options| && url != "" && '>' !in url
    requires '<' !in s.form.options[idx]
    ensures var r := RemoveOptionImage(OptionImageUploaded(s, idx, Some(url)), idx);
      && r.optionImages == s.optionImages - {idx}
      && r.form.options[idx]
         == s.form.options[idx] + (if s.form.options[idx] != "" then LineBreak else "")
      && r.form == s.form.(options := r.form.options)
      && (forall i :: 0 <= i < |s.form.options| && i != idx ==> r.form.options[i] == s.form.options[i])
  {
    StripWithImage(s.form.options[idx], url, idx);
    assert (s.optionImages[idx := url]) - {idx} == s.optionImages - {idx};
  }

  // ---------------------------------------------------------------------------
  // Submission
  // ---------------------------------------------------------------------------

  /** An option image preview is on screen (`optionImages[idx] &&`). */
  predicate ShowsPreview(s: Admin, idx: int) {
    idx in s.optionImages && s.optionImages[idx] != ""
  }

  /** `handleSubmit` as written: the shared submission, with the option images left as they
      were even when the options are cleared. */
  function SubmitAsWritten(s: Admin, responseOk: bool): (r: Admin)
    ensures r.form == QuestionForm.Submit(s.form, responseOk).fields
    ensures r.optionImages == s.optionImages
    ensures r == s.(form := r.form)
  {
    s.(form := QuestionForm.Submit(s.form, responseOk).fields)
  }

  /** After a successful submission the options are empty, yet every image uploaded for them
      is still previewed under its (now empty) option. */
  lemma StalePreviewAfterSubmit(s: Admin, idx: int)
    requires QuestionForm.IsValid(s.form) && ShowsPreview(s, idx) && 0 <= idx < QuestionForm.OptionCount
    ensures var r := SubmitAsWritten(s, true);
      r.form.options[idx] == "" && ShowsPreview(r, idx)
  {
  }

  /** `handleSubmit` with the reset clearing the option images as well, as it clears the
      option texts that carried them. */
  function Submit(s: Admin, responseOk: bool): (r: Admin)
    ensures r.form == QuestionForm.Submit(s.form, responseOk).fields
    ensures QuestionForm.IsValid(s.form) && responseOk ==> r.optionImages == map[]
    ensures !(QuestionForm.IsValid(s.form) && responseOk) ==> r.optionImages == s.optionImages
    ensures r == s.(form := r.form, optionImages := r.optionImages)
  {
    var out := QuestionForm.Submit(s.form, responseOk);
    if out.sent.Some? && responseOk then s.(form := out.fields, optionImages := map[])
    else s.(form := out.fields)
  }

  /** With the corrected reset, a successful submission leaves no preview, and the form is back
      to its first state apart from the question type, the math editor and the success message. */
  lemma SubmitClearsPreviews(s: Admin, idx: int)
    requires QuestionForm.IsValid(s.form)
    ensures !ShowsPreview(Submit(s, true), idx)
    ensures Submit(s, true).form
         == QuestionForm.Initial.(questionType := s.form.questionType, success := true)
  {
  }

  /** Where the submission does not succeed the two versions agree. */
  lemma SubmitAgreesOnFailure(s: Admin, responseOk: bool)
    requires !(QuestionForm.IsValid(s.form) && responseOk)
    ensures Submit(s, responseOk) == SubmitAsWritten(s, responseOk)
  {
  }

  /** A question submitted from a form with no diagram carries `imageUrl: null`, and the
      statistics as the route writes them count it among the questions with an image. */
  lemma NoDiagramCountedAsImage(f: QuestionForm.Fields)
    requires f.imageUrl.Nulled?
    ensures var d := CreateQuestion.NewDoc(QuestionForm.ToBody(QuestionForm.BuildPayload(f)));
      Statistics.HasImageAsWritten(d) && !Statistics.HasImage(d)
  {
  }
}
