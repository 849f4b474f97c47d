/** The math editor dialog (preplensadmin/components/MathEditor.tsx): a text buffer that symbol
    buttons append to, a palette per tab, and an insert action that hands the buffer to the
    form only when it holds something other than white space. */
module MathEditor {
  import opened Js
  import opened JsString

  /** Where inserted LaTeX goes. */
  datatype Target = QuestionText | SolutionText | OptionText

  /** The dialog's own state: the target and option it reports with an insertion, the buffer,
      and the selected palette tab. */
  datatype Editor = Editor(target: Target, optionIndex: int, latex: string, activeTab: string)

  /** The state on first render: `propTarget || 'question'` and `propOptionIndex || 0` (every
      target name is a non-empty string, and `0 || 0` is 0), an empty buffer, the Basic tab. */
  function Init(propTarget: Option<Target>, propOptionIndex: Option<int>): (e: Editor)
    ensures e.target == (if propTarget.Some? then propTarget.value else QuestionText)
    ensures e.optionIndex == (if propOptionIndex.Some? then propOptionIndex.value else 0)
    ensures e.latex == "" && e.activeTab == "Basic"
  {
    Editor(if propTarget.Some? then propTarget.value else QuestionText,
           if propOptionIndex.Some? then propOptionIndex.value else 0,
           "", "Basic")
  }

  /** The effect that follows the props: the target is taken over only when one is passed, the
      option index only when it is defined; the buffer and tab are kept. */
  function SyncProps(e: Editor, propTarget: Option<Target>, propOptionIndex: Option<int>): (r: Editor)
    ensures propTarget.Some? ==> r.target == propTarget.value
    ensures propTarget.None? ==> r.target == e.target
    ensures propOptionIndex.Some? ==> r.optionIndex == propOptionIndex.value
    ensures propOptionIndex.None? ==> r.optionIndex == e.optionIndex
    ensures r.latex == e.latex && r.activeTab == e.activeTab
  {
    e.(target := if propTarget.Some? then propTarget.value else e.target,
       optionIndex := if propOptionIndex.Some? then propOptionIndex.value else e.optionIndex)
  }

  /** Syncing twice with the same props is the same as syncing once. */
  lemma SyncPropsIdempotent(e: Editor, propTarget: Option<Target>, propOptionIndex: Option<int>)
    ensures SyncProps(SyncProps(e, propTarget, propOptionIndex), propTarget, propOptionIndex)
         == SyncProps(e, propTarget, propOptionIndex)
  {
  }

  // ---------------------------------------------------------------------------
  // Palettes
  // ---------------------------------------------------------------------------

  const Tabs: seq<string> := ["Basic", "Maths", "Matrix", "Formula", "Arrow", "Alphabet"]

  const BasicSymbols: seq<string> := [
    ".", ".", "*", "+", "-", "÷", "×", "=", "≠",
    ":", "∴", ",", "'", "!", ";", "?", "x̄", "x⃗"]

  const MathSymbols: seq<string> := [
    "∫", "∑", "∏", "√", "∞", "±", "≤", "≥", "≈",
    "α", "β", "γ", "δ", "ε", "θ", "λ", "μ", "π"]

  const MatrixSymbols: seq<string> := [
    "(", ")", "[", "]", "{", "}", "|", "||", "⌊", "⌋",
    "⌈", "⌉", "⟨", "⟩", "⟦", "⟧", "⟪", "⟫"]

  const FormulaSymbols: seq<string> := [
    "sin", "cos", "tan", "log", "ln", "exp", "lim", "→", "←", "↔",
    "∈", "∉", "⊂", "⊃", "∪", "∩", "∅", "∀", "∃"]

  const ArrowSymbols: seq<string> := [
    "→", "←", "↔", "⇒", "⇐", "⇔", "↑", "↓", "↗", "↘",
    "↙", "↖", "⟶", "⟵", "⟷", "⟹", "⟸", "⟺"]

  const UpperLetters: seq<string> := [
    "A", "B", "C", "D", "E", "F", "G", "H", "I", "J", "K", "L", "M",
    "N", "O", "P", "Q", "R", "S", "T", "U", "V", "W", "X", "Y", "Z"]

  const LowerLetters: seq<string> := [
    "a", "b", "c", "d", "e", "f", "g", "h", "i", "j", "k", "l", "m",
    "n", "o", "p", "q", "r", "s", "t", "u", "v", "w", "x", "y", "z"]

  const AlphabetSymbols: seq<string> := UpperLetters + LowerLetters

  /** `getSymbols`: the palette of a known tab, and the basic palette for any other name. */
  function GetSymbols(tab: string): (r: seq<string>)
    ensures tab == "Maths" ==> r == MathSymbols
    ensures tab == "Matrix" ==> r == MatrixSymbols
    ensures tab == "Formula" ==> r == FormulaSymbols
    ensures tab == "Arrow" ==> r == ArrowSymbols
    ensures tab == "Alphabet" ==> r == AlphabetSymbols
    ensures tab !in Tabs[1..] ==> r == BasicSymbols
  {
    if tab == "Basic" then BasicSymbols
    else if tab == "Maths" then MathSymbols
    else if tab == "Matrix" then MatrixSymbols
    else if tab == "Formula" then FormulaSymbols
    else if tab == "Arrow" then ArrowSymbols
    else if tab == "Alphabet" then AlphabetSymbols
    else BasicSymbols
  }

  /** A symbol that starts with a visible character. */
  predicate Visible(s: string) {
    |s| > 0 && !IsSpace(s[0])
  }

  /** Every symbol of `palette` starts with a visible character. */
  predicate AllVisible(palette: seq<string>) {
    forall i :: 0 <= i < |palette| ==> Visible(palette[i])
  }

  lemma UpperVisible()
    ensures AllVisible(UpperLetters)
  {
  }

  lemma LowerVisible()
    ensures AllVisible(LowerLetters)
  {
  }

  /** A palette made of two visible palettes is visible. */
  lemma ConcatVisible(a: seq<string>, b: seq<string>)
    requires AllVisible(a) && AllVisible(b)
    ensures AllVisible(a + b)
  {
    forall i | 0 <= i < |a + b|
      ensures Visible((a + b)[i])
    {
      if i >= |a| {
        assert (a + b)[i] == b[i - |a|];
      }
    }
  }

  lemma AlphabetVisible()
    ensures AllVisible(AlphabetSymbols)
  {
    UpperVisible();
    LowerVisible();
    ConcatVisible(UpperLetters, LowerLetters);
  }

  lemma BasicVisible()
    ensures AllVisible(BasicSymbols)
  {
  }

  lemma MathVisible()
    ensures AllVisible(MathSymbols)
  {
  }

  lemma MatrixVisible()
    ensures AllVisible(MatrixSymbols)
  {
  }

  lemma FormulaVisible()
    ensures AllVisible(FormulaSymbols)
  {
  }

  lemma ArrowVisible()
    ensures AllVisible(ArrowSymbols)
  {
  }

  /** Every symbol of every palette, whatever the tab, is something other than white space. */
  lemma SymbolsNotBlank(tab: string, i: int)
    requires 0 <= i < |GetSymbols(tab)|
    ensures !IsBlank(GetSymbols(tab)[i])
  {
    BasicVisible(); MathVisible(); MatrixVisible();
    FormulaVisible(); ArrowVisible(); AlphabetVisible();
    var s := GetSymbols(tab)[i];
    assert Visible(s);
    BlankIffAllSpace(s);
  }

  // ---------------------------------------------------------------------------
  // Editing and inserting
  // ---------------------------------------------------------------------------

  /** `handleSymbolClick`: the symbol goes at the end of the buffer; nothing else changes. */
  function SymbolClick(e: Editor, symbol: string): (r: Editor)
    ensures |r.latex| == |e.latex| + |symbol|
    ensures r.latex[..|e.latex|] == e.latex && r.latex[|e.latex|..] == symbol
    ensures r.(latex := e.latex) == e
  {
    e.(latex := e.latex + symbol)
  }

  /** Typing in the text area replaces the buffer. */
  function EditLatex(e: Editor, text: string): (r: Editor)
    ensures r.latex == text && r.(latex := e.latex) == e
  {
    e.(latex := text)
  }

  /** A tab button selects its palette and keeps the buffer. */
  function SelectTab(e: Editor, tab: string): (r: Editor)
    ensures GetSymbols(r.activeTab) == GetSymbols(tab)
    ensures r.latex == e.latex && r.(activeTab := e.activeTab) == e
  {
    e.(activeTab := tab)
  }

  /** What `onInsert` receives. */
  datatype Insertion = Insertion(latex: string, target: Target, optionIndex: int)

  /** The editor after the action, the call made to `onInsert` (if any), and whether `onClose`
      was called. */
  datatype InsertResult = InsertResult(editor: Editor, call: Option<Insertion>, closed: bool)

  /** `handleInsert`: a buffer that is blank after trimming does nothing at all; otherwise the
      buffer, target and option index are handed over once, the buffer is emptied and the
      dialog closes. */
  function Insert(e: Editor): (r: InsertResult)
    ensures IsBlank(e.latex) ==> r == InsertResult(e, None, false)
    ensures !IsBlank(e.latex) ==>
      && r.call == Some(Insertion(e.latex, e.target, e.optionIndex))
      && r.editor == e.(latex := "")
      && r.closed
  {
    if !IsBlank(e.latex) then
      InsertResult(e.(latex := ""), Some(Insertion(e.latex, e.target, e.optionIndex)), true)
    else InsertResult(e, None, false)
  }

  /** A second insert right after a successful one does nothing: the buffer it left is empty. */
  lemma InsertTwiceOnce(e: Editor)
    requires !IsBlank(e.latex)
    ensures Insert(Insert(e).editor) == InsertResult(e.(latex := ""), None, false)
  {
    TrimNoop("");
  }

  /** Appending a non-blank text to any buffer leaves it non-blank. */
  lemma AppendNotBlank(a: string, b: string)
    requires !IsBlank(b)
    ensures !IsBlank(a + b)
  {
    BlankIffAllSpace(b);
    BlankIffAllSpace(a + b);
    var i :| 0 <= i < |b| && !IsSpace(b[i]);
    assert (a + b)[|a| + i] == b[i];
  }

  /** Clicking any palette symbol makes the next insert hand over the buffer with the symbol at
      its end. */
  lemma ClickThenInsert(e: Editor, i: int)
    requires 0 <= i < |GetSymbols(e.activeTab)|
    ensures var s := GetSymbols(e.activeTab)[i];
      Insert(SymbolClick(e, s)).call == Some(Insertion(e.latex + s, e.target, e.optionIndex))
  {
    SymbolsNotBlank(e.activeTab, i);
    AppendNotBlank(e.latex, GetSymbols(e.activeTab)[i]);
  }
}
