/** The question list view (components/QuestionsList.tsx): search and filter, fixed-size pages,
    the distinct filter choices, the page reset on a filter change and the highlight of recent
    uploads. */
module QuestionsList {
  import opened Js
  import opened JsString
  import Seqs

  /** A question as the list receives it. `None` is an absent (or `null`) property. */
  datatype Question = Question(
    id: Option<int>,
    text: string,
    answer: Option<string>,
    subject: Option<string>,
    exam: Option<string>,
    difficulty: Option<string>,
    blooms: Option<string>)

  /** A string property used as a condition: present and non-empty. */
  predicate Given(v: Option<string>) {
    v.Some? && v.value != ""
  }

  /** The search box and the four drop-downs; `""` means "all". */
  datatype Filters = Filters(search: string, subject: string, exam: string, difficulty: string, blooms: string)

  const NoFilters := Filters("", "", "", "", "")

  // ---------------------------------------------------------------------------
  // Filtering
  // ---------------------------------------------------------------------------

  /** The search text occurs, ignoring case, in the question text or in a non-empty answer. */
  predicate MatchesSearch(q: Question, search: string) {
    || Includes(ToLower(q.text), ToLower(search))
    || (Given(q.answer) && Includes(ToLower(q.answer.value), ToLower(search)))
  }

  /** The list's predicate: the search matches and every chosen drop-down matches (subject,
      exam and blooms exactly, difficulty ignoring case). */
  predicate Keeps(f: Filters, q: Question) {
    && MatchesSearch(q, f.search)
    && (f.subject != "" ==> q.subject == Some(f.subject))
    && (f.exam != "" ==> q.exam == Some(f.exam))
    && (f.difficulty != "" ==> Given(q.difficulty) && ToLower(q.difficulty.value) == ToLower(f.difficulty))
    && (f.blooms != "" ==> Given(q.blooms) && q.blooms.value == f.blooms)
  }

  /** `questions.filter(...)`: the kept questions, in their original order, each as often as
      it is listed. */
  function FilterQuestions(qs: seq<Question>, f: Filters): (r: seq<Question>)
    ensures Seqs.Subsequence(r, qs)
    ensures forall i :: 0 <= i < |r| ==> Keeps(f, r[i])
    ensures forall i :: 0 <= i < |qs| && Keeps(f, qs[i]) ==> qs[i] in r
    ensures forall q :: multiset(r)[q] == if Keeps(f, q) then multiset(qs)[q] else 0
  {
    Seqs.FilterMultiplicity(qs, q => Keeps(f, q));
    Seqs.Filter(qs, q => Keeps(f, q))
  }

  /** With an empty search and no drop-down chosen, every question is listed, in order. */
  lemma NoFiltersKeepAll(qs: seq<Question>)
    ensures FilterQuestions(qs, NoFilters) == qs
  {
    assert ToLower("") == "";
    forall i | 0 <= i < |qs|
      ensures Keeps(NoFilters, qs[i])
    {
      IncludesEmpty(ToLower(qs[i].text));
    }
    Seqs.FilterAll(qs, q => Keeps(NoFilters, q));
  }

  /** Search ignores letter case: searching `s` or its upper-case form lists the same questions. */
  lemma SearchIgnoresCase(q: Question, s: string)
    ensures MatchesSearch(q, s) <==> MatchesSearch(q, ToUpper(s))
  {
    assert ToLower(ToUpper(s)) == ToLower(s);
  }

  /** A question whose difficulty is `Easy` is kept by the `easy` filter and vice versa. */
  lemma DifficultyIgnoresCase(q: Question)
    requires q.difficulty == Some("Easy") && MatchesSearch(q, "")
    ensures Keeps(Filters("", "", "", "easy", ""), q)
    ensures Keeps(Filters("", "", "", "EASY", ""), q)
  {
    assert ToLower("Easy") == "easy";
    assert ToLower("easy") == "easy";
    assert ToLower("EASY") == "easy";
  }

  // ---------------------------------------------------------------------------
  // Pagination
  // ---------------------------------------------------------------------------

  const PageSize: nat := 10

  function Min(a: int, b: int): int {
    if a <= b then a else b
  }

  /** `Math.ceil(n / PAGE_SIZE)`: the fewest pages of ten that hold `n` items. */
  function TotalPages(n: nat): (p: nat)
    ensures p * PageSize >= n
    ensures p == 0 || (p - 1) * PageSize < n
    ensures p == 0 <==> n == 0
  {
    (n + PageSize - 1) / PageSize
  }

  /** JavaScript's reading of a `slice` bound: negative bounds count from the end, and every
      bound is clamped to the sequence. */
  function SliceBound(k: int, n: nat): (r: nat)
    ensures r <= n
    ensures 0 <= k ==> r == Min(k, n)
  {
    if k < 0 then (if n + k < 0 then 0 else n + k) else if k > n then n else k
  }

  /** `s.slice(start, end)`. */
  function Slice<T>(s: seq<T>, start: int, end: int): (r: seq<T>)
    ensures |r| <= |s|
    ensures 0 <= start <= end ==> r == s[Min(start, |s|)..Min(end, |s|)]
  {
    var a := SliceBound(start, |s|);
    var b := SliceBound(end, |s|);
    if a < b then s[a..b] else []
  }

  /** `filtered.slice((page - 1) * PAGE_SIZE, page * PAGE_SIZE)`. */
  function Paginate<T>(filtered: seq<T>, page: int): (r: seq<T>)
    ensures 1 <= page ==> r == filtered[Min((page - 1) * PageSize, |filtered|)..Min(page * PageSize, |filtered|)]
    ensures 1 <= page ==> |r| <= PageSize
    ensures 1 <= page <= TotalPages(|filtered|) ==> |r| > 0
    ensures page > TotalPages(|filtered|) ==> r == []
    ensures page == 0 ==> r == []
  {
    Slice(filtered, (page - 1) * PageSize, page * PageSize)
  }

  /** Pages 1 to `k`, one after the other. */
  function PagesUpTo<T>(filtered: seq<T>, k: nat): seq<T> {
    if k == 0 then [] else PagesUpTo(filtered, k - 1) + Paginate(filtered, k)
  }

  lemma {:induction false} PagesUpToIsPrefix<T>(filtered: seq<T>, k: nat)
    ensures PagesUpTo(filtered, k) == filtered[..Min(k * PageSize, |filtered|)]
  {
    if k > 0 {
      PagesUpToIsPrefix(filtered, k - 1);
      var a := Min((k - 1) * PageSize, |filtered|);
      var b := Min(k * PageSize, |filtered|);
      assert filtered[..a] + filtered[a..b] == filtered[..b];
    }
  }

  /** Reading every page in turn gives back the whole filtered list: no item is lost or shown
      twice. */
  lemma PagesReassemble<T>(filtered: seq<T>)
    ensures PagesUpTo(filtered, TotalPages(|filtered|)) == filtered
  {
    PagesUpToIsPrefix(filtered, TotalPages(|filtered|));
  }

  /** Item `i` of the filtered list is on page `i / 10 + 1`, at position `i % 10`. */
  lemma ItemOnItsPage<T>(filtered: seq<T>, i: nat)
    requires i < |filtered|
    ensures i / PageSize + 1 <= TotalPages(|filtered|)
    ensures Paginate(filtered, i / PageSize + 1)[i % PageSize] == filtered[i]
  {
  }

  // ---------------------------------------------------------------------------
  // Page controls
  // ---------------------------------------------------------------------------

  /** The controls below the list: Prev, one button per page, Next. */
  datatype Nav = Prev | Next | Goto(target: int)

  /** Whether a control can be pressed: the controls exist only with more than one page; Prev is
      disabled on page 1, Next on the last page; the numbered buttons are 1 to `totalPages`. */
  predicate Enabled(page: int, totalPages: nat, nav: Nav) {
    && totalPages > 1
    && match nav
       case Prev => page != 1
       case Next => page != totalPages
       case Goto(k) => 1 <= k <= totalPages
  }

  /** The page after pressing `nav`, if it can be pressed. From a page in range the user can
      never leave the range of pages. */
  function Press(page: int, totalPages: nat, nav: Nav): (r: int)
    ensures 1 <= page <= totalPages ==> 1 <= r <= totalPages
    ensures !Enabled(page, totalPages, nav) ==> r == page
    ensures nav.Prev? && Enabled(page, totalPages, nav) ==> r == page - 1
    ensures nav.Next? && Enabled(page, totalPages, nav) ==> r == page + 1
  {
    if !Enabled(page, totalPages, nav) then page
    else match nav
      case Prev => page - 1
      case Next => page + 1
      case Goto(k) => k
  }

  /** Prev is disabled exactly on the first page and Next exactly on the last. */
  lemma ControlsDisabledAtEnds(page: int, totalPages: nat)
    requires totalPages > 1
    ensures !Enabled(page, totalPages, Prev) <==> page == 1
    ensures !Enabled(page, totalPages, Next) <==> page == totalPages
  {
  }

  // ---------------------------------------------------------------------------
  // List state: filters and the page reset
  // ---------------------------------------------------------------------------

  datatype ListState = ListState(questions: seq<Question>, filters: Filters, page: int)

  const Initial := ListState([], NoFilters, 1)

  /** The questions on screen. */
  function Visible(st: ListState): seq<Question> {
    Paginate(FilterQuestions(st.questions, st.filters), st.page)
  }

  /** Editing a filter. The reset effect depends on the five filter values, so the page goes back
      to 1 exactly when one of them changes. */
  function SetFilters(st: ListState, f: Filters): (r: ListState)
    ensures r.questions == st.questions && r.filters == f
    ensures f != st.filters ==> r.page == 1
    ensures f == st.filters ==> r == st
  {
    if f == st.filters then st else ListState(st.questions, f, 1)
  }

  /** After a filter change the first items of the new result are on screen. */
  lemma FilterChangeShowsFirstPage(st: ListState, f: Filters)
    requires f != st.filters
    ensures Visible(SetFilters(st, f)) == FilterQuestions(st.questions, f)[..Min(PageSize, |FilterQuestions(st.questions, f)|)]
  {
  }

  /** Pressing a page control on a page in range stays in range and keeps the filters. */
  function Navigate(st: ListState, nav: Nav): (r: ListState)
    ensures r.questions == st.questions && r.filters == st.filters
    ensures var total := TotalPages(|FilterQuestions(st.questions, st.filters)|);
      1 <= st.page <= total ==> 1 <= r.page <= total
  {
    var total := TotalPages(|FilterQuestions(st.questions, st.filters)|);
    ListState(st.questions, st.filters, Press(st.page, total, nav))
  }

  /** On a page in range the screen shows between one and ten questions, all kept by the
      filters. */
  lemma VisibleInRange(st: ListState)
    requires 1 <= st.page <= TotalPages(|FilterQuestions(st.questions, st.filters)|)
    ensures 0 < |Visible(st)| <= PageSize
    ensures forall i :: 0 <= i < |Visible(st)| ==> Keeps(st.filters, Visible(st)[i])
  {
    var filtered := FilterQuestions(st.questions, st.filters);
    var a := Min((st.page - 1) * PageSize, |filtered|);
    var b := Min(st.page * PageSize, |filtered|);
    forall i | 0 <= i < |Visible(st)|
      ensures Keeps(st.filters, Visible(st)[i])
    {
      assert Visible(st)[i] == filtered[a + i];
    }
  }

  // ---------------------------------------------------------------------------
  // Filter choices
  // ---------------------------------------------------------------------------

  /** `values.filter(Boolean)` on optional strings: the present, non-empty values in order. */
  function GivenValues(vs: seq<Option<string>>): (r: seq<string>)
    ensures forall i :: 0 <= i < |r| ==> r[i] != "" && Some(r[i]) in vs
    ensures forall i :: 0 <= i < |vs| && Given(vs[i]) ==> vs[i].value in r
  {
    if |vs| == 0 then []
    else
      var rest := GivenValues(vs[1..]);
      var r := (if Given(vs[0]) then [vs[0].value] else []) + rest;
      assert forall i :: 1 <= i < |vs| ==> vs[i] == vs[1..][i - 1];
      r
  }

  /** `Array.from(new Set(values.filter(Boolean)))`: each non-empty value once, in the order of
      first appearance. */
  function Choices(vs: seq<Option<string>>): (r: seq<string>)
    ensures Seqs.NoDuplicates(r)
    ensures forall i :: 0 <= i < |r| ==> r[i] != "" && Some(r[i]) in vs
    ensures forall i :: 0 <= i < |vs| && Given(vs[i]) ==> vs[i].value in r
    ensures forall i, j :: 0 <= i < j < |r| ==>
      Seqs.IndexOf(GivenValues(vs), r[i]) < Seqs.IndexOf(GivenValues(vs), r[j])
  {
    Seqs.Distinct(GivenValues(vs))
  }

  /** The three drop-downs whose choices come from the loaded questions. */
  datatype Facet = SubjectFacet | ExamFacet | BloomsFacet

  function FacetOf(q: Question, f: Facet): Option<string> {
    match f
    case SubjectFacet => q.subject
    case ExamFacet => q.exam
    case BloomsFacet => q.blooms
  }

  /** `questions.map(q => q.subject)` (or `exam`, `blooms`). */
  function FacetValues(qs: seq<Question>, f: Facet): (r: seq<Option<string>>)
    ensures |r| == |qs|
    ensures forall i :: 0 <= i < |qs| ==> r[i] == FacetOf(qs[i], f)
  {
    seq(|qs|, i requires 0 <= i < |qs| => FacetOf(qs[i], f))
  }

  function FacetChoices(qs: seq<Question>, f: Facet): seq<string> {
    Choices(FacetValues(qs, f))
  }

  /** Every choice is the value of some question, and every question's non-empty value is a
      choice, listed once. */
  lemma FacetChoicesExact(qs: seq<Question>, f: Facet)
    ensures Seqs.NoDuplicates(FacetChoices(qs, f))
    ensures forall i :: 0 <= i < |FacetChoices(qs, f)| ==>
      exists j :: 0 <= j < |qs| && FacetOf(qs[j], f) == Some(FacetChoices(qs, f)[i])
    ensures forall j :: 0 <= j < |qs| && Given(FacetOf(qs[j], f)) ==> FacetOf(qs[j], f).value in FacetChoices(qs, f)
  {
    var vs := FacetValues(qs, f);
    forall i | 0 <= i < |FacetChoices(qs, f)|
      ensures exists j :: 0 <= j < |qs| && FacetOf(qs[j], f) == Some(FacetChoices(qs, f)[i])
    {
      var j :| 0 <= j < |vs| && vs[j] == Some(FacetChoices(qs, f)[i]);
      assert FacetOf(qs[j], f) == vs[j];
    }
  }

  // ---------------------------------------------------------------------------
  // Highlight of recent uploads
  // ---------------------------------------------------------------------------

  const HighlightWindow: int := 10000

  /** A question counts as just uploaded when its `id` is a non-zero number less than ten
      seconds before `now`. */
  predicate Recent(q: Question, now: int) {
    q.id.Some? && q.id.value != 0 && now - q.id.value < HighlightWindow
  }

  /** The ids of the recent questions, in list order. `now` is the clock reading. */
  function HighlightedIds(qs: seq<Question>, now: int): (r: seq<int>)
    ensures |r| <= |qs|
    ensures forall i :: 0 <= i < |r| ==> exists j :: 0 <= j < |qs| && Recent(qs[j], now) && qs[j].id == Some(r[i])
    ensures forall j :: 0 <= j < |qs| && Recent(qs[j], now) ==> qs[j].id.value in r
  {
    if |qs| == 0 then []
    else
      var rest := HighlightedIds(qs[1..], now);
      assert forall j :: 1 <= j < |qs| ==> qs[j] == qs[1..][j - 1];
      if Recent(qs[0], now) then
        var r := [qs[0].id.value] + rest;
        assert forall i :: 1 <= i < |r| ==> r[i] == rest[i - 1];
        r
      else rest
  }

  /** Records without an `id` property (the store names its key `_id`) are never highlighted. */
  lemma NoIdsNoHighlight(qs: seq<Question>, now: int)
    requires forall j :: 0 <= j < |qs| ==> qs[j].id.None?
    ensures HighlightedIds(qs, now) == []
  {
  }
}
