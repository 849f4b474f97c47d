/** `GET /statistics` (preplensadmin/backend/index.js:135-167): the total, three group-by
    counts sorted by count descending, and the solution and image completeness counts. */
module Statistics {
  import opened Js
  import opened Store
  import Seqs

  datatype Field = Subject | Exam | Difficulty

  function FieldOf(d: Doc, f: Field): Value {
    match f
    case Subject => d.subject
    case Exam => d.exam
    case Difficulty => d.difficulty
  }

  /** `$group` files a missing field and a `null` field under the same key, `null`. */
  function KeyOf(d: Doc, f: Field): Value {
    if FieldOf(d, f).Undefined? then Null else FieldOf(d, f)
  }

  /** One `{ _id, count }` entry of a group-by result. */
  datatype Group = Group(key: Value, count: nat)

  /** Reference count: how many documents have group key `k`. */
  function CountKey(store: seq<Doc>, f: Field, k: Value): nat {
    if |store| == 0 then 0
    else CountKey(store[..|store| - 1], f, k) + (if KeyOf(store[|store| - 1], f) == k then 1 else 0)
  }

  function Sum(gs: seq<Group>): nat {
    if |gs| == 0 then 0 else gs[0].count + Sum(gs[1..])
  }

  predicate DistinctKeys(gs: seq<Group>) {
    forall i, j :: 0 <= i < j < |gs| ==> gs[i].key != gs[j].key
  }

  predicate HasKey(gs: seq<Group>, k: Value) {
    exists i :: 0 <= i < |gs| && gs[i].key == k
  }

  /** The count recorded for key `k`, or 0 when there is no entry. */
  function CountIn(gs: seq<Group>, k: Value): nat {
    if |gs| == 0 then 0 else if gs[0].key == k then gs[0].count else CountIn(gs[1..], k)
  }

  predicate Positive(gs: seq<Group>) {
    forall i :: 0 <= i < |gs| ==> gs[i].count > 0
  }

  lemma HasKeyCons(g: Group, rest: seq<Group>, x: Value)
    ensures HasKey([g] + rest, x) <==> g.key == x || HasKey(rest, x)
  {
    var r := [g] + rest;
    if g.key == x {
      assert r[0].key == x;
    }
    if HasKey(rest, x) {
      var i :| 0 <= i < |rest| && rest[i].key == x;
      assert r[i + 1].key == x;
    }
    if HasKey(r, x) && g.key != x {
      var i :| 0 <= i < |r| && r[i].key == x;
      assert rest[i - 1].key == x;
    }
  }

  lemma DistinctCons(g: Group, rest: seq<Group>)
    requires DistinctKeys(rest) && !HasKey(rest, g.key)
    ensures DistinctKeys([g] + rest)
  {
    var r := [g] + rest;
    forall i, j | 0 <= i < j < |r| ensures r[i].key != r[j].key {
      if i == 0 {
        assert r[j].key == rest[j - 1].key;
      }
    }
  }

  /** Counts one more document with key `k`. */
  function Bump(gs: seq<Group>, k: Value): (r: seq<Group>)
    requires DistinctKeys(gs) && Positive(gs)
    ensures DistinctKeys(r) && Positive(r)
    ensures Sum(r) == Sum(gs) + 1
    ensures forall x :: CountIn(r, x) == CountIn(gs, x) + (if x == k then 1 else 0)
    ensures forall x :: HasKey(r, x) <==> HasKey(gs, x) || x == k
  {
    if |gs| == 0 then [Group(k, 1)]
    else
      var g := gs[0];
      assert gs == [g] + gs[1..];
      assert !HasKey(gs[1..], g.key);
      forall x ensures HasKey(gs, x) <==> g.key == x || HasKey(gs[1..], x) {
        HasKeyCons(g, gs[1..], x);
      }
      if g.key == k then
        NoKeyCountZero(gs[1..], k);
        var r := [Group(k, g.count + 1)] + gs[1..];
        DistinctCons(Group(k, g.count + 1), gs[1..]);
        forall x ensures HasKey(r, x) <==> k == x || HasKey(gs[1..], x) {
          HasKeyCons(Group(k, g.count + 1), gs[1..], x);
        }
        r
      else
        var rest := Bump(gs[1..], k);
        var r := [g] + rest;
        DistinctCons(g, rest);
        forall x ensures HasKey(r, x) <==> g.key == x || HasKey(rest, x) {
          HasKeyCons(g, rest, x);
        }
        r
  }

  lemma {:induction false} NoKeyCountZero(gs: seq<Group>, k: Value)
    requires !HasKey(gs, k)
    ensures CountIn(gs, k) == 0
  {
    if |gs| > 0 {
      NoKeyCountZero(gs[1..], k);
    }
  }

  /** Some document has group key `k`. */
  predicate Occurs(store: seq<Doc>, f: Field, k: Value) {
    exists j :: 0 <= j < |store| && KeyOf(store[j], f) == k
  }

  lemma OccursSnoc(store: seq<Doc>, f: Field, k: Value)
    requires |store| > 0
    ensures Occurs(store, f, k) <==> Occurs(store[..|store| - 1], f, k) || KeyOf(store[|store| - 1], f) == k
  {
    var init := store[..|store| - 1];
    if Occurs(store, f, k) {
      var j :| 0 <= j < |store| && KeyOf(store[j], f) == k;
      if j < |init| {
        assert KeyOf(init[j], f) == k;
      }
    }
    if Occurs(init, f, k) {
      var j :| 0 <= j < |init| && KeyOf(init[j], f) == k;
      assert KeyOf(store[j], f) == k;
    }
  }

  /** The unsorted `$group` stage: one entry per key, in first-occurrence order. */
  function Tally(store: seq<Doc>, f: Field): (r: seq<Group>)
    ensures DistinctKeys(r)
    ensures Sum(r) == |store|
    ensures forall x :: CountIn(r, x) == CountKey(store, f, x)
    ensures Positive(r)
    ensures forall x :: HasKey(r, x) <==> Occurs(store, f, x)
  {
    if |store| == 0 then []
    else
      var r := Bump(Tally(store[..|store| - 1], f), KeyOf(store[|store| - 1], f));
      assert forall x :: HasKey(r, x) <==> Occurs(store, f, x) by {
        forall x ensures HasKey(r, x) <==> Occurs(store, f, x) {
          OccursSnoc(store, f, x);
        }
      }
      r
  }

  /** Places `g` before the first entry whose count is not larger: entries with equal counts
      keep their relative order. */
  function InsertByCount(g: Group, gs: seq<Group>): (r: seq<Group>)
    ensures |r| == |gs| + 1
    ensures Sum(r) == g.count + Sum(gs)
    ensures forall i :: 0 <= i < |r| ==> r[i] == g || r[i] in gs
    ensures g in r && forall i :: 0 <= i < |gs| ==> gs[i] in r
  {
    if |gs| == 0 || gs[0].count <= g.count then [g] + gs
    else
      var rest := InsertByCount(g, gs[1..]);
      assert forall i :: 0 <= i < |gs| ==> gs[i] in [gs[0]] + rest by {
        forall i | 0 <= i < |gs| ensures gs[i] in [gs[0]] + rest {
          if i > 0 {
            assert gs[1..][i - 1] == gs[i];
          }
        }
      }
      [gs[0]] + rest
  }

  predicate SortedByCount(gs: seq<Group>) {
    forall i, j :: 0 <= i < j < |gs| ==> gs[i].count >= gs[j].count
  }

  lemma {:induction false} InsertByCountSorted(g: Group, gs: seq<Group>)
    requires SortedByCount(gs)
    ensures SortedByCount(InsertByCount(g, gs))
  {
    if |gs| > 0 && gs[0].count > g.count {
      InsertByCountSorted(g, gs[1..]);
      var r := InsertByCount(g, gs);
      forall j | 0 < j < |r| ensures r[0].count >= r[j].count {
        assert r[j] == g || r[j] in gs[1..];
      }
    }
  }

  /** `{ $sort: { count: -1 } }`: insertion sort by count, descending. */
  function SortByCount(gs: seq<Group>): (r: seq<Group>)
    ensures SortedByCount(r)
    ensures |r| == |gs| && Sum(r) == Sum(gs)
    ensures forall x :: x in r <==> x in gs
  {
    if |gs| == 0 then []
    else
      var rest := SortByCount(gs[1..]);
      InsertByCountSorted(gs[0], rest);
      var r := InsertByCount(gs[0], rest);
      ConsMembers(gs, rest, r);
      r
  }

  /** The entries of `gs` are its head and the entries of its tail. */
  lemma ConsMembers(gs: seq<Group>, rest: seq<Group>, r: seq<Group>)
    requires |gs| > 0 && (forall x :: x in rest <==> x in gs[1..])
    requires forall i :: 0 <= i < |r| ==> r[i] == gs[0] || r[i] in rest
    requires gs[0] in r && forall i :: 0 <= i < |rest| ==> rest[i] in r
    ensures forall x :: x in r <==> x in gs
  {
    assert gs == [gs[0]] + gs[1..];
  }

  /** In a list with distinct keys, an entry's count is the count recorded for its key. */
  lemma {:induction false} CountInEntry(gs: seq<Group>, i: nat)
    requires DistinctKeys(gs) && i < |gs|
    ensures CountIn(gs, gs[i].key) == gs[i].count
  {
    if i > 0 {
      assert gs[0].key != gs[i].key;
      CountInEntry(gs[1..], i - 1);
    }
  }

  /** Reordering a tally keeps each entry's count equal to the reference count. */
  lemma EntriesCounted(store: seq<Doc>, f: Field, t: seq<Group>, r: seq<Group>)
    requires t == Tally(store, f)
    requires forall i :: 0 <= i < |r| ==> r[i] in t
    ensures forall i :: 0 <= i < |r| ==> r[i].count == CountKey(store, f, r[i].key) > 0
  {
    forall i | 0 <= i < |r|
      ensures r[i].count == CountKey(store, f, r[i].key) > 0
    {
      var k :| 0 <= k < |t| && t[k] == r[i];
      CountInEntry(t, k);
    }
  }

  /** Reordering a tally keeps an entry for every document's key. */
  lemma KeysCovered(store: seq<Doc>, f: Field, t: seq<Group>, r: seq<Group>)
    requires t == Tally(store, f)
    requires forall i :: 0 <= i < |t| ==> t[i] in r
    ensures forall j :: 0 <= j < |store| ==> HasKey(r, KeyOf(store[j], f))
  {
    forall j | 0 <= j < |store|
      ensures HasKey(r, KeyOf(store[j], f))
    {
      assert Occurs(store, f, KeyOf(store[j], f));
      var k :| 0 <= k < |t| && t[k].key == KeyOf(store[j], f);
      var m :| 0 <= m < |r| && r[m] == t[k];
    }
  }

  /** What a group-by list on field `f` promises: sorted by count, accounting for every
      document, each entry counting the documents with its key, and an entry for every key
      that occurs. */
  predicate GroupByResult(store: seq<Doc>, f: Field, r: seq<Group>) {
    && SortedByCount(r)
    && Sum(r) == |store|
    && (forall i :: 0 <= i < |r| ==> r[i].count == CountKey(store, f, r[i].key) > 0)
    && (forall j :: 0 <= j < |store| ==> HasKey(r, KeyOf(store[j], f)))
  }

  /** One group-by list as the route returns it. */
  function GroupCounts(store: seq<Doc>, f: Field): (r: seq<Group>)
    ensures GroupByResult(store, f, r)
  {
    var t := Tally(store, f);
    var r := SortByCount(t);
    EntriesCounted(store, f, t, r);
    KeysCovered(store, f, t, r);
    r
  }

  /** `{ solution: { $exists: true, $ne: '' } }`: the field is stored (possibly `null`) and is
      not the empty string. */
  predicate HasSolution(d: Doc) {
    !d.solution.Undefined? && d.solution != Str("")
  }

  /** `{ imageUrl: { $exists: true, $ne: '' } }`, as the route writes it: a stored `null`
      counts as an image. */
  predicate HasImageAsWritten(d: Doc) {
    !d.imageUrl.Undefined? && d.imageUrl != Str("")
  }

  /** The intended reading of "with images": an image URL is stored and is neither `null` nor
      the empty string. */
  predicate HasImage(d: Doc) {
    !d.imageUrl.Undefined? && !d.imageUrl.Null? && d.imageUrl != Str("")
  }

  datatype Stats = Stats(
    totalQuestions: nat,
    questionsBySubject: seq<Group>,
    questionsByExam: seq<Group>,
    questionsByDifficulty: seq<Group>,
    questionsWithSolutions: nat,
    questionsWithImages: nat,
    questionsWithoutSolutions: int,
    questionsWithoutImages: int)

  /** The statistics reply (with the corrected image count, see `HasImage`). Each group-by
      list is the sorted `$group` result for its field, and each "without" count is the
      complement of its "with" count. */
  function Compute(store: seq<Doc>): (s: Stats)
    ensures s.totalQuestions == |store|
    ensures s.questionsBySubject == GroupCounts(store, Subject)
    ensures s.questionsByExam == GroupCounts(store, Exam)
    ensures s.questionsByDifficulty == GroupCounts(store, Difficulty)
    ensures GroupByResult(store, Subject, s.questionsBySubject)
    ensures GroupByResult(store, Exam, s.questionsByExam)
    ensures GroupByResult(store, Difficulty, s.questionsByDifficulty)
    ensures s.questionsWithSolutions == Seqs.Count(store, HasSolution)
    ensures s.questionsWithImages == Seqs.Count(store, HasImage)
    ensures s.questionsWithSolutions + s.questionsWithoutSolutions == s.totalQuestions
    ensures s.questionsWithImages + s.questionsWithoutImages == s.totalQuestions
    ensures 0 <= s.questionsWithoutSolutions <= s.totalQuestions
    ensures 0 <= s.questionsWithoutImages <= s.totalQuestions
  {
    var total := CountDocuments(store, Everything);
    CountEverything(store);
    var withSolutions := CountDocuments(store, HasSolution);
    var withImages := CountDocuments(store, HasImage);
    Stats(total, GroupCounts(store, Subject), GroupCounts(store, Exam), GroupCounts(store, Difficulty),
          withSolutions, withImages, total - withSolutions, total - withImages)
  }

  /** The empty filter `{}`: it matches every document. */
  predicate Everything(d: Doc) {
    true
  }

  lemma {:induction false} CountEverything(store: seq<Doc>)
    ensures Seqs.Count(store, Everything) == |store|
  {
    if |store| > 0 {
      CountEverything(store[1..]);
    }
  }

  /** Three documents, two with a solution: two with, one without. */
  lemma SolutionCountExample(a: Doc, b: Doc, c: Doc)
    requires a.solution == Str("because") && b.solution == Str("hence") && c.solution == Str("")
    ensures CountDocuments([a, b, c], HasSolution) == 2
  {
    assert [a, b, c][1..] == [b, c];
    assert [b, c][1..] == [c];
    assert [c][1..] == [];
    assert Seqs.Count([c], HasSolution) == 0;
    assert Seqs.Count([b, c], HasSolution) == 1;
  }

  /** The route's image count counts a stored `null` image URL: one document without any image
      yields one "with image" and zero "without". */
  lemma ImageCountAsWrittenCountsNull(d: Doc)
    requires d.imageUrl == Null
    ensures CountDocuments([d], HasImageAsWritten) == 1
    ensures |[d]| - CountDocuments([d], HasImageAsWritten) == 0
    ensures Compute([d]).questionsWithImages == 0
    ensures Compute([d]).questionsWithoutImages == 1
  {
    assert [d][1..] == [];
  }

  /** The corrected count differs from the route's only on stored `null` URLs. */
  lemma ImageCountsAgreeWithoutNulls(store: seq<Doc>)
    requires forall i :: 0 <= i < |store| ==> !store[i].imageUrl.Null?
    ensures CountDocuments(store, HasImageAsWritten) == CountDocuments(store, HasImage)
  {
    CountAgree(store);
  }

  lemma {:induction false} CountAgree(store: seq<Doc>)
    requires forall i :: 0 <= i < |store| ==> !store[i].imageUrl.Null?
    ensures Seqs.Count(store, HasImageAsWritten) == Seqs.Count(store, HasImage)
  {
    if |store| > 0 {
      CountAgree(store[1..]);
    }
  }
}
