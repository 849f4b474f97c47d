/** `DELETE /clear-questions` and `DELETE /clear-database`
    (preplensadmin/backend/index.js:288-323): remove the documents matching a filter built from
    the request body, or all of them. */
module ClearQuestions {
  import opened Js
  import opened Store
  import Seqs

  /** The JSON body. `tags` is `None` when absent or `null`. */
  datatype Body = Body(subject: Value, exam: Value, difficulty: Value, tags: Option<seq<string>>)

  /** The query object the route builds: a field is present only when the body value is truthy
      (for `tags`, a non-empty array, matched with `$in`). */
  datatype Query = Query(subject: Option<Value>, exam: Option<Value>, difficulty: Option<Value>,
                         tagsIn: Option<seq<string>>)

  function BuildQuery(b: Body): (q: Query)
    ensures q.subject.Some? <==> Truthy(b.subject)
    ensures q.exam.Some? <==> Truthy(b.exam)
    ensures q.difficulty.Some? <==> Truthy(b.difficulty)
    ensures q.tagsIn.Some? <==> b.tags.Some? && |b.tags.value| > 0
  {
    Query(
      if Truthy(b.subject) then Some(b.subject) else None,
      if Truthy(b.exam) then Some(b.exam) else None,
      if Truthy(b.difficulty) then Some(b.difficulty) else None,
      if b.tags.Some? && |b.tags.value| > 0 then b.tags else None)
  }

  /** Some stored tag is one of the listed tags (`$in` on an array field). */
  predicate AnyTagIn(tags: seq<string>, wanted: seq<string>) {
    exists i :: 0 <= i < |tags| && tags[i] in wanted
  }

  /** How the store matches a document against the query: every present field must hold. */
  predicate QueryMatches(q: Query, d: Doc) {
    && (q.subject.Some? ==> d.subject == q.subject.value)
    && (q.exam.Some? ==> d.exam == q.exam.value)
    && (q.difficulty.Some? ==> d.difficulty == q.difficulty.value)
    && (q.tagsIn.Some? ==> AnyTagIn(d.tags, q.tagsIn.value))
  }

  /** Reference reading of the body: each truthy field constrains, non-empty tags match any-of. */
  predicate Selected(b: Body, d: Doc) {
    && (Truthy(b.subject) ==> d.subject == b.subject)
    && (Truthy(b.exam) ==> d.exam == b.exam)
    && (Truthy(b.difficulty) ==> d.difficulty == b.difficulty)
    && (b.tags.Some? && |b.tags.value| > 0 ==> AnyTagIn(d.tags, b.tags.value))
  }

  /** The built query matches exactly the documents the body selects. */
  lemma QueryMatchesIffSelected(b: Body, d: Doc)
    ensures QueryMatches(BuildQuery(b), d) <==> Selected(b, d)
  {
  }

  datatype Reply = Reply(deletedCount: nat, filter: Query)

  datatype Outcome = Outcome(store: seq<Doc>, reply: Reply)

  /** `DELETE /clear-questions`: exactly the selected documents are removed, the others stay
      in their order, and the reply counts the removed ones. */
  function ClearByFilter(store: seq<Doc>, b: Body): (r: Outcome)
    ensures r.reply.deletedCount + |r.store| == |store|
    ensures r.reply.deletedCount == Seqs.Count(store, d => Selected(b, d))
    ensures forall i :: 0 <= i < |r.store| ==> !Selected(b, r.store[i])
    ensures forall i :: 0 <= i < |store| && !Selected(b, store[i]) ==> store[i] in r.store
    ensures forall x :: multiset(r.store)[x] == if Selected(b, x) then 0 else multiset(store)[x]
    ensures Seqs.Subsequence(r.store, store)
    ensures r.reply.filter == BuildQuery(b)
  {
    var q := BuildQuery(b);
    var matches := d => QueryMatches(q, d);
    assert forall d :: matches(d) == Selected(b, d) by {
      forall d
        ensures matches(d) == Selected(b, d)
      {
        QueryMatchesIffSelected(b, d);
      }
    }
    CountSamePredicate(store, matches, d => Selected(b, d));
    var result := DeleteMany(store, matches);
    Outcome(result.remaining, Reply(result.deletedCount, q))
  }

  lemma {:induction false} CountSamePredicate(s: seq<Doc>, p: Doc -> bool, p': Doc -> bool)
    requires forall d :: p(d) == p'(d)
    ensures Seqs.Count(s, p) == Seqs.Count(s, p')
  {
    if |s| > 0 {
      CountSamePredicate(s[1..], p, p');
    }
  }

  /** An empty body (or one whose fields are all falsy) deletes every document. */
  lemma EmptyBodyClearsAll(store: seq<Doc>, b: Body)
    requires !Truthy(b.subject) && !Truthy(b.exam) && !Truthy(b.difficulty)
    requires b.tags.None? || b.tags.value == []
    ensures ClearByFilter(store, b).store == []
    ensures ClearByFilter(store, b).reply.deletedCount == |store|
  {
  }

  /** Deleting by subject removes exactly the documents with that subject. */
  lemma SubjectOnlyFilter(store: seq<Doc>, subject: string)
    requires subject != ""
    ensures var r := ClearByFilter(store, Body(Str(subject), Undefined, Undefined, None));
      && (forall i :: 0 <= i < |r.store| ==> r.store[i].subject != Str(subject))
      && (forall i :: 0 <= i < |store| && store[i].subject != Str(subject) ==> store[i] in r.store)
      && r.reply.filter == Query(Some(Str(subject)), None, None, None)
  {
  }

  /** `DELETE /clear-database`: `deleteMany({})` removes every document and reports how many. */
  function ClearDatabase(store: seq<Doc>): (r: Outcome)
    ensures r.store == [] && r.reply.deletedCount == |store|
  {
    var result := DeleteMany(store, d => true);
    Outcome(result.remaining, Reply(result.deletedCount, Query(None, None, None, None)))
  }
}
