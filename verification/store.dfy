/** The `questions` collection (preplensadmin/backend/index.js:32-49) and the driver calls the
    routes make on it. The collection is a sequence of documents in insertion order; the
    driver's calls are pure functions from the old sequence to the new one. */
module Store {
  import opened Js
  import Seqs

  /** A question document as the route handlers build it. `qtype` is the `type` field. */
  datatype Doc = Doc(
    text: Value,
    options: seq<Value>,
    answer: Value,
    correctOptionIndex: Slot<int>,
    correctOptionLetter: Value,
    solution: Value,
    subject: Value,
    exam: Value,
    difficulty: Value,
    tags: seq<string>,
    marks: Value,
    timeLimit: Value,
    blooms: Value,
    qtype: Value,
    imageUrl: Value)

  /** The fixed position-to-letter table both creation routes use. */
  const Letters: seq<string> := ["A", "B", "C", "D"]

  /** `['A', 'B', 'C', 'D'][k]`: the letter, or `undefined` outside the table. */
  function LetterAt(k: int): (r: Value)
    ensures r.Str? <==> 0 <= k < 4
  {
    if 0 <= k < |Letters| then Str(Letters[k]) else Undefined
  }

  /** The record invariant the data model asks for: a set index is a valid letter position,
      the letter agrees with it, and the answer text is the option at that position whenever
      that option has text. The routes establish it only under conditions (see the lemmas). */
  predicate AnswerConsistent(d: Doc) {
    d.correctOptionIndex.Present? ==>
      var i := d.correctOptionIndex.value;
      && 0 <= i < |Letters|
      && i < |d.options|
      && d.correctOptionLetter == Str(Letters[i])
      && (Truthy(d.options[i]) ==> d.answer == d.options[i])
  }

  /** `insertMany(docs)`: every document is appended, in order, after the existing ones. */
  function InsertMany(store: seq<Doc>, docs: seq<Doc>): (r: seq<Doc>)
    ensures |r| == |store| + |docs|
    ensures r[..|store|] == store && r[|store|..] == docs
  {
    store + docs
  }

  datatype DeleteResult = DeleteResult(remaining: seq<Doc>, deletedCount: nat)

  /** `deleteMany(filter)` for a filter whose match relation is `matches`: every matching
      document goes, every other one stays, as often and in the order it was stored, and the
      reply counts the deleted ones. */
  function DeleteMany(store: seq<Doc>, matches: Doc -> bool): (r: DeleteResult)
    ensures r.deletedCount == Seqs.Count(store, matches)
    ensures r.deletedCount + |r.remaining| == |store|
    ensures forall i :: 0 <= i < |r.remaining| ==> !matches(r.remaining[i])
    ensures forall i :: 0 <= i < |store| && !matches(store[i]) ==> store[i] in r.remaining
    ensures forall x :: multiset(r.remaining)[x] == if matches(x) then 0 else multiset(store)[x]
    ensures Seqs.Subsequence(r.remaining, store)
  {
    var remaining := Seqs.Filter(store, Seqs.Not(matches));
    Seqs.FilterPartition(store, matches);
    Seqs.FilterCount(store, matches);
    Seqs.FilterMultiplicity(store, Seqs.Not(matches));
    DeleteResult(remaining, |store| - |remaining|)
  }

  /** `countDocuments(filter)`: the number of matching documents. */
  function CountDocuments(store: seq<Doc>, matches: Doc -> bool): (n: nat)
    ensures n == Seqs.Count(store, matches)
    ensures n <= |store|
  {
    Seqs.FilterCount(store, matches);
    |Seqs.Filter(store, matches)|
  }
}
