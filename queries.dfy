/** The ORM queries of the backend as functions over the id-ordered store:
    filtering, lookup by primary key, deletion of one row, and pagination. */
module Queries {
  import opened Records

  /** `get_paginated_questions` shows this many questions per page. */
  const QuestionsPerPage: nat := 10

  /** `query.filter(c)`: the questions that pass `c`, in store order. */
  function Filter(qs: seq<Question>, c: Criterion): (r: seq<Question>)
    ensures |r| <= |qs|
    ensures forall q :: q in r <==> q in qs && Holds(c, q)
    ensures StrictlyIncreasing(qs) ==> StrictlyIncreasing(r)
    ensures (forall q :: q in qs ==> Holds(c, q)) ==> r == qs
  {
    if qs == [] then []
    else
      var rest := Filter(qs[1..], c);
      HeadPrecedesTail(qs);
      if Holds(c, qs[0]) then [qs[0]] + rest else rest
  }

  /** A query built by chaining `.filter(...)` clauses: the questions that
      pass every one of `cs`, in store order. */
  function Apply(qs: seq<Question>, cs: seq<Criterion>): (r: seq<Question>)
    ensures forall q :: q in r <==> q in qs && forall c :: c in cs ==> Holds(c, q)
    ensures StrictlyIncreasing(qs) ==> StrictlyIncreasing(r)
    decreases cs
  {
    if cs == [] then qs
    else Apply(Filter(qs, cs[0]), cs[1..])
  }

  /** `Question.query.get(id)`: the position of the question with primary key
      `id`, or None when there is none. */
  function Find(qs: seq<Question>, id: int): (r: Option<nat>)
    ensures r.None? <==> id !in Ids(qs)
    ensures r.Some? ==> r.value < |qs| && qs[r.value].id == id
    ensures r.Some? ==> forall k :: 0 <= k < r.value ==> qs[k].id != id
  {
    if qs == [] then None
    else if qs[0].id == id then Some(0)
    else
      match Find(qs[1..], id)
      case None => None
      case Some(k) => Some(k + 1)
  }

  /** Every question after the first one of an id-ordered store has a
      larger id than the first. */
  lemma HeadPrecedesTail(qs: seq<Question>)
    requires qs != []
    ensures StrictlyIncreasing(qs) ==> forall q :: q in qs[1..] ==> qs[0].id < q.id
  {
    if StrictlyIncreasing(qs) {
      forall q | q in qs[1..]
        ensures qs[0].id < q.id
      {
        var j :| 0 <= j < |qs[1..]| && qs[1..][j] == q;
        assert q == qs[j + 1];
      }
    }
  }

  /** The store after `question.delete()` on the row with primary key `id`. */
  function Without(qs: seq<Question>, id: int): (r: seq<Question>)
    ensures forall q :: q in r ==> q in qs
  {
    if qs == [] then []
    else if qs[0].id == id then qs[1..]
    else [qs[0]] + Without(qs[1..], id)
  }

  /** In an id-ordered store, deleting `id` keeps exactly the questions
      with another id. */
  lemma {:induction false} WithoutKeepsTheOthers(qs: seq<Question>, id: int)
    requires StrictlyIncreasing(qs)
    ensures forall q :: q in Without(qs, id) <==> q in qs && q.id != id
  {
    if qs != [] {
      HeadPrecedesTail(qs);
      if qs[0].id != id {
        WithoutKeepsTheOthers(qs[1..], id);
      }
      assert forall q :: q in qs && q != qs[0] ==> q in qs[1..];
    }
  }

  /** Deleting keeps the order of the questions that remain. */
  lemma {:induction false} WithoutKeepsOrder(qs: seq<Question>, id: int)
    requires StrictlyIncreasing(qs)
    ensures StrictlyIncreasing(Without(qs, id))
  {
    if qs != [] && qs[0].id != id {
      HeadPrecedesTail(qs);
      WithoutKeepsOrder(qs[1..], id);
    }
  }

  /** Deleting an id that is in use removes exactly one question. */
  lemma {:induction false} WithoutRemovesOne(qs: seq<Question>, id: int)
    requires id in Ids(qs)
    ensures |Without(qs, id)| == |qs| - 1
  {
    if qs[0].id != id {
      var q :| q in qs && q.id == id;
      assert q in qs[1..];
      WithoutRemovesOne(qs[1..], id);
    }
  }

  /** Deleting an existing id removes exactly that question: one fewer row,
      the rows that remain are the other ones, and their order is kept. */
  lemma WithoutRemovesOnlyThatQuestion(qs: seq<Question>, id: int)
    requires StrictlyIncreasing(qs)
    requires id in Ids(qs)
    ensures |Without(qs, id)| == |qs| - 1
    ensures id !in Ids(Without(qs, id))
    ensures forall q :: q in Without(qs, id) <==> q in qs && q.id != id
    ensures StrictlyIncreasing(Without(qs, id))
  {
    WithoutKeepsTheOthers(qs, id);
    WithoutKeepsOrder(qs, id);
    WithoutRemovesOne(qs, id);
  }

  /** An id that is not in use leaves the store as it is. */
  lemma {:induction false} WithoutUnknownId(qs: seq<Question>, id: int)
    requires id !in Ids(qs)
    ensures Without(qs, id) == qs
  {
    if qs != [] {
      assert Ids(qs[1..]) <= Ids(qs);
      WithoutUnknownId(qs[1..], id);
    }
  }

  /** `query.slice(start, end)`, i.e. OFFSET start LIMIT end - start: the rows
      at positions start .. end - 1, cut short at the end of the store. */
  function Slice(qs: seq<Question>, start: nat, end: nat): (r: seq<Question>)
    requires start <= end
    ensures |r| <= end - start
    ensures |r| == if start < |qs| then (if end < |qs| then end else |qs|) - start else 0
    ensures forall k :: 0 <= k < |r| ==> start + k < |qs| && r[k] == qs[start + k]
  {
    if |qs| <= start then []
    else if |qs| <= end then qs[start..]
    else qs[start..end]
  }

  /** Index of the first question on page `n` (pages count from 1). */
  function PageStart(n: int): (s: nat)
    requires n >= 1
    ensures s / QuestionsPerPage + 1 == n
  {
    (n - 1) * QuestionsPerPage
  }

  /** `get_paginated_questions(n)`: page `n` of the id-ordered store. */
  function Page(qs: seq<Question>, n: int): (r: seq<Question>)
    requires n >= 1
    ensures |r| <= QuestionsPerPage
    ensures r == [] <==> |qs| <= PageStart(n)
    ensures |r| == if |qs| <= PageStart(n) then 0
                   else if |qs| < PageStart(n) + QuestionsPerPage then |qs| - PageStart(n)
                   else QuestionsPerPage
    ensures forall k :: 0 <= k < |r| ==> PageStart(n) + k < |qs| && r[k] == qs[PageStart(n) + k]
    ensures StrictlyIncreasing(qs) ==> StrictlyIncreasing(r)
  {
    var start := PageStart(n);
    Slice(qs, start, start + QuestionsPerPage)
  }

  /** The question at position `i` of the store is on page `i / 10 + 1`, at
      position `i % 10` of that page. */
  lemma {:induction false} QuestionIsOnItsPage(qs: seq<Question>, i: nat)
    requires i < |qs|
    ensures var p := Page(qs, i / QuestionsPerPage + 1);
            i % QuestionsPerPage < |p| && p[i % QuestionsPerPage] == qs[i]
  {
    var n := i / QuestionsPerPage + 1;
    assert PageStart(n) + i % QuestionsPerPage == i;
  }

  /** The number of pages that hold at least one question. */
  function PageCount(qs: seq<Question>): (c: nat)
    ensures c == 0 <==> qs == []
    ensures qs != [] ==> Page(qs, c) != [] && Page(qs, c + 1) == []
  {
    (|qs| + QuestionsPerPage - 1) / QuestionsPerPage
  }

  /** The last question of the store is the last entry of the last page. */
  lemma {:induction false} LastQuestionEndsLastPage(qs: seq<Question>)
    requires qs != []
    ensures var p := Page(qs, PageCount(qs));
            p != [] && p[|p| - 1] == qs[|qs| - 1]
  {
    var i := |qs| - 1;
    QuestionIsOnItsPage(qs, i);
    assert i / QuestionsPerPage + 1 == PageCount(qs);
    var p := Page(qs, PageCount(qs));
    assert |p| == i % QuestionsPerPage + 1;
  }
}
