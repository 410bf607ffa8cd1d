/** The endpoints that change the question store: DELETE /questions/{id} and
    POST /questions (search, or insert of a new question). The store is the
    database the application is bound to; its id sequence hands out primary
    keys. */
module App {
  import opened Records
  import opened Queries
  import opened Endpoints

  /** The question row `insert_question` builds from a complete body. */
  function NewQuestion(body: Body, id: int): (q: Question)
    requires IsComplete(body)
    ensures q.id == id
    ensures Some(q.question) == body.question && Some(q.answer) == body.answer
    ensures Some(q.difficulty) == body.difficulty && Some(q.category) == body.category
  {
    Question(id, body.question.value, body.answer.value, body.difficulty.value, body.category.value)
  }

  /** Appending a question whose id exceeds every id in use keeps the store in
      id order, adds exactly one question, and puts it at the end of the last
      page of the listing. */
  lemma AppendedQuestionEndsLastPage(qs: seq<Question>, q: Question)
    requires StrictlyIncreasing(qs)
    requires forall p :: p in qs ==> p.id < q.id
    ensures q.id !in Ids(qs)
    ensures StrictlyIncreasing(qs + [q])
    ensures |qs + [q]| == |qs| + 1
    ensures var last := Page(qs + [q], PageCount(qs + [q]));
            last != [] && last[|last| - 1] == q
  {
    var qs' := qs + [q];
    forall i, j | 0 <= i < j < |qs'|
      ensures qs'[i].id < qs'[j].id
    {
      if j == |qs| {
        assert qs'[i] == qs[i] && qs[i] in qs;
      }
    }
    LastQuestionEndsLastPage(qs');
  }

  class TriviaStore {
    /** The question table, in id order. */
    var questions: seq<Question>
    /** The category table: id to type. */
    var categories: map<int, string>
    /** The next value of the question id sequence. */
    var nextId: int

    ghost predicate Valid()
      reads this
    {
      && StrictlyIncreasing(questions)
      && forall q :: q in questions ==> q.id < nextId
    }

    constructor (qs: seq<Question>, cats: map<int, string>, next: int)
      requires StrictlyIncreasing(qs)
      requires forall q :: q in qs ==> q.id < next
      ensures Valid()
      ensures questions == qs && categories == cats && nextId == next
    {
      questions := qs;
      categories := cats;
      nextId := next;
    }

    /** DELETE /questions/{id}. `fails` stands for a storage error inside the
        `try` block, which the endpoint turns into 422. */
    method DeleteQuestion(id: int, fails: bool) returns (r: Response)
      requires Valid()
      modifies this
      ensures Valid()
      ensures categories == old(categories) && nextId == old(nextId)
      ensures id !in Ids(old(questions)) ==> r == NotFound && questions == old(questions)
      ensures id in Ids(old(questions)) && fails ==> r == Unprocessable && questions == old(questions)
      ensures id in Ids(old(questions)) && !fails ==>
                && questions == Without(old(questions), id)
                && |questions| == |old(questions)| - 1
                && id !in Ids(questions)
                && (forall q :: q in questions <==> q in old(questions) && q.id != id)
                && r == Ok(Deleted(id, Page(questions, 1), |questions|))
    {
      if Find(questions, id).None? {
        return NotFound;
      }
      if fails {
        return Unprocessable;
      }
      var before := questions;
      WithoutRemovesOnlyThatQuestion(before, id);
      var after := Without(before, id);
      assert forall q :: q in after ==> q.id < nextId;
      questions := after;
      r := Ok(Deleted(id, Page(after, 1), |after|));
    }

    /** `insert_question`: a body that lacks one of the four keys, or a
        storage error (`fails`), gives 422 and leaves the store as it was;
        otherwise the new question takes the next id and goes last. */
    method InsertQuestion(body: Body, fails: bool) returns (r: Response)
      requires Valid()
      modifies this
      ensures Valid()
      ensures categories == old(categories)
      ensures !IsComplete(body) || fails ==>
                r == Unprocessable && questions == old(questions) && nextId == old(nextId)
      ensures IsComplete(body) && !fails ==>
                && old(nextId) !in Ids(old(questions))
                && questions == old(questions) + [NewQuestion(body, old(nextId))]
                && nextId == old(nextId) + 1
                && r == Ok(Created(old(nextId)))
    {
      if !IsComplete(body) || fails {
        return Unprocessable;
      }
      var q := NewQuestion(body, nextId);
      AppendedQuestionEndsLastPage(questions, q);
      questions := questions + [q];
      nextId := nextId + 1;
      r := Ok(Created(q.id));
    }

    /** POST /questions: a body with a "search" key is a search and leaves the
        store alone; any other body is an insert. */
    method PostQuestions(body: Body, fails: bool) returns (r: Response)
      requires Valid()
      modifies this
      ensures Valid()
      ensures categories == old(categories)
      ensures body.search.Some? ==>
                && r == SearchQuestions(old(questions), body.search.value)
                && questions == old(questions) && nextId == old(nextId)
      ensures body.search.None? && (!IsComplete(body) || fails) ==>
                r == Unprocessable && questions == old(questions) && nextId == old(nextId)
      ensures body.search.None? && IsComplete(body) && !fails ==>
                && questions == old(questions) + [NewQuestion(body, old(nextId))]
                && nextId == old(nextId) + 1
                && r == Ok(Created(old(nextId)))
    {
      if body.search.Some? {
        r := SearchQuestions(questions, body.search.value);
      } else {
        r := InsertQuestion(body, fails);
      }
    }
  }
}
