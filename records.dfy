/** The records the trivia backend stores and the filters it puts on them. */
module Records {
  import opened Text

  datatype Option<+T> = None | Some(value: T)

  /** A trivia question as stored: its primary key, the question and answer
      texts, a difficulty score and the id of its category. */
  datatype Question = Question(
    id: int,
    question: string,
    answer: string,
    difficulty: int,
    category: int)

  /** One `Query.filter(...)` clause of the backend. */
  datatype Criterion =
    | QuestionContains(term: string)  // Question.question.ilike(f'%{term}%')
    | CategoryIs(category: int)       // Question.category == category
    | IdNotIn(ids: seq<int>)          // ~Question.id.in_(ids)

  /** Whether question `q` passes the filter clause `c`. */
  predicate Holds(c: Criterion, q: Question)
    ensures c.QuestionContains? ==>
              (Holds(c, q) <==> exists i: nat :: MatchesAt(q.question, c.term, i))
    ensures c.CategoryIs? ==> (Holds(c, q) <==> q.category == c.category)
    ensures c.IdNotIn? ==> (Holds(c, q) <==> forall k :: 0 <= k < |c.ids| ==> c.ids[k] != q.id)
  {
    match c
    case QuestionContains(term) => ContainsIgnoringCase(q.question, term)
    case CategoryIs(category) => q.category == category
    case IdNotIn(ids) => q.id !in ids
  }

  /** The order `Query.order_by(Question.id)` produces: strictly increasing
      ids, hence also no id twice. */
  ghost predicate StrictlyIncreasing(qs: seq<Question>)
  {
    forall i, j :: 0 <= i < j < |qs| ==> qs[i].id < qs[j].id
  }

  /** The set of primary keys in use. */
  function Ids(qs: seq<Question>): set<int>
  {
    set q | q in qs :: q.id
  }
}
