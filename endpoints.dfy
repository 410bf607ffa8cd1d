/** The read-only endpoints of the trivia backend, as functions of the store:
    the category list, the paginated question list, search, the
    per-category list and the quiz picker. Each yields a Response, in which
    NotFound and Unprocessable stand for `abort(404)` and `abort(422)`. */
module Endpoints {
  import opened Text
  import opened Records
  import opened Queries

  /** The JSON bodies of the successful responses, by endpoint. */
  datatype Payload =
    | CategoryList(categories: map<int, string>)
    | QuestionPage(
        questions: seq<Question>,
        totalQuestions: nat,
        categories: map<int, string>,
        currentCategory: Option<int>)
    | Deleted(deleted: int, questions: seq<Question>, totalQuestions: nat)
    | Created(created: int)
    | SearchResults(questions: seq<Question>, totalQuestions: nat)
    | CategoryQuestions(questions: seq<Question>, totalQuestions: nat, currentCategory: Option<int>)
    | QuizQuestion(question: Option<Question>)

  datatype Response = Ok(payload: Payload) | NotFound | Unprocessable

  /** A decoded POST /questions body: each field is None when its key is
      absent or set to null. */
  datatype Body = Body(
    search: Option<string>,
    question: Option<string>,
    answer: Option<string>,
    difficulty: Option<int>,
    category: Option<int>)

  /** The keys present in the body. */
  function Keys(b: Body): set<string>
  {
    (if b.search.Some? then {"search"} else {})
    + (if b.question.Some? then {"question"} else {})
    + (if b.answer.Some? then {"answer"} else {})
    + (if b.difficulty.Some? then {"difficulty"} else {})
    + (if b.category.Some? then {"category"} else {})
  }

  /** Reading `data['question']`, `data['answer']`, `data['difficulty']` and
      `data['category']` raises no KeyError. */
  predicate IsComplete(b: Body)
    ensures IsComplete(b) <==> {"question", "answer", "difficulty", "category"} <= Keys(b)
  {
    b.question.Some? && b.answer.Some? && b.difficulty.Some? && b.category.Some?
  }

  /** GET /categories: every category id with its type; it cannot fail. */
  function GetCategories(categories: map<int, string>): (r: Response)
    ensures r.Ok? && r.payload.CategoryList?
    ensures r.payload.categories.Keys == categories.Keys
    ensures forall id :: id in categories ==> r.payload.categories[id] == categories[id]
  {
    Ok(CategoryList(categories))
  }

  /** `request.args.get('page', 1, type=int)`: an absent page argument, or
      one that is not an integer (given here as None), means page 1. */
  function PageNumber(page: Option<int>): (n: int)
    ensures page.None? ==> n == 1
    ensures page.Some? ==> n == page.value
    ensures (page.Some? ==> page.value >= 1) ==> n >= 1
  {
    match page
    case None => 1
    case Some(n) => n
  }

  /** GET /questions?page=N. */
  function GetQuestions(qs: seq<Question>, categories: map<int, string>, page: Option<int>): (r: Response)
    requires page.Some? ==> page.value >= 1
    ensures !r.Unprocessable?
    ensures r.NotFound? <==> |qs| <= PageStart(PageNumber(page))
    ensures r.Ok? ==> r.payload.QuestionPage?
    ensures r.Ok? ==> 0 < |r.payload.questions| <= QuestionsPerPage
    ensures r.Ok? ==> (|r.payload.questions| ==
                         if |qs| < PageStart(PageNumber(page)) + QuestionsPerPage
                         then |qs| - PageStart(PageNumber(page))
                         else QuestionsPerPage)
    ensures r.Ok? ==> r.payload.questions == Page(qs, PageNumber(page))
    ensures r.Ok? ==> forall k :: 0 <= k < |r.payload.questions| ==>
              PageStart(PageNumber(page)) + k < |qs| &&
              r.payload.questions[k] == qs[PageStart(PageNumber(page)) + k]
    ensures r.Ok? && StrictlyIncreasing(qs) ==> StrictlyIncreasing(r.payload.questions)
    ensures r.Ok? ==> r.payload.totalQuestions == |qs|
    ensures r.Ok? ==> r.payload.categories == categories && r.payload.currentCategory == None
  {
    var questions := Page(qs, PageNumber(page));
    if |questions| == 0 then NotFound
    else Ok(QuestionPage(questions, |qs|, categories, None))
  }

  /** The POST /questions search branch (`get_search_questions`). */
  function SearchQuestions(qs: seq<Question>, term: string): (r: Response)
    ensures r.Ok? && r.payload.SearchResults?
    ensures forall q :: q in r.payload.questions <==> q in qs && ContainsIgnoringCase(q.question, term)
    ensures StrictlyIncreasing(qs) ==> StrictlyIncreasing(r.payload.questions)
    ensures r.payload.totalQuestions == |qs|
  {
    Ok(SearchResults(Filter(qs, QuestionContains(term)), |qs|))
  }

  /** GET /categories/{id}/questions. */
  function GetQuestionsPerCategory(qs: seq<Question>, categories: map<int, string>, id: int): (r: Response)
    ensures !r.Unprocessable?
    ensures r.NotFound? <==> id !in categories
    ensures r.Ok? ==> r.payload.CategoryQuestions?
    ensures r.Ok? ==> forall q :: q in r.payload.questions <==> q in qs && q.category == id
    ensures r.Ok? && StrictlyIncreasing(qs) ==> StrictlyIncreasing(r.payload.questions)
    ensures r.Ok? ==> r.payload.totalQuestions == |qs| && r.payload.currentCategory == Some(id)
  {
    if id !in categories then NotFound
    else Ok(CategoryQuestions(Filter(qs, CategoryIs(id)), |qs|, Some(id)))
  }

  /** What the quiz may ask next: a question of the chosen category (any
      category when the id is 0) that was not asked before. */
  predicate QuizEligible(q: Question, categoryId: int, previous: seq<int>)
  {
    (categoryId == 0 || q.category == categoryId) && q.id !in previous
  }

  /** The filter clauses `get_quiz_question` adds to its query, in order. */
  function QuizFilters(categoryId: int, previous: seq<int>): (cs: seq<Criterion>)
    ensures CategoryIs(categoryId) in cs <==> categoryId != 0
    ensures IdNotIn(previous) in cs <==> |previous| > 0
    ensures forall c :: c in cs ==> c == CategoryIs(categoryId) || c == IdNotIn(previous)
  {
    (if categoryId != 0 then [CategoryIs(categoryId)] else [])
    + (if |previous| > 0 then [IdNotIn(previous)] else [])
  }

  /** The rows of the quiz query once its filters are applied. */
  function QuizCandidates(qs: seq<Question>, categoryId: int, previous: seq<int>): (r: seq<Question>)
    ensures forall q :: q in r <==> q in qs && QuizEligible(q, categoryId, previous)
  {
    var cs := QuizFilters(categoryId, previous);
    Apply(qs, cs)
  }

  /** POST /quizzes. The random choice among the candidates is a free choice. */
  method GetQuizQuestion(qs: seq<Question>, categories: map<int, string>, categoryId: int, previous: seq<int>)
    returns (r: Response)
    ensures !r.Unprocessable?
    ensures r.NotFound? <==> categoryId != 0 && categoryId !in categories
    ensures r.Ok? ==> r.payload.QuizQuestion?
    ensures r.Ok? ==> (r.payload.question.None? <==>
                       forall q :: q in qs ==> !QuizEligible(q, categoryId, previous))
    ensures r.Ok? && r.payload.question.Some? ==>
              r.payload.question.value in qs &&
              QuizEligible(r.payload.question.value, categoryId, previous)
  {
    if categoryId != 0 && categoryId !in categories {
      return NotFound;
    }
    var candidates := QuizCandidates(qs, categoryId, previous);
    if |candidates| > 0 {
      assert candidates[0] in candidates;
      var q :| q in candidates;
      r := Ok(QuizQuestion(Some(q)));
    } else {
      r := Ok(QuizQuestion(None));
    }
  }

  /** Two search terms that agree up to the case of letters find the same questions. */
  lemma {:induction false} SearchIgnoresCase(qs: seq<Question>, term: string, term': string)
    requires LowerString(term) == LowerString(term')
    ensures SearchQuestions(qs, term) == SearchQuestions(qs, term')
  {
    FilterRespectsMeaning(qs, QuestionContains(term), QuestionContains(term'));
  }

  /** In particular, searching for the upper-cased term finds the same questions. */
  lemma SearchIgnoresUpperCase(qs: seq<Question>, term: string)
    ensures SearchQuestions(qs, UpperString(term)) == SearchQuestions(qs, term)
  {
    LowerOfUpper(term);
    SearchIgnoresCase(qs, UpperString(term), term);
  }

  /** Filters that accept the same questions select the same rows. */
  lemma {:induction false} FilterRespectsMeaning(qs: seq<Question>, c: Criterion, c': Criterion)
    requires forall q :: Holds(c, q) == Holds(c', q)
    ensures Filter(qs, c) == Filter(qs, c')
  {
    if qs != [] {
      FilterRespectsMeaning(qs[1..], c, c');
    }
  }

  /** An empty search term returns the whole store, in order. */
  lemma EmptySearchReturnsAll(qs: seq<Question>)
    ensures SearchQuestions(qs, "").payload.questions == qs
  {
    forall q | q in qs
      ensures Holds(QuestionContains(""), q)
    {
      EmptyTermMatches(q.question);
    }
  }

  /** With no questions seen yet, the quiz draws from the same questions the
      per-category listing shows, or from the whole store for category 0. */
  lemma QuizWithoutHistory(qs: seq<Question>, categories: map<int, string>, categoryId: int)
    ensures categoryId == 0 ==> QuizCandidates(qs, categoryId, []) == qs
    ensures categoryId in categories && categoryId != 0 ==>
              QuizCandidates(qs, categoryId, []) ==
              GetQuestionsPerCategory(qs, categories, categoryId).payload.questions
  {
    if categoryId != 0 {
      assert QuizFilters(categoryId, []) == [CategoryIs(categoryId)];
      assert Apply(qs, [CategoryIs(categoryId)]) == Apply(Filter(qs, CategoryIs(categoryId)), []);
    }
  }
}
