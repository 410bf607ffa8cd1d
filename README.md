# Trivia API backend — a Dafny model

This project models the request-level logic of the trivia game backend
(`backend/flaskr/__init__.py`). The backend serves categories and questions
over HTTP. It supports:

- a paginated question list, ten questions per page;
- deletion of a question;
- a POST endpoint that either searches or inserts, depending on its body;
- a per-category question list;
- a quiz endpoint that picks a question not seen before.

The database is modelled as an in-memory store:

- `questions` is a sequence of question records kept in strictly increasing
  id order. This is the order `order_by(Question.id)` gives.
- `categories` is a map from category id to category type.
- `nextId` is the next value of the database's id sequence.

Every endpoint returns a `Response`: `Ok(payload)`, `NotFound` (`abort(404)`)
or `Unprocessable` (`abort(422)`).

Modules, one file each:

- `Text` (`text.dfy`): ASCII case folding, and the substring test that gives
  `ilike('%term%')` its meaning.
- `Records` (`records.dfy`): the question record and the id order. It also
  defines `Criterion`, one `Query.filter(...)` clause.
- `Queries` (`queries.dfy`): the ORM queries as functions over the
  id-ordered sequence. These are filtering, a chain of filters, lookup by
  primary key, deletion of one row, `slice`, and the page arithmetic.
- `Endpoints` (`endpoints.dfy`): the read-only endpoints, as functions of the
  store. The quiz picker is a method whose random choice is a free choice
  (`:|`) among the candidates.
- `App` (`app.dfy`): class `TriviaStore`. Its fields are the tables, which
  `DeleteQuestion`, `InsertQuestion` and `PostQuestions` update in place.
  `Valid()` says the questions are in strictly increasing id order and every
  id is below `nextId`.

The search key of `POST /questions` is `"search"` (`__init__.py:119`).

## Model

| member | source | states |
|---|---|---|
| `Text.ContainsIgnoringCase` | backend/flaskr/__init__.py:158 | `ilike('%term%')` holds exactly when, at some position of the text, every character of the term matches ignoring ASCII case. A match needs a term no longer than the text. |
| `Records.Holds` | backend/flaskr/__init__.py:158 | The three filter clauses. A question passes the search clause exactly when its text contains the term ignoring case (line 158). It passes the category clause exactly when its category is the given id (lines 181, 211). It passes `~in_` exactly when no listed id equals its id (line 215). |
| `Queries.Filter` | backend/flaskr/__init__.py:156-159 | `query.filter(c)` keeps exactly the questions that pass `c`. No row is added and the store order is kept. A clause that every question passes keeps the whole store. |
| `Queries.Apply` | backend/flaskr/__init__.py:207-215 | A chain of `.filter` clauses keeps exactly the questions that pass every clause, in id order. |
| `Queries.Find` | backend/flaskr/__init__.py:88 | The primary-key lookup of `get_or_404` finds nothing exactly when the id is not in use. Otherwise it gives the first position that holds that id. |
| `Queries.HeadPrecedesTail` | backend/flaskr/__init__.py:14 | In id order, every later question has a larger id than the first one. |
| `Queries.Without` | backend/flaskr/__init__.py:91 | `question.delete()` leaves only rows that were already in the store. Its lemmas below give the count, the membership and the order. |
| `Queries.WithoutKeepsTheOthers` | backend/flaskr/__init__.py:91 | After `question.delete()`, what remains is exactly the questions with a different id. |
| `Queries.WithoutKeepsOrder` | backend/flaskr/__init__.py:91 | Deletion keeps the store in id order. |
| `Queries.WithoutRemovesOne` | backend/flaskr/__init__.py:91 | Deleting an id in use removes exactly one row. |
| `Queries.WithoutRemovesOnlyThatQuestion` | backend/flaskr/__init__.py:88-93 | Deleting an existing id lowers the count by one and leaves the id unused. The other questions stay, in order. |
| `Queries.WithoutUnknownId` | backend/flaskr/__init__.py:88 | Deleting an id that is not in use changes nothing. |
| `Queries.Slice` | backend/flaskr/__init__.py:14 | `slice(start, end)` gives the rows at positions `start` to `end - 1`, cut short at the end of the store. The result is empty past the end. |
| `Queries.PageStart` | backend/flaskr/__init__.py:12 | The first index of page `n` is `(n - 1) * 10`, so the page number can be read back from it as `start / 10 + 1`. |
| `Queries.Page` | backend/flaskr/__init__.py:11-15 | Page `n` holds the id-ordered slice from `(n - 1) * 10` to `(n - 1) * 10 + 10`. Its length is 0 when the store ends before the page starts. It is what remains of the store when fewer than 10 questions are left, and 10 otherwise. Its k-th entry is `qs[(n - 1) * 10 + k]`, and it is in id order. |
| `Queries.QuestionIsOnItsPage` | backend/flaskr/__init__.py:11-15 | The question at index `i` is entry `i % 10` of page `i / 10 + 1`. |
| `Queries.PageCount` | backend/flaskr/__init__.py:11-15 | The page count is 0 exactly for an empty store. Otherwise the last counted page is non-empty and the next page is empty. |
| `Queries.LastQuestionEndsLastPage` | backend/flaskr/__init__.py:111-113 | The last question of the store is the last entry of the last page. |
| `Text.LowerOfUpper` | backend/flaskr/__init__.py:158 | Lower-casing forgets upper case, so `ilike` cannot tell a term from its upper-cased form. |
| `Text.EmptyTermMatches` | backend/flaskr/__init__.py:158 | The pattern `%%` (an empty term) matches every text. |
| `Endpoints.GetCategories` | backend/flaskr/__init__.py:44-48 | GET /categories always succeeds. It returns every category id with its type. |
| `Endpoints.PageNumber` | backend/flaskr/__init__.py:65 | An absent or non-integer page argument means page 1; otherwise the argument is the page number. |
| `Endpoints.IsComplete` | backend/flaskr/__init__.py:130-133 | A body is complete exactly when its keys include `question`, `answer`, `difficulty` and `category`, i.e. when none of the four reads raises KeyError. |
| `Endpoints.GetQuestions` | backend/flaskr/__init__.py:63-76 | GET /questions is 404 exactly when the page is empty. The page defaults to 1. Otherwise the response holds the whole page: the id-ordered slice that starts at `(page - 1) * 10`, with all remaining questions when fewer than 10 are left and 10 otherwise. It also holds the size of the whole store, every category, and a current category of None. It is never 422. |
| `Endpoints.SearchQuestions` | backend/flaskr/__init__.py:155-164 | A search returns exactly the questions whose text contains the term, ignoring case. `total_questions` is the size of the whole store. It never fails. |
| `Endpoints.GetQuestionsPerCategory` | backend/flaskr/__init__.py:175-188 | An unknown category gives 404. Otherwise the response holds exactly the questions of that category, the whole-store count, and the id as the current category. |
| `Endpoints.QuizFilters` | backend/flaskr/__init__.py:209-215 | The quiz adds the category clause exactly when the id is not 0. It adds the `~in_` clause exactly when the previous list is non-empty, and no other clause. |
| `Endpoints.QuizCandidates` | backend/flaskr/__init__.py:206-215 | The filters the quiz adds keep exactly the questions in the chosen category (any category for id 0) whose id is not among the previous questions. |
| `Endpoints.GetQuizQuestion` | backend/flaskr/__init__.py:202-219 | A non-zero unknown category gives 404. Otherwise the question is None exactly when no question qualifies. A returned question is in the store, in the chosen category, and not a previous question. |
| `Endpoints.FilterRespectsMeaning` | backend/flaskr/__init__.py:156-159 | Two filter clauses that accept the same questions select the same rows. |
| `Endpoints.SearchIgnoresCase` | backend/flaskr/__init__.py:158 | Two search terms that are equal after lower-casing give the same response. |
| `Endpoints.SearchIgnoresUpperCase` | backend/flaskr/__init__.py:158 | Searching for the upper-cased term gives the same response as the term itself. |
| `Endpoints.EmptySearchReturnsAll` | backend/flaskr/__init__.py:155-159 | An empty search term returns the whole store, in order. |
| `Endpoints.QuizWithoutHistory` | backend/flaskr/__init__.py:206-215 | With no previous questions, the quiz draws from the whole store for id 0. For a known category it draws from exactly that category's listing. |
| `App.NewQuestion` | backend/flaskr/__init__.py:129-134 | The new row's question, answer, difficulty and category are the submitted ones. |
| `App.AppendedQuestionEndsLastPage` | backend/flaskr/__init__.py:111-113 | Appending a question whose id exceeds every id in use has four consequences. The id was not in use, the store stays in id order, the count rises by one, and the question is the last entry of the last page. |
| `App.TriviaStore.constructor` | backend/flaskr/__init__.py:18-21 | The application starts bound to a store in id order. All of its ids are below the next sequence value. |
| `App.TriviaStore.DeleteQuestion` | backend/flaskr/__init__.py:86-102 | An unknown id gives 404 and leaves the store unchanged. A storage failure gives 422 and leaves the store unchanged. Otherwise only that question is removed and the count drops by one. The response echoes the id and holds page 1 of the new store and its size. |
| `App.TriviaStore.InsertQuestion` | backend/flaskr/__init__.py:125-142 | A body missing any of `question`, `answer`, `difficulty` or `category`, or a storage failure, gives 422 and leaves the store unchanged. Otherwise it appends the submitted fields under a fresh id above every existing id. The count rises by one, and `created` is that id. |
| `App.TriviaStore.PostQuestions` | backend/flaskr/__init__.py:115-122 | A body with a `search` key is a search of the unchanged store. Any other body is handled exactly as an insert. |

## Left out

- App.TriviaStore.PostQuestions: a `"search"` key whose value is JSON `null` is treated as absent, so the body goes to the insert branch. The source instead takes the search branch for it (`"search" in data` is true) and searches for the text `None`.
- App.TriviaStore.InsertQuestion: a key whose value is JSON `null` is treated as absent and gives 422. The source reads such a key without a KeyError, and what the insert then does depends on the database schema, which is not part of this model.
- Flask wiring is not modelled: app creation, routing, decoding of `request.args` and `request.get_json()`, and `jsonify`. Request bodies are given already decoded, and a missing key is `None`, as is a key set to `null` (see the two lines above).
- The CORS setup and the `after_request` header injection (`__init__.py:28-37`) are HTTP plumbing.
- The error handlers' JSON bodies (`__init__.py:227-242`) are constants. The model keeps only `NotFound` and `Unprocessable`.
- `setup_db`, SQLAlchemy sessions, `Question.format()` and the `models` module are not part of this model. Rows are plain records, and a response lists the records themselves.
- Database failures inside the `try` blocks of delete and insert are a `fails` parameter, and in both the store is left unchanged. A failed insert may use up a value of the id sequence. That is not modelled.
- A delete can fail after its row is gone, while page 1 is being read. The endpoint then gives 422 with the row already deleted. That case is not modelled.
- Insert errors that depend on the `models` schema are not modelled, such as a type mismatch or a foreign-key violation. The body's fields are already typed.
- The search, per-category and quiz queries have no `order_by`, so their row order is up to the database. The model returns them in id order, so only the set of returned questions is a claim about the source.
- `ilike` is modelled as an ASCII case-insensitive substring test. `%` and `_` inside the search term are therefore treated as plain characters, not wildcards. Non-ASCII case folding is not modelled.
- `seed()` and `random.choice` are a source of randomness. The model makes a free choice among the candidates and does not model the uniform distribution.
- Page numbers of 0 or below are excluded by `GetQuestions`' precondition. They give a negative offset whose meaning depends on the database.
- A request with no JSON body is not modelled: `"search" in None` fails. Neither is a quiz body without `quiz_category` or `previous_questions`, which raises an unhandled KeyError. Both end in an unhandled server error.
- `insert_question` reads the request body a second time instead of using its argument. The data is the same, so the model passes the body once.
- No endpoint changes the category table. The model keeps it fixed.
- `backend/test_flaskr.py` runs against a PostgreSQL database. The model uses its assertions only as statements of the expected results.
