# Trivia API request handlers, modelled in Dafny

This project models the request-handling layer of a small Flask REST API
that backs a trivia game (`backend/flaskr/__init__.py`). The API lists
categories, lists questions ten per page, deletes and creates questions,
searches question texts, lists the questions of one category, and serves
quiz questions that the player has not seen yet. Every failure is answered
with one of four fixed JSON error bodies.

The database is replaced by an in-memory store: a `TriviaStore` object
whose fields are the question table (in id order), the category table and
the id the next inserted question gets. Handlers that change the table
(delete, create) are methods that update those fields in place. The
search and category listing only query it and are functions of the table's
current contents; the quiz handler is a method over those contents, because
it picks one candidate at random. Request bodies arrive already decoded, as a map
from keys to JSON values.

Each handler answers `Ok(payload)` or `Err(error)`. Most handlers wrap
their body in `try: ... except: abort(code)`. The model keeps that shape:
`Http.Attempt` says how the body ended (a value, an `abort`, or another
exception), and `Http.Except` turns any failure into the handler's own
code. That is why an unknown id in a delete is answered with 422 and not
404, and why a quiz request with a missing key is answered with 404 and not
422, although the handler itself calls `abort(422)` for it.

Modules, one per concern of the source file:

- `Options` (`options.dfy`): the optional value.
- `Http` (`http.dfy`): error kinds, their status codes and bodies, and the `try`/`except` remapping.
- `Json` (`json.dfy`): decoded JSON values, Python truthiness and `dict.get`.
- `Text` (`text.dfy`): ASCII lower-casing, substring search and decimal forms.
- `Records` (`records.dfy`): question and category records, reply payloads, filtering, lookup and removal by id.
- `Pagination` (`pagination.dfy`): `paginate_questions` and its page arithmetic.
- `CategoryMaps` (`category_map.dfy`): the `id -> type` dictionary loop.
- `Store` (`store.dfy`): the store object and the list, delete and create handlers.
- `Queries` (`queries.dfy`): the search, category and quiz handlers.

The stored `category` of a question is the JSON value it was created with,
because nothing in the layer converts it. The category listing compares it
with `str(category_id)` (line 192). The quiz compares it with the raw
`quiz_category.id` (line 225). The model keeps both comparisons as written.
`Queries.QuizAgreesWithListingOnTextIds` and
`Queries.QuizMissesTextCategoriesOnNumericIds` show where they agree and
where they do not.

## Model

| member | source | states |
|---|---|---|
| `Http.Status` | backend/flaskr/__init__.py:243-273 | each error kind has a 4xx status: 400, 404, 405 or 422 |
| `Http.Message` | backend/flaskr/__init__.py:243-273 | each error kind has a fixed, non-empty message text |
| `Http.HandleError` | backend/flaskr/__init__.py:243-273 | an error reply has `success` false, and its `error` field equals the status it is sent with, one of 400, 404, 405, 422 |
| `Http.ErrorForStatus` | backend/flaskr/__init__.py:243-273 | a status that has a registered handler maps back to the error kind with that status |
| `Http.ErrorReplyIdentifiesError` | backend/flaskr/__init__.py:243-273 | the status of a reply identifies the error that produced it; distinct errors send distinct messages |
| `Http.Except` | backend/flaskr/__init__.py:116-117 | a bare `except` turns every failure of the body, an inner `abort` with another code included, into the handler's own code, and lets a returned value through unchanged |
| `Json.Get` | backend/flaskr/__init__.py:167 | `body.get(key, None)` gives the stored value, or a falsy null when the key is absent |
| `Text.Lower` | backend/flaskr/__init__.py:170 | lower-casing keeps the length and folds each ASCII letter |
| `Text.ContainsIffOccurs` | backend/flaskr/__init__.py:170 | the substring scan succeeds exactly when the pattern occurs at some index of the text |
| `Text.IgnoresCaseOfPattern` | backend/flaskr/__init__.py:170 | two patterns equal up to ASCII case match the same texts |
| `Text.NatToString` | backend/flaskr/__init__.py:192 | `str(n)` is a non-empty string of decimal digits without a leading zero |
| `Text.DecimalRoundTrip` | backend/flaskr/__init__.py:192 | reading back `str(n)` gives `n` |
| `Text.NatToStringInjective` | backend/flaskr/__init__.py:192 | distinct ids have distinct string forms |
| `Records.Filter` | backend/flaskr/__init__.py:170 | a query filter keeps exactly the rows the condition accepts, and no more rows than the table has |
| `Records.IndexOf` | backend/flaskr/__init__.py:99 | `one_or_none()` finds a row with the id exactly when the table has one |
| `Records.WithoutId` | backend/flaskr/__init__.py:104 | after the delete, a row is in the table exactly when it was there before and has another id |
| `Records.WithoutIdCutsOne` | backend/flaskr/__init__.py:99-104 | with increasing ids, deleting the id found at position i cuts out just that row and keeps the others in order |
| `Records.CutKeepsIdsIncreasing` | backend/flaskr/__init__.py:104 | a delete keeps the table in id order |
| `Pagination.SliceBound` | backend/flaskr/__init__.py:36 | a Python slice bound is normalised into `[0, n]` |
| `Pagination.PySlice` | backend/flaskr/__init__.py:36 | `s[i:j]` for in-range bounds is the elements from i up to j clipped to the length; a start at or past the end gives nothing |
| `Pagination.Paginate` | backend/flaskr/__init__.py:30-38 | as written: at most 10 items; page 0 is empty because `end` is 0; page p >= 1 is `items[(p-1)*10 : p*10]` clipped to the length |
| `Pagination.NegativePageReadsFromEnd` | backend/flaskr/__init__.py:32-36 | as written, page -1 of 20 questions is the first 10, not empty |
| `Pagination.PageSlice` | backend/flaskr/__init__.py:30-38 | at most 10 items; empty below page 1 and past the end; page p >= 1 is `items[(p-1)*10 : p*10]` clipped; every item comes from the list |
| `Pagination.PaginateAgreesFromPageOne` | backend/flaskr/__init__.py:32-36 | the corrected pagination equals the written one on every page from 0 up |
| `Pagination.NonEmptyPages` | backend/flaskr/__init__.py:75-76 | a page is non-empty exactly when it lies in `1..ceil(n/10)` |
| `Pagination.PagesDisjoint` | backend/flaskr/__init__.py:32-36 | distinct pages of a list without repeats share no element |
| `Pagination.PagesArePrefix` | backend/flaskr/__init__.py:32-36 | pages 1..k together are the first `10k` items (or all of them) |
| `Pagination.PagesCoverAll` | backend/flaskr/__init__.py:32-36 | pages 1..ceil(n/10) together reproduce the whole id-ordered list |
| `CategoryMaps.CategoryMap` | backend/flaskr/__init__.py:50-52 | the dictionary's keys are exactly the category ids |
| `CategoryMaps.CategoryMapLookup` | backend/flaskr/__init__.py:50-52 | with distinct ids, each category's id maps to that category's type |
| `CategoryMaps.CategoryMapIgnoresOrder` | backend/flaskr/__init__.py:77-80 | walking the categories ordered by type builds the same dictionary as walking them by id |
| `CategoryMaps.BuildCategoryMap` | backend/flaskr/__init__.py:78-80 | the `for` loop builds exactly `CategoryMap` of the categories, keyed by their ids |
| `Store.TriviaStore.RetrieveCategories` | backend/flaskr/__init__.py:46-56 | 404 exactly when there is no category; otherwise the keys are exactly the category ids and each maps to its type |
| `Store.TriviaStore.RetrieveQuestions` | backend/flaskr/__init__.py:71-87 | on every page from 0 up, 404 exactly when `paginate_questions` as written gives an empty page, and otherwise that page; 404 exactly when the page is outside `1..ceil(n/10)`, negative pages included (the corrected pagination); the unpaginated count, the category dictionary and no current category |
| `Store.TriviaStore.DeleteQuestion` | backend/flaskr/__init__.py:97-117 | an absent id gives 422 and no change; otherwise the reply echoes the id and the table loses exactly that question; the store invariant and the category table are kept |
| `Store.TriviaStore.CreateQuestion` | backend/flaskr/__init__.py:129-150 | a missing key of the four gives 422 and no change; otherwise one record with the posted values and a fresh id is appended, and `totalQuestions` is the length of the returned full table |
| `Store.StorePagesDisjoint` | backend/flaskr/__init__.py:72-73 | two different pages of the id-ordered table share no question |
| `Store.DeletedQuestionNotListed` | backend/flaskr/__init__.py:104 | after deleting id X, no page lists a question with id X |
| `Store.CreatedQuestionEndsLastPage` | backend/flaskr/__init__.py:124-126 | a created question appears, as the last entry, on the last page of the list |
| `Store.DeleteUndoesCreate` | backend/flaskr/__init__.py:139-141 | deleting the question just created gives back the table it was created in |
| `Queries.TermText` | backend/flaskr/__init__.py:170 | a string term is searched as itself; every scalar term has a text |
| `Queries.SearchQuestions` | backend/flaskr/__init__.py:164-179 | a falsy term gives no response; a modelled truthy term lists exactly the questions whose text contains it ignoring case, with their count and no current category; any failure is 404 |
| `Queries.SearchFindsTheOnlyMatch` | backend/flaskr/__init__.py:170-177 | a term contained in exactly one question's text returns just that question |
| `Queries.SearchIgnoresCase` | backend/flaskr/__init__.py:170 | terms that differ only in ASCII case ("TITLE", "title") give the same reply |
| `Queries.QuestionsInCategory` | backend/flaskr/__init__.py:190-201 | always a success: exactly the questions whose category is `str(category_id)`, their count, and the id echoed as current category |
| `Queries.EmptyCategoryIsSuccess` | backend/flaskr/__init__.py:192-199 | a category without questions is an empty success, not a 404 |
| `Queries.CategoryListingsDisjoint` | backend/flaskr/__init__.py:192 | listings of two different categories share no question |
| `Queries.ParseQuiz` | backend/flaskr/__init__.py:216-225 | a missing key aborts with 422; the request is read exactly when `quiz_category` is an object with an `id` and `previous_questions` a list; id 0 (or False) means all categories; the asked ids are exactly the numbers and digit strings of the list, and a null in it is recorded |
| `Queries.Candidates` | backend/flaskr/__init__.py:222-225 | a question is a candidate exactly when it is in the table, not asked before, and in the chosen category unless all are allowed |
| `Queries.ReturnQuizQuestion` | backend/flaskr/__init__.py:214-237 | any failure is 404, a missing key included; otherwise no question exactly when there is no candidate, and a returned question is a candidate, whatever index the random choice gives |
| `Queries.QuizCandidatesShrink` | backend/flaskr/__init__.py:223-225 | adding the returned question's id to `previous_questions` leaves strictly fewer candidates |
| `Queries.QuizEndsWhenAllAsked` | backend/flaskr/__init__.py:227-230 | once every question of the category has been asked there is no candidate, so the quiz returns no question |
| `Queries.FirstQuizOverAllCategories` | backend/flaskr/__init__.py:222-223 | with id 0 and nothing asked, the candidates are the whole table |
| `Queries.QuizAgreesWithListingOnTextIds` | backend/flaskr/__init__.py:225 | given the id as the string the category listing uses, the quiz draws from exactly that listing's questions not yet asked |
| `Queries.QuizNullPreviousGivesNothing` | backend/flaskr/__init__.py:223-225 | a null in `previous_questions` makes `NOT IN` true of no row, so there is no candidate |
| `Queries.QuizExcludesIdsSentAsText` | backend/flaskr/__init__.py:223-225 | a question whose id is sent back as its decimal text is not a candidate |
| `Queries.QuizMissesTextCategoriesOnNumericIds` | backend/flaskr/__init__.py:225 | given the id as a number, the quiz finds no question whose category is stored as text |

## Left out

- Flask application construction, CORS setup and the `after_request` header injection (lines 11-28, 275): framework wiring with no logic.
- SQLAlchemy and the `models` module: the tables are fields of an in-memory store, `format()` is taken to give the five fields, and `insert()` and `delete()` never fail, so the `except` of create and delete is reached only by the handlers' own `abort`.
- Column types and database coercion: a record keeps the JSON values it was posted with, and search matches only questions whose text is a string.
- `Queries.ReturnQuizQuestion`: a numeric `quiz_category.id` compared with categories stored as text is simply no match (no question), where a database that refuses to compare text with an integer would raise and the reply would be 404.
- `Queries.ParseQuiz`: of the entries of `previous_questions`, only numbers, strings of decimal digits and nulls are read; other strings, booleans, lists and objects are ignored, where the database would raise on most of them (and the reply would be 404).
- `random.randrange` (line 228): the pick is any index of the candidates, and the contract holds for each.
- JSON decoding (`get_json`): a body that is not an object, or does not decode, is not modelled; JSON numbers are integers.
- Query-string parsing of `page` (line 31): the handler receives an integer; the caller supplies 1 when it is absent or not an integer.
- SQL `ILIKE` details: `%` and `_` inside the term are not wildcards here, and case folding is ASCII only, not the database collation.
- `Queries.SearchQuestions`: a list or object `searchTerm` is treated as a failure (404); Python would search for its `str()` rendering, which is not modelled.
- Search with a falsy term (line 169): modelled as the distinct outcome `NoResponse`; the failure Flask raises after the view returns is outside the handler.
- `Store.TriviaStore.RetrieveQuestions`: walks the categories in id order, not ordered by type as line 77 does; `CategoryMaps.CategoryMapIgnoresOrder` shows the dictionary is the same.
- `Store.TriviaStore.RetrieveQuestions`: a negative page (which `type=int` accepts) is answered with 404, following the corrected pagination under "## Findings"; the source as written answers 200 with the page its negative slice bounds select whenever the list has more than `10 * |page|` questions. On every page from 0 up the contract states the source's own answer.
- Search, category and quiz queries have no `ORDER BY`; the model returns matches in id order, and its contracts state membership only.
- Dead code: the re-read and pagination in delete (lines 105-106) and `new_question = {}` (line 226) affect no reply.
- Routing: `<int:id>` and `<int:category_id>` accept only non-negative integers, so those parameters are natural numbers; the 405 handler is reached only by Flask's routing, which is not modelled.

## Findings

| source | as written | input that shows it | evidently intended | confidence | as-written member | corrected member |
|---|---|---|---|---|---|---|
| backend/flaskr/__init__.py:31-36 | `start = (page - 1) * 10` and `end = start + 10` go negative for pages below 1, and a Python slice counts negative bounds from the end | `GET /questions?page=-1` with 20 questions: the slice `[-20:-10]` is the first ten questions and the reply is a 200 page | pages below 1 are out of range, give an empty page and so a 404 | not executed; medium | `Pagination.NegativePageReadsFromEnd` (on `Pagination.Paginate`) | `Pagination.PageSlice`, used by `Store.TriviaStore.RetrieveQuestions` |
