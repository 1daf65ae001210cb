/** The handlers that only query the question table: free-text search,
    questions of one category, and the next quiz question. Each takes the
    table's current contents. */
module Queries {
  import opened Options
  import opened Http
  import opened Json
  import opened Text
  import opened Records

  /* ---------- POST /questions/search ---------- */

  /** Python's `str()` of a scalar search term, as interpolated into the
      pattern `'%{search_term}%'`; the rendering of lists and objects is not
      modelled. */
  function TermText(v: Value): (t: Option<string>)
    ensures v.Str? ==> t == Some(v.s)
    ensures t.None? <==> v.Array? || v.Object?
  {
    match v
    case Null => Some("None")
    case Bool(b) => Some(if b then "True" else "False")
    case Num(n) => Some(IntToString(n))
    case Str(s) => Some(s)
    case Array(_) => None
    case Object(_) => None
  }

  /** The term the search runs with: `searchTerm` when it is truthy and its
      text is modelled. */
  function SearchTerm(body: map<string, Value>): Option<string>
  {
    var v := Get(body, "searchTerm");
    if Truthy(v) then TermText(v) else None
  }

  /** `Question.question.ilike('%term%')`, with ASCII case folding. */
  predicate MatchesTerm(q: Question, term: string)
  {
    q.question.Str? && ContainsIgnoringCase(q.question.s, term)
  }

  function MatchingTerm(term: string): Question -> bool
  {
    (q: Question) => MatchesTerm(q, term)
  }

  /** A search either lists its matches or, for a falsy term, returns nothing
      at all from the view (Flask then fails outside the handler). */
  datatype SearchReply = Listed(list: QuestionList) | NoResponse

  /** A falsy term gives no response; otherwise the reply lists exactly the
      questions whose text contains the term ignoring case, with their count
      and no current category. Any failure inside the `try` is 404. */
  function SearchQuestions(qs: seq<Question>, body: map<string, Value>): (r: Result<SearchReply>)
    ensures r == Ok(NoResponse) <==> !Truthy(Get(body, "searchTerm"))
    ensures r.Err? <==> Truthy(Get(body, "searchTerm")) && SearchTerm(body).None?
    ensures r.Err? ==> r.error == NotFound
    ensures SearchTerm(body).Some? ==> r.Ok? && r.value.Listed?
    ensures SearchTerm(body).Some? ==>
      var list := r.value.list;
      && list.totalQuestions == |list.questions|
      && list.currentCategory == None
      && forall q :: q in list.questions <==> q in qs && MatchesTerm(q, SearchTerm(body).value)
  {
    var term := Get(body, "searchTerm");
    var attempt :=
      if !Truthy(term) then Returned(NoResponse)
      else match TermText(term)
        case None => Raised
        case Some(t) =>
          var found := Filter(qs, MatchingTerm(t));
          Returned(Listed(QuestionList(found, |found|, None)));
    Except(attempt, NotFound)
  }

  /** Searching for a term that exactly one question contains returns just
      that question. */
  lemma SearchFindsTheOnlyMatch(qs: seq<Question>, body: map<string, Value>, i: nat)
    requires i < |qs|
    requires SearchTerm(body).Some?
    requires forall j :: 0 <= j < |qs| ==> (MatchesTerm(qs[j], SearchTerm(body).value) <==> j == i)
    ensures SearchQuestions(qs, body) == Ok(Listed(QuestionList([qs[i]], 1, None)))
  {
    FilterSelectsOne(qs, MatchingTerm(SearchTerm(body).value), i);
  }

  /** Two search terms that differ only in ASCII letter case (say "TITLE"
      and "title") give the same reply. */
  lemma SearchIgnoresCase(qs: seq<Question>, body: map<string, Value>, body': map<string, Value>)
    requires SearchTerm(body).Some? && SearchTerm(body').Some?
    requires Lower(SearchTerm(body).value) == Lower(SearchTerm(body').value)
    ensures SearchQuestions(qs, body) == SearchQuestions(qs, body')
  {
    FilterCongruent(qs, MatchingTerm(SearchTerm(body).value), MatchingTerm(SearchTerm(body').value));
  }

  /* ---------- GET /categories/<category_id>/questions ---------- */

  /** `str(category_id)`, the value stored categories are compared with. */
  function CategoryKey(categoryId: nat): Value
  {
    Str(NatToString(categoryId))
  }

  function InCategory(key: Value): Question -> bool
  {
    (q: Question) => q.category == key
  }

  /** Always a success: exactly the questions whose category is
      `str(category_id)`, their count, and the id as current category. A
      category without questions is an empty list, not a 404. */
  function QuestionsInCategory(qs: seq<Question>, categoryId: nat): (r: Result<QuestionList>)
    ensures r.Ok?
    ensures r.value.totalQuestions == |r.value.questions|
    ensures r.value.currentCategory == Some(categoryId)
    ensures forall q :: q in r.value.questions <==> q in qs && q.category == Str(NatToString(categoryId))
  {
    var found := Filter(qs, InCategory(CategoryKey(categoryId)));
    Except(Returned(QuestionList(found, |found|, Some(categoryId))), NotFound)
  }

  /** A category that no question belongs to gives `{questions: [],
      total_questions: 0, current_category: id}`. */
  lemma EmptyCategoryIsSuccess(qs: seq<Question>, categoryId: nat)
    requires forall q :: q in qs ==> q.category != Str(NatToString(categoryId))
    ensures QuestionsInCategory(qs, categoryId) == Ok(QuestionList([], 0, Some(categoryId)))
  {
    FilterRejectsAll(qs, InCategory(CategoryKey(categoryId)));
  }

  /** Listings of two different categories share no question. */
  lemma CategoryListingsDisjoint(qs: seq<Question>, a: nat, b: nat)
    requires a != b
    ensures forall q :: q in QuestionsInCategory(qs, a).value.questions ==> q !in QuestionsInCategory(qs, b).value.questions
  {
    NatToStringInjective(a, b);
  }

  /* ---------- POST /quizzes ---------- */

  /** Which questions a quiz draws from: all of them (category id 0), or
      those whose stored category equals the given id value. */
  datatype QuizFilter = AnyCategory | SameCategory(category: Value)

  /** A quiz request: the category filter, the ids already asked, and
      whether `previous_questions` holds a null, which makes the SQL
      `id NOT IN (...)` true of no row. */
  datatype QuizRequest = QuizRequest(filter: QuizFilter, previous: set<int>, blocked: bool)

  /** Python's `category['id'] == 0`, which `False` also satisfies. */
  predicate IsZero(v: Value)
  {
    v == Num(0) || v == Bool(false)
  }

  /** The ids listed in `previous_questions`: numbers, and digit strings,
      which the integer id column reads as the number they spell. */
  function PreviousIds(items: seq<Value>): set<int>
  {
    (set v | v in items && v.Num? :: v.n) + (set v | v in items && v.Str? && IsDecimal(v.s) :: DecimalValue(v.s))
  }

  /** The body of the quiz handler up to its query: the two keys must be
      present (else `abort(422)`); `quiz_category` must be an object with an
      `id` and `previous_questions` a list (else an exception is raised). */
  function ParseQuiz(body: map<string, Value>): (a: Attempt<QuizRequest>)
    ensures !("quiz_category" in body && "previous_questions" in body) ==> a == Aborted(Unprocessable)
    ensures a.Returned? <==>
      && "quiz_category" in body && "previous_questions" in body
      && body["quiz_category"].Object? && "id" in body["quiz_category"].fields
      && body["previous_questions"].Array?
    ensures a.Returned? ==> (a.value.filter.AnyCategory? <==> IsZero(body["quiz_category"].fields["id"]))
    ensures a.Returned? && a.value.filter.SameCategory? ==> a.value.filter.category == body["quiz_category"].fields["id"]
    ensures a.Returned? ==> forall v :: v in body["previous_questions"].items && v.Num? ==> v.n in a.value.previous
    ensures a.Returned? ==> forall v :: v in body["previous_questions"].items && v.Str? && IsDecimal(v.s) ==> DecimalValue(v.s) in a.value.previous
    ensures a.Returned? ==> forall n :: n in a.value.previous ==>
      Num(n) in body["previous_questions"].items ||
      exists v :: v in body["previous_questions"].items && v.Str? && IsDecimal(v.s) && DecimalValue(v.s) == n
    ensures a.Returned? ==> (a.value.blocked <==> Null in body["previous_questions"].items)
  {
    if !("quiz_category" in body && "previous_questions" in body) then Aborted(Unprocessable)
    else match (body["quiz_category"], body["previous_questions"])
      case (Object(fields), Array(items)) =>
        if "id" !in fields then Raised
        else
          var id := fields["id"];
          Returned(QuizRequest(if IsZero(id) then AnyCategory else SameCategory(id), PreviousIds(items), Null in items))
      case _ => Raised
  }

  /** A question the quiz may return: no null among the asked ids, not
      asked before, and in the chosen category unless all categories are
      allowed. */
  predicate Eligible(req: QuizRequest, q: Question)
  {
    !req.blocked && q.id !in req.previous && (req.filter.AnyCategory? || q.category == req.filter.category)
  }

  function EligibleFor(req: QuizRequest): Question -> bool
  {
    (q: Question) => Eligible(req, q)
  }

  /** The candidate questions of a quiz request. */
  function Candidates(qs: seq<Question>, req: QuizRequest): (r: seq<Question>)
    ensures forall q :: q in r <==> q in qs && Eligible(req, q)
  {
    Filter(qs, EligibleFor(req))
  }

  /** `POST /quizzes`: 404 for any failure (the inner `abort(422)` for a
      missing key included); otherwise a candidate chosen at random, or no
      question when there is none. The choice is arbitrary, so the contract
      holds for every index `random.randrange` could give. */
  method ReturnQuizQuestion(qs: seq<Question>, body: map<string, Value>) returns (r: Result<Option<Question>>)
    ensures r.Ok? <==> ParseQuiz(body).Returned?
    ensures r.Err? ==> r.error == NotFound
    ensures !("quiz_category" in body && "previous_questions" in body) ==> r == Err(NotFound)
    ensures r.Ok? ==> (r.value.None? <==> Candidates(qs, ParseQuiz(body).value) == [])
    ensures r.Ok? && r.value.Some? ==> r.value.value in qs && Eligible(ParseQuiz(body).value, r.value.value)
  {
    var attempt: Attempt<Option<Question>>;
    match ParseQuiz(body) {
      case Returned(req) =>
        var chosen := Candidates(qs, req);
        if |chosen| > 0 {
          var k :| 0 <= k < |chosen|;
          attempt := Returned(Some(chosen[k]));
        } else {
          attempt := Returned(None);
        }
      case Aborted(e) =>
        attempt := Aborted(e);
      case Raised =>
        attempt := Raised;
    }
    r := Except(attempt, NotFound);
  }

  /** Adding the returned question's id to `previous_questions` leaves
      strictly fewer candidates, so a quiz that keeps doing so runs out. */
  lemma QuizCandidatesShrink(qs: seq<Question>, req: QuizRequest, q: Question)
    requires q in Candidates(qs, req)
    ensures |Candidates(qs, QuizRequest(req.filter, req.previous + {q.id}, req.blocked))| < |Candidates(qs, req)|
  {
    var next := QuizRequest(req.filter, req.previous + {q.id}, req.blocked);
    FilterNarrower(qs, EligibleFor(req), EligibleFor(next));
  }

  /** Once every question of the chosen category has been asked, the quiz
      has no candidate left and returns no question. */
  lemma QuizEndsWhenAllAsked(qs: seq<Question>, req: QuizRequest)
    requires forall q :: q in qs && (req.filter.AnyCategory? || q.category == req.filter.category) ==> q.id in req.previous
    ensures Candidates(qs, req) == []
  {
    FilterRejectsAll(qs, EligibleFor(req));
  }

  /** A first quiz over all categories draws from the whole table. */
  lemma FirstQuizOverAllCategories(qs: seq<Question>)
    ensures Candidates(qs, QuizRequest(AnyCategory, {}, false)) == qs
  {
    FilterKeepsAll(qs, EligibleFor(QuizRequest(AnyCategory, {}, false)));
  }

  /** The quiz compares the stored category with the raw id value while the
      category listing compares it with `str(category_id)`. Given the id as
      the string the listing uses, the quiz draws from exactly the listing's
      questions not yet asked... */
  lemma QuizAgreesWithListingOnTextIds(qs: seq<Question>, categoryId: nat, previous: set<int>)
    ensures forall q :: q in Candidates(qs, QuizRequest(SameCategory(CategoryKey(categoryId)), previous, false)) <==>
      q in QuestionsInCategory(qs, categoryId).value.questions && q.id !in previous
  {
  }

  /** ... but given the id as a number it finds nothing among questions
      whose category is stored as text. */
  lemma QuizMissesTextCategoriesOnNumericIds(qs: seq<Question>, n: int, previous: set<int>)
    requires forall q :: q in qs ==> q.category.Str?
    ensures Candidates(qs, QuizRequest(SameCategory(Num(n)), previous, false)) == []
  {
    FilterRejectsAll(qs, EligibleFor(QuizRequest(SameCategory(Num(n)), previous, false)));
  }

  /** A null among `previous_questions` leaves no candidate, so the quiz
      returns no question. */
  lemma QuizNullPreviousGivesNothing(qs: seq<Question>, body: map<string, Value>)
    requires ParseQuiz(body).Returned?
    requires Null in body["previous_questions"].items
    ensures Candidates(qs, ParseQuiz(body).value) == []
  {
    FilterRejectsAll(qs, EligibleFor(ParseQuiz(body).value));
  }

  /** A question whose id was sent back as its decimal text is not asked
      again. */
  lemma QuizExcludesIdsSentAsText(qs: seq<Question>, body: map<string, Value>, q: Question)
    requires ParseQuiz(body).Returned?
    requires q.id >= 0
    requires Str(NatToString(q.id)) in body["previous_questions"].items
    ensures q !in Candidates(qs, ParseQuiz(body).value)
  {
    DecimalRoundTrip(q.id);
  }
}
