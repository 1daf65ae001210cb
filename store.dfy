/** The handlers that read or change the store's tables directly: list
    categories, list a page of questions, delete a question and create a
    question. The question and category tables are fields of one store
    object; deletion and insertion update the question table in place. */
module Store {
  import opened Options
  import opened Http
  import opened Json
  import opened Records
  import opened Pagination
  import opened CategoryMaps

  /** The check `create_questions` makes: the four keys are present,
      whatever their values. */
  predicate HasRequiredKeys(body: map<string, Value>)
  {
    "question" in body && "answer" in body && "category" in body && "difficulty" in body
  }

  /** The record built from a request body, once storage gives it `id`. */
  function NewQuestion(id: int, body: map<string, Value>): Question
    requires HasRequiredKeys(body)
  {
    Question(id, body["question"], body["answer"], body["category"], body["difficulty"])
  }

  class TriviaStore {
    /** The question table, in id order (`order_by(Question.id)`). */
    var questions: seq<Question>
    /** The category table, in id order (`order_by(Category.id)`). */
    var categories: seq<Category>
    /** The id storage gives to the next inserted question; ids are never reused. */
    var nextId: int

    /** Ids are positive, increase along the table and stay below `nextId`;
        category ids are distinct. */
    ghost predicate Valid()
      reads this
    {
      && IdsIncreasing(questions)
      && 0 < nextId
      && (forall q :: q in questions ==> 0 < q.id < nextId)
      && UniqueCategoryIds(categories)
    }

    /** A store seeded with existing tables. */
    constructor (seedQuestions: seq<Question>, seedCategories: seq<Category>)
      requires IdsIncreasing(seedQuestions)
      requires forall q :: q in seedQuestions ==> 0 < q.id
      requires UniqueCategoryIds(seedCategories)
      ensures Valid()
      ensures questions == seedQuestions && categories == seedCategories
    {
      questions := seedQuestions;
      categories := seedCategories;
      if seedQuestions == [] {
        nextId := 1;
      } else {
        var last := seedQuestions[|seedQuestions| - 1];
        forall q | q in seedQuestions ensures q.id <= last.id {
          var k :| 0 <= k < |seedQuestions| && seedQuestions[k] == q;
        }
        nextId := last.id + 1;
      }
    }

    /** `GET /categories`: 404 when there is no category, otherwise every
        category's id mapped to its label. The `abort(404)` is not inside a
        `try`, so it is answered as it is. */
    method RetrieveCategories() returns (r: Result<CategoryListing>)
      requires Valid()
      ensures r.Err? <==> categories == []
      ensures r.Err? ==> r.error == NotFound
      ensures r.Ok? ==> r.value.categories.Keys == CategoryIds(categories)
      ensures r.Ok? ==> forall c :: c in categories ==> r.value.categories[c.id] == c.kind
    {
      if |categories| == 0 {
        return Err(NotFound);
      }
      var m := BuildCategoryMap(categories);
      forall c | c in categories ensures m[c.id] == c.kind {
        CategoryMapLookup(categories, c);
      }
      r := Ok(CategoryListing(m));
    }

    /** `GET /questions?page=p` (an absent or non-integer page is 1): 404
        exactly when the page is empty, otherwise the page, the total count
        of questions, the category dictionary and no current category. On
        every page from 0 up this is `paginate_questions` as written; a
        negative page is empty here (see `NegativePageReadsFromEnd`). The
        source walks the categories ordered by label; `CategoryMapIgnoresOrder`
        shows that the dictionary is the same in id order. */
    method RetrieveQuestions(page: int) returns (r: Result<QuestionPage>)
      requires Valid()
      ensures r.Err? <==> !(1 <= page <= PageCount(|questions|))
      ensures r.Err? ==> r.error == NotFound
      ensures r.Ok? ==> r.value.questions == PageSlice(page, questions) != []
      ensures page >= 0 ==> (r.Err? <==> Paginate(page, questions) == [])
      ensures r.Ok? ==> r.value.questions == Paginate(page, questions)
      ensures r.Ok? ==> r.value.totalQuestions == |questions| && r.value.currentCategory == None
      ensures r.Ok? ==> r.value.categories.Keys == CategoryIds(categories)
      ensures r.Ok? ==> forall c :: c in categories ==> r.value.categories[c.id] == c.kind
    {
      var current := PageSlice(page, questions);
      NonEmptyPages(page, questions);
      PaginateAgreesFromPageOne(page, questions);
      if |current| == 0 {
        return Err(NotFound);
      }
      var m := BuildCategoryMap(categories);
      forall c | c in categories ensures m[c.id] == c.kind {
        CategoryMapLookup(categories, c);
      }
      r := Ok(QuestionPage(current, |questions|, m, None));
    }

    /** `DELETE /questions/<id>`: the question with that id is removed and
        its id echoed. A missing id aborts with 404 inside the `try`, and the
        bare `except` turns that into 422. */
    method DeleteQuestion(id: nat) returns (r: Result<nat>)
      requires Valid()
      modifies this
      ensures Valid()
      ensures categories == old(categories) && nextId == old(nextId)
      ensures HasId(old(questions), id) ==> r == Ok(id)
      ensures !HasId(old(questions), id) ==> r == Err(Unprocessable) && questions == old(questions)
      ensures questions == WithoutId(old(questions), id)
      ensures |questions| == if HasId(old(questions), id) then |old(questions)| - 1 else |old(questions)|
    {
      var attempt: Attempt<nat>;
      var found := IndexOf(questions, id);
      if found.None? {
        FilterKeepsAll(questions, OtherThan(id));
        attempt := Aborted(NotFound);
      } else {
        var i := found.value;
        WithoutIdCutsOne(questions, i);
        CutKeepsIdsIncreasing(questions, i);
        questions := questions[..i] + questions[i + 1..];
        attempt := Returned(id);
      }
      r := Except(attempt, Unprocessable);
    }

    /** `POST /questions`: 422 and no change when one of the four keys is
        missing; otherwise one record with the posted values is appended
        under a fresh id, and the reply carries the whole table and its size. */
    method CreateQuestion(body: map<string, Value>) returns (r: Result<QuestionList>)
      requires Valid()
      modifies this
      ensures Valid()
      ensures categories == old(categories)
      ensures !HasRequiredKeys(body) ==> r == Err(Unprocessable) && questions == old(questions) && nextId == old(nextId)
      ensures HasRequiredKeys(body) ==> questions == old(questions) + [NewQuestion(old(nextId), body)]
      ensures HasRequiredKeys(body) ==> nextId == old(nextId) + 1
      ensures HasRequiredKeys(body) ==> r == Ok(QuestionList(questions, |questions|, None))
    {
      var attempt: Attempt<QuestionList>;
      if !HasRequiredKeys(body) {
        attempt := Aborted(Unprocessable);
      } else {
        questions := questions + [NewQuestion(nextId, body)];
        nextId := nextId + 1;
        attempt := Returned(QuestionList(questions, |questions|, None));
      }
      r := Except(attempt, Unprocessable);
    }
  }

  /** Ids that increase are distinct, so the store's pages never overlap. */
  lemma StorePagesDisjoint(qs: seq<Question>, p: int, p': int)
    requires IdsIncreasing(qs)
    requires p != p'
    ensures forall q :: q in PageSlice(p, qs) ==> q !in PageSlice(p', qs)
  {
    assert Distinct(qs);
    PagesDisjoint(qs, p, p');
  }

  /** After a delete, no page lists the deleted id. */
  lemma DeletedQuestionNotListed(qs: seq<Question>, id: int, page: int)
    ensures forall q :: q in PageSlice(page, WithoutId(qs, id)) ==> q.id != id
  {
  }

  /** A created question is the last entry of the last page. */
  lemma CreatedQuestionEndsLastPage(qs: seq<Question>, q: Question)
    ensures PageSlice(PageCount(|qs| + 1), qs + [q]) != []
    ensures var last := PageSlice(PageCount(|qs| + 1), qs + [q]); last[|last| - 1] == q
  {
    var all := qs + [q];
    var p := PageCount(|all|);
    NonEmptyPages(p, all);
    assert (p - 1) * QuestionsPerPage < |all| <= p * QuestionsPerPage;
  }

  /** Deleting the question just created restores the table it was created in. */
  lemma DeleteUndoesCreate(qs: seq<Question>, id: int, body: map<string, Value>)
    requires IdsIncreasing(qs)
    requires forall q :: q in qs ==> q.id < id
    requires HasRequiredKeys(body)
    ensures WithoutId(qs + [NewQuestion(id, body)], id) == qs
  {
    var all := qs + [NewQuestion(id, body)];
    assert forall k :: 0 <= k < |qs| ==> qs[k] in qs;
    assert IdsIncreasing(all);
    WithoutIdCutsOne(all, |qs|);
    assert all[..|qs|] + all[|qs| + 1..] == qs;
  }
}
