/** The two record kinds of the trivia store, the payloads the handlers
    send back, and the queries over question sequences that the handlers
    run: filtering, lookup by id and removal by id. */
module Records {
  import opened Options
  import opened Json

  /** A formatted question: `format()` yields exactly these five fields.
      The four posted fields keep the JSON values they were created with
      (the category is a loosely typed scalar). */
  datatype Question = Question(id: int, question: Value, answer: Value, category: Value, difficulty: Value)

  /** A category: its id and its display label, the `type` column. */
  datatype Category = Category(id: int, kind: string)

  /** `{success: true, categories: {id: type}}`. */
  datatype CategoryListing = CategoryListing(categories: map<int, string>)

  /** `{success: true, questions, total_questions, categories, current_category}`. */
  datatype QuestionPage = QuestionPage(questions: seq<Question>, totalQuestions: int,
                                       categories: map<int, string>, currentCategory: Option<int>)

  /** `{success: true, questions, total_questions, current_category}` (create
      spells the last two keys `totalQuestions` and `currentCategory`). */
  datatype QuestionList = QuestionList(questions: seq<Question>, totalQuestions: int, currentCategory: Option<int>)

  /** The questions of `s` that `keep` accepts, in their order in `s`. */
  function Filter(s: seq<Question>, keep: Question -> bool): (r: seq<Question>)
    ensures |r| <= |s|
    ensures forall x :: x in r <==> x in s && keep(x)
  {
    if s == [] then [] else (if keep(s[0]) then [s[0]] else []) + Filter(s[1..], keep)
  }

  /** Filtering with a filter that accepts everything keeps the sequence. */
  lemma {:induction false} FilterKeepsAll(s: seq<Question>, keep: Question -> bool)
    requires forall x :: x in s ==> keep(x)
    ensures Filter(s, keep) == s
  {
    if s != [] {
      FilterKeepsAll(s[1..], keep);
    }
  }

  /** Filtering with a filter that accepts nothing of `s` gives the empty sequence. */
  lemma {:induction false} FilterRejectsAll(s: seq<Question>, keep: Question -> bool)
    requires forall x :: x in s ==> !keep(x)
    ensures Filter(s, keep) == []
  {
    if s != [] {
      FilterRejectsAll(s[1..], keep);
    }
  }

  /** Two filters that agree on every element of `s` select the same sequence. */
  lemma {:induction false} FilterCongruent(s: seq<Question>, keep: Question -> bool, keep': Question -> bool)
    requires forall x :: x in s ==> keep(x) == keep'(x)
    ensures Filter(s, keep) == Filter(s, keep')
  {
    if s != [] {
      FilterCongruent(s[1..], keep, keep');
    }
  }

  /** A filter that accepts exactly one position of `s` selects just that element. */
  lemma {:induction false} FilterSelectsOne(s: seq<Question>, keep: Question -> bool, i: nat)
    requires i < |s|
    requires forall j :: 0 <= j < |s| ==> (keep(s[j]) <==> j == i)
    ensures Filter(s, keep) == [s[i]]
  {
    if i == 0 {
      forall x | x in s[1..] ensures !keep(x) {
        var j :| 0 <= j < |s[1..]| && s[1..][j] == x;
        assert s[j + 1] == x;
      }
      FilterRejectsAll(s[1..], keep);
    } else {
      assert !keep(s[0]);
      FilterSelectsOne(s[1..], keep, i - 1);
    }
  }

  /** A narrower filter selects no more elements than a wider one, and
      strictly fewer when some element of `s` passes only the wider one. */
  lemma {:induction false} FilterNarrower(s: seq<Question>, wide: Question -> bool, narrow: Question -> bool)
    requires forall x :: x in s && narrow(x) ==> wide(x)
    ensures |Filter(s, narrow)| <= |Filter(s, wide)|
    ensures (exists x :: x in s && wide(x) && !narrow(x)) ==> |Filter(s, narrow)| < |Filter(s, wide)|
  {
    if s != [] {
      FilterNarrower(s[1..], wide, narrow);
      if exists x :: x in s && wide(x) && !narrow(x) {
        var x :| x in s && wide(x) && !narrow(x);
        if x != s[0] {
          assert x in s[1..];
        }
      }
    }
  }

  /** Ids strictly increase along the sequence (the store's id order). */
  predicate IdsIncreasing(qs: seq<Question>)
  {
    forall i, j :: 0 <= i < j < |qs| ==> qs[i].id < qs[j].id
  }

  /** Some question of `qs` has this id. */
  predicate HasId(qs: seq<Question>, id: int)
  {
    exists q :: q in qs && q.id == id
  }

  /** `filter(Question.id == id).one_or_none()`: the position of the
      question with this id, if there is one. */
  function IndexOf(qs: seq<Question>, id: int): (r: Option<nat>)
    ensures r.Some? ==> r.value < |qs| && qs[r.value].id == id
    ensures r.None? <==> !HasId(qs, id)
  {
    if qs == [] then None
    else if qs[0].id == id then Some(0)
    else match IndexOf(qs[1..], id)
      case None =>
        assert forall q :: q in qs ==> q == qs[0] || q in qs[1..];
        None
      case Some(k) => Some(k + 1)
  }

  /** The filter that drops the question with a given id. */
  function OtherThan(id: int): Question -> bool
  {
    (q: Question) => q.id != id
  }

  /** The store after the question with this id is deleted. */
  function WithoutId(qs: seq<Question>, id: int): (r: seq<Question>)
    ensures forall q :: q in r <==> q in qs && q.id != id
  {
    Filter(qs, OtherThan(id))
  }

  /** With increasing ids, the first question's id occurs nowhere else. */
  lemma {:induction false} WithoutFirstId(qs: seq<Question>)
    requires IdsIncreasing(qs)
    requires qs != []
    ensures WithoutId(qs, qs[0].id) == qs[1..]
  {
    var tail := qs[1..];
    forall q | q in tail ensures OtherThan(qs[0].id)(q) {
      var k :| 0 <= k < |tail| && tail[k] == q;
      assert q == qs[k + 1];
    }
    FilterKeepsAll(tail, OtherThan(qs[0].id));
  }

  /** With increasing ids, removing the id found at position `i` is exactly
      cutting that one element out, so every other question stays, in order. */
  lemma {:induction false} WithoutIdCutsOne(qs: seq<Question>, i: nat)
    requires IdsIncreasing(qs)
    requires i < |qs|
    ensures WithoutId(qs, qs[i].id) == qs[..i] + qs[i + 1..]
  {
    if i == 0 {
      WithoutFirstId(qs);
      assert qs[..0] + qs[1..] == qs[1..];
    } else {
      var tail := qs[1..];
      assert tail[i - 1] == qs[i];
      IdsIncreasingTail(qs);
      WithoutIdCutsOne(tail, i - 1);
      WithoutIdKeepsHead(qs, qs[i].id);
      SpliceAfterHead(qs, i);
    }
  }

  /** Dropping the first question keeps the ids increasing. */
  lemma IdsIncreasingTail(qs: seq<Question>)
    requires IdsIncreasing(qs) && qs != []
    ensures IdsIncreasing(qs[1..])
  {
    forall a, b | 0 <= a < b < |qs| - 1 ensures qs[1..][a].id < qs[1..][b].id {
      assert qs[1..][a] == qs[a + 1] && qs[1..][b] == qs[b + 1];
    }
  }

  /** A first question with another id survives the delete. */
  lemma WithoutIdKeepsHead(qs: seq<Question>, id: int)
    requires qs != [] && qs[0].id != id
    ensures WithoutId(qs, id) == [qs[0]] + WithoutId(qs[1..], id)
  {
    assert OtherThan(id)(qs[0]);
  }

  /** Cutting out position `i > 0` is cutting out position `i - 1` of the tail. */
  lemma SpliceAfterHead<T>(s: seq<T>, i: nat)
    requires 0 < i < |s|
    ensures s[..i] + s[i + 1..] == [s[0]] + (s[1..][..i - 1] + s[1..][i..])
  {
  }

  /** Cutting one element out keeps the ids increasing. */
  lemma CutKeepsIdsIncreasing(qs: seq<Question>, i: nat)
    requires IdsIncreasing(qs)
    requires i < |qs|
    ensures IdsIncreasing(qs[..i] + qs[i + 1..])
  {
    var r := qs[..i] + qs[i + 1..];
    forall a, b | 0 <= a < b < |r| ensures r[a].id < r[b].id {
      var a' := if a < i then a else a + 1;
      var b' := if b < i then b else b + 1;
      assert r[a] == qs[a'] && r[b] == qs[b'];
    }
  }

  /** Category ids are pairwise distinct. */
  predicate UniqueCategoryIds(cats: seq<Category>)
  {
    forall i, j :: 0 <= i < j < |cats| ==> cats[i].id != cats[j].id
  }

  /** The ids of a list of categories. */
  function CategoryIds(cats: seq<Category>): set<int>
  {
    set c | c in cats :: c.id
  }
}
