/** `paginate_questions`: ten questions per page, cut out of the full
    id-ordered list with a Python slice. */
module Pagination {

  const QuestionsPerPage: nat := 10

  function Min(a: int, b: int): int
  {
    if a < b then a else b
  }

  /** Python's normalisation of a slice bound against a sequence of length
      `n`: a negative bound counts from the end, and bounds are clipped to
      `[0, n]`. */
  function SliceBound(i: int, n: nat): (b: nat)
    ensures b <= n
  {
    if i < 0 then (if i + n < 0 then 0 else i + n)
    else if i > n then n
    else i
  }

  /** Python's `s[i:j]`. */
  function PySlice<T>(s: seq<T>, i: int, j: int): (r: seq<T>)
    ensures |r| <= |s|
    ensures 0 <= i <= |s| && i <= j ==> r == s[i..Min(j, |s|)]
    ensures i >= |s| ==> r == []
    ensures forall x :: x in r ==> x in s
  {
    var lo, hi := SliceBound(i, |s|), SliceBound(j, |s|);
    if lo < hi then s[lo..hi] else []
  }

  /** `paginate_questions` as written: `start = (page - 1) * 10`,
      `end = start + 10`, and the page is `items[start:end]`. */
  function Paginate<T>(page: int, items: seq<T>): (r: seq<T>)
    ensures |r| <= QuestionsPerPage
    ensures page == 0 ==> r == []
    ensures page >= 1 ==> r == items[Min((page - 1) * QuestionsPerPage, |items|)..Min(page * QuestionsPerPage, |items|)]
  {
    var start := (page - 1) * QuestionsPerPage;
    PySlice(items, start, start + QuestionsPerPage)
  }

  /** As written, a negative page is not empty: its slice bounds count from
      the end of the list, so page -1 of twenty questions is the first ten. */
  lemma NegativePageReadsFromEnd<T>(items: seq<T>)
    requires |items| == 20
    ensures Paginate(-1, items) == items[..10]
    ensures Paginate(-1, items) != []
  {
  }

  /** Pagination as evidently intended: pages are numbered from 1, and a
      page outside the list is empty. */
  function PageSlice<T>(page: int, items: seq<T>): (r: seq<T>)
    ensures |r| <= QuestionsPerPage
    ensures page < 1 || (page - 1) * QuestionsPerPage >= |items| ==> r == []
    ensures page >= 1 ==> r == items[Min((page - 1) * QuestionsPerPage, |items|)..Min(page * QuestionsPerPage, |items|)]
    ensures forall x :: x in r ==> x in items
  {
    if page < 1 then [] else Paginate(page, items)
  }

  /** On the pages clients use, the two agree; they differ only below 1. */
  lemma PaginateAgreesFromPageOne<T>(page: int, items: seq<T>)
    ensures page >= 0 ==> Paginate(page, items) == PageSlice(page, items)
  {
  }

  /** The number of non-empty pages of `n` items: `ceil(n / 10)`. */
  function PageCount(n: nat): nat
  {
    (n + QuestionsPerPage - 1) / QuestionsPerPage
  }

  /** A page is non-empty exactly when it lies in `1..PageCount(n)`. */
  lemma NonEmptyPages<T>(page: int, items: seq<T>)
    ensures PageSlice(page, items) != [] <==> 1 <= page <= PageCount(|items|)
  {
    var n := |items|;
    if 1 <= page {
      assert (page - 1) * 10 < n <==> page <= (n + 9) / 10;
    }
  }

  /** No element occurs twice. */
  predicate Distinct<T(==)>(s: seq<T>)
  {
    forall i, j :: 0 <= i < j < |s| ==> s[i] != s[j]
  }

  /** The `k`-th element of a non-empty page is item `(page - 1) * 10 + k`. */
  lemma PageIndex<T>(page: int, items: seq<T>, k: nat)
    requires k < |PageSlice(page, items)|
    ensures page >= 1 && k < QuestionsPerPage
    ensures (page - 1) * QuestionsPerPage + k < |items|
    ensures PageSlice(page, items)[k] == items[(page - 1) * QuestionsPerPage + k]
  {
  }

  /** Positions on two different pages are different positions. */
  lemma PagePositionsDiffer(p: int, q: int, k: nat, l: nat)
    requires p != q && k < QuestionsPerPage && l < QuestionsPerPage
    ensures (p - 1) * QuestionsPerPage + k != (q - 1) * QuestionsPerPage + l
  {
    assert (p - 1) * QuestionsPerPage - (q - 1) * QuestionsPerPage == (p - q) * QuestionsPerPage;
  }

  /** Distinct pages of a list without repeats share no element. */
  lemma PagesDisjoint<T>(items: seq<T>, p: int, q: int)
    requires Distinct(items)
    requires p != q
    ensures forall x :: x in PageSlice(p, items) ==> x !in PageSlice(q, items)
  {
    var rp, rq := PageSlice(p, items), PageSlice(q, items);
    forall x | x in rp ensures x !in rq {
      var k :| 0 <= k < |rp| && rp[k] == x;
      PageIndex(p, items, k);
      forall l | 0 <= l < |rq| ensures rq[l] != x {
        PageIndex(q, items, l);
        PagePositionsDiffer(p, q, k, l);
      }
    }
  }

  /** Pages `1..k`, one after the other. */
  function Pages<T>(items: seq<T>, k: nat): seq<T>
  {
    if k == 0 then [] else Pages(items, k - 1) + PageSlice(k, items)
  }

  /** Pages `1..k` together are the first `10 * k` items (or all of them). */
  lemma {:induction false} PagesArePrefix<T>(items: seq<T>, k: nat)
    ensures Pages(items, k) == items[..Min(k * QuestionsPerPage, |items|)]
  {
    if k > 0 {
      PagesArePrefix(items, k - 1);
      var lo := Min((k - 1) * QuestionsPerPage, |items|);
      var hi := Min(k * QuestionsPerPage, |items|);
      PrefixSplit(items, lo, hi);
    }
  }

  /** A prefix followed by the next slice is the longer prefix. */
  lemma PrefixSplit<T>(s: seq<T>, lo: nat, hi: nat)
    requires lo <= hi <= |s|
    ensures s[..lo] + s[lo..hi] == s[..hi]
  {
  }

  /** Pages `1..ceil(n / 10)` together reproduce the whole list. */
  lemma PagesCoverAll<T>(items: seq<T>)
    ensures Pages(items, PageCount(|items|)) == items
  {
    PagesArePrefix(items, PageCount(|items|));
    assert PageCount(|items|) * QuestionsPerPage >= |items|;
  }
}
