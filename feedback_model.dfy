/** The Feedback document and its newest-first order. */
module FeedbackModel {
  import opened Common
  import opened Sorting
  import opened Query

  const MinRating: int := 1
  const MaxRating: int := 5
  const MaxComments: nat := 500

  /** `student` is required and always comes from the caller; `complaint`
      is an optional reference; `rating` is required. */
  datatype Feedback = Feedback(
    id: Id,
    student: Id,
    complaint: Option<Id>,
    rating: Option<int>,
    comments: Option<string>,
    createdAt: Time)

  /** The schema's validators: `rating` is required and lies in 1..5,
      `comments` has at most 500 characters; the complaint reference is
      optional. */
  predicate Conforms(f: Feedback) {
    && f.rating.Some? && MinRating <= f.rating.value <= MaxRating
    && (f.comments.Some? ==> |f.comments.value| <= MaxComments)
  }

  predicate NewestFirst(a: Feedback, b: Feedback) {
    a.createdAt >= b.createdAt
  }

  lemma NewestFirstIsPreorder()
    ensures TotalPreorder(NewestFirst)
  {
  }

  function ByNewest(s: seq<Feedback>): (r: seq<Feedback>)
    ensures multiset(r) == multiset(s)
    ensures Sorted(r, NewestFirst)
  {
    NewestFirstIsPreorder();
    SortBySorted(s, NewestFirst);
    SortBy(s, NewestFirst)
  }

  /** `Feedback.find(filter).sort({ createdAt: -1 })`. */
  function FindNewest(fs: seq<Feedback>, p: Feedback -> bool): (r: seq<Feedback>)
    ensures forall x :: x in r <==> x in fs && p(x)
    ensures multiset(r) == multiset(Find(fs, p))
    ensures Sorted(r, NewestFirst)
  {
    var f := Find(fs, p);
    var r := ByNewest(f);
    assert forall x :: x in r <==> x in multiset(r);
    r
  }
}
