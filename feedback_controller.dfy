/** The feedback handlers: a student submits a rating, an admin reads all
    of it and a student reads their own, newest first. */
module FeedbackController {
  import opened Common
  import opened Query
  import opened Sorting
  import opened Store
  import opened FeedbackModel

  const Submitted: string := "Feedback submitted successfully"
  const SubmitFailed: string := "Server error while submitting feedback"

  /** The body of `POST /api/feedback`; every field may be absent. */
  datatype FeedbackRequest = FeedbackRequest(
    complaintId: Option<Id>,
    rating: Option<int>,
    comments: Option<string>)

  /** `new Feedback({...})`: the student is always the caller, whatever the
      body says; the rest is copied from the body. */
  function Draft(id: Id, caller: Id, q: FeedbackRequest, now: Time): (f: Feedback)
    ensures f.id == id && f.student == caller && f.createdAt == now
    ensures f.complaint == q.complaintId && f.rating == q.rating && f.comments == q.comments
  {
    Feedback(id, caller, q.complaintId, q.rating, q.comments, now)
  }

  /** `createFeedback`: the draft is stored when it passes validation (201,
      with the stored record), otherwise the validation error is a 500 and
      nothing is stored. */
  method CreateFeedback(db: Db, caller: Id, q: FeedbackRequest, now: Time)
    returns (r: Response<Feedback>)
    requires db.Valid()
    modifies db`feedback, db`nextId
    ensures db.Valid()
    ensures r.Success? <==> Conforms(Draft(old(db.nextId), caller, q, now))
    ensures r.Success? <==>
              q.rating.Some? && MinRating <= q.rating.value <= MaxRating
              && (q.comments.Some? ==> |q.comments.value| <= MaxComments)
    ensures r.Success? ==> r.data in StudentFeedback(db.feedback, caller) && r.data in AllFeedback(db.feedback)
    ensures r.Success? ==>
              r == Success(201, Draft(old(db.nextId), caller, q, now))
              && db.feedback == old(db.feedback) + [r.data]
    ensures r.Failure? ==> r == Failure(500, SubmitFailed) && db.feedback == old(db.feedback)
    ensures db.nextId == old(db.nextId) + 1
  {
    var id := db.FreshId();
    RaiseBound(db, id);
    var f := Draft(id, caller, q, now);
    if !Conforms(f) {
      return Failure(500, SubmitFailed);
    }
    db.AddFeedback(f);
    SubmissionListed(old(db.feedback), id, caller, q, now, caller + 1);
    r := Success(201, f);
  }

  /** Whether a submission is accepted depends on the rating and comments
      alone: the complaint it names is never looked at, so a student may
      rate a complaint that is not theirs, is still pending, does not
      exist, or was rated before. */
  lemma ComplaintNeverChecked(id: Id, caller: Id, q: FeedbackRequest, other: Option<Id>, now: Time)
    ensures Conforms(Draft(id, caller, q, now)) <==> Conforms(Draft(id, caller, q.(complaintId := other), now))
    ensures Conforms(Draft(id, caller, q, now)) <==>
              q.rating.Some? && MinRating <= q.rating.value <= MaxRating
              && (q.comments.Some? ==> |q.comments.value| <= MaxComments)
  {
  }

  /** `getAllFeedback`: every record, newest first. */
  function AllFeedback(fs: seq<Feedback>): (r: seq<Feedback>)
    ensures multiset(r) == multiset(fs) && |r| == |fs|
    ensures Sorted(r, NewestFirst)
  {
    ByNewest(fs)
  }

  /** `getStudentFeedback`: the caller's own records, newest first. */
  function StudentFeedback(fs: seq<Feedback>, caller: Id): (r: seq<Feedback>)
    ensures forall x :: x in r <==> x in fs && x.student == caller
    ensures multiset(r) <= multiset(fs)
    ensures Sorted(r, NewestFirst)
  {
    FindNewest(fs, (f: Feedback) => f.student == caller)
  }

  /** Once accepted, a submission shows in the admin's listing and in the
      submitting student's own listing, and in no other student's. */
  lemma SubmissionListed(fs: seq<Feedback>, id: Id, caller: Id, q: FeedbackRequest, now: Time, other: Id)
    requires other != caller
    ensures Draft(id, caller, q, now) in AllFeedback(fs + [Draft(id, caller, q, now)])
    ensures Draft(id, caller, q, now) in StudentFeedback(fs + [Draft(id, caller, q, now)], caller)
    ensures Draft(id, caller, q, now) !in StudentFeedback(fs + [Draft(id, caller, q, now)], other)
  {
    var f := Draft(id, caller, q, now);
    var all := AllFeedback(fs + [f]);
    assert f in multiset(fs + [f]);
    assert f in multiset(all);
  }

  /** The listings of two students never share a record, and together
      they are part of the admin's listing. */
  lemma StudentListingsDisjoint(fs: seq<Feedback>, a: Id, b: Id, x: Feedback)
    requires a != b && x in StudentFeedback(fs, a)
    ensures x !in StudentFeedback(fs, b)
    ensures x in AllFeedback(fs)
  {
    assert x in multiset(fs);
    assert x in multiset(AllFeedback(fs));
  }
}
