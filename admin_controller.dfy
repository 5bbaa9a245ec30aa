/** The admin handlers: login, the filtered complaint listing, the
    feedback report, the system counts, and the update and deletion of a
    student or authority account with the cascade that follows a
    deletion. */
module AdminController {
  import opened Common
  import opened Query
  import opened Sorting
  import opened Store
  import CM = ComplaintModel
  import FM = FeedbackModel
  import SM = StudentModel
  import AM = AuthorityModel
  import CC = ComplaintController
  import FC = FeedbackController
  import Auth = AuthController

  const InvalidCredentials: string := "Invalid credentials"
  const UserNotFound: string := "User not found"
  const UpdateFailed: string := "Server error updating user"
  const UserDeleted: string := "User deleted successfully"

  // ---------------------------------------------------------------------
  // Login

  /** The body of a successful login: the token and the role. */
  datatype LoginReply = LoginReply(token: string, role: string)

  /** `login`: the same 401 for an unknown e-mail and a wrong password;
      otherwise a token carrying the admin's id and role. */
  function Login(admins: seq<Admin>, email: string, password: string, sign: Claims -> string): (r: Response<LoginReply>)
    ensures r.Failure? ==> r == Failure(401, InvalidCredentials)
    ensures r.Success? <==>
              Auth.AdminByEmail(admins, email).Some?
              && PasswordMatches(password, admins[Auth.AdminByEmail(admins, email).value].password)
    ensures r.Success? ==>
              r.code == 200 && r.data.role == "admin"
              && r.data.token == sign(Claims(admins[Auth.AdminByEmail(admins, email).value].id, Some("admin"), None, None, None))
  {
    match Auth.AdminByEmail(admins, email)
    case None => Failure(401, InvalidCredentials)
    case Some(i) =>
      if !PasswordMatches(password, admins[i].password) then Failure(401, InvalidCredentials)
      else Success(200, LoginReply(sign(AdminClaims(admins[i])), "admin"))
  }

  /** The two admin logins accept the same credentials and sign the same
      token; they differ only in what else the reply carries. */
  lemma LoginsAgree(admins: seq<Admin>, email: string, password: string, sign: Claims -> string)
    ensures Login(admins, email, password, sign).Success? <==> Auth.AdminLogin(admins, email, password, sign).Success?
    ensures Login(admins, email, password, sign).Success? ==>
              Login(admins, email, password, sign).data.token == Auth.AdminLogin(admins, email, password, sign).data.token
    ensures Login(admins, email, password, sign).Failure? ==>
              Login(admins, email, password, sign).message == Auth.AdminLogin(admins, email, password, sign).message
  {
  }

  // ---------------------------------------------------------------------
  // Complaints

  /** The query string of `getAllComplaints`. A parameter is used only
      when truthy; `hostelNo` is present when non-empty and holds the
      number the schema casts it to. */
  datatype ComplaintQuery = ComplaintQuery(
    kind: Option<string>,
    hostelNo: Option<int>,
    status: Option<string>)

  /** The filter object built from the truthy parameters: plain equality
      on each. */
  predicate Selects(q: ComplaintQuery, c: CM.Complaint) {
    && (TruthyText(q.kind) ==> c.kind == q.kind.value)
    && (q.hostelNo.Some? ==> c.hostelNo == q.hostelNo)
    && (TruthyText(q.status) ==> c.status == q.status.value)
  }

  /** `getAllComplaints`: the matching complaints, newest first, and their
      count. */
  function AllComplaints(cs: seq<CM.Complaint>, q: ComplaintQuery): (r: seq<CM.Complaint>)
    ensures forall x :: x in r <==>
              x in cs
              && (TruthyText(q.kind) ==> x.kind == q.kind.value)
              && (q.hostelNo.Some? ==> x.hostelNo == q.hostelNo)
              && (TruthyText(q.status) ==> x.status == q.status.value)
    ensures multiset(r) <= multiset(cs)
    ensures Sorted(r, CM.NewestFirst)
  {
    CM.FindNewest(cs, (c: CM.Complaint) => Selects(q, c))
  }

  /** Without truthy parameters the admin receives every complaint, each
      once. */
  lemma AllComplaintsUnfiltered(cs: seq<CM.Complaint>, q: ComplaintQuery)
    requires !TruthyText(q.kind) && q.hostelNo.None? && !TruthyText(q.status)
    ensures multiset(AllComplaints(cs, q)) == multiset(cs)
  {
    FindAll(cs, (c: CM.Complaint) => Selects(q, c));
  }

  /** Unlike the complaint router's admin listing, which ignores `status`,
      this one filters on it; and a `hostelNo` here does not force the
      Hostel type. */
  lemma ListingsDiffer(cs: seq<CM.Complaint>, x: CM.Complaint, status: string, h: int)
    requires x in cs && status != "" && x.status != status
    ensures x !in AllComplaints(cs, ComplaintQuery(None, None, Some(status)))
    ensures x in CC.AllComplaints(cs, None, None)
    ensures x.kind != "Hostel" && x.hostelNo == Some(h) ==>
              x in AllComplaints(cs, ComplaintQuery(None, Some(h), None))
              && x !in CC.AllComplaints(cs, Some(h), None)
  {
  }

  // ---------------------------------------------------------------------
  // Feedback and statistics

  /** The reply of `getAllFeedback`, without the average rating. */
  datatype FeedbackReport = FeedbackReport(count: nat, data: seq<FM.Feedback>)

  /** `getAllFeedback`: every record, newest first, and how many. */
  function AllFeedback(fs: seq<FM.Feedback>): (r: FeedbackReport)
    ensures r.count == |fs| == |r.data|
    ensures multiset(r.data) == multiset(fs)
    ensures Sorted(r.data, FM.NewestFirst)
  {
    FeedbackReport(|fs|, FM.ByNewest(fs))
  }

  /** The admin's report lists what the feedback router's admin listing
      does. */
  lemma FeedbackReportsAgree(fs: seq<FM.Feedback>)
    ensures AllFeedback(fs).data == FC.AllFeedback(fs)
  {
  }

  datatype Stats = Stats(
    totalStudents: nat,
    totalAuthorities: nat,
    totalComplaints: nat,
    pendingComplaints: nat,
    resolvedComplaints: nat,
    totalFeedback: nat)

  /** `getSystemStats`: six `countDocuments`. */
  function SystemStats(students: seq<SM.Student>, authorities: seq<AM.Authority>,
                       cs: seq<CM.Complaint>, fs: seq<FM.Feedback>): (r: Stats)
    ensures r.totalStudents == |students| && r.totalAuthorities == |authorities|
    ensures r.totalComplaints == |cs| && r.totalFeedback == |fs|
    ensures r.pendingComplaints == |Find(cs, (c: CM.Complaint) => c.status == "Pending")|
    ensures r.resolvedComplaints == |Find(cs, (c: CM.Complaint) => c.status == "Resolved")|
  {
    Stats(|students|, |authorities|, |cs|,
          Count(cs, (c: CM.Complaint) => c.status == "Pending"),
          Count(cs, (c: CM.Complaint) => c.status == "Resolved"),
          |fs|)
  }

  /** The complaints in neither reported state: in progress, rejected, or
      carrying any other status. */
  function Unreported(cs: seq<CM.Complaint>): nat {
    Count(cs, (c: CM.Complaint) => c.status != "Pending" && c.status != "Resolved")
  }

  /** Pending and resolved complaints never outnumber all complaints: the
      rest are exactly those in neither state. */
  lemma StatsAddUp(students: seq<SM.Student>, authorities: seq<AM.Authority>,
                   cs: seq<CM.Complaint>, fs: seq<FM.Feedback>)
    ensures var st := SystemStats(students, authorities, cs, fs);
            st.pendingComplaints + st.resolvedComplaints + Unreported(cs) == st.totalComplaints
  {
    CountPartition(cs, (c: CM.Complaint) => c.status == "Pending",
                   (c: CM.Complaint) => c.status == "Resolved",
                   (c: CM.Complaint) => c.status != "Pending" && c.status != "Resolved");
  }

  // ---------------------------------------------------------------------
  // Updating an account

  /** `updateUser` (`findByIdAndUpdate` with `new: true`, first on the
      students, then on the authorities). The update document is given as
      its effect on a record, after the schema's casting and setters; no
      validator and no save hook runs. A change of `_id` or a duplicate
      unique key makes the write fail with 500. */
  method UpdateUser(db: Db, id: Id, studentUpdate: SM.Student -> SM.Student,
                    authorityUpdate: AM.Authority -> AM.Authority)
    returns (r: Response<User>)
    requires db.Valid()
    modifies db`students, db`authorities
    ensures db.Valid()
    ensures IndexOfId(old(db.students), StudentId, id).Some? ==>
              var k := IndexOfId(old(db.students), StudentId, id).value;
              var u := studentUpdate(old(db.students)[k]);
              db.authorities == old(db.authorities)
              && if u.id != id || Clashes(old(db.students), StudentEmail, u, k)
                    || Clashes(old(db.students), StudentRollNo, u, k)
                 then r == Failure(500, UpdateFailed) && db.students == old(db.students)
                 else r == Success(200, StudentUser(u)) && db.students == old(db.students)[k := u]
    ensures IndexOfId(old(db.students), StudentId, id).None? && IndexOfId(old(db.authorities), AuthorityId, id).Some? ==>
              var k := IndexOfId(old(db.authorities), AuthorityId, id).value;
              var u := authorityUpdate(old(db.authorities)[k]);
              db.students == old(db.students)
              && if u.id != id || Clashes(old(db.authorities), AuthorityEmail, u, k)
                 then r == Failure(500, UpdateFailed) && db.authorities == old(db.authorities)
                 else r == Success(200, AuthorityUser(u)) && db.authorities == old(db.authorities)[k := u]
    ensures IndexOfId(old(db.students), StudentId, id).None? && IndexOfId(old(db.authorities), AuthorityId, id).None? ==>
              r == Failure(404, UserNotFound)
              && db.students == old(db.students) && db.authorities == old(db.authorities)
  {
    match IndexOfId(db.students, StudentId, id)
    case Some(k) =>
      var u := studentUpdate(db.students[k]);
      if u.id != id || Clashes(db.students, StudentEmail, u, k) || Clashes(db.students, StudentRollNo, u, k) {
        return Failure(500, UpdateFailed);
      }
      db.UpdateStudent(k, u);
      r := Success(200, StudentUser(u));
    case None =>
      match IndexOfId(db.authorities, AuthorityId, id)
      case Some(k) =>
        var u := authorityUpdate(db.authorities[k]);
        if u.id != id || Clashes(db.authorities, AuthorityEmail, u, k) {
          return Failure(500, UpdateFailed);
        }
        db.UpdateAuthority(k, u);
        r := Success(200, AuthorityUser(u));
      case None =>
        r := Failure(404, UserNotFound);
  }

  /** The update skips the save hook: a password set through it is stored
      as given. That password does not log in against it, and any password
      that does is strictly shorter than it. */
  lemma UpdatedPasswordLocksOut(s: SM.Student, password: string, entered: string)
    requires s.password == password
    ensures !PasswordMatches(password, s.password)
    ensures PasswordMatches(entered, s.password) ==> |entered| < |password|
  {
  }

  // ---------------------------------------------------------------------
  // Deleting an account

  predicate OwnedBy(id: Id, c: CM.Complaint) {
    c.student == id
  }

  /** `deleteUser`: the student with that id is deleted, or else the
      authority; 404 when neither exists. Then every complaint and every
      feedback record whose student is that id is deleted as well. */
  method DeleteUser(db: Db, id: Id) returns (r: Response<string>)
    requires db.Valid()
    modifies db`students, db`authorities, db`complaints, db`feedback
    ensures db.Valid()
    ensures IndexOfId(old(db.students), StudentId, id).None? && IndexOfId(old(db.authorities), AuthorityId, id).None? ==>
              r == Failure(404, UserNotFound)
              && db.students == old(db.students) && db.authorities == old(db.authorities)
              && db.complaints == old(db.complaints) && db.feedback == old(db.feedback)
    ensures IndexOfId(old(db.students), StudentId, id).Some? ==>
              db.students == DeleteMany(old(db.students), (s: SM.Student) => s.id == id)
              && db.authorities == old(db.authorities)
    ensures IndexOfId(old(db.students), StudentId, id).None? && IndexOfId(old(db.authorities), AuthorityId, id).Some? ==>
              db.students == old(db.students)
              && db.authorities == DeleteMany(old(db.authorities), (a: AM.Authority) => a.id == id)
    ensures IndexOfId(old(db.students), StudentId, id).Some? || IndexOfId(old(db.authorities), AuthorityId, id).Some? ==>
              r == Success(200, UserDeleted)
              && db.complaints == DeleteMany(old(db.complaints), (c: CM.Complaint) => OwnedBy(id, c))
              && db.feedback == DeleteMany(old(db.feedback), (f: FM.Feedback) => f.student == id)
  {
    if IndexOfId(db.students, StudentId, id).Some? {
      db.DeleteStudents((s: SM.Student) => s.id == id);
    } else if IndexOfId(db.authorities, AuthorityId, id).Some? {
      db.DeleteAuthorities((a: AM.Authority) => a.id == id);
    } else {
      return Failure(404, UserNotFound);
    }
    db.DeleteComplaints((c: CM.Complaint) => OwnedBy(id, c));
    db.DeleteFeedback((f: FM.Feedback) => f.student == id);
    r := Success(200, UserDeleted);
  }

  /** The cascade removes exactly the deleted id's complaints: what goes
      is what `find({ student: id })` returns, and every other complaint
      stays. */
  lemma CascadeRemovesExactlyOwn(cs: seq<CM.Complaint>, id: Id)
    ensures multiset(Find(cs, (c: CM.Complaint) => OwnedBy(id, c)))
              + multiset(DeleteMany(cs, (c: CM.Complaint) => OwnedBy(id, c))) == multiset(cs)
    ensures forall x :: x in DeleteMany(cs, (c: CM.Complaint) => OwnedBy(id, c)) <==> x in cs && x.student != id
  {
    FindDeletePartition(cs, (c: CM.Complaint) => OwnedBy(id, c));
  }

  /** Deleting an authority keeps the complaints assigned to it: they are
      still assigned to an id that no longer exists. */
  lemma AssignmentsOutliveAuthority(cs: seq<CM.Complaint>, id: Id, x: CM.Complaint)
    requires x in cs && x.assignedTo == Some(id) && x.student != id
    ensures x in DeleteMany(cs, (c: CM.Complaint) => OwnedBy(id, c))
  {
  }

  /** A student's id is deleted from the student collection, and only that
      record: under the unique `_id` index exactly one student goes. */
  lemma StudentDeleteRemovesOne(students: seq<SM.Student>, k: nat)
    requires k < |students| && KeysDistinct(students, StudentId)
    ensures var rest := DeleteMany(students, (s: SM.Student) => s.id == students[k].id);
            multiset(rest) + multiset{students[k]} == multiset(students)
  {
    var p := (s: SM.Student) => s.id == students[k].id;
    forall i | 0 <= i < |students| && i != k
      ensures !p(students[i])
    {
      assert StudentId(students[i]) != StudentId(students[k]);
    }
    FindOnly(students, p, k);
    FindDeletePartition(students, p);
  }
}
