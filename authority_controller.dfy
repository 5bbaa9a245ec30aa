/** The handlers under `/api/authority`: registration with the department
    and hostel derived from the designation, login, the complaint listings
    of this router (whose scoping differs from the complaint router's), the
    status update that mails the student on resolution, and the profile
    update. */
module AuthorityController {
  import opened Common
  import opened Text
  import opened Query
  import opened Sorting
  import opened Store
  import opened AuthorityModel
  import CM = ComplaintModel
  import CC = ComplaintController
  import SM = StudentModel

  const AlreadyExists: string := "Authority with this email already exists"
  const RegistrationFailed: string := "Server error during registration"
  const Registered: string := "Authority registered successfully. Verification email sent."
  const InvalidCredentials: string := "Invalid credentials"
  const ComplaintNotFound: string := "Complaint not found"
  const UpdateFailed: string := "Server error updating complaint"

  // ---------------------------------------------------------------------
  // Registration

  datatype RegisterRequest = RegisterRequest(
    name: string,
    email: string,
    mobile: string,
    designation: string,
    hostelNo: Option<int>,
    password: string)

  /** `new Authority({...})` as `register` builds it: the Network department
      exactly for the Network Department designation, and the hostel number
      only for a Hostel Clerk or Warden. */
  function Draft(id: Id, q: RegisterRequest, now: Time): (a: Authority)
    ensures a.department == Some(NetworkDept) <==> q.designation == NetworkDepartment
    ensures a.department.None? <==> q.designation != NetworkDepartment
    ensures IsHostelStaff(q.designation) ==> a.hostelNo == q.hostelNo
    ensures !IsHostelStaff(q.designation) ==> a.hostelNo.None?
    ensures a.id == id && a.email == SM.EmailKey(q.email) && a.name == Trim(q.name)
    ensures a.password == q.password && a.designation == q.designation && !a.isVerified
  {
    NewAuthority(id, q.name, q.email, q.mobile, q.designation,
                 if q.designation == NetworkDepartment then Some(NetworkDept) else None,
                 if IsHostelStaff(q.designation) then q.hostelNo else None,
                 q.password, now)
  }

  /** The record `register` stores as written: the handler hashes the
      password itself and the pre-save hook, seeing a modified password,
      hashes the hash again. */
  function RegisteredAsWritten(id: Id, q: RegisterRequest, now: Time): (a: Authority)
    ensures a.password == Hash(Hash(q.password))
    ensures a.(password := q.password) == Draft(id, q, now)
  {
    PreSaved(Draft(id, q, now).(password := Hash(q.password)), true)
  }

  /** As written, `minlength: 8` is checked on the handler's hash, which is
      never that short, so any password is accepted. */
  lemma AsWrittenPasswordCheckSeesHash(q: RegisterRequest)
    ensures SM.PasswordAcceptable(Hash(q.password))
  {
  }

  /** The record registration is meant to store: the password hashed once,
      by the hook. */
  function RegisteredRecord(id: Id, q: RegisterRequest, now: Time): (a: Authority)
    ensures PasswordMatches(q.password, a.password)
    ensures a.(password := q.password) == Draft(id, q, now)
  {
    PreSaved(Draft(id, q, now), true)
  }

  /** Validation of the new document, the plain password included. */
  predicate Acceptable(a: Authority) {
    Conforms(a) && SM.PasswordAcceptable(a.password)
  }

  /** `findOne({ email })`: the query value goes through the same trim and
      lowercase as the stored e-mail. */
  function ByEmail(authorities: seq<Authority>, email: string): (r: Option<nat>)
    ensures r.Some? ==> r.value < |authorities| && authorities[r.value].email == SM.EmailKey(email)
    ensures r.Some? ==> forall j :: 0 <= j < r.value ==> authorities[j].email != SM.EmailKey(email)
    ensures r.None? <==> forall j :: 0 <= j < |authorities| ==> authorities[j].email != SM.EmailKey(email)
  {
    FirstIndex(authorities, (a: Authority) => a.email == SM.EmailKey(email))
  }

  /** The link the verification mail carries. */
  function VerificationUrl(clientUrl: string, token: string): string {
    clientUrl + "/verify-email?token=" + token + "&role=authority"
  }

  /** `register`, with the password hashed once: 400 when the e-mail is
      taken, 500 when validation fails; otherwise the record is stored, a
      verification link signed with the new id is mailed to the address as
      typed, and 201 is returned. */
  method Register(db: Db, q: RegisterRequest, now: Time, sign: Claims -> string, clientUrl: string)
    returns (r: Response<string>)
    requires db.Valid()
    modifies db`authorities, db`outbox, db`nextId
    ensures db.Valid()
    ensures r == Failure(400, AlreadyExists) <==> ByEmail(old(db.authorities), q.email).Some?
    ensures r.Success? <==> ByEmail(old(db.authorities), q.email).None? && Acceptable(Draft(old(db.nextId), q, now))
    ensures r.Success? ==>
              r.code == 201
              && db.authorities == old(db.authorities) + [RegisteredRecord(old(db.nextId), q, now)]
              && db.outbox == old(db.outbox)
                              + [VerificationLinkMail(q.email, VerificationUrl(clientUrl, sign(SM.IdClaims(old(db.nextId)))))]
    ensures r.Failure? ==> r.code in {400, 500} && db.authorities == old(db.authorities) && db.outbox == old(db.outbox)
    ensures db.students == old(db.students) && db.admins == old(db.admins) && db.complaints == old(db.complaints)
    ensures db.feedback == old(db.feedback) && db.notifications == old(db.notifications)
  {
    if ByEmail(db.authorities, q.email).Some? {
      return Failure(400, AlreadyExists);
    }
    var id := db.FreshId();
    RaiseBound(db, id);
    var draft := Draft(id, q, now);
    if !Acceptable(draft) {
      return Failure(500, RegistrationFailed);
    }
    var a := Save(draft, true);
    assert a.email == SM.EmailKey(q.email);
    FreshIdNoClash(db.authorities, AuthorityId, a, id);
    db.AddAuthority(a);
    var token := sign(SM.IdClaims(id));
    db.outbox := db.outbox + [VerificationLinkMail(q.email, VerificationUrl(clientUrl, token))];
    r := Success(201, Registered);
  }

  // ---------------------------------------------------------------------
  // Login

  /** What a successful login returns besides the cookie. */
  datatype LoginReply = LoginReply(token: string, designation: string, department: Option<string>)

  /** The payload `login` signs, built by the handler itself. */
  function LoginClaims(a: Authority): Claims {
    Claims(a.id, Some("authority"), Some(a.designation), a.department,
           if a.designation == NetworkDepartment then None else a.hostelNo)
  }

  /** The handler's payload is the one `generateAuthToken` signs. */
  lemma LoginClaimsAreAuthClaims(a: Authority)
    ensures LoginClaims(a) == AuthClaims(a)
  {
  }

  /** `login`: 401 with one message for an unknown e-mail and for a wrong
      password; there is no check that the account is verified. */
  function Login(authorities: seq<Authority>, email: string, password: string,
                 sign: Claims -> string): (r: Response<LoginReply>)
    ensures r.Failure? ==> r == Failure(401, InvalidCredentials)
    ensures r.Success? <==>
              ByEmail(authorities, email).Some?
              && PasswordMatches(password, authorities[ByEmail(authorities, email).value].password)
    ensures r.Success? ==>
              var a := authorities[ByEmail(authorities, email).value];
              r.code == 200 && r.data == LoginReply(sign(AuthClaims(a)), a.designation, a.department)
  {
    match ByEmail(authorities, email)
    case None => Failure(401, InvalidCredentials)
    case Some(i) =>
      var a := authorities[i];
      if !PasswordMatches(password, a.password) then Failure(401, InvalidCredentials)
      else
        LoginClaimsAreAuthClaims(a);
        Success(200, LoginReply(sign(LoginClaims(a)), a.designation, a.department))
  }

  /** The discrepancy: right after registering as written, logging in with
      the same e-mail and password is refused. */
  lemma AsWrittenRegistrationLocksOut(authorities: seq<Authority>, id: Id, q: RegisterRequest,
                                      now: Time, sign: Claims -> string)
    requires ByEmail(authorities, q.email).None?
    ensures Login(authorities + [RegisteredAsWritten(id, q, now)], q.email, q.password, sign)
            == Failure(401, InvalidCredentials)
  {
    var s := authorities + [RegisteredAsWritten(id, q, now)];
    assert s[|authorities|].email == SM.EmailKey(q.email);
    FirstIndexUnique(s, (a: Authority) => a.email == SM.EmailKey(q.email), |authorities|);
    DoubleHashRejectsPassword(q.password);
  }

  /** With the password hashed once, the new account logs in with the
      password it registered with, and unverified. */
  lemma RegisteredRecordLogsIn(authorities: seq<Authority>, id: Id, q: RegisterRequest,
                               now: Time, sign: Claims -> string)
    requires ByEmail(authorities, q.email).None?
    ensures var a := RegisteredRecord(id, q, now);
            Login(authorities + [a], q.email, q.password, sign)
            == Success(200, LoginReply(sign(AuthClaims(a)), a.designation, a.department))
  {
    var s := authorities + [RegisteredRecord(id, q, now)];
    assert s[|authorities|].email == SM.EmailKey(q.email);
    FirstIndexUnique(s, (a: Authority) => a.email == SM.EmailKey(q.email), |authorities|);
  }

  // ---------------------------------------------------------------------
  // Listings of this router

  /** The filter `getAssignedComplaints` builds: the network department
      sees subType Network or Internet, hostel staff the Hostel complaints
      of their hostel, anyone else every complaint. Nothing looks at
      `assignedTo`. */
  predicate AssignedScope(a: Authority, c: CM.Complaint) {
    if a.department == Some(NetworkDept) then c.subType == "Network" || c.subType == "Internet"
    else if IsHostelStaff(a.designation) then c.hostelNo == a.hostelNo && c.kind == "Hostel"
    else true
  }

  /** `getAssignedComplaints`, by status and then newest first. */
  function AssignedComplaints(cs: seq<CM.Complaint>, a: Authority): (r: seq<CM.Complaint>)
    ensures forall x :: x in r <==> x in cs && AssignedScope(a, x)
    ensures Sorted(r, CM.StatusThenNewest)
  {
    CM.FindByStatus(cs, (c: CM.Complaint) => AssignedScope(a, c))
  }

  /** An authority of designation Other outside the network department
      receives every complaint. */
  lemma OtherSeesEverything(cs: seq<CM.Complaint>, a: Authority)
    requires a.department != Some(NetworkDept) && !IsHostelStaff(a.designation)
    ensures multiset(AssignedComplaints(cs, a)) == multiset(cs)
  {
    FindAll(cs, (c: CM.Complaint) => AssignedScope(a, c));
  }

  /** `getNetworkComplaints` of this router: subType Network or Internet;
      the complaint type is not consulted. */
  function NetworkComplaints(cs: seq<CM.Complaint>): (r: seq<CM.Complaint>)
    ensures forall x :: x in r <==> x in cs && (x.subType == "Network" || x.subType == "Internet")
    ensures Sorted(r, CM.StatusThenNewest)
  {
    CM.FindByStatus(cs, (c: CM.Complaint) => c.subType == "Network" || c.subType == "Internet")
  }

  /** A complaint of type Network with another subType is in the complaint
      router's network listing and missing from this one. */
  lemma NetworkListingsDiffer(cs: seq<CM.Complaint>, x: CM.Complaint)
    requires x in cs && x.kind == "Network" && x.subType != "Network" && x.subType != "Internet"
    ensures x in CC.NetworkComplaints(cs) && x !in NetworkComplaints(cs)
  {
  }

  /** `getHostelComplaints`: the Hostel complaints of the hostel in the
      route parameter, by status and then newest first. */
  function HostelComplaints(cs: seq<CM.Complaint>, hostelNo: Option<int>): (r: seq<CM.Complaint>)
    ensures forall x :: x in r <==> x in cs && x.kind == "Hostel" && x.hostelNo == hostelNo
    ensures Sorted(r, CM.StatusThenNewest)
  {
    CM.FindByStatus(cs, (c: CM.Complaint) => c.kind == "Hostel" && c.hostelNo == hostelNo)
  }

  // ---------------------------------------------------------------------
  // Status update

  /** The mail announcing a resolution: remarks are included only when
      truthy. */
  function ResolutionMail(to: string, c: CM.Complaint, remarks: string): (m: Mail)
    ensures m.ResolvedMail? && m.to == to && m.complaintToken == c.token
    ensures m.remarks.Some? <==> remarks != ""
  {
    ResolvedMail(to, c.token, if remarks != "" then Some(remarks) else None)
  }

  /** `updateComplaintStatus` of this router: the same update as the
      complaint router's, then, for status Resolved, a mail to the owning
      student. A complaint whose student no longer exists makes the mail
      step fail with 500 after the update is stored. */
  method UpdateComplaintStatus(db: Db, caller: Id, id: Id, status: string, remarks: string, now: Time)
    returns (r: Response<CM.Complaint>)
    requires db.Valid()
    modifies db`complaints, db`outbox
    ensures db.Valid()
    ensures r == Failure(404, ComplaintNotFound) <==> IndexOfId(old(db.complaints), ComplaintId, id).None?
    ensures IndexOfId(old(db.complaints), ComplaintId, id).None? ==>
              db.complaints == old(db.complaints) && db.outbox == old(db.outbox)
    ensures IndexOfId(old(db.complaints), ComplaintId, id).Some? ==>
              var k := IndexOfId(old(db.complaints), ComplaintId, id).value;
              var c := CC.StatusUpdated(old(db.complaints)[k], status, remarks, caller, now);
              var owner := IndexOfId(db.students, StudentId, c.student);
              && db.complaints == old(db.complaints)[k := c]
              && (status != "Resolved" ==> r == Success(200, c) && db.outbox == old(db.outbox))
              && (status == "Resolved" && owner.Some? ==>
                    r == Success(200, c)
                    && db.outbox == old(db.outbox) + [ResolutionMail(db.students[owner.value].email, c, remarks)])
              && (status == "Resolved" && owner.None? ==> r == Failure(500, UpdateFailed) && db.outbox == old(db.outbox))
  {
    var found := IndexOfId(db.complaints, ComplaintId, id);
    if found.None? {
      return Failure(404, ComplaintNotFound);
    }
    var k := found.value;
    var updated := CC.StatusUpdated(db.complaints[k], status, remarks, caller, now);
    ReplaceSameKey(db.complaints, ComplaintId, k, updated);
    ReplaceSameKey(db.complaints, ComplaintToken, k, updated);
    ReplaceSameId(db.complaints, ComplaintId, db.nextId, k, updated);
    db.complaints := db.complaints[k := updated];
    if status == "Resolved" {
      var owner := IndexOfId(db.students, StudentId, updated.student);
      if owner.None? {
        return Failure(500, UpdateFailed);
      }
      db.outbox := db.outbox + [ResolutionMail(db.students[owner.value].email, updated, remarks)];
    }
    r := Success(200, updated);
  }

  // ---------------------------------------------------------------------
  // Profile

  /** The update `updateProfile` applies: the name through its trim
      setter, the mobile as sent, and nothing else. No validator runs. */
  function ProfileUpdated(a: Authority, name: string, mobile: string): (r: Authority)
    ensures r.name == Trim(name) && r.mobile == mobile
    ensures r.(name := a.name, mobile := a.mobile) == a
  {
    a.(name := Trim(name), mobile := mobile)
  }

  /** A valid record stays valid exactly when the new name and mobile would
      pass their validators, which the update does not run. */
  lemma ProfileUpdateConformance(a: Authority, name: string, mobile: string)
    requires Conforms(a)
    ensures Conforms(ProfileUpdated(a, name, mobile)) <==>
              Trim(name) != "" && |Trim(name)| <= SM.MaxName && SM.MobileMatches(mobile)
  {
  }

  /** `updateProfile`: 200 with the updated record, or with nothing when the
      caller's record is gone. */
  method UpdateProfile(db: Db, caller: Id, name: string, mobile: string)
    returns (r: Response<Option<Authority>>)
    requires db.Valid()
    modifies db`authorities
    ensures db.Valid()
    ensures IndexOfId(old(db.authorities), AuthorityId, caller).None? ==>
              r == Success(200, None) && db.authorities == old(db.authorities)
    ensures IndexOfId(old(db.authorities), AuthorityId, caller).Some? ==>
              var k := IndexOfId(old(db.authorities), AuthorityId, caller).value;
              r == Success(200, Some(ProfileUpdated(old(db.authorities)[k], name, mobile)))
              && db.authorities == old(db.authorities)[k := ProfileUpdated(old(db.authorities)[k], name, mobile)]
  {
    var found := IndexOfId(db.authorities, AuthorityId, caller);
    if found.None? {
      return Success(200, None);
    }
    var k := found.value;
    var updated := ProfileUpdated(db.authorities[k], name, mobile);
    db.ReplaceAuthority(k, updated);
    r := Success(200, Some(updated));
  }
}
