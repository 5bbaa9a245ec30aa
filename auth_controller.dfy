/** The handlers under `/api/auth`: sign-up with a mailed one-time
    password (OTP), e-mail verification, the three logins, the password
    reset by OTP and `checkAuth`. The OTP lives for ten minutes and is
    cleared when used. */
module AuthController {
  import opened Common
  import opened Text
  import opened Query
  import opened Store
  import SM = StudentModel
  import AM = AuthorityModel
  import AC = AuthorityController
  import MW = AuthMiddleware

  /** Ten minutes, in milliseconds: the life of every OTP. */
  const OtpLifetime: nat := 600000

  const StudentExists: string := "Student with this email or roll number already exists"
  const AuthorityExists: string := "Authority with this email already exists"
  const SignupFailed: string := "Server error during signup"
  const VerifyFailed: string := "Server error during email verification"
  const InvalidOtp: string := "Invalid or expired OTP"
  const InvalidCredentials: string := "Invalid credentials"
  const VerifyFirst: string := "Please verify your email first"
  const InvalidRole: string := "Invalid role specified"
  const UserNotFound: string := "User not found"
  const ResetFailed: string := "Server error during password reset"
  const ResetDone: string := "Password reset successfully. You can now login with your new password."
  const CheckAuthRoleInvalid: string := "Invalid role"

  // ---------------------------------------------------------------------
  // generateOTP

  /** `Math.floor(100000 + Math.random() * 900000)`, with `r` the value of
      `Math.random()`. */
  function OtpNumber(r: real): (n: int)
    requires 0.0 <= r < 1.0
    ensures 100000 <= n <= 999999
  {
    (100000.0 + r * 900000.0).Floor
  }

  /** Every six-digit number is drawn for some value of `Math.random()`. */
  lemma EveryOtpReachable(n: int)
    requires 100000 <= n <= 999999
    ensures 0.0 <= (n - 100000) as real / 900000.0 < 1.0
    ensures OtpNumber((n - 100000) as real / 900000.0) == n
  {
    var r := (n - 100000) as real / 900000.0;
    assert r * 900000.0 == (n - 100000) as real;
    assert 100000.0 + r * 900000.0 == n as real;
  }

  lemma SixDigits(n: nat)
    requires 100000 <= n <= 999999
    ensures |Radix(n, 10)| == 6
  {
    assert Pow(10, 1) == 10;
    assert Pow(10, 2) == 100;
    assert Pow(10, 3) == 1000;
    assert Pow(10, 4) == 10000;
    assert Pow(10, 5) == 100000;
    assert Pow(10, 6) == 1000000;
    RadixLength(n, 10, 6);
  }

  /** `generateOTP`: six decimal digits, no leading zero, spelling the
      number drawn. */
  function GenerateOtp(r: real): (otp: string)
    requires 0.0 <= r < 1.0
    ensures |otp| == 6 && forall i :: 0 <= i < 6 ==> IsDigit(otp[i])
    ensures otp[0] != '0'
    ensures RadixValue(otp, 10) == OtpNumber(r)
  {
    var n := OtpNumber(r);
    SixDigits(n);
    RadixRoundTrip(n, 10);
    var s := Radix(n, 10);
    assert forall i :: 0 <= i < |s| ==> IsDigit(s[i]) by {
      forall i | 0 <= i < |s|
        ensures IsDigit(s[i])
      {
        assert DigitValue(s[i]) < 10;
      }
    }
    s
  }

  /** A submitted OTP is still open: it equals the stored one and the
      stored expiry lies strictly after `now`. */
  predicate OtpOpen(token: Option<string>, expires: Option<Time>, otp: string, now: Time) {
    token == Some(otp) && expires.Some? && expires.value > now
  }

  // ---------------------------------------------------------------------
  // Students

  datatype StudentSignupRequest = StudentSignupRequest(
    name: string,
    rollNo: string,
    email: string,
    mobile: string,
    session: string,
    department: string,
    password: string)

  /** `findOne({ $or: [{ email }, { rollNo }] })`, the query values going
      through the setters of their paths. */
  function StudentDuplicate(students: seq<SM.Student>, email: string, rollNo: string): Option<nat> {
    FirstIndex(students, (s: SM.Student) => s.email == SM.EmailKey(email) || s.rollNo == SM.RollNoKey(rollNo))
  }

  /** `Student.findOne({ email })`. */
  function StudentByEmail(students: seq<SM.Student>, email: string): Option<nat> {
    FirstIndex(students, (s: SM.Student) => s.email == SM.EmailKey(email))
  }

  /** The new document `studentSignup` saves: unverified, carrying the OTP
      and an expiry ten minutes on. */
  function StudentDraft(id: Id, q: StudentSignupRequest, otp: string, now: Time): (s: SM.Student)
    ensures s.id == id && s.email == SM.EmailKey(q.email) && s.rollNo == SM.RollNoKey(q.rollNo)
    ensures s.password == q.password && !s.isVerified
    ensures s.verificationToken == Some(otp) && s.verificationTokenExpires == Some(now + OtpLifetime)
  {
    SM.NewStudent(id, q.name, q.rollNo, q.email, q.mobile, q.session, q.department, q.password, now)
      .(verificationToken := Some(otp), verificationTokenExpires := Some(now + OtpLifetime))
  }

  /** Validation of the new document, the plain password included. */
  predicate StudentAcceptable(s: SM.Student) {
    SM.Conforms(s) && SM.PasswordAcceptable(s.password)
  }

  /** The record stored by a successful sign-up. */
  function SignedUpStudent(id: Id, q: StudentSignupRequest, otp: string, now: Time): (s: SM.Student)
    ensures PasswordMatches(q.password, s.password)
    ensures s.id == id && s.email == SM.EmailKey(q.email) && s.rollNo == SM.RollNoKey(q.rollNo)
    ensures !s.isVerified && s.verificationToken == Some(otp) && s.verificationTokenExpires == Some(now + OtpLifetime)
  {
    SM.HashedOnSave(StudentDraft(id, q, otp, now), true)
  }

  /** `studentSignup`: 400 when the e-mail or the roll number is taken,
      500 when validation fails; otherwise the student is stored
      unverified, the OTP is mailed to the address as typed, and 201 is
      returned with the stored e-mail. */
  method StudentSignup(db: Db, q: StudentSignupRequest, now: Time, random: real)
    returns (r: Response<string>)
    requires db.Valid() && 0.0 <= random < 1.0
    modifies db`students, db`outbox, db`nextId
    ensures db.Valid()
    ensures r == Failure(400, StudentExists) <==> StudentDuplicate(old(db.students), q.email, q.rollNo).Some?
    ensures r.Success? <==>
              StudentDuplicate(old(db.students), q.email, q.rollNo).None?
              && StudentAcceptable(StudentDraft(old(db.nextId), q, GenerateOtp(random), now))
    ensures r.Success? ==>
              r == Success(201, SM.EmailKey(q.email))
              && db.students == old(db.students) + [SignedUpStudent(old(db.nextId), q, GenerateOtp(random), now)]
              && db.outbox == old(db.outbox) + [OtpMail(q.email, GenerateOtp(random))]
    ensures r.Failure? ==>
              r.code in {400, 500} && db.students == old(db.students) && db.outbox == old(db.outbox)
  {
    if StudentDuplicate(db.students, q.email, q.rollNo).Some? {
      return Failure(400, StudentExists);
    }
    var id := db.FreshId();
    RaiseBound(db, id);
    var otp := GenerateOtp(random);
    var draft := StudentDraft(id, q, otp, now);
    if !StudentAcceptable(draft) {
      return Failure(500, SignupFailed);
    }
    var s := SM.Save(draft, true);
    StoreStudent(db, q, s, OtpMail(q.email, otp));
    r := Success(201, s.email);
  }

  /** Stores a new student that passed the duplicate check and queues its
      mail. */
  method StoreStudent(db: Db, q: StudentSignupRequest, s: SM.Student, m: Mail)
    requires db.Valid() && s.id + 1 == db.nextId
    requires IdsBelow(db.students, StudentId, s.id)
    requires StudentDuplicate(db.students, q.email, q.rollNo).None?
    requires s.email == SM.EmailKey(q.email) && s.rollNo == SM.RollNoKey(q.rollNo)
    modifies db`students, db`outbox
    ensures db.Valid()
    ensures db.students == old(db.students) + [s] && db.outbox == old(db.outbox) + [m]
  {
    FreshIdNoClash(db.students, StudentId, s, s.id);
    NoDuplicateNoClash(db.students, q, s);
    db.AddStudent(s);
    db.outbox := db.outbox + [m];
  }

  /** A sign-up that passed the duplicate check clashes with no unique
      index. */
  lemma NoDuplicateNoClash(students: seq<SM.Student>, q: StudentSignupRequest, s: SM.Student)
    requires StudentDuplicate(students, q.email, q.rollNo).None?
    requires s.email == SM.EmailKey(q.email) && s.rollNo == SM.RollNoKey(q.rollNo)
    ensures !Clashes(students, StudentEmail, s, -1) && !Clashes(students, StudentRollNo, s, -1)
  {
    forall j | 0 <= j < |students|
      ensures StudentEmail(students[j]) != StudentEmail(s) && StudentRollNo(students[j]) != StudentRollNo(s)
    {
      assert !(students[j].email == SM.EmailKey(q.email) || students[j].rollNo == SM.RollNoKey(q.rollNo));
    }
  }

  /** `findOne({ email, verificationToken: otp, verificationTokenExpires:
      { $gt: Date.now() } })`. */
  function StudentOtpMatch(students: seq<SM.Student>, email: string, otp: string, now: Time): Option<nat> {
    FirstIndex(students, (s: SM.Student) =>
      s.email == SM.EmailKey(email) && OtpOpen(s.verificationToken, s.verificationTokenExpires, otp, now))
  }

  /** The record after a successful verification: verified, OTP and expiry
      cleared, nothing else changed. */
  function VerifiedStudent(s: SM.Student): (v: SM.Student)
    ensures v.isVerified && v.verificationToken.None? && v.verificationTokenExpires.None?
    ensures v.(isVerified := s.isVerified, verificationToken := s.verificationToken,
               verificationTokenExpires := s.verificationTokenExpires) == s
  {
    s.(isVerified := true, verificationToken := None, verificationTokenExpires := None)
  }

  /** `verifyStudentEmail`: 400 unless an OTP that is still open is stored
      for the e-mail; 500 when `save()` finds the verified record breaking
      a validator (every loaded path is validated); otherwise the student
      is verified, the OTP cleared, and 200 is returned with a login
      token. */
  method VerifyStudentEmail(db: Db, email: string, otp: string, now: Time, sign: Claims -> string)
    returns (r: Response<string>)
    requires db.Valid()
    modifies db`students
    ensures db.Valid()
    ensures StudentOtpMatch(old(db.students), email, otp, now).None? ==>
              r == Failure(400, InvalidOtp) && db.students == old(db.students)
    ensures StudentOtpMatch(old(db.students), email, otp, now).Some? ==>
              var k := StudentOtpMatch(old(db.students), email, otp, now).value;
              var v := VerifiedStudent(old(db.students)[k]);
              && (SM.Conforms(v) ==>
                    r == Success(200, sign(SM.AuthClaims(old(db.students)[k]))) && db.students == old(db.students)[k := v])
              && (!SM.Conforms(v) ==> r == Failure(500, VerifyFailed) && db.students == old(db.students))
  {
    var found := StudentOtpMatch(db.students, email, otp, now);
    if found.None? {
      return Failure(400, InvalidOtp);
    }
    var k := found.value;
    var v := VerifiedStudent(db.students[k]);
    if !SM.Conforms(v) {
      return Failure(500, VerifyFailed);
    }
    v := SM.Save(v, false);
    db.ReplaceStudent(k, v);
    r := Success(200, sign(SM.AuthClaims(v)));
  }

  /** The OTP is single-use: once it has verified an account, it verifies
      nothing, at any later time. */
  lemma StudentOtpSingleUse(students: seq<SM.Student>, email: string, otp: string, now: Time, later: Time)
    requires KeysDistinct(students, StudentEmail)
    requires StudentOtpMatch(students, email, otp, now).Some?
    ensures var k := StudentOtpMatch(students, email, otp, now).value;
            StudentOtpMatch(students[k := VerifiedStudent(students[k])], email, otp, later).None?
  {
    var k := StudentOtpMatch(students, email, otp, now).value;
    var s' := students[k := VerifiedStudent(students[k])];
    forall j | 0 <= j < |s'|
      ensures !(s'[j].email == SM.EmailKey(email)
                && OtpOpen(s'[j].verificationToken, s'[j].verificationTokenExpires, otp, later))
    {
      if j != k {
        assert StudentEmail(students[j]) != StudentEmail(students[k]);
      }
    }
  }

  /** The reply of a successful student login besides the cookie. */
  datatype StudentLoginReply = StudentLoginReply(
    token: string, id: Id, name: string, email: string, rollNo: string, department: string)

  /** `studentLogin`: the checks run in the order existence, verification,
      password; an unknown e-mail and a wrong password share one
      message. */
  function StudentLogin(students: seq<SM.Student>, email: string, password: string,
                        sign: Claims -> string): (r: Response<StudentLoginReply>)
    ensures r.Failure? ==> r.code == 401
    ensures r.Success? <==>
              StudentByEmail(students, email).Some?
              && students[StudentByEmail(students, email).value].isVerified
              && PasswordMatches(password, students[StudentByEmail(students, email).value].password)
    ensures r == Failure(401, VerifyFirst) <==>
              StudentByEmail(students, email).Some? && !students[StudentByEmail(students, email).value].isVerified
    ensures r.Success? ==>
              var s := students[StudentByEmail(students, email).value];
              r == Success(200, StudentLoginReply(sign(SM.AuthClaims(s)), s.id, s.name, s.email, s.rollNo, s.department))
  {
    match StudentByEmail(students, email)
    case None => Failure(401, InvalidCredentials)
    case Some(i) =>
      var s := students[i];
      if !s.isVerified then Failure(401, VerifyFirst)
      else if !PasswordMatches(password, s.password) then Failure(401, InvalidCredentials)
      else Success(200, StudentLoginReply(sign(SM.AuthClaims(s)), s.id, s.name, s.email, s.rollNo, s.department))
  }

  /** The whole sign-up path: right after signing up the account is refused
      with the verification message, whatever the password; the mailed
      OTP, used before it expires, verifies it; and the verified account
      then logs in with the password it signed up with. */
  lemma StudentLifecycle(students: seq<SM.Student>, id: Id, q: StudentSignupRequest, otp: string,
                         now: Time, t: Time, password: string, sign: Claims -> string)
    requires StudentDuplicate(students, q.email, q.rollNo).None?
    requires now <= t < now + OtpLifetime
    ensures var s1 := students + [SignedUpStudent(id, q, otp, now)];
            && StudentLogin(s1, q.email, password, sign) == Failure(401, VerifyFirst)
            && StudentOtpMatch(s1, q.email, otp, t) == Some(|students|)
            && StudentLogin(s1[|students| := VerifiedStudent(s1[|students|])], q.email, q.password, sign).Success?
  {
    var k := |students|;
    var x := SignedUpStudent(id, q, otp, now);
    var s1 := students + [x];
    forall j | 0 <= j < k
      ensures students[j].email != SM.EmailKey(q.email)
    {
      assert !(students[j].email == SM.EmailKey(q.email) || students[j].rollNo == SM.RollNoKey(q.rollNo));
    }
    AppendedFoundByEmail(students, x, q.email, otp, t);
    AppendedFoundByEmail(students, VerifiedStudent(x), q.email, otp, t);
    assert s1[k := VerifiedStudent(s1[k])] == students + [VerifiedStudent(x)];
  }

  /** A student appended under an e-mail no earlier student has is the
      one every query by that e-mail finds. */
  lemma AppendedFoundByEmail(students: seq<SM.Student>, x: SM.Student, email: string, otp: string, t: Time)
    requires forall j :: 0 <= j < |students| ==> students[j].email != SM.EmailKey(email)
    requires x.email == SM.EmailKey(email)
    ensures StudentByEmail(students + [x], email) == Some(|students|)
    ensures OtpOpen(x.verificationToken, x.verificationTokenExpires, otp, t) ==>
              StudentOtpMatch(students + [x], email, otp, t) == Some(|students|)
  {
    var p := (s: SM.Student) => s.email == SM.EmailKey(email);
    FirstIndexAppended(students, x, p);
    if OtpOpen(x.verificationToken, x.verificationTokenExpires, otp, t) {
      var q := (s: SM.Student) =>
        s.email == SM.EmailKey(email) && OtpOpen(s.verificationToken, s.verificationTokenExpires, otp, t);
      FirstIndexAppended(students, x, q);
    }
  }

  // ---------------------------------------------------------------------
  // Authorities

  datatype AuthoritySignupRequest = AuthoritySignupRequest(
    name: string,
    email: string,
    mobile: string,
    designation: string,
    hostelNo: Option<int>,
    password: string)

  /** The new document `authoritySignup` saves: the department from its
      default, the hostel number as sent, unverified, with the OTP and an
      expiry ten minutes on. */
  function AuthorityDraft(id: Id, q: AuthoritySignupRequest, otp: string, now: Time): (a: AM.Authority)
    ensures a.id == id && a.email == SM.EmailKey(q.email) && a.hostelNo == q.hostelNo
    ensures a.department == AM.DefaultDepartment(q.designation)
    ensures a.password == q.password && !a.isVerified
    ensures a.verificationToken == Some(otp) && a.verificationTokenExpires == Some(now + OtpLifetime)
  {
    AM.NewAuthority(id, q.name, q.email, q.mobile, q.designation, None, q.hostelNo, q.password, now)
      .(verificationToken := Some(otp), verificationTokenExpires := Some(now + OtpLifetime))
  }

  /** The record stored by a successful sign-up. */
  function SignedUpAuthority(id: Id, q: AuthoritySignupRequest, otp: string, now: Time): (a: AM.Authority)
    ensures PasswordMatches(q.password, a.password)
    ensures a.email == SM.EmailKey(q.email) && !a.isVerified
  {
    AM.PreSaved(AuthorityDraft(id, q, otp, now), true)
  }

  /** `authoritySignup`: 400 when the e-mail is taken, 500 when validation
      fails; otherwise the authority is stored unverified, the OTP is
      mailed, and 201 is returned with the stored e-mail. */
  method AuthoritySignup(db: Db, q: AuthoritySignupRequest, now: Time, random: real)
    returns (r: Response<string>)
    requires db.Valid() && 0.0 <= random < 1.0
    modifies db`authorities, db`outbox, db`nextId
    ensures db.Valid()
    ensures r == Failure(400, AuthorityExists) <==> AC.ByEmail(old(db.authorities), q.email).Some?
    ensures r.Success? <==>
              AC.ByEmail(old(db.authorities), q.email).None?
              && AC.Acceptable(AuthorityDraft(old(db.nextId), q, GenerateOtp(random), now))
    ensures r.Success? ==>
              r == Success(201, SM.EmailKey(q.email))
              && db.authorities == old(db.authorities) + [SignedUpAuthority(old(db.nextId), q, GenerateOtp(random), now)]
              && db.outbox == old(db.outbox) + [OtpMail(q.email, GenerateOtp(random))]
    ensures r.Failure? ==>
              r.code in {400, 500} && db.authorities == old(db.authorities) && db.outbox == old(db.outbox)
  {
    if AC.ByEmail(db.authorities, q.email).Some? {
      return Failure(400, AuthorityExists);
    }
    var id := db.FreshId();
    RaiseBound(db, id);
    var otp := GenerateOtp(random);
    var draft := AuthorityDraft(id, q, otp, now);
    if !AC.Acceptable(draft) {
      return Failure(500, SignupFailed);
    }
    var a := AM.Save(draft, true);
    FreshIdNoClash(db.authorities, AuthorityId, a, id);
    db.AddAuthority(a);
    db.outbox := db.outbox + [OtpMail(q.email, otp)];
    r := Success(201, a.email);
  }

  function AuthorityOtpMatch(authorities: seq<AM.Authority>, email: string, otp: string, now: Time): Option<nat> {
    FirstIndex(authorities, (a: AM.Authority) =>
      a.email == SM.EmailKey(email) && OtpOpen(a.verificationToken, a.verificationTokenExpires, otp, now))
  }

  /** The record after a successful verification. */
  function VerifiedAuthority(a: AM.Authority): (v: AM.Authority)
    ensures v.isVerified && v.verificationToken.None? && v.verificationTokenExpires.None?
    ensures v.(isVerified := a.isVerified, verificationToken := a.verificationToken,
               verificationTokenExpires := a.verificationTokenExpires) == a
  {
    a.(isVerified := true, verificationToken := None, verificationTokenExpires := None)
  }

  /** The reply of a successful verification: the login token and the
      designation. */
  datatype AuthorityVerifyReply = AuthorityVerifyReply(token: string, designation: string)

  /** `verifyAuthorityEmail`, the same steps as for a student. */
  method VerifyAuthorityEmail(db: Db, email: string, otp: string, now: Time, sign: Claims -> string)
    returns (r: Response<AuthorityVerifyReply>)
    requires db.Valid()
    modifies db`authorities
    ensures db.Valid()
    ensures AuthorityOtpMatch(old(db.authorities), email, otp, now).None? ==>
              r == Failure(400, InvalidOtp) && db.authorities == old(db.authorities)
    ensures AuthorityOtpMatch(old(db.authorities), email, otp, now).Some? ==>
              var k := AuthorityOtpMatch(old(db.authorities), email, otp, now).value;
              var a := old(db.authorities)[k];
              && (AM.Conforms(VerifiedAuthority(a)) ==>
                    && r == Success(200, AuthorityVerifyReply(sign(AM.AuthClaims(a)), a.designation))
                    && db.authorities == old(db.authorities)[k := VerifiedAuthority(a)])
              && (!AM.Conforms(VerifiedAuthority(a)) ==>
                    r == Failure(500, VerifyFailed) && db.authorities == old(db.authorities))
  {
    var found := AuthorityOtpMatch(db.authorities, email, otp, now);
    if found.None? {
      return Failure(400, InvalidOtp);
    }
    var k := found.value;
    if !AM.Conforms(VerifiedAuthority(db.authorities[k])) {
      return Failure(500, VerifyFailed);
    }
    var v := AM.Save(VerifiedAuthority(db.authorities[k]), false);
    db.ReplaceAuthority(k, v);
    r := Success(200, AuthorityVerifyReply(sign(AM.AuthClaims(v)), v.designation));
  }

  lemma AuthorityOtpSingleUse(authorities: seq<AM.Authority>, email: string, otp: string, now: Time, later: Time)
    requires KeysDistinct(authorities, AuthorityEmail)
    requires AuthorityOtpMatch(authorities, email, otp, now).Some?
    ensures var k := AuthorityOtpMatch(authorities, email, otp, now).value;
            AuthorityOtpMatch(authorities[k := VerifiedAuthority(authorities[k])], email, otp, later).None?
  {
    var k := AuthorityOtpMatch(authorities, email, otp, now).value;
    var a' := authorities[k := VerifiedAuthority(authorities[k])];
    forall j | 0 <= j < |a'|
      ensures !(a'[j].email == SM.EmailKey(email)
                && OtpOpen(a'[j].verificationToken, a'[j].verificationTokenExpires, otp, later))
    {
      if j != k {
        assert AuthorityEmail(authorities[j]) != AuthorityEmail(authorities[k]);
      }
    }
  }

  /** The reply of a successful authority login besides the cookie. */
  datatype AuthorityLoginReply = AuthorityLoginReply(
    token: string, designation: string, id: Id, name: string, email: string)

  /** `authorityLogin`: existence, then password; verification is never
      consulted. */
  function AuthorityLogin(authorities: seq<AM.Authority>, email: string, password: string,
                          sign: Claims -> string): (r: Response<AuthorityLoginReply>)
    ensures r.Failure? ==> r == Failure(401, InvalidCredentials)
    ensures r.Success? <==>
              AC.ByEmail(authorities, email).Some?
              && PasswordMatches(password, authorities[AC.ByEmail(authorities, email).value].password)
    ensures r.Success? ==>
              var a := authorities[AC.ByEmail(authorities, email).value];
              r == Success(200, AuthorityLoginReply(sign(AM.AuthClaims(a)), a.designation, a.id, a.name, a.email))
  {
    match AC.ByEmail(authorities, email)
    case None => Failure(401, InvalidCredentials)
    case Some(i) =>
      var a := authorities[i];
      if !PasswordMatches(password, a.password) then Failure(401, InvalidCredentials)
      else Success(200, AuthorityLoginReply(sign(AM.AuthClaims(a)), a.designation, a.id, a.name, a.email))
  }

  /** The two authority logins accept the same credentials and sign the
      same token. */
  lemma AuthorityLoginsAgree(authorities: seq<AM.Authority>, email: string, password: string,
                             sign: Claims -> string)
    ensures AuthorityLogin(authorities, email, password, sign).Success?
            <==> AC.Login(authorities, email, password, sign).Success?
    ensures AuthorityLogin(authorities, email, password, sign).Success? ==>
              AuthorityLogin(authorities, email, password, sign).data.token
              == AC.Login(authorities, email, password, sign).data.token
  {
  }

  /** An authority logs in straight after signing up, before any
      verification. */
  lemma UnverifiedAuthorityLogsIn(authorities: seq<AM.Authority>, id: Id, q: AuthoritySignupRequest,
                                  otp: string, now: Time, sign: Claims -> string)
    requires AC.ByEmail(authorities, q.email).None?
    ensures var a := SignedUpAuthority(id, q, otp, now);
            !a.isVerified && AuthorityLogin(authorities + [a], q.email, q.password, sign).Success?
  {
    var a := SignedUpAuthority(id, q, otp, now);
    FirstIndexAppended(authorities, a, (b: AM.Authority) => b.email == SM.EmailKey(q.email));
    assert AC.ByEmail(authorities + [a], q.email) == Some(|authorities|);
  }

  // ---------------------------------------------------------------------
  // Administrators

  function AdminByEmail(admins: seq<Admin>, email: string): Option<nat> {
    FirstIndex(admins, (a: Admin) => a.email == SM.EmailKey(email))
  }

  /** The reply of a successful admin login. */
  datatype AdminLoginReply = AdminLoginReply(token: string, id: Id, email: string)

  /** `adminLogin`: one 401 message for an unknown e-mail and a wrong
      password. */
  function AdminLogin(admins: seq<Admin>, email: string, password: string,
                      sign: Claims -> string): (r: Response<AdminLoginReply>)
    ensures r.Failure? ==> r == Failure(401, InvalidCredentials)
    ensures r.Success? <==>
              AdminByEmail(admins, email).Some?
              && PasswordMatches(password, admins[AdminByEmail(admins, email).value].password)
    ensures r.Success? ==>
              var a := admins[AdminByEmail(admins, email).value];
              r == Success(200, AdminLoginReply(sign(AdminClaims(a)), a.id, a.email))
  {
    match AdminByEmail(admins, email)
    case None => Failure(401, InvalidCredentials)
    case Some(i) =>
      var a := admins[i];
      if !PasswordMatches(password, a.password) then Failure(401, InvalidCredentials)
      else Success(200, AdminLoginReply(sign(AdminClaims(a)), a.id, a.email))
  }

  // ---------------------------------------------------------------------
  // Password reset

  /** The collections `role` selects. */
  datatype Account = StudentAccount | AuthorityAccount | AdminAccount

  function AccountOf(role: string): (a: Option<Account>)
    ensures a == Some(StudentAccount) <==> role == "student"
    ensures a == Some(AuthorityAccount) <==> role == "authority"
    ensures a == Some(AdminAccount) <==> role == "admin"
    ensures a.None? <==> role != "student" && role != "authority" && role != "admin"
  {
    if role == "student" then Some(StudentAccount)
    else if role == "authority" then Some(AuthorityAccount)
    else if role == "admin" then Some(AdminAccount)
    else None
  }

  /** The record `forgotPassword` saves: a reset OTP expiring ten minutes
      on, nothing else changed. */
  function StudentResetOpened(s: SM.Student, otp: string, now: Time): (r: SM.Student)
    ensures r.resetPasswordToken == Some(otp) && r.resetPasswordExpires == Some(now + OtpLifetime)
    ensures r.(resetPasswordToken := s.resetPasswordToken, resetPasswordExpires := s.resetPasswordExpires) == s
  {
    s.(resetPasswordToken := Some(otp), resetPasswordExpires := Some(now + OtpLifetime))
  }

  function AuthorityResetOpened(a: AM.Authority, otp: string, now: Time): (r: AM.Authority)
    ensures r.resetPasswordToken == Some(otp) && r.resetPasswordExpires == Some(now + OtpLifetime)
    ensures r.(resetPasswordToken := a.resetPasswordToken, resetPasswordExpires := a.resetPasswordExpires) == a
  {
    a.(resetPasswordToken := Some(otp), resetPasswordExpires := Some(now + OtpLifetime))
  }

  function AdminResetOpened(a: Admin, otp: string, now: Time): (r: Admin)
    ensures r.resetPasswordToken == Some(otp) && r.resetPasswordExpires == Some(now + OtpLifetime)
    ensures r.(resetPasswordToken := a.resetPasswordToken, resetPasswordExpires := a.resetPasswordExpires) == a
  {
    a.(resetPasswordToken := Some(otp), resetPasswordExpires := Some(now + OtpLifetime))
  }

  /** `forgotPassword` once the role is known to be "student". */
  method ForgotStudent(db: Db, email: string, otp: string, now: Time) returns (r: Response<string>)
    requires db.Valid()
    modifies db`students, db`outbox
    ensures db.Valid()
    ensures StudentByEmail(old(db.students), email).None? ==>
              r == Failure(404, UserNotFound) && db.students == old(db.students) && db.outbox == old(db.outbox)
    ensures StudentByEmail(old(db.students), email).Some? ==>
              var k := StudentByEmail(old(db.students), email).value;
              var withOtp := StudentResetOpened(old(db.students)[k], otp, now);
              && (SM.Conforms(withOtp) ==>
                    && r == Success(200, old(db.students)[k].email)
                    && db.students == old(db.students)[k := withOtp]
                    && db.outbox == old(db.outbox) + [OtpMail(email, otp)])
              && (!SM.Conforms(withOtp) ==>
                    r == Failure(500, ResetFailed) && db.students == old(db.students) && db.outbox == old(db.outbox))
  {
    var found := StudentByEmail(db.students, email);
    if found.None? {
      return Failure(404, UserNotFound);
    }
    var k := found.value;
    var withOtp := StudentResetOpened(db.students[k], otp, now);
    if !SM.Conforms(withOtp) {
      return Failure(500, ResetFailed);
    }
    var s := SM.Save(withOtp, false);
    assert s == withOtp;
    assert s.id == db.students[k].id && s.email == db.students[k].email;
    db.ReplaceStudent(k, s);
    db.outbox := db.outbox + [OtpMail(email, otp)];
    r := Success(200, s.email);
  }

  method ForgotAuthority(db: Db, email: string, otp: string, now: Time) returns (r: Response<string>)
    requires db.Valid()
    modifies db`authorities, db`outbox
    ensures db.Valid()
    ensures AC.ByEmail(old(db.authorities), email).None? ==>
              r == Failure(404, UserNotFound) && db.authorities == old(db.authorities) && db.outbox == old(db.outbox)
    ensures AC.ByEmail(old(db.authorities), email).Some? ==>
              var k := AC.ByEmail(old(db.authorities), email).value;
              var withOtp := AuthorityResetOpened(old(db.authorities)[k], otp, now);
              && (AM.Conforms(withOtp) ==>
                    && r == Success(200, old(db.authorities)[k].email)
                    && db.authorities == old(db.authorities)[k := withOtp]
                    && db.outbox == old(db.outbox) + [OtpMail(email, otp)])
              && (!AM.Conforms(withOtp) ==>
                    r == Failure(500, ResetFailed) && db.authorities == old(db.authorities) && db.outbox == old(db.outbox))
  {
    var found := AC.ByEmail(db.authorities, email);
    if found.None? {
      return Failure(404, UserNotFound);
    }
    var k := found.value;
    var withOtp := AuthorityResetOpened(db.authorities[k], otp, now);
    if !AM.Conforms(withOtp) {
      return Failure(500, ResetFailed);
    }
    var a := AM.Save(withOtp, false);
    assert a == withOtp;
    assert a.id == db.authorities[k].id && a.email == db.authorities[k].email;
    db.ReplaceAuthority(k, a);
    db.outbox := db.outbox + [OtpMail(email, otp)];
    r := Success(200, a.email);
  }

  method ForgotAdmin(db: Db, email: string, otp: string, now: Time) returns (r: Response<string>)
    requires db.Valid()
    modifies db`admins, db`outbox
    ensures db.Valid()
    ensures AdminByEmail(old(db.admins), email).None? ==>
              r == Failure(404, UserNotFound) && db.admins == old(db.admins) && db.outbox == old(db.outbox)
    ensures AdminByEmail(old(db.admins), email).Some? ==>
              var k := AdminByEmail(old(db.admins), email).value;
              var withOtp := AdminResetOpened(old(db.admins)[k], otp, now);
              && (AdminConforms(withOtp) ==>
                    && r == Success(200, old(db.admins)[k].email)
                    && db.admins == old(db.admins)[k := withOtp]
                    && db.outbox == old(db.outbox) + [OtpMail(email, otp)])
              && (!AdminConforms(withOtp) ==>
                    r == Failure(500, ResetFailed) && db.admins == old(db.admins) && db.outbox == old(db.outbox))
  {
    var found := AdminByEmail(db.admins, email);
    if found.None? {
      return Failure(404, UserNotFound);
    }
    var k := found.value;
    var withOtp := AdminResetOpened(db.admins[k], otp, now);
    if !AdminConforms(withOtp) {
      return Failure(500, ResetFailed);
    }
    var a := AdminHashedOnSave(withOtp, false);
    assert a == withOtp;
    assert a.id == db.admins[k].id && a.email == db.admins[k].email;
    db.ReplaceAdmin(k, a);
    db.outbox := db.outbox + [OtpMail(email, otp)];
    r := Success(200, a.email);
  }

  /** `forgotPassword`: 400 for a role other than the three, 404 when the
      role's collection has no account with the e-mail, 500 when `save()`
      finds the account with its reset OTP breaking a validator; otherwise
      that account gets a reset OTP, mailed to the address as typed, and
      200 is returned with the stored e-mail. Only that account changes. */
  method ForgotPassword(db: Db, email: string, role: string, now: Time, random: real)
    returns (r: Response<string>)
    requires db.Valid() && 0.0 <= random < 1.0
    modifies db`students, db`authorities, db`admins, db`outbox
    ensures db.Valid()
    ensures r == Failure(400, InvalidRole) <==> AccountOf(role).None?
    ensures r.Failure? ==> r.code in {400, 404, 500}
    ensures r.Failure? ==>
              && db.students == old(db.students) && db.authorities == old(db.authorities)
              && db.admins == old(db.admins) && db.outbox == old(db.outbox)
    ensures r.Success? ==> db.outbox == old(db.outbox) + [OtpMail(email, GenerateOtp(random))]
    ensures role == "student" ==>
              && db.authorities == old(db.authorities) && db.admins == old(db.admins)
              && (r == Failure(404, UserNotFound) <==> StudentByEmail(old(db.students), email).None?)
              && (StudentByEmail(old(db.students), email).Some? ==>
                    var k := StudentByEmail(old(db.students), email).value;
                    var withOtp := StudentResetOpened(old(db.students)[k], GenerateOtp(random), now);
                    && (r.Success? <==> SM.Conforms(withOtp))
                    && (r.Success? ==> db.students == old(db.students)[k := withOtp]))
    ensures role == "authority" ==>
              && db.students == old(db.students) && db.admins == old(db.admins)
              && (r == Failure(404, UserNotFound) <==> AC.ByEmail(old(db.authorities), email).None?)
              && (AC.ByEmail(old(db.authorities), email).Some? ==>
                    var k := AC.ByEmail(old(db.authorities), email).value;
                    var withOtp := AuthorityResetOpened(old(db.authorities)[k], GenerateOtp(random), now);
                    && (r.Success? <==> AM.Conforms(withOtp))
                    && (r.Success? ==> db.authorities == old(db.authorities)[k := withOtp]))
    ensures role == "admin" ==>
              && db.students == old(db.students) && db.authorities == old(db.authorities)
              && (r == Failure(404, UserNotFound) <==> AdminByEmail(old(db.admins), email).None?)
              && (AdminByEmail(old(db.admins), email).Some? ==>
                    var k := AdminByEmail(old(db.admins), email).value;
                    var withOtp := AdminResetOpened(old(db.admins)[k], GenerateOtp(random), now);
                    && (r.Success? <==> AdminConforms(withOtp))
                    && (r.Success? ==> db.admins == old(db.admins)[k := withOtp]))
  {
    var account := AccountOf(role);
    if account.None? {
      return Failure(400, InvalidRole);
    }
    var otp := GenerateOtp(random);
    match account.value {
      case StudentAccount => r := ForgotStudent(db, email, otp, now);
      case AuthorityAccount => r := ForgotAuthority(db, email, otp, now);
      case AdminAccount => r := ForgotAdmin(db, email, otp, now);
    }
  }

  /** `findOne({ email, resetPasswordToken: otp, resetPasswordExpires:
      { $gt: Date.now() } })` in each collection. */
  function StudentResetMatch(students: seq<SM.Student>, email: string, otp: string, now: Time): Option<nat> {
    FirstIndex(students, (s: SM.Student) =>
      s.email == SM.EmailKey(email) && OtpOpen(s.resetPasswordToken, s.resetPasswordExpires, otp, now))
  }

  function AuthorityResetMatch(authorities: seq<AM.Authority>, email: string, otp: string, now: Time): Option<nat> {
    FirstIndex(authorities, (a: AM.Authority) =>
      a.email == SM.EmailKey(email) && OtpOpen(a.resetPasswordToken, a.resetPasswordExpires, otp, now))
  }

  function AdminResetMatch(admins: seq<Admin>, email: string, otp: string, now: Time): Option<nat> {
    FirstIndex(admins, (a: Admin) =>
      a.email == SM.EmailKey(email) && OtpOpen(a.resetPasswordToken, a.resetPasswordExpires, otp, now))
  }

  /** The record `resetPassword` hands to `save()`: the new plain
      password set, the reset OTP cleared. Validation runs on this record. */
  function StudentResetDraft(s: SM.Student, password: string): (r: SM.Student)
    ensures r.password == password && r.resetPasswordToken.None? && r.resetPasswordExpires.None?
    ensures r.(password := s.password, resetPasswordToken := s.resetPasswordToken,
               resetPasswordExpires := s.resetPasswordExpires) == s
  {
    s.(password := password, resetPasswordToken := None, resetPasswordExpires := None)
  }

  function AuthorityResetDraft(a: AM.Authority, password: string): (r: AM.Authority)
    ensures r.password == password && r.resetPasswordToken.None? && r.resetPasswordExpires.None?
    ensures r.(password := a.password, resetPasswordToken := a.resetPasswordToken,
               resetPasswordExpires := a.resetPasswordExpires) == a
  {
    a.(password := password, resetPasswordToken := None, resetPasswordExpires := None)
  }

  function AdminResetDraft(a: Admin, password: string): (r: Admin)
    ensures r.password == password && r.resetPasswordToken.None? && r.resetPasswordExpires.None?
    ensures r.(password := a.password, resetPasswordToken := a.resetPasswordToken,
               resetPasswordExpires := a.resetPasswordExpires) == a
  {
    a.(password := password, resetPasswordToken := None, resetPasswordExpires := None)
  }

  /** The record `resetPassword` stores: the new password hashed by the
      hook, the reset OTP cleared. */
  function StudentAfterReset(s: SM.Student, password: string): (r: SM.Student)
    ensures PasswordMatches(password, r.password)
    ensures r.resetPasswordToken.None? && r.resetPasswordExpires.None?
    ensures r.(password := s.password, resetPasswordToken := s.resetPasswordToken,
               resetPasswordExpires := s.resetPasswordExpires) == s
  {
    SM.HashedOnSave(StudentResetDraft(s, password), true)
  }

  /** For an authority the hook also drops the hostel number of the
      network department, since the password was modified. */
  function AuthorityAfterReset(a: AM.Authority, password: string): (r: AM.Authority)
    ensures PasswordMatches(password, r.password)
    ensures r.resetPasswordToken.None? && r.resetPasswordExpires.None?
    ensures a.designation == AM.NetworkDepartment ==> r.hostelNo.None?
    ensures r.(password := a.password, resetPasswordToken := a.resetPasswordToken,
               resetPasswordExpires := a.resetPasswordExpires, hostelNo := a.hostelNo) == a
  {
    AM.PreSaved(AuthorityResetDraft(a, password), true)
  }

  function AdminAfterReset(a: Admin, password: string): (r: Admin)
    ensures PasswordMatches(password, r.password)
    ensures r.resetPasswordToken.None? && r.resetPasswordExpires.None?
    ensures r.(password := a.password, resetPasswordToken := a.resetPasswordToken,
               resetPasswordExpires := a.resetPasswordExpires) == a
  {
    AdminHashedOnSave(AdminResetDraft(a, password), true)
  }

  /** `resetPassword` once the role is known to be "student": 400 without
      an open reset OTP, 500 when `save()` finds the record with its new
      password breaking a validator (the new password's `minlength`, or any
      other loaded path). */
  method ResetStudent(db: Db, email: string, otp: string, password: string, now: Time)
    returns (r: Response<string>)
    requires db.Valid()
    modifies db`students
    ensures db.Valid()
    ensures StudentResetMatch(old(db.students), email, otp, now).None? ==>
              r == Failure(400, InvalidOtp) && db.students == old(db.students)
    ensures StudentResetMatch(old(db.students), email, otp, now).Some? ==>
              var k := StudentResetMatch(old(db.students), email, otp, now).value;
              && (StudentAcceptable(StudentResetDraft(old(db.students)[k], password)) ==>
                    r == Success(200, ResetDone) && db.students == old(db.students)[k := StudentAfterReset(old(db.students)[k], password)])
              && (!StudentAcceptable(StudentResetDraft(old(db.students)[k], password)) ==>
                    r == Failure(500, ResetFailed) && db.students == old(db.students))
  {
    var found := StudentResetMatch(db.students, email, otp, now);
    if found.None? {
      return Failure(400, InvalidOtp);
    }
    var k := found.value;
    if !StudentAcceptable(StudentResetDraft(db.students[k], password)) {
      return Failure(500, ResetFailed);
    }
    var s := SM.Save(StudentResetDraft(db.students[k], password), true);
    db.ReplaceStudent(k, s);
    r := Success(200, ResetDone);
  }

  method ResetAuthority(db: Db, email: string, otp: string, password: string, now: Time)
    returns (r: Response<string>)
    requires db.Valid()
    modifies db`authorities
    ensures db.Valid()
    ensures AuthorityResetMatch(old(db.authorities), email, otp, now).None? ==>
              r == Failure(400, InvalidOtp) && db.authorities == old(db.authorities)
    ensures AuthorityResetMatch(old(db.authorities), email, otp, now).Some? ==>
              var k := AuthorityResetMatch(old(db.authorities), email, otp, now).value;
              && (AC.Acceptable(AuthorityResetDraft(old(db.authorities)[k], password)) ==>
                    r == Success(200, ResetDone) && db.authorities == old(db.authorities)[k := AuthorityAfterReset(old(db.authorities)[k], password)])
              && (!AC.Acceptable(AuthorityResetDraft(old(db.authorities)[k], password)) ==>
                    r == Failure(500, ResetFailed) && db.authorities == old(db.authorities))
  {
    var found := AuthorityResetMatch(db.authorities, email, otp, now);
    if found.None? {
      return Failure(400, InvalidOtp);
    }
    var k := found.value;
    if !AC.Acceptable(AuthorityResetDraft(db.authorities[k], password)) {
      return Failure(500, ResetFailed);
    }
    var a := AM.Save(AuthorityResetDraft(db.authorities[k], password), true);
    db.ReplaceAuthority(k, a);
    r := Success(200, ResetDone);
  }

  method ResetAdmin(db: Db, email: string, otp: string, password: string, now: Time)
    returns (r: Response<string>)
    requires db.Valid()
    modifies db`admins
    ensures db.Valid()
    ensures AdminResetMatch(old(db.admins), email, otp, now).None? ==>
              r == Failure(400, InvalidOtp) && db.admins == old(db.admins)
    ensures AdminResetMatch(old(db.admins), email, otp, now).Some? ==>
              var k := AdminResetMatch(old(db.admins), email, otp, now).value;
              && (AdminAcceptable(AdminResetDraft(old(db.admins)[k], password)) ==>
                    r == Success(200, ResetDone) && db.admins == old(db.admins)[k := AdminAfterReset(old(db.admins)[k], password)])
              && (!AdminAcceptable(AdminResetDraft(old(db.admins)[k], password)) ==>
                    r == Failure(500, ResetFailed) && db.admins == old(db.admins))
  {
    var found := AdminResetMatch(db.admins, email, otp, now);
    if found.None? {
      return Failure(400, InvalidOtp);
    }
    var k := found.value;
    if !AdminAcceptable(AdminResetDraft(db.admins[k], password)) {
      return Failure(500, ResetFailed);
    }
    var a := AdminAfterReset(db.admins[k], password);
    db.ReplaceAdmin(k, a);
    r := Success(200, ResetDone);
  }

  /** `resetPassword`: 400 for a role other than the three; then the
      reset of that role's collection, which succeeds only with a new
      password of at least eight characters; the other collections never
      change. */
  method ResetPassword(db: Db, email: string, otp: string, password: string, role: string, now: Time)
    returns (r: Response<string>)
    requires db.Valid()
    modifies db`students, db`authorities, db`admins
    ensures db.Valid()
    ensures AccountOf(role).None? ==>
              && r == Failure(400, InvalidRole) && db.students == old(db.students)
              && db.authorities == old(db.authorities) && db.admins == old(db.admins)
    ensures r.Success? ==> r == Success(200, ResetDone) && SM.PasswordAcceptable(password)
    ensures role == "student" ==>
              && db.authorities == old(db.authorities) && db.admins == old(db.admins)
              && (r == Failure(400, InvalidOtp) <==> StudentResetMatch(old(db.students), email, otp, now).None?)
              && (r.Success? <==>
                    StudentResetMatch(old(db.students), email, otp, now).Some?
                    && StudentAcceptable(StudentResetDraft(old(db.students)[StudentResetMatch(old(db.students), email, otp, now).value], password)))
              && (r.Success? ==>
                    var k := StudentResetMatch(old(db.students), email, otp, now).value;
                    db.students == old(db.students)[k := StudentAfterReset(old(db.students)[k], password)])
              && (r.Failure? ==> db.students == old(db.students))
    ensures role == "authority" ==>
              && db.students == old(db.students) && db.admins == old(db.admins)
              && (r == Failure(400, InvalidOtp) <==> AuthorityResetMatch(old(db.authorities), email, otp, now).None?)
              && (r.Success? <==>
                    AuthorityResetMatch(old(db.authorities), email, otp, now).Some?
                    && AC.Acceptable(AuthorityResetDraft(old(db.authorities)[AuthorityResetMatch(old(db.authorities), email, otp, now).value], password)))
              && (r.Success? ==>
                    var k := AuthorityResetMatch(old(db.authorities), email, otp, now).value;
                    db.authorities == old(db.authorities)[k := AuthorityAfterReset(old(db.authorities)[k], password)])
              && (r.Failure? ==> db.authorities == old(db.authorities))
    ensures role == "admin" ==>
              && db.students == old(db.students) && db.authorities == old(db.authorities)
              && (r == Failure(400, InvalidOtp) <==> AdminResetMatch(old(db.admins), email, otp, now).None?)
              && (r.Success? <==>
                    AdminResetMatch(old(db.admins), email, otp, now).Some?
                    && AdminAcceptable(AdminResetDraft(old(db.admins)[AdminResetMatch(old(db.admins), email, otp, now).value], password)))
              && (r.Success? ==>
                    var k := AdminResetMatch(old(db.admins), email, otp, now).value;
                    db.admins == old(db.admins)[k := AdminAfterReset(old(db.admins)[k], password)])
              && (r.Failure? ==> db.admins == old(db.admins))
  {
    var account := AccountOf(role);
    if account.None? {
      return Failure(400, InvalidRole);
    }
    match account.value {
      case StudentAccount => r := ResetStudent(db, email, otp, password, now);
      case AuthorityAccount => r := ResetAuthority(db, email, otp, password, now);
      case AdminAccount => r := ResetAdmin(db, email, otp, password, now);
    }
  }

  /** The fields verification and the reset steps change carry no
      validator, so their `save()` fails exactly when the record as stored
      already broke one (an update that skipped validation, say), or, for
      a reset, when the new password is shorter than eight characters. */
  lemma ResaveRevalidatesStored(s: SM.Student, a: AM.Authority, m: Admin, otp: string, password: string, now: Time)
    ensures SM.Conforms(VerifiedStudent(s)) <==> SM.Conforms(s)
    ensures SM.Conforms(StudentResetOpened(s, otp, now)) <==> SM.Conforms(s)
    ensures StudentAcceptable(StudentResetDraft(s, password)) <==> SM.Conforms(s) && SM.PasswordAcceptable(password)
    ensures AM.Conforms(VerifiedAuthority(a)) <==> AM.Conforms(a)
    ensures AM.Conforms(AuthorityResetOpened(a, otp, now)) <==> AM.Conforms(a)
    ensures AC.Acceptable(AuthorityResetDraft(a, password)) <==> AM.Conforms(a) && SM.PasswordAcceptable(password)
    ensures AdminConforms(AdminResetOpened(m, otp, now)) <==> AdminConforms(m)
    ensures AdminAcceptable(AdminResetDraft(m, password)) <==> AdminConforms(m) && SM.PasswordAcceptable(password)
  {
  }

  /** The reset OTP `forgotPassword` mails opens the reset until it
      expires. */
  lemma ForgotThenReset(students: seq<SM.Student>, email: string, otp: string, now: Time, t: Time)
    requires StudentByEmail(students, email).Some?
    requires now <= t < now + OtpLifetime
    ensures var k := StudentByEmail(students, email).value;
            StudentResetMatch(students[k := StudentResetOpened(students[k], otp, now)], email, otp, t) == Some(k)
  {
    var k := StudentByEmail(students, email).value;
    var s' := students[k := StudentResetOpened(students[k], otp, now)];
    var p := (s: SM.Student) =>
      s.email == SM.EmailKey(email) && OtpOpen(s.resetPasswordToken, s.resetPasswordExpires, otp, t);
    assert forall j :: 0 <= j < k ==> s'[j] == students[j] && students[j].email != SM.EmailKey(email);
    assert p(s'[k]);
    FirstIndexAt(s', p, k);
    assert StudentResetMatch(s', email, otp, t) == FirstIndex(s', p);
  }

  /** After a reset a verified student logs in with the new password and
      with no other, and the reset OTP opens nothing any more. */
  lemma ResetThenLogin(students: seq<SM.Student>, email: string, otp: string, password: string,
                       now: Time, later: Time, entered: string, sign: Claims -> string)
    requires KeysDistinct(students, StudentEmail)
    requires StudentResetMatch(students, email, otp, now).Some?
    requires students[StudentResetMatch(students, email, otp, now).value].isVerified
    ensures var k := StudentResetMatch(students, email, otp, now).value;
            var s' := students[k := StudentAfterReset(students[k], password)];
            && StudentLogin(s', email, password, sign).Success?
            && (StudentLogin(s', email, entered, sign).Success? ==> entered == password)
            && StudentResetMatch(s', email, otp, later).None?
  {
    var k := StudentResetMatch(students, email, otp, now).value;
    var s' := students[k := StudentAfterReset(students[k], password)];
    assert forall j :: 0 <= j < |s'| && j != k ==> s'[j] == students[j];
    assert forall j :: 0 <= j < |s'| && j != k ==> students[j].email != SM.EmailKey(email) by {
      forall j | 0 <= j < |s'| && j != k
        ensures students[j].email != SM.EmailKey(email)
      {
        assert StudentEmail(students[j]) != StudentEmail(students[k]);
      }
    }
    var p := (s: SM.Student) => s.email == SM.EmailKey(email);
    assert p(s'[k]);
    assert StudentByEmail(s', email) == FirstIndex(s', p);
    assert StudentByEmail(s', email) == Some(k);
    if StudentLogin(s', email, entered, sign).Success? {
      HashInjective(entered, password);
    }
  }

  // ---------------------------------------------------------------------
  // checkAuth

  /** The body of `checkAuth` given the role it reads: the account of that
      role with the caller's id, reloaded; 401 for any other role and for
      an id no longer stored. */
  function ReloadAs(role: Option<string>, id: Id, students: seq<SM.Student>,
                    authorities: seq<AM.Authority>, admins: seq<Admin>): (r: Response<User>)
    ensures r.Failure? ==> r.code == 401
    ensures r.Success? ==> r.code == 200 && UserId(r.data) == id
    ensures r == Failure(401, CheckAuthRoleInvalid) <==> role !in {Some("student"), Some("authority"), Some("admin")}
  {
    if role == Some("student") then
      match IndexOfId(students, StudentId, id)
      case Some(i) => Success(200, StudentUser(students[i]))
      case None => Failure(401, UserNotFound)
    else if role == Some("authority") then
      match IndexOfId(authorities, AuthorityId, id)
      case Some(i) => Success(200, AuthorityUser(authorities[i]))
      case None => Failure(401, UserNotFound)
    else if role == Some("admin") then
      match IndexOfId(admins, AdminId, id)
      case Some(i) => Success(200, AdminUser(admins[i]))
      case None => Failure(401, UserNotFound)
    else Failure(401, CheckAuthRoleInvalid)
  }

  /** `checkAuth` as written reads `req.user.role`, which a loaded
      document does not have: every caller is refused. */
  function CheckAuthAsWritten(u: User, students: seq<SM.Student>, authorities: seq<AM.Authority>,
                              admins: seq<Admin>): (r: Response<User>)
    ensures r == Failure(401, CheckAuthRoleInvalid)
  {
    ReloadAs(RoleField(u), UserId(u), students, authorities, admins)
  }

  /** The discrepancy: even a caller the middleware has just admitted is
      answered 401. */
  lemma CheckAuthAsWrittenRefusesAdmitted(h: MW.Headers, roles: MW.Roles, verify: string -> Option<Claims>,
                                          students: seq<SM.Student>, authorities: seq<AM.Authority>,
                                          admins: seq<Admin>)
    requires MW.Authenticate(h, roles, verify, students, authorities, admins).Admitted?
    ensures var u := MW.Authenticate(h, roles, verify, students, authorities, admins).user;
            CheckAuthAsWritten(u, students, authorities, admins).Failure?
  {
  }

  /** `checkAuth` with the role taken from the kind of account the
      middleware loaded. */
  function CheckAuth(u: User, students: seq<SM.Student>, authorities: seq<AM.Authority>,
                     admins: seq<Admin>): (r: Response<User>)
    ensures r.Failure? ==> r == Failure(401, UserNotFound)
    ensures r.Success? ==> r.code == 200 && UserId(r.data) == UserId(u) && MW.KindOf(r.data) == MW.KindOf(u)
  {
    ReloadAs(Some(MW.KindOf(u)), UserId(u), students, authorities, admins)
  }

  /** Corrected, `checkAuth` returns exactly the account the middleware
      admitted. */
  lemma CheckAuthReturnsAdmitted(h: MW.Headers, roles: MW.Roles, verify: string -> Option<Claims>,
                                 students: seq<SM.Student>, authorities: seq<AM.Authority>,
                                 admins: seq<Admin>)
    requires MW.Authenticate(h, roles, verify, students, authorities, admins).Admitted?
    ensures var u := MW.Authenticate(h, roles, verify, students, authorities, admins).user;
            CheckAuth(u, students, authorities, admins) == Success(200, u)
  {
    var c := MW.Decoded(h, verify).value;
    var u := MW.Authenticate(h, roles, verify, students, authorities, admins).user;
    assert MW.LoadUser(c, students, authorities, admins) == Some(u);
    assert c.role == Some(MW.KindOf(u));
  }
}
