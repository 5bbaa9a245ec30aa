/** The Student document: the normalising setters, the validators (the
    BIT Mesra e-mail pattern, the Indian mobile pattern, the session
    pattern, the department list), the password hook and the token
    helpers. */
module StudentModel {
  import opened Common
  import opened Text

  const Departments: set<string> := {
    "Computer Science", "Electrical", "Mechanical", "Civil", "Electronics",
    "Chemical", "Production", "Metallurgy", "Architecture", "Planning",
    "Pharmacy", "Applied Mathematics", "Applied Physics", "Applied Chemistry",
    "Management"
  }

  const MaxName: nat := 50
  const MinPassword: nat := 8
  /** One hour, in milliseconds. */
  const VerificationLifetime: nat := 3600000
  /** Thirty minutes, in milliseconds. */
  const ResetLifetime: nat := 1800000

  datatype Student = Student(
    id: Id,
    name: string,
    rollNo: string,
    email: string,
    mobile: string,
    session: string,
    department: string,
    password: string,
    hostelNo: Option<int>,
    roomNo: Option<string>,
    isVerified: bool,
    verificationToken: Option<string>,
    verificationTokenExpires: Option<Time>,
    resetPasswordToken: Option<string>,
    resetPasswordExpires: Option<Time>,
    createdAt: Time)

  // ---------------------------------------------------------------------
  // Setters. They run on assignment and on query values alike.

  /** `trim: true, lowercase: true` (the e-mail of every account type): the
      input with the white space at both ends removed and every ASCII
      capital lowered. */
  function EmailKey(e: string): (k: string)
    ensures |k| <= |e|
    ensures k == [] || (!IsJsSpace(k[0]) && !IsJsSpace(k[|k| - 1]))
    ensures forall i :: 0 <= i < |k| ==> !IsAsciiUpper(k[i])
  {
    CaseKeepsTrimmed(Trim(e));
    LowerHasNoUpper(Trim(e));
    Lower(Trim(e))
  }

  /** `trim: true, uppercase: true` (the roll number): the input with the
      white space at both ends removed and every ASCII small letter
      raised. */
  function RollNoKey(r: string): (k: string)
    ensures |k| <= |r|
    ensures k == [] || (!IsJsSpace(k[0]) && !IsJsSpace(k[|k| - 1]))
    ensures forall i :: 0 <= i < |k| ==> !IsAsciiLower(k[i])
  {
    CaseKeepsTrimmed(Trim(r));
    UpperHasNoLower(Trim(r));
    Upper(Trim(r))
  }

  /** The stored e-mail is the input's infix between the white space at
      its two ends, lower-cased: only case and the surrounding white space
      change. */
  lemma EmailKeyIsTrimmedLower(e: string)
    ensures exists a, b :: 0 <= a <= b <= |e| && SpaceAround(e, a, b, e[a..b]) && EmailKey(e) == Lower(e[a..b])
  {
    TrimSpans(e);
    var a, b :| SpaceAround(e, a, b, Trim(e));
    assert SpaceAround(e, a, b, e[a..b]);
  }

  /** The stored roll number is the input's trimmed infix, upper-cased. */
  lemma RollNoKeyIsTrimmedUpper(r: string)
    ensures exists a, b :: 0 <= a <= b <= |r| && SpaceAround(r, a, b, r[a..b]) && RollNoKey(r) == Upper(r[a..b])
  {
    TrimSpans(r);
    var a, b :| SpaceAround(r, a, b, Trim(r));
    assert SpaceAround(r, a, b, r[a..b]);
  }

  /** Normalising twice is normalising once, so a stored e-mail is found by
      a query for itself. */
  lemma EmailKeyIdempotent(e: string)
    ensures EmailKey(EmailKey(e)) == EmailKey(e)
  {
    var t := Trim(e);
    if t != [] {
      CaseKeepsSpace(t[0]);
      CaseKeepsSpace(t[|t| - 1]);
    }
    TrimUnchanged(Lower(t));
    LowerIdempotent(t);
  }

  lemma RollNoKeyIdempotent(r: string)
    ensures RollNoKey(RollNoKey(r)) == RollNoKey(r)
  {
    var t := Trim(r);
    if t != [] {
      CaseKeepsSpace(t[0]);
      CaseKeepsSpace(t[|t| - 1]);
    }
    TrimUnchanged(Upper(t));
    UpperIdempotent(t);
  }

  // ---------------------------------------------------------------------
  // /^[\w-\.]+@bitmesra\.ac\.in$/

  const EmailDomain: string := "@bitmesra.ac.in"

  /** The class `[\w-\.]`: word characters, `-` and `.`. */
  predicate IsEmailLocalChar(c: char) {
    IsWordChar(c) || c == '-' || c == '.'
  }

  predicate EmailMatches(e: string) {
    && |e| > |EmailDomain|
    && e[|e| - |EmailDomain|..] == EmailDomain
    && forall i :: 0 <= i < |e| - |EmailDomain| ==> IsEmailLocalChar(e[i])
  }

  /** The pattern read as a language: a non-empty run of local characters
      ending at `k`, then the domain. */
  ghost predicate EmailSplitsAt(e: string, k: int) {
    && 1 <= k <= |e|
    && (forall i :: 0 <= i < k ==> IsEmailLocalChar(e[i]))
    && e[k..] == EmailDomain
  }

  lemma EmailMatchesPattern(e: string)
    ensures EmailMatches(e) <==> exists k :: EmailSplitsAt(e, k)
  {
    if EmailMatches(e) {
      assert EmailSplitsAt(e, |e| - |EmailDomain|);
    }
    if k :| EmailSplitsAt(e, k) {
      assert |e[k..]| == |EmailDomain|;
    }
  }

  // ---------------------------------------------------------------------
  // /^(\+91[\-\s]?)?[0]?(91)?[789]\d{9}$/

  predicate IsSeparator(c: char) {
    c == '-' || IsJsSpace(c)
  }

  /** `(\+91[\-\s]?)?` */
  predicate PlusPart(p: string) {
    p == "" || p == "+91" || (|p| == 4 && p[..3] == "+91" && IsSeparator(p[3]))
  }

  /** `[0]?` */
  predicate ZeroPart(p: string) {
    p == "" || p == "0"
  }

  /** `(91)?` */
  predicate NinetyOnePart(p: string) {
    p == "" || p == "91"
  }

  /** `[789]\d{9}` */
  predicate MobileTail(t: string) {
    |t| == 10 && t[0] in {'7', '8', '9'} && forall i :: 1 <= i < 10 ==> IsDigit(t[i])
  }

  /** The pattern read as a language: the four parts end at `i`, `j`, `k`
      and the end of the string. */
  ghost predicate MobileSplitsAt(s: string, i: int, j: int, k: int) {
    && 0 <= i <= j <= k <= |s|
    && PlusPart(s[..i]) && ZeroPart(s[i..j]) && NinetyOnePart(s[j..k]) && MobileTail(s[k..])
  }

  /** Strips an optional `+91` and the separator after it. */
  function AfterPlus(p: string): (r: string)
    ensures |r| <= |p| && r == p[|p| - |r|..]
  {
    if |p| >= 3 && p[..3] == "+91" then
      if |p| >= 4 && IsSeparator(p[3]) then p[4..] else p[3..]
    else p
  }

  /** Strips an optional leading `0`. */
  function AfterZero(p: string): (r: string)
    ensures |r| <= |p| && r == p[|p| - |r|..]
  {
    if |p| >= 1 && p[0] == '0' then p[1..] else p
  }

  /** A left-to-right matcher: the last ten characters are the number, and
      what precedes them must reduce to `(91)?`. */
  predicate MobileMatches(s: string) {
    |s| >= 10 && MobileTail(s[|s| - 10..]) && NinetyOnePart(AfterZero(AfterPlus(s[..|s| - 10])))
  }

  lemma MobileMatchesPattern(s: string)
    ensures MobileMatches(s) <==> exists i, j, k :: MobileSplitsAt(s, i, j, k)
  {
    if MobileMatches(s) {
      MobileMatchesSplits(s);
    }
    if i, j, k :| MobileSplitsAt(s, i, j, k) {
      MobileSplitsMatch(s, i, j, k);
    }
  }

  lemma MobileMatchesSplits(s: string)
    requires MobileMatches(s)
    ensures exists i, j, k :: MobileSplitsAt(s, i, j, k)
  {
    var k := |s| - 10;
    var p := s[..k];
    var i := PlusPrefix(p);
    var z := ZeroPrefix(p[i..]);
    var j := i + z;
    assert s[..i] == p[..i];
    assert s[i..j] == p[i..][..z];
    assert s[j..k] == p[i..][z..];
    assert MobileSplitsAt(s, i, j, k);
  }

  lemma PlusPrefix(p: string) returns (i: int)
    ensures 0 <= i <= |p| && PlusPart(p[..i]) && AfterPlus(p) == p[i..]
  {
    i := 0;
    if |p| >= 3 && p[..3] == "+91" {
      i := if |p| >= 4 && IsSeparator(p[3]) then 4 else 3;
      assert p[..i][..3] == p[..3];
    }
  }

  lemma ZeroPrefix(q: string) returns (z: int)
    ensures 0 <= z <= |q| && ZeroPart(q[..z]) && AfterZero(q) == q[z..]
  {
    z := 0;
    if |q| >= 1 && q[0] == '0' {
      z := 1;
      assert q[..1] == [q[0]];
    }
  }

  lemma MobileSplitsMatch(s: string, i: int, j: int, k: int)
    requires MobileSplitsAt(s, i, j, k)
    ensures MobileMatches(s)
  {
    assert |s[k..]| == 10;
    var p := s[..k];
    var rest := s[i..k];
    assert rest == s[i..j] + s[j..k];
    assert rest == [] || rest[0] == '0' || rest[0] == '9';
    assert p[i..] == rest;
    assert p[..i] == s[..i];
    assert AfterPlus(p) == rest;
    assert AfterZero(rest) == s[j..k];
  }

  // ---------------------------------------------------------------------
  // /^\d{4}-\d{2}$/

  predicate SessionMatches(s: string) {
    && |s| == 7
    && IsDigit(s[0]) && IsDigit(s[1]) && IsDigit(s[2]) && IsDigit(s[3])
    && s[4] == '-'
    && IsDigit(s[5]) && IsDigit(s[6])
  }

  // ---------------------------------------------------------------------
  // Documents

  /** The schema's validators on the stored (already normalised) fields.
      The password is validated only when it is assigned; see
      `PasswordAcceptable`. */
  predicate Conforms(s: Student) {
    && s.name != "" && |s.name| <= MaxName
    && s.rollNo != ""
    && s.email != "" && EmailMatches(s.email)
    && MobileMatches(s.mobile)
    && SessionMatches(s.session)
    && s.department in Departments
    && HostelInRange(s.hostelNo)
  }

  /** `required` and `minlength: 8`, checked on the plain password before
      the hook hashes it. */
  predicate PasswordAcceptable(p: string) {
    |p| >= MinPassword
  }

  /** `new Student({...})`: setters applied, `isVerified` false, no
      verification or reset token yet. */
  function NewStudent(id: Id, name: string, rollNo: string, email: string, mobile: string,
                      session: string, department: string, password: string, now: Time): (s: Student)
    ensures s.email == EmailKey(email) && s.rollNo == RollNoKey(rollNo) && s.name == Trim(name)
    ensures !s.isVerified && s.verificationToken.None? && s.resetPasswordToken.None?
    ensures s.hostelNo.None? && s.roomNo.None?
  {
    Student(id, Trim(name), RollNoKey(rollNo), EmailKey(email), mobile, session, department,
            password, None, None, false, None, None, None, None, now)
  }

  /** The payload of `generateAuthToken`. */
  function AuthClaims(s: Student): (c: Claims)
    ensures c.id == s.id && c.role == Some("student")
  {
    Claims(s.id, Some("student"), None, None, None)
  }

  /** The payload of the verification and reset tokens: the id alone. */
  function IdClaims(id: Id): (c: Claims)
    ensures c.id == id && c.role.None?
  {
    Claims(id, None, None, None, None)
  }

  /** The record the pre('save') hook leaves: a password assigned since the
      last save is replaced by its hash; nothing else changes. */
  function HashedOnSave(s: Student, passwordModified: bool): (r: Student)
    ensures passwordModified ==> PasswordMatches(s.password, r.password)
    ensures !passwordModified ==> r == s
    ensures r.(password := s.password) == s
  {
    if passwordModified then s.(password := Hash(s.password)) else s
  }

  /** A loaded or new document, with the `isModified('password')` flag. */
  class StudentDoc {
    var record: Student
    var passwordModified: bool

    constructor (s: Student, passwordModified: bool)
      ensures record == s && this.passwordModified == passwordModified
    {
      record := s;
      this.passwordModified := passwordModified;
    }

    method PreSave()
      modifies this
      ensures record == HashedOnSave(old(record), old(passwordModified))
      ensures passwordModified == old(passwordModified)
    {
      if !passwordModified {
        return;
      }
      record := record.(password := Hash(record.password));
    }

    /** `generateVerificationToken`: `sign` stands for `jwt.sign`. */
    method GenerateVerificationToken(sign: Claims -> string, now: Time) returns (token: string)
      modifies this
      ensures token == sign(IdClaims(old(record).id))
      ensures record == old(record).(verificationToken := Some(token),
                                     verificationTokenExpires := Some(now + VerificationLifetime))
      ensures passwordModified == old(passwordModified)
    {
      token := sign(IdClaims(record.id));
      record := record.(verificationToken := Some(token));
      record := record.(verificationTokenExpires := Some(now + VerificationLifetime));
    }

    /** `generatePasswordResetToken`. */
    method GeneratePasswordResetToken(sign: Claims -> string, now: Time) returns (token: string)
      modifies this
      ensures token == sign(IdClaims(old(record).id))
      ensures record == old(record).(resetPasswordToken := Some(token),
                                     resetPasswordExpires := Some(now + ResetLifetime))
      ensures passwordModified == old(passwordModified)
    {
      token := sign(IdClaims(record.id));
      record := record.(resetPasswordToken := Some(token));
      record := record.(resetPasswordExpires := Some(now + ResetLifetime));
    }
  }

  /** `save()`: the stored record is what the hook leaves. On a new
      document every path counts as modified, the password included. */
  method Save(s: Student, passwordModified: bool) returns (saved: Student)
    ensures saved == HashedOnSave(s, passwordModified)
  {
    var doc := new StudentDoc(s, passwordModified);
    doc.PreSave();
    saved := doc.record;
  }
}
