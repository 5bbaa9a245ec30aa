/** The MongoDB database the handlers share: one sequence per collection in
    insertion order, the outgoing mail the handlers hand to the mailer, and
    the source of fresh document ids. `Valid` is what the `_id` index and
    the `unique` indexes of the schemas guarantee. */
module Store {
  import opened Common
  import opened Query
  import CM = ComplaintModel
  import SM = StudentModel
  import AM = AuthorityModel
  import FM = FeedbackModel

  /** An administrator account. Admin.js is not part of this model beyond
      the fields the handlers read and write and its e-mail pattern. */
  datatype Admin = Admin(
    id: Id,
    email: string,
    password: string,
    resetPasswordToken: Option<string>,
    resetPasswordExpires: Option<Time>,
    createdAt: Time)

  predicate AdminConforms(a: Admin) {
    a.email != "" && SM.EmailMatches(a.email)
  }

  /** Validation with the password path loaded or assigned: `required`
      and `minlength: 8` as well. */
  predicate AdminAcceptable(a: Admin) {
    AdminConforms(a) && SM.PasswordAcceptable(a.password)
  }

  /** The payload of the admin's `generateAuthToken`. */
  function AdminClaims(a: Admin): (c: Claims)
    ensures c.id == a.id && c.role == Some("admin")
  {
    Claims(a.id, Some("admin"), None, None, None)
  }

  /** The record the admin's pre('save') hook leaves: a password assigned
      since the last save is replaced by its hash. */
  function AdminHashedOnSave(a: Admin, passwordModified: bool): (r: Admin)
    ensures passwordModified ==> PasswordMatches(a.password, r.password)
    ensures !passwordModified ==> r == a
    ensures r.(password := a.password) == a
  {
    if passwordModified then a.(password := Hash(a.password)) else a
  }

  /** A notice; every field is optional and unvalidated. */
  datatype Notification = Notification(
    id: Id,
    title: Option<string>,
    message: Option<string>,
    hostel: Option<string>,
    pdfUrl: Option<string>,
    createdAt: Time)

  /** `req.user`: the document the authentication middleware loaded. */
  datatype User =
    | StudentUser(student: SM.Student)
    | AuthorityUser(authority: AM.Authority)
    | AdminUser(admin: Admin)

  function UserId(u: User): Id {
    match u
    case StudentUser(s) => s.id
    case AuthorityUser(a) => a.id
    case AdminUser(a) => a.id
  }

  /** `req.user.role`. None of the three schemas has a `role` path, so a
      loaded document never carries one. */
  function RoleField(u: User): (r: Option<string>)
    ensures r.None?
  {
    None
  }

  /** A message handed to the mailer. */
  datatype Mail =
    | OtpMail(to: string, otp: string)
    | VerificationLinkMail(to: string, link: string)
    | ResolvedMail(to: string, complaintToken: Option<string>, remarks: Option<string>)

  // ---------------------------------------------------------------------
  // Keys of the indexes

  function StudentId(s: SM.Student): Id { s.id }
  function StudentEmail(s: SM.Student): string { s.email }
  function StudentRollNo(s: SM.Student): string { s.rollNo }
  function AuthorityId(a: AM.Authority): Id { a.id }
  function AuthorityEmail(a: AM.Authority): string { a.email }
  function AdminId(a: Admin): Id { a.id }
  function AdminEmail(a: Admin): string { a.email }
  function ComplaintId(c: CM.Complaint): Id { c.id }
  function ComplaintToken(c: CM.Complaint): Option<string> { c.token }
  function FeedbackId(f: FM.Feedback): Id { f.id }
  function NotificationId(n: Notification): Id { n.id }

  /** A unique index: no two documents share the key. */
  ghost predicate KeysDistinct<T, K>(s: seq<T>, key: T -> K) {
    forall i, j :: 0 <= i < j < |s| ==> key(s[i]) != key(s[j])
  }

  /** Every id was handed out before `bound`. */
  ghost predicate IdsBelow<T>(s: seq<T>, key: T -> Id, bound: nat) {
    forall i :: 0 <= i < |s| ==> key(s[i]) < bound
  }

  /** Saving `x` would violate the unique index on `key`: a document other
      than the one at `skip` (the document being saved, if already stored)
      has the same key. */
  predicate Clashes<T, K(==)>(s: seq<T>, key: T -> K, x: T, skip: int) {
    exists j :: 0 <= j < |s| && j != skip && key(s[j]) == key(x)
  }

  /** `findById`: the position of the document with id `id`. */
  function IndexOfId<T>(s: seq<T>, key: T -> Id, id: Id): (r: Option<nat>)
    ensures r.Some? ==> r.value < |s| && key(s[r.value]) == id
    ensures r.Some? ==> forall j :: 0 <= j < r.value ==> key(s[j]) != id
    ensures r.None? <==> forall j :: 0 <= j < |s| ==> key(s[j]) != id
  {
    if s == [] then None
    else if key(s[0]) == id then Some(0)
    else
      match IndexOfId(s[1..], key, id)
      case None => None
      case Some(k) => Some(k + 1)
  }

  /** Under a unique index, `findById` finds the only document with that
      id. */
  lemma IndexOfUniqueId<T>(s: seq<T>, key: T -> Id, i: nat)
    requires KeysDistinct(s, key) && i < |s|
    ensures IndexOfId(s, key, key(s[i])) == Some(i)
  {
  }

  lemma AppendKeepsDistinct<T, K>(s: seq<T>, key: T -> K, x: T)
    requires KeysDistinct(s, key) && !Clashes(s, key, x, -1)
    ensures KeysDistinct(s + [x], key)
  {
    forall i, j | 0 <= i < j < |s + [x]|
      ensures key((s + [x])[i]) != key((s + [x])[j])
    {
      if j == |s| {
        assert (s + [x])[i] == s[i];
      }
    }
  }

  lemma ReplaceKeepsDistinct<T, K>(s: seq<T>, key: T -> K, k: nat, x: T)
    requires KeysDistinct(s, key) && k < |s| && !Clashes(s, key, x, k)
    ensures KeysDistinct(s[k := x], key)
  {
  }

  /** Replacing a document by one with the same key keeps the index
      valid. */
  lemma ReplaceSameKey<T, K>(s: seq<T>, key: T -> K, k: nat, x: T)
    requires KeysDistinct(s, key) && k < |s| && key(x) == key(s[k])
    ensures KeysDistinct(s[k := x], key)
  {
  }

  lemma ReplaceSameId<T>(s: seq<T>, key: T -> Id, bound: nat, k: nat, x: T)
    requires IdsBelow(s, key, bound) && k < |s| && key(x) == key(s[k])
    ensures IdsBelow(s[k := x], key, bound)
  {
  }

  lemma AppendKeepsBelow<T>(s: seq<T>, key: T -> Id, x: T, bound: nat, bound': nat)
    requires IdsBelow(s, key, bound) && bound <= bound' && key(x) < bound'
    ensures IdsBelow(s + [x], key, bound')
  {
  }

  /** A fresh id clashes with nothing stored. */
  lemma FreshIdNoClash<T>(s: seq<T>, key: T -> Id, x: T, bound: nat)
    requires IdsBelow(s, key, bound) && key(x) == bound
    ensures !Clashes(s, key, x, -1)
  {
  }

  lemma {:induction false} DeleteKeepsDistinct<T(!new), K>(s: seq<T>, p: T -> bool, key: T -> K)
    requires KeysDistinct(s, key)
    ensures KeysDistinct(DeleteMany(s, p), key)
  {
    if s != [] {
      DeleteKeepsDistinct(s[1..], p, key);
      var rest := DeleteMany(s[1..], p);
      if !p(s[0]) {
        forall j | 0 <= j < |rest|
          ensures key(s[0]) != key(rest[j])
        {
          assert rest[j] in s[1..];
          var m :| 0 <= m < |s[1..]| && s[1..][m] == rest[j];
          assert s[m + 1] == rest[j];
        }
        assert DeleteMany(s, p) == [s[0]] + rest;
      }
    }
  }

  lemma DeleteKeepsBelow<T(!new)>(s: seq<T>, p: T -> bool, key: T -> Id, bound: nat)
    requires IdsBelow(s, key, bound)
    ensures IdsBelow(DeleteMany(s, p), key, bound)
  {
    var r := DeleteMany(s, p);
    forall i | 0 <= i < |r|
      ensures key(r[i]) < bound
    {
      assert r[i] in s;
    }
  }

  // ---------------------------------------------------------------------

  class Db {
    var students: seq<SM.Student>
    var authorities: seq<AM.Authority>
    var admins: seq<Admin>
    var complaints: seq<CM.Complaint>
    var feedback: seq<FM.Feedback>
    var notifications: seq<Notification>
    var outbox: seq<Mail>
    var nextId: nat

    ghost predicate StudentsValid()
      reads this
    {
      IdsBelow(students, StudentId, nextId) && KeysDistinct(students, StudentId)
      && KeysDistinct(students, StudentEmail) && KeysDistinct(students, StudentRollNo)
    }

    ghost predicate AuthoritiesValid()
      reads this
    {
      IdsBelow(authorities, AuthorityId, nextId) && KeysDistinct(authorities, AuthorityId)
      && KeysDistinct(authorities, AuthorityEmail)
    }

    ghost predicate AdminsValid()
      reads this
    {
      IdsBelow(admins, AdminId, nextId) && KeysDistinct(admins, AdminId)
      && KeysDistinct(admins, AdminEmail)
    }

    ghost predicate ComplaintsValid()
      reads this
    {
      IdsBelow(complaints, ComplaintId, nextId) && KeysDistinct(complaints, ComplaintId)
      && KeysDistinct(complaints, ComplaintToken)
    }

    ghost predicate FeedbackValid()
      reads this
    {
      IdsBelow(feedback, FeedbackId, nextId) && KeysDistinct(feedback, FeedbackId)
    }

    ghost predicate NotificationsValid()
      reads this
    {
      IdsBelow(notifications, NotificationId, nextId) && KeysDistinct(notifications, NotificationId)
    }

    /** Ids are unique and were all handed out; e-mails, roll numbers and
        complaint tokens obey their unique indexes. */
    ghost predicate Valid()
      reads this
    {
      StudentsValid() && AuthoritiesValid() && AdminsValid()
      && ComplaintsValid() && FeedbackValid() && NotificationsValid()
    }

    constructor ()
      ensures Valid()
      ensures students == [] && authorities == [] && admins == [] && complaints == []
      ensures feedback == [] && notifications == [] && outbox == [] && nextId == 0
    {
      students, authorities, admins, complaints := [], [], [], [];
      feedback, notifications, outbox, nextId := [], [], [], 0;
    }

    /** Saves `x` over the authority at `k`, keeping its id and e-mail. */
    method ReplaceAuthority(k: nat, x: AM.Authority)
      requires Valid() && k < |authorities|
      requires x.id == authorities[k].id && x.email == authorities[k].email
      modifies this`authorities
      ensures authorities == old(authorities)[k := x]
      ensures Valid()
    {
      ReplaceSameKey(authorities, AuthorityId, k, x);
      ReplaceSameKey(authorities, AuthorityEmail, k, x);
      ReplaceSameId(authorities, AuthorityId, nextId, k, x);
      authorities := authorities[k := x];
    }

    /** Inserts a new authority whose id and e-mail are both unused. */
    method AddAuthority(x: AM.Authority)
      requires Valid() && x.id < nextId
      requires !Clashes(authorities, AuthorityId, x, -1) && !Clashes(authorities, AuthorityEmail, x, -1)
      modifies this`authorities
      ensures authorities == old(authorities) + [x]
      ensures Valid()
    {
      AppendKeepsDistinct(authorities, AuthorityId, x);
      AppendKeepsDistinct(authorities, AuthorityEmail, x);
      AppendKeepsBelow(authorities, AuthorityId, x, nextId, nextId);
      authorities := authorities + [x];
    }

    /** Saves `x` over the student at `k`, keeping its id, e-mail and roll
        number. */
    method ReplaceStudent(k: nat, x: SM.Student)
      requires Valid() && k < |students|
      requires x.id == students[k].id && x.email == students[k].email && x.rollNo == students[k].rollNo
      modifies this`students
      ensures students == old(students)[k := x]
      ensures Valid()
    {
      ReplaceSameKey(students, StudentId, k, x);
      ReplaceSameKey(students, StudentEmail, k, x);
      ReplaceSameKey(students, StudentRollNo, k, x);
      ReplaceSameId(students, StudentId, nextId, k, x);
      students := students[k := x];
    }

    /** Inserts a new student whose id, e-mail and roll number are all
        unused. */
    method AddStudent(x: SM.Student)
      requires Valid() && x.id < nextId
      requires !Clashes(students, StudentId, x, -1) && !Clashes(students, StudentEmail, x, -1)
      requires !Clashes(students, StudentRollNo, x, -1)
      modifies this`students
      ensures students == old(students) + [x]
      ensures Valid()
    {
      AppendKeepsDistinct(students, StudentId, x);
      AppendKeepsDistinct(students, StudentEmail, x);
      AppendKeepsDistinct(students, StudentRollNo, x);
      AppendKeepsBelow(students, StudentId, x, nextId, nextId);
      students := students + [x];
    }

    /** Saves `x` over the administrator at `k`, keeping its id and
        e-mail. */
    method ReplaceAdmin(k: nat, x: Admin)
      requires Valid() && k < |admins|
      requires x.id == admins[k].id && x.email == admins[k].email
      modifies this`admins
      ensures admins == old(admins)[k := x]
      ensures Valid()
    {
      ReplaceSameKey(admins, AdminId, k, x);
      ReplaceSameKey(admins, AdminEmail, k, x);
      ReplaceSameId(admins, AdminId, nextId, k, x);
      admins := admins[k := x];
    }

    /** `findByIdAndUpdate` on a student: the update may change any field
        but the id, and must not clash with another student's e-mail or
        roll number. */
    method UpdateStudent(k: nat, x: SM.Student)
      requires Valid() && k < |students| && x.id == students[k].id
      requires !Clashes(students, StudentEmail, x, k) && !Clashes(students, StudentRollNo, x, k)
      modifies this`students
      ensures students == old(students)[k := x]
      ensures Valid()
    {
      ReplaceSameKey(students, StudentId, k, x);
      ReplaceKeepsDistinct(students, StudentEmail, k, x);
      ReplaceKeepsDistinct(students, StudentRollNo, k, x);
      ReplaceSameId(students, StudentId, nextId, k, x);
      students := students[k := x];
    }

    method UpdateAuthority(k: nat, x: AM.Authority)
      requires Valid() && k < |authorities| && x.id == authorities[k].id
      requires !Clashes(authorities, AuthorityEmail, x, k)
      modifies this`authorities
      ensures authorities == old(authorities)[k := x]
      ensures Valid()
    {
      ReplaceSameKey(authorities, AuthorityId, k, x);
      ReplaceKeepsDistinct(authorities, AuthorityEmail, k, x);
      ReplaceSameId(authorities, AuthorityId, nextId, k, x);
      authorities := authorities[k := x];
    }

    /** `findByIdAndDelete` on a student. */
    method DeleteStudents(p: SM.Student -> bool)
      requires Valid()
      modifies this`students
      ensures students == DeleteMany(old(students), p)
      ensures Valid()
    {
      DeleteKeepsDistinct(students, p, StudentId);
      DeleteKeepsDistinct(students, p, StudentEmail);
      DeleteKeepsDistinct(students, p, StudentRollNo);
      DeleteKeepsBelow(students, p, StudentId, nextId);
      students := DeleteMany(students, p);
    }

    method DeleteAuthorities(p: AM.Authority -> bool)
      requires Valid()
      modifies this`authorities
      ensures authorities == DeleteMany(old(authorities), p)
      ensures Valid()
    {
      DeleteKeepsDistinct(authorities, p, AuthorityId);
      DeleteKeepsDistinct(authorities, p, AuthorityEmail);
      DeleteKeepsBelow(authorities, p, AuthorityId, nextId);
      authorities := DeleteMany(authorities, p);
    }

    /** `Complaint.deleteMany(filter)`. */
    method DeleteComplaints(p: CM.Complaint -> bool)
      requires Valid()
      modifies this`complaints
      ensures complaints == DeleteMany(old(complaints), p)
      ensures Valid()
    {
      DeleteKeepsDistinct(complaints, p, ComplaintId);
      DeleteKeepsDistinct(complaints, p, ComplaintToken);
      DeleteKeepsBelow(complaints, p, ComplaintId, nextId);
      complaints := DeleteMany(complaints, p);
    }

    /** `Feedback.deleteMany(filter)`. */
    method DeleteFeedback(p: FM.Feedback -> bool)
      requires Valid()
      modifies this`feedback
      ensures feedback == DeleteMany(old(feedback), p)
      ensures Valid()
    {
      DeleteKeepsDistinct(feedback, p, FeedbackId);
      DeleteKeepsBelow(feedback, p, FeedbackId, nextId);
      feedback := DeleteMany(feedback, p);
    }

    method DeleteNotifications(p: Notification -> bool)
      requires Valid()
      modifies this`notifications
      ensures notifications == DeleteMany(old(notifications), p)
      ensures Valid()
    {
      DeleteKeepsDistinct(notifications, p, NotificationId);
      DeleteKeepsBelow(notifications, p, NotificationId, nextId);
      notifications := DeleteMany(notifications, p);
    }

    /** Inserts a new feedback record under a fresh id. */
    method AddFeedback(x: FM.Feedback)
      requires Valid() && x.id + 1 == nextId && IdsBelow(feedback, FeedbackId, x.id)
      modifies this`feedback
      ensures feedback == old(feedback) + [x]
      ensures Valid()
    {
      FreshIdNoClash(feedback, FeedbackId, x, x.id);
      AppendKeepsDistinct(feedback, FeedbackId, x);
      AppendKeepsBelow(feedback, FeedbackId, x, nextId, nextId);
      feedback := feedback + [x];
    }

    /** Inserts a new notification under a fresh id. */
    method AddNotification(x: Notification)
      requires Valid() && x.id + 1 == nextId && IdsBelow(notifications, NotificationId, x.id)
      modifies this`notifications
      ensures notifications == old(notifications) + [x]
      ensures Valid()
    {
      FreshIdNoClash(notifications, NotificationId, x, x.id);
      AppendKeepsDistinct(notifications, NotificationId, x);
      AppendKeepsBelow(notifications, NotificationId, x, nextId, nextId);
      notifications := notifications + [x];
    }

    /** A new `ObjectId`. */
    method FreshId() returns (id: Id)
      modifies this`nextId
      ensures id == old(nextId) && nextId == id + 1
    {
      id := nextId;
      nextId := nextId + 1;
    }
  }

  /** Raising the id bound keeps every collection valid. */
  lemma RaiseBound(db: Db, oldBound: nat)
    requires oldBound <= db.nextId
    requires IdsBelow(db.students, StudentId, oldBound) && IdsBelow(db.authorities, AuthorityId, oldBound)
    requires IdsBelow(db.admins, AdminId, oldBound) && IdsBelow(db.complaints, ComplaintId, oldBound)
    requires IdsBelow(db.feedback, FeedbackId, oldBound) && IdsBelow(db.notifications, NotificationId, oldBound)
    ensures IdsBelow(db.students, StudentId, db.nextId) && IdsBelow(db.authorities, AuthorityId, db.nextId)
    ensures IdsBelow(db.admins, AdminId, db.nextId) && IdsBelow(db.complaints, ComplaintId, db.nextId)
    ensures IdsBelow(db.feedback, FeedbackId, db.nextId) && IdsBelow(db.notifications, NotificationId, db.nextId)
  {
  }
}
