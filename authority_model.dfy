/** The Authority document: designations, the derived department, the
    conditional hostel number, the password hook that also clears the
    hostel of the network department, and the login token payload. */
module AuthorityModel {
  import opened Common
  import opened Text
  import StudentModel

  const HostelClerk: string := "Hostel Clerk"
  const Warden: string := "Warden"
  const NetworkDepartment: string := "Network Department"
  const OtherDesignation: string := "Other"

  const Designations: set<string> := {HostelClerk, Warden, NetworkDepartment, OtherDesignation}

  /** The only value the `department` path admits. */
  const NetworkDept: string := "Network"

  const DefaultProfilePic: string := "default.jpg"

  datatype Authority = Authority(
    id: Id,
    name: string,
    email: string,
    mobile: string,
    designation: string,
    department: Option<string>,
    hostelNo: Option<int>,
    profilePic: string,
    password: string,
    isVerified: bool,
    verificationToken: Option<string>,
    verificationTokenExpires: Option<Time>,
    resetPasswordToken: Option<string>,
    resetPasswordExpires: Option<Time>,
    createdAt: Time)

  predicate IsHostelStaff(designation: string) {
    designation == HostelClerk || designation == Warden
  }

  /** The `default` function of `department`. */
  function DefaultDepartment(designation: string): (d: Option<string>)
    ensures d.Some? <==> designation == NetworkDepartment
    ensures d.Some? ==> d.value == NetworkDept
  {
    if designation == NetworkDepartment then Some(NetworkDept) else None
  }

  /** Every validator of the schema. The hostel number is required for a
      clerk or warden, and its custom validator refuses any value for the
      network department; like `min`/`max`, that validator does not run on
      an absent value. */
  predicate Conforms(a: Authority) {
    && a.name != "" && |a.name| <= StudentModel.MaxName
    && a.email != ""
    && StudentModel.MobileMatches(a.mobile)
    && a.designation in Designations
    && (a.department.None? || a.department == Some(NetworkDept))
    && HostelInRange(a.hostelNo)
    && (IsHostelStaff(a.designation) ==> a.hostelNo.Some?)
    && (a.hostelNo.Some? ==> a.designation != NetworkDepartment)
  }

  /** Which designations may carry a hostel number in a valid record. */
  lemma HostelNoByDesignation(a: Authority)
    requires Conforms(a)
    ensures IsHostelStaff(a.designation) ==> a.hostelNo.Some? && MinHostel <= a.hostelNo.value <= MaxHostel
    ensures a.designation == NetworkDepartment ==> a.hostelNo.None?
  {
  }

  /** `new Authority({...})`: setters applied; an absent department takes
      its default from the designation; not yet verified. */
  function NewAuthority(id: Id, name: string, email: string, mobile: string, designation: string,
                        department: Option<string>, hostelNo: Option<int>, password: string,
                        now: Time): (a: Authority)
    ensures a.email == StudentModel.EmailKey(email) && a.name == Trim(name)
    ensures department.None? ==> a.department == DefaultDepartment(designation)
    ensures department.Some? ==> a.department == department
    ensures a.hostelNo == hostelNo && a.password == password && a.designation == designation
    ensures !a.isVerified && a.verificationToken.None? && a.resetPasswordToken.None?
  {
    Authority(id, Trim(name), StudentModel.EmailKey(email), mobile, designation,
              if department.None? then DefaultDepartment(designation) else department,
              hostelNo, DefaultProfilePic, password, false, None, None, None, None, now)
  }

  /** The record the pre('save') hook leaves. Only when the password was
      assigned does it hash it and, for the network department, drop the
      hostel number; otherwise it returns early and changes nothing. */
  function PreSaved(a: Authority, passwordModified: bool): (r: Authority)
    ensures !passwordModified ==> r == a
    ensures passwordModified ==> PasswordMatches(a.password, r.password)
    ensures passwordModified && a.designation == NetworkDepartment ==> r.hostelNo.None?
    ensures !(passwordModified && a.designation == NetworkDepartment) ==> r.hostelNo == a.hostelNo
    ensures r.(password := a.password, hostelNo := a.hostelNo) == a
  {
    if !passwordModified then a
    else
      var hashed := a.(password := Hash(a.password));
      if a.designation == NetworkDepartment then hashed.(hostelNo := None) else hashed
  }

  /** On a record that passed validation the clearing never changes
      anything: the validator already refused a network-department hostel. */
  lemma PreSaveClearingRedundant(a: Authority, passwordModified: bool)
    requires Conforms(a)
    ensures PreSaved(a, passwordModified).hostelNo == a.hostelNo
  {
  }

  /** The payload of `generateAuthToken`. */
  function AuthClaims(a: Authority): (c: Claims)
    ensures c.id == a.id && c.role == Some("authority")
    ensures c.designation == Some(a.designation) && c.department == a.department
    ensures a.designation == NetworkDepartment ==> c.hostelNo.None?
    ensures a.designation != NetworkDepartment ==> c.hostelNo == a.hostelNo
  {
    Claims(a.id, Some("authority"), Some(a.designation), a.department,
           if a.designation == NetworkDepartment then None else a.hostelNo)
  }

  /** A loaded or new document, with the `isModified('password')` flag. */
  class AuthorityDoc {
    var record: Authority
    var passwordModified: bool

    constructor (a: Authority, passwordModified: bool)
      ensures record == a && this.passwordModified == passwordModified
    {
      record := a;
      this.passwordModified := passwordModified;
    }

    method PreSave()
      modifies this
      ensures record == PreSaved(old(record), old(passwordModified))
      ensures passwordModified == old(passwordModified)
    {
      if !passwordModified {
        return;
      }
      record := record.(password := Hash(record.password));
      if record.designation == NetworkDepartment {
        record := record.(hostelNo := None);
      }
    }
  }

  /** `save()`: the stored record is what the hook leaves. On a new
      document every path counts as modified, the password included. */
  method Save(a: Authority, passwordModified: bool) returns (saved: Authority)
    ensures saved == PreSaved(a, passwordModified)
  {
    var doc := new AuthorityDoc(a, passwordModified);
    doc.PreSave();
    saved := doc.record;
  }
}
