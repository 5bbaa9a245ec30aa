/** The router mounted at `/api/complaints`: which handler answers which
    request, the role each route demands, and the `/authority` listing that
    picks a handler from the caller's department and designation. */
module ComplaintRoutes {
  import opened Common
  import opened Text
  import opened Routing
  import opened Store
  import opened AuthMiddleware
  import CM = ComplaintModel
  import CC = ComplaintController
  import AM = AuthorityModel
  import SM = StudentModel

  datatype Endpoint =
    | FileComplaint     // createComplaint
    | OwnComplaints     // getStudentComplaints
    | AuthorityView     // the inline `/authority` handler
    | ComplaintByToken  // getComplaintByToken
    | UpdateStatus      // updateComplaintStatus
    | AdminAll          // getAllComplaints
    | AuthorityList     // getAuthorityComplaints

  /** The routes in registration order. */
  const Table: seq<Route<Endpoint>> := [
    Route(Post, [], FileComplaint),
    Route(Get, [Lit("student")], OwnComplaints),
    Route(Get, [Lit("authority")], AuthorityView),
    Route(Get, [Param("token")], ComplaintByToken),
    Route(Put, [Param("id")], UpdateStatus),
    Route(Get, [Lit("admin"), Lit("all")], AdminAll),
    Route(Get, [], AuthorityList)
  ]

  /** The `roles` each route passes to `authMiddleware`. */
  function Guard(e: Endpoint): Roles {
    match e
    case FileComplaint => RoleText("student")
    case OwnComplaints => RoleText("student")
    case AuthorityView => RoleText("authority")
    case ComplaintByToken => RoleList(["student", "authority", "admin"])
    case UpdateStatus => RoleText("authority")
    case AdminAll => RoleText("admin")
    case AuthorityList => RoleText("authority")
  }

  /** Filing and the own listing are for students, the status update and
      the authority listings for authorities, the full listing for admins;
      lookup by token admits any of the three. */
  lemma GuardAdmits(e: Endpoint, h: Headers, verify: string -> Option<Claims>,
                    students: seq<SM.Student>, authorities: seq<AM.Authority>, admins: seq<Admin>)
    requires Authenticate(h, Guard(e), verify, students, authorities, admins).Admitted?
    ensures var u := Authenticate(h, Guard(e), verify, students, authorities, admins).user;
            && (e == FileComplaint || e == OwnComplaints ==> u.StudentUser?)
            && (e == AuthorityView || e == UpdateStatus || e == AuthorityList ==> u.AuthorityUser?)
            && (e == AdminAll ==> u.AdminUser?)
  {
    match e
    case FileComplaint => SingleRoleAdmitsOnlyThatRole(h, "student", verify, students, authorities, admins);
    case OwnComplaints => SingleRoleAdmitsOnlyThatRole(h, "student", verify, students, authorities, admins);
    case AuthorityView => SingleRoleAdmitsOnlyThatRole(h, "authority", verify, students, authorities, admins);
    case UpdateStatus => SingleRoleAdmitsOnlyThatRole(h, "authority", verify, students, authorities, admins);
    case AuthorityList => SingleRoleAdmitsOnlyThatRole(h, "authority", verify, students, authorities, admins);
    case AdminAll => SingleRoleAdmitsOnlyThatRole(h, "admin", verify, students, authorities, admins);
    case ComplaintByToken =>
  }

  /** Any token of a stored account of the three roles passes the lookup
      route's guard. */
  lemma TokenRouteAdmitsEveryRole(h: Headers, verify: string -> Option<Claims>,
                                  students: seq<SM.Student>, authorities: seq<AM.Authority>, admins: seq<Admin>)
    requires Decoded(h, verify).Some?
    requires LoadUser(Decoded(h, verify).value, students, authorities, admins).Some?
    ensures Authenticate(h, Guard(ComplaintByToken), verify, students, authorities, admins).Admitted?
  {
  }

  // ---------------------------------------------------------------------
  // Dispatch

  lemma LowerOfLowercase(s: string)
    requires forall i :: 0 <= i < |s| ==> !IsAsciiUpper(s[i])
    ensures Lower(s) == s
  {
  }

  /** `/authority`, in any letter case, reaches the authority listing and
      is never taken for a token, because it is registered first. */
  lemma AuthorityPathIsNotAToken(seg: string)
    requires Lower(seg) == "authority"
    ensures Handler(Table, Get, [seg]) == Some(AuthorityView)
  {
    LowerOfLowercase("student");
    LowerOfLowercase("authority");
    assert |Lower(seg)| == 9;
    assert !SegmentMatches(Lit("student"), seg);
    assert [seg][0] == seg;
    assert !Matches(Table[0], Get, [seg]) && !Matches(Table[1], Get, [seg]);
    assert Matches(Table[2], Get, [seg]);
    FirstMatchWins(Table, Get, [seg], 2);
  }

  /** Every other single segment is looked up as a token. */
  lemma OtherSegmentIsAToken(seg: string)
    requires seg != [] && Lower(seg) != "student" && Lower(seg) != "authority"
    ensures Handler(Table, Get, [seg]) == Some(ComplaintByToken)
  {
    LowerOfLowercase("student");
    LowerOfLowercase("authority");
    assert !SegmentMatches(Lit("student"), seg);
    assert !SegmentMatches(Lit("authority"), seg);
    assert Table[1].pattern[0] == Lit("student") && Table[2].pattern[0] == Lit("authority");
    assert [seg][0] == seg;
    assert !Matches(Table[1], Get, [seg]) && !Matches(Table[2], Get, [seg]);
    assert Matches(Table[3], Get, [seg]);
    FirstMatchWins(Table, Get, [seg], 3);
  }

  /** A minted tracking token, as its holder types it, reaches the lookup. */
  lemma MintedTokenReachesLookup(now: Time, rnd: seq<byte>)
    requires |rnd| == 3
    ensures Handler(Table, Get, [CM.MintToken(now, rnd)]) == Some(ComplaintByToken)
  {
    var t := CM.MintToken(now, rnd);
    assert t[0] == CM.TokenPrefix[0] == 'C';
    assert Lower(t)[0] == 'c';
    OtherSegmentIsAToken(t);
  }

  /** Filing is `POST /`, the only route of that verb. */
  lemma FilingRoute()
    ensures Handler(Table, Post, []) == Some(FileComplaint)
  {
    assert Matches(Table[0], Post, []);
    FirstMatchWins(Table, Post, [], 0);
  }

  /** `/admin/all` has two segments, so no one-segment route takes it. */
  lemma AdminRoute()
    ensures Handler(Table, Get, ["admin", "all"]) == Some(AdminAll)
  {
    LowerOfLowercase("admin");
    LowerOfLowercase("all");
    assert Matches(Table[5], Get, ["admin", "all"]);
    assert forall j :: 0 <= j < 5 ==> Table[j].verb != Get || |Table[j].pattern| != 2;
    FirstMatchWins(Table, Get, ["admin", "all"], 5);
  }

  /** `PUT /<id>` is the status update, for any non-empty id. */
  lemma UpdateRoute(id: string)
    requires id != []
    ensures Handler(Table, Put, [id]) == Some(UpdateStatus)
  {
    assert Matches(Table[4], Put, [id]);
    assert forall j :: 0 <= j < 4 ==> Table[j].verb != Put;
    FirstMatchWins(Table, Put, [id], 4);
  }

  /** `GET /` is the generic authority listing. */
  lemma RootListingRoute()
    ensures Handler(Table, Get, []) == Some(AuthorityList)
  {
    assert Matches(Table[6], Get, []);
    assert forall j :: 0 <= j < 6 ==> Table[j].verb != Get || |Table[j].pattern| != 0;
    FirstMatchWins(Table, Get, [], 6);
  }

  // ---------------------------------------------------------------------
  // The `/authority` handler

  datatype Branch = NetworkBranch | HostelBranch | GeneralBranch

  /** The department test comes first, then the designation. */
  function BranchOf(a: AM.Authority): (b: Branch)
    ensures b == NetworkBranch <==> a.department == Some(AM.NetworkDept)
    ensures b == HostelBranch <==> a.department != Some(AM.NetworkDept) && AM.IsHostelStaff(a.designation)
  {
    if a.department == Some(AM.NetworkDept) then NetworkBranch
    else if AM.IsHostelStaff(a.designation) then HostelBranch
    else GeneralBranch
  }

  /** The complaints `/authority` returns: all network-related ones for the
      network department, all Hostel ones of its hostel for a clerk or
      warden, whoever they are assigned to; for anyone else, the caller's
      own assignments. */
  function AuthorityListing(cs: seq<CM.Complaint>, a: AM.Authority): (r: seq<CM.Complaint>)
    ensures BranchOf(a) == NetworkBranch ==> forall x :: x in r <==> x in cs && CM.NetworkIsh(x)
    ensures BranchOf(a) == HostelBranch ==>
              forall x :: x in r <==> x in cs && x.kind == "Hostel" && x.hostelNo == a.hostelNo
    ensures BranchOf(a) == GeneralBranch ==> forall x :: x in r <==> x in cs && x.assignedTo == Some(a.id)
  {
    match BranchOf(a)
    case NetworkBranch => CC.NetworkComplaints(cs)
    case HostelBranch => CC.HostelComplaintsByHostelNo(cs, a.hostelNo)
    case GeneralBranch => CC.AuthorityComplaints(cs, a)
  }

  /** A warden or clerk whose record carries the Network department is
      served the network listing, not the hostel one. */
  lemma DepartmentDecidesFirst(cs: seq<CM.Complaint>, a: AM.Authority, x: CM.Complaint)
    requires a.department == Some(AM.NetworkDept) && AM.IsHostelStaff(a.designation)
    requires x in cs && CM.NetworkIsh(x) && x.kind != "Hostel"
    ensures x in AuthorityListing(cs, a)
    ensures x !in CC.HostelComplaintsByHostelNo(cs, a.hostelNo)
  {
  }

  /** Through this route the network department and hostel staff see
      complaints assigned to others, which the handler behind `GET /`
      would hide from them. */
  lemma ViewWiderThanAssignedList(cs: seq<CM.Complaint>, a: AM.Authority, x: CM.Complaint)
    requires x in cs && x.assignedTo != Some(a.id)
    requires BranchOf(a) == NetworkBranch ==> CM.NetworkIsh(x)
    requires BranchOf(a) == HostelBranch ==> x.kind == "Hostel" && x.hostelNo == a.hostelNo
    requires BranchOf(a) != GeneralBranch
    ensures x in AuthorityListing(cs, a)
    ensures x !in CC.AuthorityComplaints(cs, a)
  {
  }
}
