/** The router mounted at `/api/authority`: registration and login are
    open, every other route demands an authority, and `GET /complaints`
    picks one of three listings from the caller's department and
    designation. */
module AuthorityRoutes {
  import opened Common
  import opened Text
  import opened Query
  import opened Routing
  import opened Store
  import opened AuthMiddleware
  import CM = ComplaintModel
  import AM = AuthorityModel
  import SM = StudentModel
  import AC = AuthorityController
  import CR = ComplaintRoutes

  datatype Endpoint =
    | Register       // register
    | Login          // login
    | Complaints     // the inline `/complaints` handler
    | UpdateStatus   // updateComplaintStatus
    | GetProfile     // getProfile
    | UpdateProfile  // updateProfile

  /** The routes in registration order. */
  const Table: seq<Route<Endpoint>> := [
    Route(Post, [Lit("register")], Register),
    Route(Post, [Lit("login")], Login),
    Route(Get, [Lit("complaints")], Complaints),
    Route(Put, [Lit("complaints"), Param("id")], UpdateStatus),
    Route(Get, [Lit("profile")], GetProfile),
    Route(Put, [Lit("profile")], UpdateProfile)
  ]

  /** The `roles` passed to `authMiddleware`, or None where the route has
      no authentication at all. */
  function Guard(e: Endpoint): (g: Option<Roles>)
    ensures g.None? <==> e == Register || e == Login
  {
    match e
    case Register => None
    case Login => None
    case _ => Some(RoleText("authority"))
  }

  /** Every guarded route of this router admits only an authority's
      document. */
  lemma GuardAdmitsOnlyAuthorities(e: Endpoint, h: Headers, verify: string -> Option<Claims>,
                                   students: seq<SM.Student>, authorities: seq<AM.Authority>, admins: seq<Admin>)
    requires Guard(e).Some?
    requires Authenticate(h, Guard(e).value, verify, students, authorities, admins).Admitted?
    ensures Authenticate(h, Guard(e).value, verify, students, authorities, admins).user.AuthorityUser?
  {
    SingleRoleAdmitsOnlyThatRole(h, "authority", verify, students, authorities, admins);
  }

  // ---------------------------------------------------------------------
  // Dispatch

  /** Each route answers its own path and verb, in any letter case of the
      literal segments: no two routes of the table overlap. */
  lemma RegisterRoute(seg: string)
    requires Lower(seg) == "register"
    ensures Handler(Table, Post, [seg]) == Some(Register)
  {
    CR.LowerOfLowercase("register");
    assert [seg][0] == seg;
    assert Table[0].pattern[0] == Lit("register");
    assert Matches(Table[0], Post, [seg]);
    FirstMatchWins(Table, Post, [seg], 0);
  }

  lemma LoginRoute(seg: string)
    requires Lower(seg) == "login"
    ensures Handler(Table, Post, [seg]) == Some(Login)
  {
    CR.LowerOfLowercase("register");
    CR.LowerOfLowercase("login");
    assert |Lower(seg)| == 5;
    assert [seg][0] == seg;
    assert Table[0].pattern[0] == Lit("register") && Table[1].pattern[0] == Lit("login");
    assert !Matches(Table[0], Post, [seg]);
    assert Matches(Table[1], Post, [seg]);
    FirstMatchWins(Table, Post, [seg], 1);
  }

  lemma ComplaintsRoute(seg: string)
    requires Lower(seg) == "complaints"
    ensures Handler(Table, Get, [seg]) == Some(Complaints)
  {
    CR.LowerOfLowercase("complaints");
    assert [seg][0] == seg;
    assert Table[2].pattern[0] == Lit("complaints");
    assert Matches(Table[2], Get, [seg]);
    assert forall j :: 0 <= j < 2 ==> Table[j].verb != Get;
    FirstMatchWins(Table, Get, [seg], 2);
  }

  lemma UpdateStatusRoute(seg: string, id: string)
    requires Lower(seg) == "complaints" && id != []
    ensures Handler(Table, Put, [seg, id]) == Some(UpdateStatus)
  {
    CR.LowerOfLowercase("complaints");
    assert [seg, id][0] == seg && [seg, id][1] == id;
    assert Table[3].pattern[0] == Lit("complaints");
    assert Matches(Table[3], Put, [seg, id]);
    assert forall j :: 0 <= j < 3 ==> Table[j].verb != Put;
    FirstMatchWins(Table, Put, [seg, id], 3);
  }

  /** `/profile` is read with GET and updated with PUT. */
  lemma ProfileRoutes(seg: string)
    requires Lower(seg) == "profile"
    ensures Handler(Table, Get, [seg]) == Some(GetProfile)
    ensures Handler(Table, Put, [seg]) == Some(UpdateProfile)
  {
    CR.LowerOfLowercase("complaints");
    CR.LowerOfLowercase("profile");
    assert |Lower(seg)| == 7;
    assert [seg][0] == seg;
    assert Table[2].pattern[0] == Lit("complaints") && Table[4].pattern[0] == Lit("profile");
    assert Table[5].pattern[0] == Lit("profile");
    assert !Matches(Table[2], Get, [seg]);
    assert Matches(Table[4], Get, [seg]);
    assert forall j :: 0 <= j < 4 && j != 2 ==> Table[j].verb != Get;
    FirstMatchWins(Table, Get, [seg], 4);
    assert Matches(Table[5], Put, [seg]);
    assert forall j :: 0 <= j < 5 && j != 3 ==> Table[j].verb != Put;
    assert |Table[3].pattern| == 2;
    FirstMatchWins(Table, Put, [seg], 5);
  }

  /** An update of a complaint needs its id: `PUT /complaints` alone is
      answered by no route. */
  lemma UpdateNeedsId(seg: string)
    ensures Handler(Table, Put, [seg]) == None || Lower(seg) == "profile"
  {
    if Lower(seg) != "profile" {
      assert [seg][0] == seg;
      assert Table[5].pattern[0] == Lit("profile");
      assert !Matches(Table[5], Put, [seg]);
      assert forall j :: 0 <= j < 6 && j != 5 ==> !Matches(Table[j], Put, [seg]);
    }
  }

  // ---------------------------------------------------------------------
  // The `/complaints` handler

  /** The listing `GET /complaints` returns: `getNetworkComplaints` for
      the network department, `getHostelComplaints` with the caller's own
      hostel for a clerk or warden, `getAssignedComplaints` for anyone
      else. */
  function ComplaintsListing(cs: seq<CM.Complaint>, a: AM.Authority): (r: seq<CM.Complaint>)
    ensures a.department == Some(AM.NetworkDept) ==> r == AC.NetworkComplaints(cs)
    ensures a.department != Some(AM.NetworkDept) && AM.IsHostelStaff(a.designation) ==>
              r == AC.HostelComplaints(cs, a.hostelNo)
    ensures a.department != Some(AM.NetworkDept) && !AM.IsHostelStaff(a.designation) ==>
              r == AC.AssignedComplaints(cs, a)
  {
    if a.department == Some(AM.NetworkDept) then AC.NetworkComplaints(cs)
    else if AM.IsHostelStaff(a.designation) then AC.HostelComplaints(cs, a.hostelNo)
    else AC.AssignedComplaints(cs, a)
  }

  /** The branching of the route repeats the branching inside
      `getAssignedComplaints`: whichever branch is taken, the answer is
      the one `getAssignedComplaints` gives the caller. */
  lemma ComplaintsListingIsAssigned(cs: seq<CM.Complaint>, a: AM.Authority)
    ensures ComplaintsListing(cs, a) == AC.AssignedComplaints(cs, a)
  {
    var scope := (c: CM.Complaint) => AC.AssignedScope(a, c);
    if a.department == Some(AM.NetworkDept) {
      FindSame(cs, (c: CM.Complaint) => c.subType == "Network" || c.subType == "Internet", scope);
    } else if AM.IsHostelStaff(a.designation) {
      FindSame(cs, (c: CM.Complaint) => c.kind == "Hostel" && c.hostelNo == a.hostelNo, scope);
    }
  }

  /** The two routers disagree for an authority outside the network
      department and hostel staff: here it is handed every complaint, the
      complaint router's `/authority` only those assigned to it. */
  lemma RoutersDisagreeForOthers(cs: seq<CM.Complaint>, a: AM.Authority, x: CM.Complaint)
    requires a.department != Some(AM.NetworkDept) && !AM.IsHostelStaff(a.designation)
    requires x in cs && x.assignedTo != Some(a.id)
    ensures x in ComplaintsListing(cs, a)
    ensures x !in CR.AuthorityListing(cs, a)
  {
  }
}
