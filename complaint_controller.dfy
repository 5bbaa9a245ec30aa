/** The complaint handlers: filing a complaint (the network rule, the
    first-match assignment, validation, the pre-save hook and the unique
    token), the listings each kind of caller receives, lookup by token and
    the status update. */
module ComplaintController {
  import opened Common
  import opened Query
  import opened Sorting
  import opened Store
  import opened ComplaintModel
  import AM = AuthorityModel

  const NetworkWithPlace: string := "Network complaints should not include hostel or room number"
  const NotFound: string := "Complaint not found"
  const FilingFailed: string := "Server error while filing complaint"
  const NotYours: string := "Not authorized to access this complaint"

  /** The body of a new complaint, with `hostelNo` already passed through
      `Number`. */
  datatype ComplaintRequest = ComplaintRequest(
    kind: string,
    hostelNo: Option<int>,
    roomNo: Option<string>,
    subType: string,
    description: string)

  /** Network-related as the handler tests the request: type Network, or
      subType Network or Internet. */
  predicate NetworkRequest(q: ComplaintRequest) {
    q.kind == "Network" || q.subType == "Network" || q.subType == "Internet"
  }

  /** The 400 rule: a network-related request with a truthy hostel or room
      number. */
  predicate RejectsPlace(q: ComplaintRequest) {
    NetworkRequest(q) && (TruthyNumber(q.hostelNo) || TruthyText(q.roomNo))
  }

  /** The `findOne` filter of the first assignment rule. */
  predicate InNetworkDepartment(a: AM.Authority) {
    a.department == Some(AM.NetworkDept)
  }

  /** The `findOne` filter of the second assignment rule. */
  predicate ClerkOf(a: AM.Authority, hostelNo: Option<int>) {
    a.designation == AM.HostelClerk && a.hostelNo == hostelNo
  }

  /** The automatic assignment, first match wins: a network-related request
      goes to the first authority of the network department; otherwise a
      Hostel request with a truthy hostel number goes to the first Hostel
      Clerk of that hostel; otherwise nobody. */
  function Assignee(q: ComplaintRequest, authorities: seq<AM.Authority>): (r: Option<Id>)
    ensures NetworkRequest(q) ==>
              (r.None? <==> forall i :: 0 <= i < |authorities| ==> !InNetworkDepartment(authorities[i]))
    ensures NetworkRequest(q) && r.Some? ==>
              exists i :: 0 <= i < |authorities| && InNetworkDepartment(authorities[i]) && authorities[i].id == r.value
                          && forall j :: 0 <= j < i ==> !InNetworkDepartment(authorities[j])
    ensures !NetworkRequest(q) && q.kind == "Hostel" && TruthyNumber(q.hostelNo) ==>
              (r.None? <==> forall i :: 0 <= i < |authorities| ==> !ClerkOf(authorities[i], q.hostelNo))
    ensures !NetworkRequest(q) && r.Some? ==>
              exists i :: 0 <= i < |authorities| && ClerkOf(authorities[i], q.hostelNo) && authorities[i].id == r.value
                          && forall j :: 0 <= j < i ==> !ClerkOf(authorities[j], q.hostelNo)
    ensures !NetworkRequest(q) && !(q.kind == "Hostel" && TruthyNumber(q.hostelNo)) ==> r.None?
  {
    if NetworkRequest(q) then
      match FirstIndex(authorities, InNetworkDepartment)
      case Some(i) => Some(authorities[i].id)
      case None => None
    else if q.kind == "Hostel" && TruthyNumber(q.hostelNo) then
      match FirstIndex(authorities, a => ClerkOf(a, q.hostelNo))
      case Some(i) => Some(authorities[i].id)
      case None => None
    else None
  }

  /** `new Complaint({...})` before it is saved: the caller as student, no
      hostel or room for a Network complaint, the default status and
      timestamps, no token and no remarks. */
  function Draft(id: Id, caller: Id, q: ComplaintRequest, assignee: Option<Id>, now: Time): (c: Complaint)
    ensures c.id == id && c.student == caller && c.kind == q.kind && c.subType == q.subType
    ensures c.description == q.description && c.assignedTo == assignee
    ensures q.kind == "Network" ==> c.hostelNo.None? && c.roomNo.None?
    ensures q.kind != "Network" ==> c.hostelNo == q.hostelNo && c.roomNo == q.roomNo
    ensures c.status == DefaultStatus && c.token.None? && c.remarks.None?
    ensures c.createdAt == now && c.updatedAt == now
  {
    Complaint(id, None, caller, q.kind,
              if q.kind == "Network" then None else q.hostelNo,
              if q.kind == "Network" then None else q.roomNo,
              q.subType, q.description, DefaultStatus, assignee, None, now, now)
  }

  /** The document a successful filing stores. */
  function Filed(id: Id, caller: Id, q: ComplaintRequest, authorities: seq<AM.Authority>,
                 now: Time, rnd: seq<byte>): (c: Complaint)
    requires |rnd| == 3
    ensures c.token == Some(MintToken(now, rnd))
    ensures c.id == id && c.student == caller && c.status == DefaultStatus
    ensures c.assignedTo == Assignee(q, authorities) && c.updatedAt == now
  {
    PreSaved(Draft(id, caller, q, Assignee(q, authorities), now), now, rnd)
  }

  /** `createComplaint`: 400 for a network request with a place, 500 when
      validation or the unique token index refuses the document, otherwise
      the complaint is stored and 201 returns its new token. */
  method CreateComplaint(db: Db, caller: Id, q: ComplaintRequest, now: Time, rnd: seq<byte>)
    returns (r: Response<string>)
    requires |rnd| == 3 && db.Valid()
    modifies db
    ensures db.Valid()
    ensures r == Failure(400, NetworkWithPlace) <==> RejectsPlace(q)
    ensures r.Success? <==>
              !RejectsPlace(q)
              && Conforms(Draft(old(db.nextId), caller, q, Assignee(q, old(db.authorities)), now))
              && !Clashes(old(db.complaints), ComplaintToken, Filed(old(db.nextId), caller, q, old(db.authorities), now, rnd), -1)
    ensures r.Success? ==>
              r.code == 201 && r.data == MintToken(now, rnd)
              && db.complaints == old(db.complaints) + [Filed(old(db.nextId), caller, q, old(db.authorities), now, rnd)]
    ensures r.Failure? ==> r.code in {400, 500} && db.complaints == old(db.complaints)
    ensures db.students == old(db.students) && db.authorities == old(db.authorities) && db.admins == old(db.admins)
    ensures db.feedback == old(db.feedback) && db.notifications == old(db.notifications)
    ensures db.outbox == old(db.outbox) && db.nextId >= old(db.nextId)
  {
    if RejectsPlace(q) {
      return Failure(400, NetworkWithPlace);
    }
    var assignee := Assignee(q, db.authorities);
    var id := db.FreshId();
    RaiseBound(db, id);
    var doc := new ComplaintDoc(Draft(id, caller, q, assignee, now));
    if !Conforms(doc.record) {
      return Failure(500, FilingFailed);
    }
    doc.PreSave(now, rnd);
    if Clashes(db.complaints, ComplaintToken, doc.record, -1) {
      return Failure(500, FilingFailed);
    }
    FreshIdNoClash(db.complaints, ComplaintId, doc.record, id);
    AppendKeepsDistinct(db.complaints, ComplaintId, doc.record);
    AppendKeepsDistinct(db.complaints, ComplaintToken, doc.record);
    AppendKeepsBelow(db.complaints, ComplaintId, doc.record, db.nextId, db.nextId);
    db.complaints := db.complaints + [doc.record];
    r := Success(201, doc.record.token.value);
  }

  // ---------------------------------------------------------------------
  // What filing guarantees

  /** A Warden is never chosen: outside network requests the assignee is
      always a Hostel Clerk of the complaint's own hostel. */
  lemma AssigneeIsClerkOfHostel(q: ComplaintRequest, authorities: seq<AM.Authority>)
    requires !NetworkRequest(q) && Assignee(q, authorities).Some?
    ensures exists i :: 0 <= i < |authorities| && authorities[i].id == Assignee(q, authorities).value
                        && authorities[i].designation == AM.HostelClerk
                        && authorities[i].hostelNo == q.hostelNo && q.kind == "Hostel"
  {
  }

  /** With nobody to assign, a valid request is still filed, unassigned. */
  lemma UnassignedStillFiled(id: Id, caller: Id, q: ComplaintRequest, authorities: seq<AM.Authority>,
                             now: Time, rnd: seq<byte>)
    requires |rnd| == 3 && NetworkRequest(q)
    requires forall i :: 0 <= i < |authorities| ==> !InNetworkDepartment(authorities[i])
    ensures Filed(id, caller, q, authorities, now, rnd).assignedTo.None?
  {
  }

  /** A filed network-related complaint carries no hostel number and no
      truthy room number, whichever of the three tests made it network
      related. */
  lemma FiledNetworkComplaintHasNoPlace(id: Id, caller: Id, q: ComplaintRequest,
                                        authorities: seq<AM.Authority>, now: Time, rnd: seq<byte>)
    requires |rnd| == 3 && NetworkRequest(q) && !RejectsPlace(q)
    requires Conforms(Draft(id, caller, q, Assignee(q, authorities), now))
    ensures Filed(id, caller, q, authorities, now, rnd).hostelNo.None?
    ensures !TruthyText(Filed(id, caller, q, authorities, now, rnd).roomNo)
  {
  }

  /** A Hostel complaint with subType Network can never be filed: its
      hostel number must be falsy to pass the 400 rule and then fails the
      schema. */
  lemma HostelNetworkNeverFiled(id: Id, caller: Id, q: ComplaintRequest,
                                authorities: seq<AM.Authority>, now: Time)
    requires q.kind == "Hostel" && q.subType == "Network" && !RejectsPlace(q)
    ensures !Conforms(Draft(id, caller, q, Assignee(q, authorities), now))
  {
  }

  // ---------------------------------------------------------------------
  // Listings

  /** `getStudentComplaints`: the caller's own complaints, newest first. */
  function StudentComplaints(cs: seq<Complaint>, caller: Id): (r: seq<Complaint>)
    ensures forall x :: x in r <==> x in cs && x.student == caller
    ensures Sorted(r, NewestFirst)
  {
    FindNewest(cs, (c: Complaint) => c.student == caller)
  }

  /** The filter `getAuthorityComplaints` builds: always the caller's own
      assignments, narrowed to network-related ones for the network
      department and to Hostel ones for hostel staff. */
  predicate AuthorityScope(a: AM.Authority, c: Complaint) {
    if a.department == Some(AM.NetworkDept) then c.assignedTo == Some(a.id) && NetworkIsh(c)
    else if AM.IsHostelStaff(a.designation) then c.assignedTo == Some(a.id) && c.kind == "Hostel"
    else c.assignedTo == Some(a.id)
  }

  /** `getAuthorityComplaints`. */
  function AuthorityComplaints(cs: seq<Complaint>, a: AM.Authority): (r: seq<Complaint>)
    ensures forall x :: x in r <==> x in cs && AuthorityScope(a, x)
    ensures Sorted(r, NewestFirst)
  {
    FindNewest(cs, c => AuthorityScope(a, c))
  }

  /** Whatever the caller's kind, this listing shows only complaints
      assigned to the caller. */
  lemma AuthorityComplaintsAreAssigned(cs: seq<Complaint>, a: AM.Authority, x: Complaint)
    requires x in AuthorityComplaints(cs, a)
    ensures x.assignedTo == Some(a.id)
  {
  }

  /** For an authority outside the network department and hostel staff,
      the listing is exactly its assignments. */
  lemma OtherAuthoritySeesAssignments(cs: seq<Complaint>, a: AM.Authority, x: Complaint)
    requires a.department != Some(AM.NetworkDept) && !AM.IsHostelStaff(a.designation)
    requires x in cs
    ensures x in AuthorityComplaints(cs, a) <==> x.assignedTo == Some(a.id)
  {
  }

  /** `getNetworkComplaints`: every network-related complaint, whoever it
      is assigned to, by status and then newest first. */
  function NetworkComplaints(cs: seq<Complaint>): (r: seq<Complaint>)
    ensures forall x :: x in r <==> x in cs && NetworkIsh(x)
    ensures Sorted(r, StatusThenNewest)
  {
    FindByStatus(cs, NetworkIsh)
  }

  /** `getHostelComplaintsByHostelNo`: every Hostel complaint of the
      hostel, whoever it is assigned to, newest first. */
  function HostelComplaintsByHostelNo(cs: seq<Complaint>, hostelNo: Option<int>): (r: seq<Complaint>)
    ensures forall x :: x in r <==> x in cs && x.kind == "Hostel" && x.hostelNo == hostelNo
    ensures Sorted(r, NewestFirst)
  {
    FindNewest(cs, (c: Complaint) => c.kind == "Hostel" && c.hostelNo == hostelNo)
  }

  /** The filter `getAllComplaints` builds from the query string. A truthy
      `hostelNo` (already cast to a number) forces type Hostel and that
      hostel; `type=Network` matches type or subType Network; every other
      parameter, status included, is ignored. */
  predicate AdminFilter(hostelQuery: Option<int>, typeQuery: Option<string>, c: Complaint) {
    && (hostelQuery.Some? ==> c.kind == "Hostel" && c.hostelNo == hostelQuery)
    && (typeQuery == Some("Network") ==> c.kind == "Network" || c.subType == "Network")
  }

  /** `getAllComplaints`. */
  function AllComplaints(cs: seq<Complaint>, hostelQuery: Option<int>, typeQuery: Option<string>): (r: seq<Complaint>)
    ensures forall x :: x in r <==> x in cs && AdminFilter(hostelQuery, typeQuery, x)
    ensures Sorted(r, NewestFirst)
  {
    FindNewest(cs, c => AdminFilter(hostelQuery, typeQuery, c))
  }

  /** Without parameters, or with a type other than Network, the admin
      receives every complaint, each once. */
  lemma AllComplaintsUnfiltered(cs: seq<Complaint>, typeQuery: Option<string>)
    requires typeQuery != Some("Network")
    ensures multiset(AllComplaints(cs, None, typeQuery)) == multiset(cs)
  {
    FindAll(cs, c => AdminFilter(None, typeQuery, c));
  }

  /** The admin's Network listing misses network complaints that are only
      network-related through subType Internet. */
  lemma AdminNetworkListingOmitsInternet(cs: seq<Complaint>, x: Complaint)
    requires x in cs && x.kind != "Network" && x.subType == "Internet"
    ensures NetworkIsh(x) && x !in AllComplaints(cs, None, Some("Network"))
  {
  }

  // ---------------------------------------------------------------------
  // Lookup by token

  /** `findOne({ token })`. */
  function ByToken(cs: seq<Complaint>, token: string): (r: Option<nat>)
    ensures r.Some? ==> r.value < |cs| && cs[r.value].token == Some(token)
    ensures r.Some? ==> forall j :: 0 <= j < r.value ==> cs[j].token != Some(token)
    ensures r.None? <==> forall i :: 0 <= i < |cs| ==> cs[i].token != Some(token)
  {
    FirstIndex(cs, (c: Complaint) => c.token == Some(token))
  }

  /** `getComplaintByToken` as written: the ownership check reads
      `req.user.role`, which no loaded account carries, so after the 404
      every caller receives the complaint. */
  function ComplaintByTokenAsWritten(cs: seq<Complaint>, user: User, token: string): (r: Response<Complaint>)
    ensures r.Failure? <==> ByToken(cs, token).None?
    ensures r.Failure? ==> r.code == 404
    ensures r.Success? ==> r.code == 200 && r.data in cs && r.data.token == Some(token)
  {
    match ByToken(cs, token)
    case None => Failure(404, NotFound)
    case Some(i) =>
      var owner := cs[i].student;
      var forbidden := Failure(403, NotYours);
      if RoleField(user) == Some("student") && owner != UserId(user) then forbidden
      else Success(200, cs[i])
  }

  /** The lookup with the ownership check the handler intends: a student
      who does not own the complaint receives 403; authorities and admins
      are not checked. */
  function ComplaintByToken(cs: seq<Complaint>, user: User, token: string): (r: Response<Complaint>)
    ensures ByToken(cs, token).None? ==> r == Failure(404, NotFound)
    ensures r.Failure? && r.code == 403 <==>
              ByToken(cs, token).Some? && user.StudentUser? && cs[ByToken(cs, token).value].student != UserId(user)
    ensures r.Success? ==> r.code == 200 && r.data in cs && r.data.token == Some(token)
    ensures r.Success? && user.StudentUser? ==> r.data.student == UserId(user)
  {
    match ByToken(cs, token)
    case None => Failure(404, NotFound)
    case Some(i) =>
      if user.StudentUser? && cs[i].student != UserId(user) then Failure(403, NotYours)
      else Success(200, cs[i])
  }

  /** The discrepancy: a student who does not own a stored complaint still
      receives it by its token. */
  lemma StudentReadsOthersComplaint(cs: seq<Complaint>, s: User, token: string)
    requires s.StudentUser? && ByToken(cs, token).Some?
    requires cs[ByToken(cs, token).value].student != UserId(s)
    ensures ComplaintByTokenAsWritten(cs, s, token).Success?
    ensures ComplaintByToken(cs, s, token) == Failure(403, NotYours)
  {
  }

  /** Both lookups agree for every caller who is not a student. */
  lemma LookupsAgreeForStaff(cs: seq<Complaint>, user: User, token: string)
    requires !user.StudentUser?
    ensures ComplaintByToken(cs, user, token) == ComplaintByTokenAsWritten(cs, user, token)
  {
  }

  /** Under the unique token index, the lookup finds the complaint minted
      with that token. */
  lemma ByTokenFindsStored(cs: seq<Complaint>, k: nat)
    requires k < |cs| && KeysDistinct(cs, ComplaintToken) && cs[k].token.Some?
    ensures ByToken(cs, cs[k].token.value) == Some(k)
  {
    var t := cs[k].token.value;
    FirstIndexUnique(cs, (c: Complaint) => c.token == Some(t), k);
  }

  // ---------------------------------------------------------------------
  // Status update

  /** The update `updateComplaintStatus` applies, without validators:
      status and remarks as sent, the caller as assignee, a new update
      time. */
  function StatusUpdated(c: Complaint, status: string, remarks: string, caller: Id, now: Time): (r: Complaint)
    ensures r.status == status && r.remarks == Some(remarks) && r.assignedTo == Some(caller)
    ensures r.updatedAt == now
    ensures r.(status := c.status, remarks := c.remarks, assignedTo := c.assignedTo, updatedAt := c.updatedAt) == c
  {
    c.(status := status, remarks := Some(remarks), assignedTo := Some(caller), updatedAt := now)
  }

  /** No validator runs on the update, so a valid complaint stays valid
      exactly when the new status is one of the four and the remarks fit. */
  lemma StatusUpdateConformance(c: Complaint, status: string, remarks: string, caller: Id, now: Time)
    requires Conforms(c)
    ensures Conforms(StatusUpdated(c, status, remarks, caller, now)) <==>
              status in Statuses && |remarks| <= MaxRemarks
  {
  }

  /** After updating a complaint, an authority outside the network
      department and hostel staff finds it in its own listing. */
  lemma UpdaterListsComplaint(cs: seq<Complaint>, k: nat, a: AM.Authority, status: string,
                              remarks: string, now: Time)
    requires k < |cs| && a.department != Some(AM.NetworkDept) && !AM.IsHostelStaff(a.designation)
    ensures StatusUpdated(cs[k], status, remarks, a.id, now)
            in AuthorityComplaints(cs[k := StatusUpdated(cs[k], status, remarks, a.id, now)], a)
  {
    var u := StatusUpdated(cs[k], status, remarks, a.id, now);
    assert cs[k := u][k] == u;
  }

  /** `updateComplaintStatus` (`findByIdAndUpdate` with `new: true`): 404
      for an unknown id; otherwise only that complaint changes, as
      `StatusUpdated` says. */
  method UpdateComplaintStatus(db: Db, caller: Id, id: Id, status: string, remarks: string, now: Time)
    returns (r: Response<Complaint>)
    requires db.Valid()
    modifies db`complaints
    ensures db.Valid()
    ensures r.Failure? <==> IndexOfId(old(db.complaints), ComplaintId, id).None?
    ensures r.Failure? ==> r == Failure(404, NotFound) && db.complaints == old(db.complaints)
    ensures r.Success? ==>
              var k := IndexOfId(old(db.complaints), ComplaintId, id).value;
              r.code == 200 && r.data == StatusUpdated(old(db.complaints)[k], status, remarks, caller, now)
              && db.complaints == old(db.complaints)[k := r.data]
  {
    var found := IndexOfId(db.complaints, ComplaintId, id);
    if found.None? {
      return Failure(404, NotFound);
    }
    var k := found.value;
    var updated := StatusUpdated(db.complaints[k], status, remarks, caller, now);
    ReplaceSameKey(db.complaints, ComplaintId, k, updated);
    ReplaceSameKey(db.complaints, ComplaintToken, k, updated);
    ReplaceSameId(db.complaints, ComplaintId, db.nextId, k, updated);
    db.complaints := db.complaints[k := updated];
    r := Success(200, updated);
  }
}
