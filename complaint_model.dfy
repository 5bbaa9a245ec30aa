/** The Complaint document: its schema constraints, the tracking token
    format, the pre-save hook and the two sort orders the listings use. */
module ComplaintModel {
  import opened Common
  import opened Text
  import opened Sorting
  import opened Query

  const Types: set<string> := {"Hostel", "College", "Network"}

  const SubTypes: set<string> := {
    "Electrical", "Plumbing", "Furniture", "Internet", "Network", "Cleanliness",
    "Fan", "Socket", "Bulb", "Window Glass", "Chair", "Other"
  }

  const Statuses: set<string> := {"Pending", "In Progress", "Resolved", "Rejected"}

  const DefaultStatus: string := "Pending"
  const MaxDescription: nat := 500
  const MaxRemarks: nat := 200

  /** A stored complaint. `kind` is the schema's `type` path. */
  datatype Complaint = Complaint(
    id: Id,
    token: Option<string>,
    student: Id,
    kind: string,
    hostelNo: Option<int>,
    roomNo: Option<string>,
    subType: string,
    description: string,
    status: string,
    assignedTo: Option<Id>,
    remarks: Option<string>,
    createdAt: Time,
    updatedAt: Time)

  /** Every validator of the schema: `required`, `enum`, `min`/`max` and
      `maxlength`. A required string fails when empty; the hostel and room
      are required only for a Hostel complaint. */
  predicate Conforms(c: Complaint) {
    && c.kind in Types
    && HostelInRange(c.hostelNo)
    && (c.kind == "Hostel" ==> c.hostelNo.Some? && TruthyText(c.roomNo))
    && c.subType in SubTypes
    && c.description != "" && |c.description| <= MaxDescription
    && c.status in Statuses
    && (c.remarks.Some? ==> |c.remarks.value| <= MaxRemarks)
  }

  /** Outside Hostel complaints, hostel and room may be present or not. */
  lemma HostelFieldsRequiredOnlyForHostel(c: Complaint)
    requires Conforms(c) && c.kind != "Hostel"
    ensures Conforms(c.(hostelNo := None, roomNo := None))
  {
  }

  /** Network-related, as the controller's checks test it: type Network, or
      subType Network or Internet. */
  predicate NetworkIsh(c: Complaint) {
    c.kind == "Network" || c.subType == "Network" || c.subType == "Internet"
  }

  // ---------------------------------------------------------------------
  // Tracking token

  const TokenPrefix: string := "CMP-"

  /** `CMP-` + the base-36 time in capitals + `-` + three random bytes as
      six capital hex digits. */
  function MintToken(now: Time, rnd: seq<byte>): (t: string)
    requires |rnd| == 3
    ensures |t| >= 12 && t[..4] == TokenPrefix && t[|t| - 7] == '-'
  {
    TokenPrefix + Upper(Radix(now, 36)) + "-" + Upper(Hex(rnd))
  }

  /** Reads a token back into its time and random bytes. */
  function ParseToken(t: string): Option<(Time, seq<byte>)> {
    if |t| < 12 || t[..4] != TokenPrefix || t[|t| - 7] != '-' then None
    else
      match ParseHex(t[|t| - 6..])
      case None => None
      case Some(bs) => Some((RadixValue(t[4..|t| - 7], 36), bs))
  }

  lemma TokenRoundTrip(now: Time, rnd: seq<byte>)
    requires |rnd| == 3
    ensures ParseToken(MintToken(now, rnd)) == Some((now, rnd))
  {
    var m := Upper(Radix(now, 36));
    var h := Upper(Hex(rnd));
    var t := MintToken(now, rnd);
    assert t == TokenPrefix + m + "-" + h;
    assert t[|t| - 6..] == h;
    assert t[4..|t| - 7] == m;
    HexRoundTrip(rnd);
    RadixUpperRoundTrip(now, 36);
  }

  /** Two tokens are equal only when minted at the same millisecond from
      the same random bytes. */
  lemma TokenInjective(n1: Time, r1: seq<byte>, n2: Time, r2: seq<byte>)
    requires |r1| == 3 && |r2| == 3
    requires MintToken(n1, r1) == MintToken(n2, r2)
    ensures n1 == n2 && r1 == r2
  {
    TokenRoundTrip(n1, r1);
    TokenRoundTrip(n2, r2);
  }

  // ---------------------------------------------------------------------
  // Pre-save hook

  /** The document the pre('save') hook leaves: a token is minted only when
      none is set, network complaints lose hostel and room, and the update
      time is stamped. Nothing else changes. */
  function PreSaved(c: Complaint, now: Time, rnd: seq<byte>): (r: Complaint)
    requires |rnd| == 3
    ensures TruthyText(c.token) ==> r.token == c.token
    ensures !TruthyText(c.token) ==> r.token == Some(MintToken(now, rnd))
    ensures (c.kind == "Network" || c.subType == "Network") ==> r.hostelNo.None? && r.roomNo.None?
    ensures !(c.kind == "Network" || c.subType == "Network") ==> r.hostelNo == c.hostelNo && r.roomNo == c.roomNo
    ensures r.updatedAt == now
    ensures r.(token := c.token, hostelNo := c.hostelNo, roomNo := c.roomNo, updatedAt := c.updatedAt) == c
  {
    var c1 := if TruthyText(c.token) then c else c.(token := Some(MintToken(now, rnd)));
    var c2 := if c1.kind == "Network" || c1.subType == "Network" then c1.(hostelNo := None, roomNo := None) else c1;
    c2.(updatedAt := now)
  }

  /** A later save never changes the token an earlier save minted. */
  lemma TokenStable(c: Complaint, n1: Time, r1: seq<byte>, n2: Time, r2: seq<byte>)
    requires |r1| == 3 && |r2| == 3
    ensures PreSaved(PreSaved(c, n1, r1), n2, r2).token == PreSaved(c, n1, r1).token
  {
    var t := PreSaved(c, n1, r1).token;
    assert TruthyText(t) by {
      if !TruthyText(c.token) {
        assert |MintToken(n1, r1)| >= 12;
      }
    }
  }

  /** The hook keeps a valid complaint valid unless it is a Hostel complaint
      with subType Network, whose required hostel and room it removes
      after validation has already passed. */
  lemma PreSaveKeepsConformance(c: Complaint, now: Time, rnd: seq<byte>)
    requires |rnd| == 3 && Conforms(c)
    ensures Conforms(PreSaved(c, now, rnd)) <==> !(c.kind == "Hostel" && c.subType == "Network")
  {
  }

  /** A document whose fields the pre-save hook assigns in place. */
  class ComplaintDoc {
    var record: Complaint

    constructor (c: Complaint)
      ensures record == c
    {
      record := c;
    }

    method PreSave(now: Time, rnd: seq<byte>)
      requires |rnd| == 3
      modifies this
      ensures record == PreSaved(old(record), now, rnd)
    {
      if !TruthyText(record.token) {
        var randomPart := Upper(Hex(rnd));
        record := record.(token := Some(TokenPrefix + Upper(Radix(now, 36)) + "-" + randomPart));
      }
      if record.kind == "Network" || record.subType == "Network" {
        record := record.(hostelNo := None, roomNo := None);
      }
      record := record.(updatedAt := now);
    }
  }

  // ---------------------------------------------------------------------
  // Sort orders

  /** `.sort({ createdAt: -1 })`: `a` may come before `b`. */
  predicate NewestFirst(a: Complaint, b: Complaint) {
    a.createdAt >= b.createdAt
  }

  /** `.sort({ status: 1, createdAt: -1 })`. */
  predicate StatusThenNewest(a: Complaint, b: Complaint) {
    if a.status == b.status then a.createdAt >= b.createdAt else LexLeq(a.status, b.status)
  }

  lemma NewestFirstIsPreorder()
    ensures TotalPreorder(NewestFirst)
  {
  }

  lemma StatusThenNewestIsPreorder()
    ensures TotalPreorder(StatusThenNewest)
  {
    forall a: Complaint, b: Complaint
      ensures StatusThenNewest(a, b) || StatusThenNewest(b, a)
    {
      LexLeqTotal(a.status, b.status);
    }
    forall a: Complaint, b: Complaint, c: Complaint | StatusThenNewest(a, b) && StatusThenNewest(b, c)
      ensures StatusThenNewest(a, c)
    {
      if a.status != b.status && b.status != c.status {
        LexLeqTransitive(a.status, b.status, c.status);
        if a.status == c.status {
          LexLeqAntisymmetric(a.status, b.status);
        }
      }
    }
  }

  /** The complaints sorted newest first. */
  function ByNewest(s: seq<Complaint>): (r: seq<Complaint>)
    ensures multiset(r) == multiset(s)
    ensures Sorted(r, NewestFirst)
  {
    NewestFirstIsPreorder();
    SortBySorted(s, NewestFirst);
    SortBy(s, NewestFirst)
  }

  /** The complaints sorted by status name, then newest first. */
  function ByStatusThenNewest(s: seq<Complaint>): (r: seq<Complaint>)
    ensures multiset(r) == multiset(s)
    ensures Sorted(r, StatusThenNewest)
  {
    StatusThenNewestIsPreorder();
    SortBySorted(s, StatusThenNewest);
    SortBy(s, StatusThenNewest)
  }

  /** `find(filter).sort({ createdAt: -1 })`. */
  function FindNewest(cs: seq<Complaint>, p: Complaint -> bool): (r: seq<Complaint>)
    ensures forall x :: x in r <==> x in cs && p(x)
    ensures multiset(r) == multiset(Find(cs, p))
    ensures Sorted(r, NewestFirst)
  {
    var f := Find(cs, p);
    var r := ByNewest(f);
    assert forall x :: x in r <==> x in multiset(r);
    r
  }

  /** `find(filter).sort({ status: 1, createdAt: -1 })`. */
  function FindByStatus(cs: seq<Complaint>, p: Complaint -> bool): (r: seq<Complaint>)
    ensures forall x :: x in r <==> x in cs && p(x)
    ensures multiset(r) == multiset(Find(cs, p))
    ensures Sorted(r, StatusThenNewest)
  {
    var f := Find(cs, p);
    var r := ByStatusThenNewest(f);
    assert forall x :: x in r <==> x in multiset(r);
    r
  }
}
