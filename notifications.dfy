/** The notice board mounted at `/api/notifications`: posting a notice
    with an optional PDF, listing the notices of one hostel together with
    those addressed to all, and deleting a notice. No route of this router
    authenticates its caller. */
module Notifications {
  import opened Common
  import opened Text
  import opened Query
  import opened Sorting
  import opened Routing
  import opened Store
  import opened AuthMiddleware

  const Created: string := "Notification created"
  const Deleted: string := "Deleted"
  const UploadDir: string := "/uploads/"
  /** The `hostel` value that addresses every hostel. */
  const Everyone: string := "all"

  // ---------------------------------------------------------------------
  // The stored file name: `Date.now() + path.extname(originalname)`

  /** The name with its trailing slashes removed. */
  function StripTrailingSlashes(s: string): (r: string)
    ensures |r| <= |s| && r == s[..|r|]
    ensures r == [] || r[|r| - 1] != '/'
    ensures forall i :: |r| <= i < |s| ==> s[i] == '/'
  {
    if s != [] && s[|s| - 1] == '/' then StripTrailingSlashes(s[..|s| - 1]) else s
  }

  /** What follows the last slash. */
  function AfterLastSlash(s: string): (r: string)
    ensures |r| <= |s| && r == s[|s| - |r|..]
    ensures forall i :: 0 <= i < |r| ==> r[i] != '/'
    ensures |r| < |s| ==> s[|s| - |r| - 1] == '/'
  {
    if s == [] || s[|s| - 1] == '/' then []
    else AfterLastSlash(s[..|s| - 1]) + [s[|s| - 1]]
  }

  lemma {:induction false} AfterLastSlashWhole(s: string)
    requires forall i :: 0 <= i < |s| ==> s[i] != '/'
    ensures AfterLastSlash(s) == s
  {
    if s != [] {
      AfterLastSlashWhole(s[..|s| - 1]);
      assert s == s[..|s| - 1] + [s[|s| - 1]];
    }
  }

  /** The last path component, as `path.basename` finds it. */
  function BaseName(name: string): (b: string)
    ensures forall i :: 0 <= i < |b| ==> b[i] != '/'
  {
    AfterLastSlash(StripTrailingSlashes(name))
  }

  /** The position of the last dot. */
  function LastDot(b: string): (r: Option<nat>)
    ensures r.Some? ==> r.value < |b| && b[r.value] == '.'
    ensures r.Some? ==> forall j :: r.value < j < |b| ==> b[j] != '.'
    ensures r.None? <==> forall j :: 0 <= j < |b| ==> b[j] != '.'
  {
    if b == [] then None
    else if b[|b| - 1] == '.' then Some(|b| - 1)
    else LastDot(b[..|b| - 1])
  }

  /** The extension of a base name: from its last dot to its end, except
      that a dot that starts the name (`.env`) and the name `..` give no
      extension. */
  function ExtOfBase(b: string): (e: string)
    ensures e == [] || (e[0] == '.' && forall j :: 0 < j < |e| ==> e[j] != '.')
    ensures forall j :: 0 <= j < |e| ==> e[j] in b
  {
    match LastDot(b)
    case None => []
    case Some(i) => if i == 0 || b == ".." then [] else b[i..]
  }

  /** `path.extname`. */
  function ExtName(name: string): (e: string)
    ensures e == [] || (e[0] == '.' && forall j :: 0 < j < |e| ==> e[j] != '.')
    ensures forall j :: 0 <= j < |e| ==> e[j] != '/'
  {
    ExtOfBase(BaseName(name))
  }

  /** A name without slashes is its own base name. */
  lemma BaseOfPlainName(name: string)
    requires forall i :: 0 <= i < |name| ==> name[i] != '/'
    ensures BaseName(name) == name
  {
    if name != [] {
      assert StripTrailingSlashes(name) == name;
    }
    AfterLastSlashWhole(name);
  }

  /** The last dot is the dot with no dot after it. */
  lemma {:induction false} LastDotIs(b: string, k: nat)
    requires k < |b| && b[k] == '.'
    requires forall j :: k < j < |b| ==> b[j] != '.'
    ensures LastDot(b) == Some(k)
  {
    if k < |b| - 1 {
      var init := b[..|b| - 1];
      assert init[k] == b[k];
      LastDotIs(init, k);
    }
  }

  lemma LastDotOfStemAndExt(stem: string, ext: string)
    requires forall i :: 0 <= i < |ext| ==> ext[i] != '.'
    ensures LastDot(stem + "." + ext) == Some(|stem|)
  {
    var name := stem + "." + ext;
    var k := |stem|;
    assert name[k] == '.';
    forall j | k < j < |name|
      ensures name[j] != '.'
    {
      assert name[j] == ext[j - k - 1];
    }
    LastDotIs(name, k);
  }

  /** The extension of `stem.ext` is `.ext` when the stem does not start
      with a dot. */
  lemma ExtNameOfStemAndExt(stem: string, ext: string)
    requires stem != [] && stem[0] != '.'
    requires forall i :: 0 <= i < |stem| ==> stem[i] != '/'
    requires forall i :: 0 <= i < |ext| ==> ext[i] != '/' && ext[i] != '.'
    ensures ExtName(stem + "." + ext) == "." + ext
  {
    var name := stem + "." + ext;
    forall i | 0 <= i < |name|
      ensures name[i] != '/'
    {
      if i < |stem| { assert name[i] == stem[i]; }
      else if i > |stem| { assert name[i] == ext[i - |stem| - 1]; }
    }
    BaseOfPlainName(name);
    LastDotOfStemAndExt(stem, ext);
    assert name != ".." by { assert name[0] == stem[0]; }
    assert name[|stem|..] == "." + ext;
  }

  /** A name without a dot, and a dot-file name, have no extension. */
  lemma NoExtName(x: string)
    requires forall i :: 0 <= i < |x| ==> x[i] != '/' && x[i] != '.'
    ensures ExtName(x) == []
    ensures ExtName("." + x) == []
  {
    BaseOfPlainName(x);
    var d := "." + x;
    forall i | 0 <= i < |d|
      ensures d[i] != '/'
    {
      if i > 0 { assert d[i] == x[i - 1]; }
    }
    BaseOfPlainName(d);
    LastDotOfStemAndExt([], x);
    assert [] + "." + x == d;
  }

  /** The name multer stores an upload under: the upload time in decimal
      followed by the extension of the original name. */
  function StoredFilename(uploadedAt: Time, originalName: string): string {
    Radix(uploadedAt, 10) + ExtName(originalName)
  }

  /** The number of leading decimal digits. */
  function DigitRun(s: string): (k: nat)
    ensures k <= |s|
    ensures forall i :: 0 <= i < k ==> IsDigit(s[i])
    ensures k < |s| ==> !IsDigit(s[k])
  {
    if s == [] || !IsDigit(s[0]) then 0 else 1 + DigitRun(s[1..])
  }

  lemma {:induction false} DigitRunOfDigits(a: string, b: string)
    requires forall i :: 0 <= i < |a| ==> IsDigit(a[i])
    requires b == [] || !IsDigit(b[0])
    ensures DigitRun(a + b) == |a|
  {
    if a != [] {
      assert (a + b)[1..] == a[1..] + b;
      DigitRunOfDigits(a[1..], b);
    } else {
      assert a + b == b;
    }
  }

  /** The stored name splits back into the upload time and the original
      extension: the digits read as the timestamp and the rest is the
      extension. */
  lemma StoredFilenameSplits(uploadedAt: Time, originalName: string)
    ensures var f := StoredFilename(uploadedAt, originalName);
            RadixValue(f[..DigitRun(f)], 10) == uploadedAt
            && f[DigitRun(f)..] == ExtName(originalName)
  {
    var t := Radix(uploadedAt, 10);
    var e := ExtName(originalName);
    assert forall i :: 0 <= i < |t| ==> IsDigit(t[i]) by {
      forall i | 0 <= i < |t| ensures IsDigit(t[i]) {
        assert DigitValue(t[i]) < 10;
      }
    }
    DigitRunOfDigits(t, e);
    var f := t + e;
    assert f[..|t|] == t && f[|t|..] == e;
    RadixRoundTrip(uploadedAt, 10);
  }

  /** `pdfUrl`: the public path of the upload, or null without a file. */
  function PdfUrl(file: Option<string>, uploadedAt: Time): (u: Option<string>)
    ensures u.Some? <==> file.Some?
  {
    match file
    case None => None
    case Some(original) => Some(UploadDir + StoredFilename(uploadedAt, original))
  }

  /** The URL names the upload directory, the upload time and the
      original extension, and nothing else. */
  lemma PdfUrlRoundTrip(original: string, uploadedAt: Time)
    ensures var u := PdfUrl(Some(original), uploadedAt).value;
            var rest := u[|UploadDir|..];
            && u[..|UploadDir|] == UploadDir
            && RadixValue(rest[..DigitRun(rest)], 10) == uploadedAt
            && rest[DigitRun(rest)..] == ExtName(original)
  {
    var f := StoredFilename(uploadedAt, original);
    var u := UploadDir + f;
    assert u[..|UploadDir|] == UploadDir && u[|UploadDir|..] == f;
    StoredFilenameSplits(uploadedAt, original);
  }

  // ---------------------------------------------------------------------
  // The handlers

  /** The multipart body: every field may be absent. */
  datatype NoticeRequest = NoticeRequest(
    title: Option<string>,
    message: Option<string>,
    hostel: Option<string>)

  /** `new Notification({ title, message, hostel, pdfUrl })`. */
  function Notice(id: Id, q: NoticeRequest, file: Option<string>, uploadedAt: Time, now: Time): (n: Notification)
    ensures n.id == id && n.createdAt == now
    ensures n.title == q.title && n.message == q.message && n.hostel == q.hostel
    ensures n.pdfUrl.Some? <==> file.Some?
  {
    Notification(id, q.title, q.message, q.hostel, PdfUrl(file, uploadedAt), now)
  }

  /** `POST /`: every notice is stored, none is validated. `uploadedAt` is
      the clock reading multer took when naming the file, `now` the one
      the document's default took. */
  method Create(db: Db, q: NoticeRequest, file: Option<string>, uploadedAt: Time, now: Time)
    returns (r: Response<string>)
    requires db.Valid()
    modifies db`notifications, db`nextId
    ensures db.Valid()
    ensures r == Success(201, Created)
    ensures db.notifications == old(db.notifications) + [Notice(old(db.nextId), q, file, uploadedAt, now)]
    ensures db.nextId == old(db.nextId) + 1
  {
    var id := db.FreshId();
    RaiseBound(db, id);
    db.AddNotification(Notice(id, q, file, uploadedAt, now));
    r := Success(201, Created);
  }

  predicate NewestFirst(a: Notification, b: Notification) {
    a.createdAt >= b.createdAt
  }

  lemma NewestFirstIsPreorder()
    ensures TotalPreorder(NewestFirst)
  {
  }

  predicate ForHostel(n: Notification, hostel: string) {
    n.hostel == Some(hostel) || n.hostel == Some(Everyone)
  }

  /** `GET /:hostel`: the notices of that hostel and those for all,
      newest first. */
  function ListFor(ns: seq<Notification>, hostel: string): (r: seq<Notification>)
    ensures forall x :: x in r <==> x in ns && (x.hostel == Some(hostel) || x.hostel == Some(Everyone))
    ensures multiset(r) <= multiset(ns)
    ensures Sorted(r, NewestFirst)
  {
    var f := Find(ns, (n: Notification) => ForHostel(n, hostel));
    NewestFirstIsPreorder();
    SortBySorted(f, NewestFirst);
    var r := SortBy(f, NewestFirst);
    assert forall x :: x in r <==> x in multiset(r);
    r
  }

  /** A notice for all reaches every hostel's listing, a notice posted
      without a hostel reaches none, and a hostel's own notice reaches no
      other hostel. */
  lemma ListingReach(ns: seq<Notification>, n: Notification, h: string, other: string)
    requires n in ns && h != other
    ensures n.hostel == Some(Everyone) ==> n in ListFor(ns, h)
    ensures n.hostel.None? ==> n !in ListFor(ns, h)
    ensures n.hostel == Some(h) && h != Everyone && other != Everyone ==> n !in ListFor(ns, other)
  {
    var r := ListFor(ns, h);
    if n.hostel == Some(h) && h != Everyone && other != Everyone {
      assert !ForHostel(n, other);
      assert n !in ListFor(ns, other);
    }
  }

  /** A posted notice shows in the listing of a hostel exactly when it was
      addressed to that hostel or to all. */
  lemma CreatedThenListed(ns: seq<Notification>, id: Id, q: NoticeRequest, file: Option<string>,
                          uploadedAt: Time, now: Time, h: string)
    ensures var n := Notice(id, q, file, uploadedAt, now);
            n in ListFor(ns + [n], h) <==> q.hostel == Some(h) || q.hostel == Some(Everyone)
  {
  }

  /** `DELETE /:id`: removes the notice with that id, and answers success
      whether or not there was one. */
  method DeleteNotice(db: Db, id: Id) returns (r: Response<string>)
    requires db.Valid()
    modifies db`notifications
    ensures db.Valid()
    ensures r == Success(200, Deleted)
    ensures db.notifications == DeleteMany(old(db.notifications), (n: Notification) => n.id == id)
  {
    db.DeleteNotifications((n: Notification) => n.id == id);
    r := Success(200, Deleted);
  }

  /** With an unknown id the delete changes nothing, yet still reports
      success. */
  lemma DeleteUnknownKeepsAll(ns: seq<Notification>, id: Id)
    requires forall i :: 0 <= i < |ns| ==> ns[i].id != id
    ensures DeleteMany(ns, (n: Notification) => n.id == id) == ns
  {
    DeleteNothing(ns, (n: Notification) => n.id == id);
  }

  /** With a known id exactly that notice goes: since ids are unique, every
      other notice remains. */
  lemma DeleteRemovesOne(ns: seq<Notification>, k: nat)
    requires k < |ns| && KeysDistinct(ns, NotificationId)
    ensures var rest := DeleteMany(ns, (n: Notification) => n.id == ns[k].id);
            multiset(rest) + multiset{ns[k]} == multiset(ns)
  {
    var p := (n: Notification) => n.id == ns[k].id;
    forall i | 0 <= i < |ns| && i != k
      ensures !p(ns[i])
    {
      assert NotificationId(ns[i]) != NotificationId(ns[k]);
    }
    FindOnly(ns, p, k);
    FindDeletePartition(ns, p);
  }

  // ---------------------------------------------------------------------
  // The router

  datatype Endpoint = CreateNotice | ListNotices | RemoveNotice

  const Table: seq<Route<Endpoint>> := [
    Route(Post, [], CreateNotice),
    Route(Get, [Param("hostel")], ListNotices),
    Route(Delete, [Param("id")], RemoveNotice)
  ]

  /** No route passes through `authMiddleware`. */
  function Guard(e: Endpoint): (g: Option<Roles>)
    ensures g.None?
  {
    None
  }

  /** Any caller, with or without a token, reaches every handler: the
      table answers each of the three requests and none of them is
      guarded. */
  lemma Unguarded(hostel: string, id: string)
    requires hostel != [] && id != []
    ensures Handler(Table, Post, []) == Some(CreateNotice)
    ensures Handler(Table, Get, [hostel]) == Some(ListNotices)
    ensures Handler(Table, Delete, [id]) == Some(RemoveNotice)
    ensures Guard(CreateNotice).None? && Guard(ListNotices).None? && Guard(RemoveNotice).None?
  {
    assert Matches(Table[0], Post, []);
    FirstMatchWins(Table, Post, [], 0);
    assert [hostel][0] == hostel && [id][0] == id;
    assert Matches(Table[1], Get, [hostel]);
    FirstMatchWins(Table, Get, [hostel], 1);
    assert Matches(Table[2], Delete, [id]);
    FirstMatchWins(Table, Delete, [id], 2);
  }
}
