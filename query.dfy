/** The MongoDB operations the handlers use, over a collection held as a
    sequence in insertion (natural) order: `find`, `findOne`,
    `deleteMany` and `countDocuments`. */
module Query {
  import opened Common

  /** `find(filter)`: the documents that match, in collection order. */
  function Find<T(!new)>(s: seq<T>, p: T -> bool): (r: seq<T>)
    ensures |r| <= |s|
    ensures forall x :: x in r <==> x in s && p(x)
    ensures forall i :: 0 <= i < |r| ==> p(r[i])
    ensures multiset(r) <= multiset(s)
  {
    if s == [] then []
    else
      assert s == [s[0]] + s[1..];
      if p(s[0]) then [s[0]] + Find(s[1..], p) else Find(s[1..], p)
  }

  /** A filter every document passes returns the whole collection. */
  lemma {:induction false} FindAll<T(!new)>(s: seq<T>, p: T -> bool)
    requires forall x :: p(x)
    ensures Find(s, p) == s
  {
    if s != [] {
      FindAll(s[1..], p);
      assert s == [s[0]] + s[1..];
    }
  }

  /** Two filters that agree on every document find the same documents in
      the same order. */
  lemma {:induction false} FindSame<T(!new)>(s: seq<T>, p: T -> bool, q: T -> bool)
    requires forall x :: p(x) == q(x)
    ensures Find(s, p) == Find(s, q)
  {
    if s != [] {
      FindSame(s[1..], p, q);
    }
  }

  /** `deleteMany(filter)`: the documents that remain. */
  function DeleteMany<T(!new)>(s: seq<T>, p: T -> bool): (r: seq<T>)
    ensures |r| <= |s|
    ensures forall x :: x in r <==> x in s && !p(x)
    ensures forall i :: 0 <= i < |r| ==> !p(r[i])
  {
    if s == [] then []
    else if p(s[0]) then DeleteMany(s[1..], p)
    else [s[0]] + DeleteMany(s[1..], p)
  }

  /** Every document lands in exactly one of `find(filter)` and what
      `deleteMany(filter)` leaves behind. */
  lemma {:induction false} FindDeletePartition<T(!new)>(s: seq<T>, p: T -> bool)
    ensures multiset(Find(s, p)) + multiset(DeleteMany(s, p)) == multiset(s)
  {
    if s != [] {
      FindDeletePartition(s[1..], p);
      FindDeleteStep(s, p);
      MultisetCons(s);
    }
  }

  /** One step of the partition: the first document goes to exactly one
      side. */
  lemma FindDeleteStep<T(!new)>(s: seq<T>, p: T -> bool)
    requires s != []
    ensures multiset(Find(s, p)) + multiset(DeleteMany(s, p))
            == multiset{s[0]} + multiset(Find(s[1..], p)) + multiset(DeleteMany(s[1..], p))
  {
    var x, t := s[0], s[1..];
    if p(x) {
      assert Find(s, p) == [x] + Find(t, p);
      assert DeleteMany(s, p) == DeleteMany(t, p);
    } else {
      assert Find(s, p) == Find(t, p);
      assert DeleteMany(s, p) == [x] + DeleteMany(t, p);
    }
  }

  /** A sequence's multiset is its head plus its tail's. */
  lemma MultisetCons<T>(s: seq<T>)
    requires s != []
    ensures multiset(s) == multiset{s[0]} + multiset(s[1..])
  {
    assert s == [s[0]] + s[1..];
  }

  /** A filter that matches nothing deletes nothing. */
  lemma {:induction false} DeleteNothing<T(!new)>(s: seq<T>, p: T -> bool)
    requires forall i :: 0 <= i < |s| ==> !p(s[i])
    ensures DeleteMany(s, p) == s
  {
    if s != [] {
      DeleteNothing(s[1..], p);
      assert s == [s[0]] + s[1..];
    }
  }

  /** A filter that matches exactly one document finds just that one. */
  lemma {:induction false} FindOnly<T(!new)>(s: seq<T>, p: T -> bool, k: nat)
    requires k < |s| && p(s[k])
    requires forall i :: 0 <= i < |s| && i != k ==> !p(s[i])
    ensures Find(s, p) == [s[k]]
  {
    if k == 0 {
      FindNone(s[1..], p);
    } else {
      FindOnly(s[1..], p, k - 1);
    }
  }

  lemma {:induction false} FindNone<T(!new)>(s: seq<T>, p: T -> bool)
    requires forall i :: 0 <= i < |s| ==> !p(s[i])
    ensures Find(s, p) == []
  {
    if s != [] {
      FindNone(s[1..], p);
    }
  }

  /** `countDocuments(filter)`. */
  function Count<T(!new)>(s: seq<T>, p: T -> bool): (n: nat)
    ensures n <= |s|
  {
    |Find(s, p)|
  }

  /** When every document passes exactly one of three filters, their
      counts add up to the size of the collection. */
  lemma {:induction false} CountPartition<T(!new)>(s: seq<T>, p: T -> bool, q: T -> bool, r: T -> bool)
    requires forall i :: 0 <= i < |s| ==>
               (p(s[i]) && !q(s[i]) && !r(s[i])) || (!p(s[i]) && q(s[i]) && !r(s[i]))
               || (!p(s[i]) && !q(s[i]) && r(s[i]))
    ensures Count(s, p) + Count(s, q) + Count(s, r) == |s|
  {
    if s != [] {
      CountPartition(s[1..], p, q, r);
    }
  }

  /** The position `findOne(filter)` returns: the first match. */
  function FirstIndex<T>(s: seq<T>, p: T -> bool): (r: Option<nat>)
    ensures r.Some? ==> r.value < |s| && p(s[r.value])
    ensures r.Some? ==> forall j :: 0 <= j < r.value ==> !p(s[j])
    ensures r.None? <==> forall j :: 0 <= j < |s| ==> !p(s[j])
  {
    if s == [] then None
    else if p(s[0]) then Some(0)
    else
      match FirstIndex(s[1..], p)
      case None => None
      case Some(k) => Some(k + 1)
  }

  /** An appended document that matches, after documents that do not, is
      the first match. */
  lemma {:induction false} FirstIndexAppended<T>(s: seq<T>, x: T, p: T -> bool)
    requires forall j :: 0 <= j < |s| ==> !p(s[j])
    requires p(x)
    ensures FirstIndex(s + [x], p) == Some(|s|)
  {
    if s != [] {
      assert (s + [x])[1..] == s[1..] + [x];
      FirstIndexAppended(s[1..], x, p);
    }
  }

  /** A matching document with no match before it is the first match. */
  lemma {:induction false} FirstIndexAt<T>(s: seq<T>, p: T -> bool, k: nat)
    requires k < |s| && p(s[k])
    requires forall j :: 0 <= j < k ==> !p(s[j])
    ensures FirstIndex(s, p) == Some(k)
  {
    if k > 0 {
      FirstIndexAt(s[1..], p, k - 1);
    }
  }

  /** When at most one document can match (a unique key), the first match
      is the only one. */
  lemma FirstIndexUnique<T>(s: seq<T>, p: T -> bool, k: nat)
    requires k < |s| && p(s[k])
    requires forall i, j :: 0 <= i < |s| && 0 <= j < |s| && p(s[i]) && p(s[j]) ==> i == j
    ensures FirstIndex(s, p) == Some(k)
  {
  }
}
