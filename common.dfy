/** Values shared by every part of the complaint system: optional fields,
    handler responses, document identifiers, timestamps, bytes and the
    password-hashing stand-in. */
module Common {

  /** A field that may be absent (`undefined`/`null` in the stored document). */
  datatype Option<T> = None | Some(value: T)

  /** What a request handler sends back: an HTTP status code and either the
      payload of a successful reply or the `message` of a failed one. */
  datatype Response<T> = Success(code: nat, data: T) | Failure(code: nat, message: string)

  /** A document's `_id`. */
  type Id = nat

  /** Milliseconds since the epoch, as `Date.now()` returns them. */
  type Time = nat

  newtype byte = x: int | 0 <= x < 256

  const MinHostel: int := 1
  const MaxHostel: int := 13

  /** The `min: 1, max: 13` validators every hostel number carries; like
      all validators other than `required`, they pass an absent value. */
  predicate HostelInRange(h: Option<int>) {
    h.None? || MinHostel <= h.value <= MaxHostel
  }

  /** The payload of a signed JSON Web Token. An absent `role` is a token
      signed without one, such as an account-verification token. */
  datatype Claims = Claims(
    id: Id,
    role: Option<string>,
    designation: Option<string>,
    department: Option<string>,
    hostelNo: Option<int>)

  /** JavaScript truthiness of an optional number: absent and 0 are falsy. */
  predicate TruthyNumber(n: Option<int>) {
    n.Some? && n.value != 0
  }

  /** JavaScript truthiness of an optional string: absent and "" are falsy. */
  predicate TruthyText(s: Option<string>) {
    s.Some? && s.value != ""
  }

  /** The 29 characters a bcrypt hash starts with: version, cost 10 and a
      22-character salt (fixed here). */
  const BcryptHeader: string := "$2a$10$abcdefghijklmnopqrstuv"

  /** bcrypt.hash, modelled as an injective encoding that always lengthens
      its input and, like a real bcrypt hash, is never shorter than the
      header. */
  function Hash(plain: string): (h: string)
    ensures |h| > |plain| && |h| >= |BcryptHeader|
  {
    BcryptHeader + plain
  }

  /** bcrypt.compare(entered, stored). */
  predicate PasswordMatches(entered: string, stored: string) {
    stored == Hash(entered)
  }

  lemma HashInjective(p: string, q: string)
    requires Hash(p) == Hash(q)
    ensures p == q
  {
    assert p == Hash(p)[|BcryptHeader|..];
  }

  /** Hashing an already hashed password yields a value that no password
      matches as its own hash: the entered password never matches a
      double-hashed record. */
  lemma DoubleHashRejectsPassword(p: string)
    ensures !PasswordMatches(p, Hash(Hash(p)))
  {
    assert |Hash(Hash(p))| > |Hash(p)|;
  }
}
