/** String operations the system relies on from JavaScript: character
    classes, ASCII case mapping, `trim`, `split`, `includes`, number-to-text
    conversion (`toString(radix)`, `Buffer.toString('hex')`) and the
    code-point order MongoDB uses to sort strings. */
module Text {
  import opened Common

  predicate IsDigit(c: char) { '0' <= c <= '9' }
  predicate IsAsciiUpper(c: char) { 'A' <= c <= 'Z' }
  predicate IsAsciiLower(c: char) { 'a' <= c <= 'z' }

  /** The characters of the regular-expression class `\w`. */
  predicate IsWordChar(c: char) {
    IsDigit(c) || IsAsciiUpper(c) || IsAsciiLower(c) || c == '_'
  }

  /** JavaScript WhiteSpace and LineTerminator code points: the set that
      `String.prototype.trim` removes and that `\s` matches. */
  predicate IsJsSpace(c: char) {
    c == '\t' || c == '\n' || c == '\U{000B}' || c == '\U{000C}' || c == '\r' || c == ' '
    || c == '\U{00A0}' || c == '\U{1680}' || ('\U{2000}' <= c <= '\U{200A}')
    || c == '\U{2028}' || c == '\U{2029}' || c == '\U{202F}' || c == '\U{205F}'
    || c == '\U{3000}' || c == '\U{FEFF}'
  }

  function ToLowerChar(c: char): char {
    if IsAsciiUpper(c) then (c as int + 32) as char else c
  }

  function ToUpperChar(c: char): char {
    if IsAsciiLower(c) then (c as int - 32) as char else c
  }

  /** `toLowerCase`, restricted to ASCII letters. */
  function Lower(s: string): (r: string)
    ensures |r| == |s|
    ensures forall i :: 0 <= i < |s| ==> r[i] == ToLowerChar(s[i])
  {
    seq(|s|, i requires 0 <= i < |s| => ToLowerChar(s[i]))
  }

  /** `toUpperCase`, restricted to ASCII letters. */
  function Upper(s: string): (r: string)
    ensures |r| == |s|
    ensures forall i :: 0 <= i < |s| ==> r[i] == ToUpperChar(s[i])
  {
    seq(|s|, i requires 0 <= i < |s| => ToUpperChar(s[i]))
  }

  lemma UpperAppend(a: string, b: string)
    ensures Upper(a + b) == Upper(a) + Upper(b)
  {
    assert forall i :: 0 <= i < |a + b| ==> Upper(a + b)[i] == (Upper(a) + Upper(b))[i];
  }

  lemma LowerIdempotent(s: string)
    ensures Lower(Lower(s)) == Lower(s)
  {
  }

  lemma UpperIdempotent(s: string)
    ensures Upper(Upper(s)) == Upper(s)
  {
  }

  /** The result of `toLowerCase` holds no upper-case ASCII letter. */
  lemma LowerHasNoUpper(s: string)
    ensures forall i :: 0 <= i < |s| ==> !IsAsciiUpper(Lower(s)[i])
  {
  }

  /** Every character of `t` is white space. */
  predicate AllSpace(t: string) {
    forall i :: 0 <= i < |t| ==> IsJsSpace(t[i])
  }

  function TrimStart(s: string): (r: string)
    ensures |r| <= |s| && r == s[|s| - |r|..]
    ensures r == [] || !IsJsSpace(r[0])
    ensures AllSpace(s[..|s| - |r|])
  {
    if s != [] && IsJsSpace(s[0]) then TrimStart(s[1..]) else s
  }

  function TrimEnd(s: string): (r: string)
    ensures |r| <= |s| && r == s[..|r|]
    ensures r == [] || !IsJsSpace(r[|r| - 1])
    ensures AllSpace(s[|r|..])
  {
    if s != [] && IsJsSpace(s[|s| - 1]) then TrimEnd(s[..|s| - 1]) else s
  }

  lemma {:induction false} TrimEndKeepsStart(s: string)
    requires s == [] || !IsJsSpace(s[0])
    ensures TrimEnd(s) == [] || !IsJsSpace(TrimEnd(s)[0])
  {
    if s != [] && IsJsSpace(s[|s| - 1]) {
      TrimEndKeepsStart(s[..|s| - 1]);
    }
  }

  /** `r` is `s[a..b]`, and `s` holds only white space outside it. */
  predicate SpaceAround(s: string, a: int, b: int, r: string) {
    0 <= a <= b <= |s| && r == s[a..b] && AllSpace(s[..a]) && AllSpace(s[b..])
  }

  /** `String.prototype.trim`: the infix left after removing the white
      space at both ends. */
  function Trim(s: string): (r: string)
    ensures |r| <= |s|
    ensures r == [] || (!IsJsSpace(r[0]) && !IsJsSpace(r[|r| - 1]))
  {
    TrimEndKeepsStart(TrimStart(s));
    TrimEnd(TrimStart(s))
  }

  /** The trimmed text is an infix of `s` with only white space around
      it. */
  lemma TrimSpans(s: string)
    ensures exists a, b :: SpaceAround(s, a, b, Trim(s))
  {
    var t := TrimStart(s);
    var u := TrimEnd(t);
    var a := |s| - |t|;
    var b := a + |u|;
    assert t == s[a..];
    assert u == t[..|u|];
    assert s[a..b] == u by {
      forall i | 0 <= i < |u| ensures s[a..b][i] == u[i] {
        assert u[i] == t[i] == s[a + i];
      }
    }
    assert AllSpace(s[b..]) by {
      forall i | 0 <= i < |s| - b ensures IsJsSpace(s[b..][i]) {
        assert s[b..][i] == t[|u|..][i];
      }
    }
    assert Trim(s) == u;
    assert SpaceAround(s, a, b, Trim(s));
  }

  /** A string with no white space at either end is its own trim. */
  lemma TrimUnchanged(s: string)
    requires s == [] || (!IsJsSpace(s[0]) && !IsJsSpace(s[|s| - 1]))
    ensures Trim(s) == s
  {
    assert TrimStart(s) == s;
    assert TrimEnd(s) == s;
  }

  lemma TrimIdempotent(s: string)
    ensures Trim(Trim(s)) == Trim(s)
  {
    TrimUnchanged(Trim(s));
  }

  /** Case mapping keeps a string free of white space at its ends. */
  lemma CaseKeepsTrimmed(t: string)
    requires t == [] || (!IsJsSpace(t[0]) && !IsJsSpace(t[|t| - 1]))
    ensures Lower(t) == [] || (!IsJsSpace(Lower(t)[0]) && !IsJsSpace(Lower(t)[|t| - 1]))
    ensures Upper(t) == [] || (!IsJsSpace(Upper(t)[0]) && !IsJsSpace(Upper(t)[|t| - 1]))
  {
    if t != [] {
      CaseKeepsSpace(t[0]);
      CaseKeepsSpace(t[|t| - 1]);
    }
  }

  /** The result of `toUpperCase` holds no lower-case ASCII letter. */
  lemma UpperHasNoLower(s: string)
    ensures forall i :: 0 <= i < |s| ==> !IsAsciiLower(Upper(s)[i])
  {
  }

  /** Case mapping neither creates nor removes white space. */
  lemma CaseKeepsSpace(c: char)
    ensures IsJsSpace(ToLowerChar(c)) == IsJsSpace(c)
    ensures IsJsSpace(ToUpperChar(c)) == IsJsSpace(c)
  {
  }

  predicate StartsWith(s: string, prefix: string) {
    |prefix| <= |s| && s[..|prefix|] == prefix
  }

  /** `String.prototype.includes`: `sub` occurs somewhere in `s`. */
  predicate Includes(s: string, sub: string)
    decreases |s|
  {
    StartsWith(s, sub) || (s != [] && Includes(s[1..], sub))
  }

  /** `sub` occurs in `s` starting at index `i`. */
  predicate OccursAt(s: string, sub: string, i: int) {
    0 <= i <= |s| - |sub| && s[i..i + |sub|] == sub
  }

  lemma {:induction false} IncludesIsOccurrence(s: string, sub: string)
    ensures Includes(s, sub) <==> exists i :: OccursAt(s, sub, i)
    decreases |s|
  {
    if StartsWith(s, sub) {
      assert OccursAt(s, sub, 0);
    }
    if s != [] {
      IncludesIsOccurrence(s[1..], sub);
      if Includes(s[1..], sub) {
        var i :| OccursAt(s[1..], sub, i);
        assert OccursAt(s, sub, i + 1);
      }
      if exists i :: OccursAt(s, sub, i) {
        var i :| OccursAt(s, sub, i);
        if i > 0 {
          assert OccursAt(s[1..], sub, i - 1);
        }
      }
    } else if exists i :: OccursAt(s, sub, i) {
      var i :| OccursAt(s, sub, i);
      assert i == 0 && StartsWith(s, sub);
    }
  }

  /** `s.split(sep)` for a one-character separator. */
  function Split(s: string, sep: char): (parts: seq<string>)
    ensures |parts| >= 1
    ensures forall i :: 0 <= i < |parts| ==> sep !in parts[i]
  {
    if s == [] then [""]
    else
      var rest := Split(s[1..], sep);
      if s[0] == sep then [""] + rest else [[s[0]] + rest[0]] + rest[1..]
  }

  /** `parts.join(sep)`. */
  function Join(parts: seq<string>, sep: char): string
    requires |parts| >= 1
  {
    if |parts| == 1 then parts[0] else parts[0] + [sep] + Join(parts[1..], sep)
  }

  /** Splitting loses nothing: joining the parts with the separator gives
      the original text back. */
  lemma {:induction false} SplitJoin(s: string, sep: char)
    ensures Join(Split(s, sep), sep) == s
  {
    if s != [] {
      var rest := Split(s[1..], sep);
      SplitJoin(s[1..], sep);
      if s[0] == sep {
        assert Split(s, sep) == [""] + rest;
        assert Join(Split(s, sep), sep) == "" + [sep] + Join(rest, sep);
      } else {
        var parts := Split(s, sep);
        assert parts == [[s[0]] + rest[0]] + rest[1..];
        if |rest| == 1 {
          assert Join(parts, sep) == [s[0]] + rest[0];
        } else {
          assert parts[1..] == rest[1..];
          assert Join(parts, sep) == [s[0]] + rest[0] + [sep] + Join(rest[1..], sep);
        }
      }
    }
  }

  /** MongoDB's ascending order on strings (code point by code point, a
      proper prefix first). */
  predicate LexLeq(a: string, b: string)
    decreases |a|
  {
    a == [] || (b != [] && (a[0] < b[0] || (a[0] == b[0] && LexLeq(a[1..], b[1..]))))
  }

  lemma {:induction false} LexLeqTotal(a: string, b: string)
    ensures LexLeq(a, b) || LexLeq(b, a)
    decreases |a|
  {
    if a != [] && b != [] && a[0] == b[0] {
      LexLeqTotal(a[1..], b[1..]);
    }
  }

  lemma {:induction false} LexLeqTransitive(a: string, b: string, c: string)
    requires LexLeq(a, b) && LexLeq(b, c)
    ensures LexLeq(a, c)
    decreases |a|
  {
    if a != [] && a[0] == b[0] && b[0] == c[0] {
      LexLeqTransitive(a[1..], b[1..], c[1..]);
    }
  }

  lemma {:induction false} LexLeqAntisymmetric(a: string, b: string)
    requires LexLeq(a, b) && LexLeq(b, a)
    ensures a == b
    decreases |a|
  {
    if a != [] {
      LexLeqAntisymmetric(a[1..], b[1..]);
      assert a == [a[0]] + a[1..] && b == [b[0]] + b[1..];
    }
  }

  /** The digit for `d` in `Number.prototype.toString(radix)`: 0-9 then a-z. */
  function DigitChar(d: nat): char
    requires d < 36
  {
    if d < 10 then ('0' as int + d) as char else ('a' as int + d - 10) as char
  }

  /** The value of a digit character, in either case; 36 for a non-digit. */
  function DigitValue(c: char): nat {
    if IsDigit(c) then c as int - '0' as int
    else if IsAsciiLower(c) then c as int - 'a' as int + 10
    else if IsAsciiUpper(c) then c as int - 'A' as int + 10
    else 36
  }

  lemma DigitRoundTrip(d: nat)
    requires d < 36
    ensures DigitValue(DigitChar(d)) == d && DigitValue(ToUpperChar(DigitChar(d))) == d
    ensures IsDigit(DigitChar(d)) || IsAsciiLower(DigitChar(d))
  {
  }

  lemma DivMod(n: nat, base: nat)
    requires 2 <= base
    ensures n == base * (n / base) + n % base == (n / base) * base + n % base
    ensures 0 <= n % base < base
    ensures n >= base ==> 1 <= n / base < n
    ensures n < base ==> n / base == 0 && n % base == n
  {
  }

  /** `n.toString(base)` for a non-negative integer: most significant digit
      first, lower-case letters, no leading zero. */
  function Radix(n: nat, base: nat): (s: string)
    requires 2 <= base <= 36
    ensures |s| >= 1
    ensures forall i :: 0 <= i < |s| ==> DigitValue(s[i]) < base
    ensures forall i :: 0 <= i < |s| ==> IsDigit(s[i]) || IsAsciiLower(s[i])
    ensures |s| > 1 ==> s[0] != '0'
    decreases n
  {
    DivMod(n, base);
    DigitRoundTrip(n % base);
    if n < base then [DigitChar(n)] else Radix(n / base, base) + [DigitChar(n % base)]
  }

  /** Reads digits (either case) most significant first. */
  function RadixValue(s: string, base: nat): nat
  {
    if s == [] then 0 else RadixValue(s[..|s| - 1], base) * base + DigitValue(s[|s| - 1])
  }

  /** Reading back the digits `Radix` writes gives the number. */
  lemma {:induction false} RadixRoundTrip(n: nat, base: nat)
    requires 2 <= base <= 36
    ensures RadixValue(Radix(n, base), base) == n
    decreases n
  {
    DivMod(n, base);
    if n >= base {
      var q, r := n / base, n % base;
      assert Radix(n, base) == Radix(q, base) + [DigitChar(r)];
      assert RadixValue(Radix(n, base), base) == q * base + r by {
        RadixRoundTrip(q, base);
        RadixValueSnoc(Radix(q, base), DigitChar(r), base);
        DigitRoundTrip(r);
      }
      assert q * base + r == n;
    } else {
      assert Radix(n, base) == [DigitChar(n)];
      DigitRoundTrip(n);
      assert RadixValue([DigitChar(n)], base) == RadixValue([], base) * base + n;
    }
  }

  lemma RadixValueSnoc(s: string, c: char, base: nat)
    ensures RadixValue(s + [c], base) == RadixValue(s, base) * base + DigitValue(c)
  {
    assert (s + [c])[..|s|] == s;
  }

  /** Upper-casing radix digits does not change the value they spell. */
  lemma {:induction false} RadixValueUpper(s: string, base: nat)
    requires forall i :: 0 <= i < |s| ==> IsDigit(s[i]) || IsAsciiLower(s[i])
    ensures RadixValue(Upper(s), base) == RadixValue(s, base)
  {
    if s != [] {
      var init := s[..|s| - 1];
      assert Upper(s)[..|s| - 1] == Upper(init);
      RadixValueUpper(init, base);
    }
  }

  lemma RadixUpperRoundTrip(n: nat, base: nat)
    requires 2 <= base <= 36
    ensures RadixValue(Upper(Radix(n, base)), base) == n
  {
    RadixValueUpper(Radix(n, base), base);
    RadixRoundTrip(n, base);
  }

  function Pow(b: nat, k: nat): nat {
    if k == 0 then 1 else b * Pow(b, k - 1)
  }

  lemma MulMonotone(a: nat, x: int, y: int)
    requires x <= y
    ensures a * x <= a * y
  {
  }

  /** A number with `k` digits in base `base` is written with exactly `k`
      characters. */
  lemma {:induction false} RadixLength(n: nat, base: nat, k: nat)
    requires 2 <= base <= 36 && k >= 1
    requires Pow(base, k - 1) <= n < Pow(base, k)
    ensures |Radix(n, base)| == k
    decreases k
  {
    DivMod(n, base);
    if k == 1 {
      assert n < base;
    } else {
      var p := Pow(base, k - 2);
      assert Pow(base, k - 1) == base * p;
      assert Pow(base, k) == base * Pow(base, k - 1);
      QuotientBounds(n, base, p, Pow(base, k - 1));
      RadixLength(n / base, base, k - 1);
    }
  }

  /** Dividing by the base keeps a number between the bounds divided by
      the base. */
  lemma QuotientBounds(n: nat, base: nat, lo: nat, hi: nat)
    requires 2 <= base && base * lo <= n < base * hi
    ensures lo <= n / base < hi
  {
    var q := n / base;
    DivMod(n, base);
    if q < lo {
      MulMonotone(base, q, lo - 1);
    }
    if q >= hi {
      MulMonotone(base, hi, q);
    }
  }

  /** The two lower-case hex digits of one byte, zero-padded. */
  function HexByte(b: byte): string {
    [DigitChar(b as nat / 16), DigitChar(b as nat % 16)]
  }

  /** `buffer.toString('hex')`. */
  function Hex(bs: seq<byte>): (s: string)
    ensures |s| == 2 * |bs|
  {
    if bs == [] then "" else HexByte(bs[0]) + Hex(bs[1..])
  }

  /** Decodes pairs of hex digits (either case) back into bytes. */
  function ParseHex(s: string): Option<seq<byte>>
    decreases |s|
  {
    if s == [] then Some([])
    else if |s| < 2 || DigitValue(s[0]) >= 16 || DigitValue(s[1]) >= 16 then None
    else
      match ParseHex(s[2..])
      case None => None
      case Some(rest) => Some([(DigitValue(s[0]) * 16 + DigitValue(s[1])) as byte] + rest)
  }

  lemma {:induction false} HexRoundTrip(bs: seq<byte>)
    ensures ParseHex(Upper(Hex(bs))) == Some(bs)
  {
    if bs != [] {
      var b := bs[0];
      DigitRoundTrip(b as nat / 16);
      DigitRoundTrip(b as nat % 16);
      UpperAppend(HexByte(b), Hex(bs[1..]));
      var u := Upper(Hex(bs));
      assert u[2..] == Upper(Hex(bs[1..]));
      HexRoundTrip(bs[1..]);
      assert bs == [b] + bs[1..];
    }
  }

  /** Upper-casing leaves nothing but digits and capital letters in a
      string of lower-case radix digits. */
  lemma UpperOfRadixDigits(s: string)
    requires forall i :: 0 <= i < |s| ==> IsDigit(s[i]) || IsAsciiLower(s[i])
    ensures forall i :: 0 <= i < |s| ==> IsDigit(Upper(s)[i]) || IsAsciiUpper(Upper(s)[i])
  {
  }
}
