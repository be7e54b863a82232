/**
 * Vocabulary shared by every controller of the backend: optional request
 * fields, the error kinds the handlers throw, JavaScript truthiness and
 * rounding, and the few string operations the handlers rely on.
 */
module Common {

  datatype Option<T> = None | Some(value: T)

  /** The error classes of the backend (HTTP 400, 404, 401) and an uncaught
      failure of the persistence layer, which the error middleware turns into
      HTTP 500. */
  datatype Error = BadRequest | NotFound | Unauthenticated | Internal

  datatype Result<T> = Ok(value: T) | Err(error: Error)

  /** An instant, in milliseconds since the epoch (a JavaScript Date). */
  type Instant = int

  const MsPerMinute: int := 60000
  const MsPerDay: int := 86400000

  /** `if (!x)` on an optional number: absent and 0 are falsy. */
  predicate TruthyInt(o: Option<int>) {
    o.Some? && o.value != 0
  }

  /** `if (!s)` on an optional string: absent and "" are falsy. */
  predicate TruthyString(o: Option<string>) {
    o.Some? && o.value != ""
  }

  /** `if (!x)` on an optional float. */
  predicate TruthyReal(o: Option<real>) {
    o.Some? && o.value != 0.0
  }

  /** JavaScript `Math.round`: the nearest integer, halves rounded up. */
  function Round(x: real): (n: int)
    ensures x - 0.5 < n as real <= x + 0.5
  {
    (x + 0.5).Floor
  }

  /** `Math.round(a / b)` for integers, b > 0, without leaving the integers. */
  function RoundDiv(a: int, b: int): (n: int)
    requires b > 0
    ensures 2 * a - b < 2 * b * n <= 2 * a + b
  {
    (2 * a + b) / (2 * b)
  }

  lemma RoundDivIsRound(a: int, b: int)
    requires b > 0
    ensures RoundDiv(a, b) == Round(a as real / b as real)
  {
    var n := RoundDiv(a, b);
    var br := b as real;
    var x := a as real / br;
    var c := 2.0 * br;
    assert x * br == a as real;
    assert (x - 0.5) * c == (2 * a - b) as real;
    assert (x + 0.5) * c == (2 * a + b) as real;
    assert n as real * c == (2 * b * n) as real;
    ScaledLess(x - 0.5, n as real, c, 2 * a - b, 2 * b * n);
    ScaledAtMost(n as real, x + 0.5, c, 2 * b * n, 2 * a + b);
    RoundUnique(x, n);
  }

  /** Dividing both sides of u < v by the same positive factor. */
  lemma ScaledLess(p: real, q: real, c: real, u: int, v: int)
    requires c > 0.0 && p * c == u as real && q * c == v as real && u < v
    ensures p < q
  {
  }

  lemma ScaledAtMost(p: real, q: real, c: real, u: int, v: int)
    requires c > 0.0 && p * c == u as real && q * c == v as real && u <= v
    ensures p <= q
  {
  }

  /** Round(x) is the only integer in (x - 1/2, x + 1/2]. */
  lemma RoundUnique(x: real, n: int)
    requires x - 0.5 < n as real <= x + 0.5
    ensures Round(x) == n
  {
  }

  /** JavaScript `%` on integers: the remainder takes the sign of the dividend. */
  function JsRem(a: int, b: int): (r: int)
    requires b > 0
    ensures a >= 0 ==> r == a % b
    ensures -b < r < b
  {
    if a >= 0 then a % b else -((-a) % b)
  }

  // ---------------------------------------------------------------------
  // Strings
  // ---------------------------------------------------------------------

  /** The code points that `String.prototype.trim` removes: ECMAScript
      WhiteSpace (tab, vertical tab, form feed, space, no-break space, the
      byte order mark and the space separators) and LineTerminator. */
  predicate IsWhitespace(c: char) {
    c == ' ' || c == '\t' || c == '\n' || c == '\r' || c == '\U{000B}' || c == '\U{000C}'
    || c == '\U{00A0}' || c == '\U{1680}' || ('\U{2000}' <= c <= '\U{200A}')
    || c == '\U{2028}' || c == '\U{2029}' || c == '\U{202F}' || c == '\U{205F}'
    || c == '\U{3000}' || c == '\U{FEFF}'
  }

  function TrimStart(s: string): (r: string)
    ensures |r| <= |s| && r == s[|s| - |r|..]
    ensures r == [] || !IsWhitespace(r[0])
    ensures forall i :: 0 <= i < |s| - |r| ==> IsWhitespace(s[i])
  {
    if s != [] && IsWhitespace(s[0]) then TrimStart(s[1..]) else s
  }

  function TrimEnd(s: string): (r: string)
    ensures |r| <= |s| && r == s[..|r|]
    ensures r == [] || !IsWhitespace(r[|r| - 1])
    ensures forall i :: |r| <= i < |s| ==> IsWhitespace(s[i])
  {
    if s != [] && IsWhitespace(s[|s| - 1]) then TrimEnd(s[..|s| - 1]) else s
  }

  /** `String.prototype.trim`. */
  function Trim(s: string): string {
    TrimEnd(TrimStart(s))
  }

  /** `toLowerCase` on the ASCII letters; other characters are kept. */
  function LowerChar(c: char): char {
    if 'A' <= c <= 'Z' then (c as int + 32) as char else c
  }

  function ToLower(s: string): (r: string)
    ensures |r| == |s|
    ensures forall i :: 0 <= i < |s| ==> r[i] == LowerChar(s[i])
  {
    if s == [] then [] else [LowerChar(s[0])] + ToLower(s[1..])
  }

  /** `String.prototype.includes`: `sub` occurs in `s` at some position. */
  predicate Contains(s: string, sub: string)
    decreases |s|
  {
    sub <= s || (s != [] && Contains(s[1..], sub))
  }

  /** The decimal digits of a natural number, as `String(n)` prints them. */
  function NatToString(n: nat): (s: string)
    ensures |s| >= 1
    ensures forall i :: 0 <= i < |s| ==> '0' <= s[i] <= '9'
  {
    if n < 10 then [Digit(n)] else NatToString(n / 10) + [Digit(n % 10)]
  }

  function Digit(d: nat): (c: char)
    requires d < 10
    ensures '0' <= c <= '9'
  {
    ('0' as int + d) as char
  }

  /** The value of a string of decimal digits: the inverse of NatToString. */
  function ParseNat(s: string): nat
    requires forall i :: 0 <= i < |s| ==> '0' <= s[i] <= '9'
  {
    if s == [] then 0 else 10 * ParseNat(s[..|s| - 1]) + (s[|s| - 1] as int - '0' as int)
  }

  // ---------------------------------------------------------------------
  // Properties of the string operations
  // ---------------------------------------------------------------------

  /** Trimming a trimmed string changes nothing. */
  lemma TrimIdempotent(s: string)
    ensures Trim(Trim(s)) == Trim(s)
  {
    var t := Trim(s);
    var u := TrimStart(s);
    if t != [] {
      assert t[0] == u[0];
      assert TrimStart(t) == t;
    }
  }

  /** A string trims to "" exactly when every character of it is whitespace. */
  lemma TrimEmptyIffBlank(s: string)
    ensures Trim(s) == "" <==> forall i :: 0 <= i < |s| ==> IsWhitespace(s[i])
  {
    var u := TrimStart(s);
    assert Trim(s) == "" ==> u == "";
  }

  predicate NoWhitespace(s: string) {
    forall i :: 0 <= i < |s| ==> !IsWhitespace(s[i])
  }

  /** Joining two words by a space and trimming drops the space exactly when
      one of the words is empty. */
  lemma TrimAroundSpace(h: string, m: string)
    requires NoWhitespace(h) && NoWhitespace(m)
    ensures Trim(h + " " + m) == if h == "" then m else if m == "" then h else h + " " + m
  {
    if h == "" {
      assert h + " " + m == " " + m;
      TrimLeadingSpace(m);
    } else if m == "" {
      assert h + " " + m == h + " ";
      TrimTrailingSpace(h);
    } else {
      var t := h + " " + m;
      assert t[0] == h[0] && t[|t| - 1] == m[|m| - 1];
      Untrimmed(t);
    }
  }

  lemma TrimLeadingSpace(m: string)
    requires NoWhitespace(m)
    ensures Trim(" " + m) == m
  {
    var t := " " + m;
    assert t[0] == ' ' && t[1..] == m;
    assert TrimStart(t) == TrimStart(m);
    Untrimmed(m);
    assert Trim(t) == TrimEnd(m);
  }

  lemma TrimTrailingSpace(h: string)
    requires NoWhitespace(h) && h != ""
    ensures Trim(h + " ") == h
  {
    var t := h + " ";
    assert t[0] == h[0];
    assert TrimStart(t) == t;
    assert t[..|t| - 1] == h;
    assert TrimEnd(t) == TrimEnd(h);
    Untrimmed(h);
  }

  /** A string with no whitespace at either end is its own trim, and so is
      each of its one-sided trims. */
  lemma Untrimmed(s: string)
    requires s == [] || (!IsWhitespace(s[0]) && !IsWhitespace(s[|s| - 1]))
    ensures TrimStart(s) == s && TrimEnd(s) == s && Trim(s) == s
  {
  }

  /** `sub` occurs in `s` starting at position i. */
  predicate OccursAt(s: string, sub: string, i: int) {
    0 <= i <= |s| - |sub| && s[i..i + |sub|] == sub
  }

  /** `sub` occurs at i when its characters match one by one. */
  lemma CharsAt(s: string, sub: string, i: int)
    requires 0 <= i && i + |sub| <= |s|
    requires forall k :: 0 <= k < |sub| ==> s[i + k] == sub[k]
    ensures OccursAt(s, sub, i)
  {
    assert s[i..i + |sub|] == sub;
  }

  /** Contains agrees with the positional definition of a substring. */
  lemma ContainsAt(s: string, sub: string)
    ensures Contains(s, sub) <==> exists i :: OccursAt(s, sub, i)
  {
    if Contains(s, sub) {
      var i := ContainsOccurs(s, sub);
    }
    if exists i :: OccursAt(s, sub, i) {
      var i :| OccursAt(s, sub, i);
      OccursContains(s, sub, i);
    }
  }

  /** Where `includes` finds `sub`. */
  lemma {:induction false} ContainsOccurs(s: string, sub: string) returns (i: int)
    requires Contains(s, sub)
    ensures OccursAt(s, sub, i)
    decreases |s|
  {
    if sub <= s {
      assert s[0..|sub|] == sub;
      i := 0;
    } else {
      var j := ContainsOccurs(s[1..], sub);
      assert s[j + 1..j + 1 + |sub|] == s[1..][j..j + |sub|];
      i := j + 1;
    }
  }

  /** An occurrence anywhere is found by `includes`. */
  lemma {:induction false} OccursContains(s: string, sub: string, i: int)
    requires OccursAt(s, sub, i)
    ensures Contains(s, sub)
    decreases i
  {
    if i == 0 {
      assert sub <= s;
    } else {
      assert s[1..][i - 1..i - 1 + |sub|] == s[i..i + |sub|];
      OccursContains(s[1..], sub, i - 1);
    }
  }

  /** A string that lacks one of the characters of `sub` does not contain it. */
  lemma {:induction false} MissingCharNotContained(s: string, sub: string, c: char)
    requires c in sub && c !in s
    ensures !Contains(s, sub)
    decreases |s|
  {
    if s != [] {
      MissingCharNotContained(s[1..], sub, c);
    }
  }

  /** Lower-casing is idempotent, so a lower-cased name classifies as itself. */
  lemma ToLowerIdempotent(s: string)
    ensures ToLower(ToLower(s)) == ToLower(s)
  {
  }

  /** Printing a natural number and reading it back gives the number. */
  lemma {:induction false} NatToStringRoundTrip(n: nat)
    ensures ParseNat(NatToString(n)) == n
  {
    if n >= 10 {
      NatToStringRoundTrip(n / 10);
      var s := NatToString(n);
      assert s[..|s| - 1] == NatToString(n / 10);
    }
  }

  /** Distinct numbers print differently. */
  lemma NatToStringInjective(m: nat, n: nat)
    requires NatToString(m) == NatToString(n)
    ensures m == n
  {
    NatToStringRoundTrip(m);
    NatToStringRoundTrip(n);
  }
}
