/** The string primitives the dealership code relies on: `trim`,
    `toLowerCase`/`toUpperCase`, `startsWith`, `includes`, `join`, and the
    number-to-text conversions used for invoice numbers and trade-in VINs. */
module Text {

  /** Characters removed by JavaScript's `String.prototype.trim`
      (white space and line terminators). */
  predicate IsSpace(c: char) {
    c == ' ' || c == '\t' || c == '\n' || c == '\r' || c == '\U{000B}' || c == '\U{000C}'
    || c == '\U{00A0}' || c == '\U{1680}' || ('\U{2000}' <= c <= '\U{200A}')
    || c == '\U{2028}' || c == '\U{2029}' || c == '\U{202F}' || c == '\U{205F}'
    || c == '\U{3000}' || c == '\U{FEFF}'
  }

  /** The first position at or after `i` that does not hold white space. */
  function SkipSpace(s: string, i: nat): (a: nat)
    requires i <= |s|
    ensures i <= a <= |s|
    ensures forall j :: i <= j < a ==> IsSpace(s[j])
    ensures a == |s| || !IsSpace(s[a])
    decreases |s| - i
  {
    if i < |s| && IsSpace(s[i]) then SkipSpace(s, i + 1) else i
  }

  /** The position just after the last non-white-space character before `j`,
      or `a` when there is none at or after `a`. */
  function SkipSpaceBack(s: string, a: nat, j: nat): (e: nat)
    requires a <= j <= |s|
    ensures a <= e <= j
    ensures forall k :: e <= k < j ==> IsSpace(s[k])
    ensures e == a || !IsSpace(s[e - 1])
    decreases j
  {
    if a < j && IsSpace(s[j - 1]) then SkipSpaceBack(s, a, j - 1) else j
  }

  /** `r` is the slice of `s` that starts at `a`, and everything before and
      after that slice is white space. */
  predicate TrimmedAt(s: string, r: string, a: nat) {
    a + |r| <= |s| && r == s[a..a + |r|]
    && (forall i :: 0 <= i < a ==> IsSpace(s[i]))
    && (forall i :: a + |r| <= i < |s| ==> IsSpace(s[i]))
  }

  /** `s.trim()`: the longest slice of `s` that neither starts nor ends with
      white space; everything cut away is white space. */
  function Trim(s: string): (r: string)
    ensures exists a: nat :: TrimmedAt(s, r, a)
    ensures r == [] || (!IsSpace(r[0]) && !IsSpace(r[|r| - 1]))
    ensures r == [] <==> forall i :: 0 <= i < |s| ==> IsSpace(s[i])
  {
    var a := SkipSpace(s, 0);
    var e := SkipSpaceBack(s, a, |s|);
    assert TrimmedAt(s, s[a..e], a);
    if e == a then
      []
    else
      assert s[a..e][0] == s[a] && s[a..e][e - a - 1] == s[e - 1];
      s[a..e]
  }

  lemma {:induction false} TrimIdempotent(s: string)
    ensures Trim(Trim(s)) == Trim(s)
  {
    var r := Trim(s);
    if r != [] {
      assert SkipSpace(r, 0) == 0;
      assert SkipSpaceBack(r, 0, |r|) == |r|;
      assert r[0..|r|] == r;
    }
  }

  function LowerChar(c: char): char {
    if 'A' <= c <= 'Z' then (c as int + 32) as char else c
  }

  function UpperChar(c: char): char {
    if 'a' <= c <= 'z' then (c as int - 32) as char else c
  }

  /** `s.toLowerCase()`, restricted to the ASCII letters. */
  function ToLower(s: string): (r: string)
    ensures |r| == |s| && forall i :: 0 <= i < |s| ==> r[i] == LowerChar(s[i])
  {
    if s == [] then [] else [LowerChar(s[0])] + ToLower(s[1..])
  }

  /** `s.toUpperCase()`, restricted to the ASCII letters. */
  function ToUpper(s: string): (r: string)
    ensures |r| == |s| && forall i :: 0 <= i < |s| ==> r[i] == UpperChar(s[i])
  {
    if s == [] then [] else [UpperChar(s[0])] + ToUpper(s[1..])
  }

  /** `s.startsWith(p)`. */
  predicate IsPrefix(p: string, s: string) {
    |p| <= |s| && s[..|p|] == p
  }

  predicate OccursAt(q: string, s: string, i: nat) {
    i + |q| <= |s| && s[i..i + |q|] == q
  }

  /** `s.includes(q)`: `q` occurs somewhere in `s`. */
  function Contains(s: string, q: string): (r: bool)
    ensures r <==> exists i: nat :: OccursAt(q, s, i)
  {
    if IsPrefix(q, s) then
      assert OccursAt(q, s, 0);
      true
    else if s == [] then
      false
    else
      var r := Contains(s[1..], q);
      assert forall i: nat :: OccursAt(q, s[1..], i) <==> OccursAt(q, s, i + 1) by {
        forall i: nat ensures OccursAt(q, s[1..], i) <==> OccursAt(q, s, i + 1) {
          if i + 1 + |q| <= |s| { assert s[1..][i..i + |q|] == s[i + 1..i + 1 + |q|]; }
        }
      }
      assert r ==> exists i: nat :: OccursAt(q, s, i) by {
        if r { var i: nat :| OccursAt(q, s[1..], i); assert OccursAt(q, s, i + 1); }
      }
      assert (exists i: nat :: OccursAt(q, s, i)) ==> r by {
        if exists i: nat :: OccursAt(q, s, i) {
          var i: nat :| OccursAt(q, s, i);
          assert i != 0;
          assert OccursAt(q, s[1..], i - 1);
        }
      }
      r
  }

  /** `lines.join(sep)`. */
  function Join(lines: seq<string>, sep: string): string
    decreases |lines|
  {
    if |lines| == 0 then ""
    else if |lines| == 1 then lines[0]
    else lines[0] + sep + Join(lines[1..], sep)
  }

  lemma {:induction false} JoinStartsWith(lines: seq<string>, sep: string)
    requires |lines| >= 1
    ensures IsPrefix(lines[0], Join(lines, sep))
  {
  }

  lemma {:induction false} JoinEndsWith(lines: seq<string>, sep: string)
    requires |lines| >= 1
    ensures var j := Join(lines, sep);
            var last := lines[|lines| - 1];
            |last| <= |j| && j[|j| - |last|..] == last
    decreases |lines|
  {
    if |lines| > 1 {
      JoinEndsWith(lines[1..], sep);
      assert lines[1..][|lines[1..]| - 1] == lines[|lines| - 1];
    }
  }

  /* ---- Numbers as text ---- */

  /** The digit `d` as JavaScript's `Number.prototype.toString(radix)` writes it
      (lower-case letters beyond 9). */
  function DigitChar(d: nat): (c: char)
    requires d < 36
  {
    if d < 10 then ('0' as int + d) as char else ('a' as int + d - 10) as char
  }

  /** The value of a digit character in either case; -1 for a non-digit. */
  function DigitValue(c: char): int {
    if '0' <= c <= '9' then c as int - '0' as int
    else if 'a' <= c <= 'z' then c as int - 'a' as int + 10
    else if 'A' <= c <= 'Z' then c as int - 'A' as int + 10
    else -1
  }

  lemma DigitCharValue(d: nat)
    requires d < 36
    ensures DigitValue(DigitChar(d)) == d
    ensures !('A' <= DigitChar(d) <= 'Z')
  {
  }

  lemma DivShrinks(n: nat, base: nat)
    requires 2 <= base <= n
    ensures 0 < n / base < n
  {
  }

  /** `n.toString(base)` for a non-negative integer `n`. */
  function Radix(n: nat, base: nat): (r: string)
    requires 2 <= base <= 36
    ensures |r| >= 1
    ensures forall i :: 0 <= i < |r| ==> 0 <= DigitValue(r[i]) < base
    ensures forall i :: 0 <= i < |r| ==> !('A' <= r[i] <= 'Z')
    decreases n
  {
    if n < base then
      DigitCharValue(n);
      [DigitChar(n)]
    else
      var d := n % base;
      DigitCharValue(d);
      assert d < base;
      assert n / base < n by { DivShrinks(n, base); }
      var front := Radix(n / base, base);
      front + [DigitChar(d)]
  }

  /** Reads a string of digits in `base`, most significant first. */
  function ParseRadix(s: string, base: nat): int
    requires 2 <= base <= 36
  {
    if s == [] then 0 else ParseRadix(s[..|s| - 1], base) * base + DigitValue(s[|s| - 1])
  }

  lemma {:induction false} RadixRoundTrip(n: nat, base: nat)
    requires 2 <= base <= 36
    ensures ParseRadix(Radix(n, base), base) == n
    decreases n
  {
    var r := Radix(n, base);
    if n < base {
      DigitCharValue(n);
      assert r[..|r| - 1] == [];
    } else {
      var q, d := n / base, n % base;
      DivShrinks(n, base);
      RadixRoundTrip(q, base);
      DigitCharValue(d);
      assert r[..|r| - 1] == Radix(q, base);
      assert ParseRadix(r, base) == q * base + d;
      DivModParts(n, base);
    }
  }

  lemma DivModParts(n: nat, base: nat)
    requires base > 0
    ensures (n / base) * base + n % base == n
  {
  }

  /** Upper-casing the digits of a number does not change the number they
      denote, so `n.toString(36).toUpperCase()` still determines `n`. */
  lemma {:induction false} ParseUpperRadix(s: string, base: nat)
    requires 2 <= base <= 36
    requires forall i :: 0 <= i < |s| ==> !('A' <= s[i] <= 'Z')
    ensures ParseRadix(ToUpper(s), base) == ParseRadix(s, base)
    decreases |s|
  {
    if s != [] {
      var u := ToUpper(s);
      var front := s[..|s| - 1];
      assert u[..|u| - 1] == ToUpper(front);
      ParseUpperRadix(front, base);
      UpperDigitValue(s[|s| - 1]);
      assert ParseRadix(u, base) == ParseRadix(front, base) * base + DigitValue(s[|s| - 1]);
    }
  }

  /** A digit letter denotes the same value in either case. */
  lemma UpperDigitValue(c: char)
    ensures DigitValue(UpperChar(c)) == DigitValue(c)
  {
  }

  /** `String(n)` for an integer `n`. */
  function IntToString(n: int): (r: string)
    ensures |r| >= 1
  {
    if n < 0 then "-" + Radix(-n, 10) else Radix(n, 10)
  }
}
