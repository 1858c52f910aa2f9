/** The JavaScript string operations the application relies on: `trim`,
    `toLowerCase` and `includes`. */
module Strings {

  /** The characters `String.prototype.trim` removes: the ECMAScript
      WhiteSpace set (tab, vertical tab, form feed, space, no-break space,
      byte order mark, every Unicode space separator) and the LineTerminator
      set (line feed, carriage return, line and paragraph separators). */
  predicate IsSpace(c: char) {
    var n := c as int;
    n == 0x09 || n == 0x0A || n == 0x0B || n == 0x0C || n == 0x0D || n == 0x20 ||
    n == 0xA0 || n == 0x1680 || (0x2000 <= n <= 0x200A) ||
    n == 0x2028 || n == 0x2029 || n == 0x202F || n == 0x205F ||
    n == 0x3000 || n == 0xFEFF
  }

  /** Every character of `s` is whitespace (so `s.trim()` is empty). */
  predicate AllSpace(s: string) {
    forall i | 0 <= i < |s| :: IsSpace(s[i])
  }

  /** Neither end of `s` is whitespace: `s.trim()` would not change it. */
  predicate IsTrimmed(s: string) {
    s == [] || (!IsSpace(s[0]) && !IsSpace(s[|s| - 1]))
  }

  /** `s` with its leading whitespace removed. */
  function TrimStart(s: string): string
    decreases |s|
  {
    if |s| > 0 && IsSpace(s[0]) then TrimStart(s[1..]) else s
  }

  /** `TrimStart` keeps a suffix, drops only whitespace, and stops at the
      first character that is not whitespace. */
  lemma {:induction false} TrimStartSpec(s: string)
    ensures var r := TrimStart(s);
      |r| <= |s| && r == s[|s| - |r|..] &&
      (forall i | 0 <= i < |s| - |r| :: IsSpace(s[i])) &&
      (r == [] || !IsSpace(r[0]))
    decreases |s|
  {
    if |s| > 0 && IsSpace(s[0]) {
      TrimStartSpec(s[1..]);
      var r := TrimStart(s);
      forall i | 1 <= i < |s| - |r| ensures IsSpace(s[i]) {
        assert s[i] == s[1..][i - 1];
      }
    }
  }

  /** `s` with its trailing whitespace removed. */
  function TrimEnd(s: string): string
    decreases |s|
  {
    if |s| > 0 && IsSpace(s[|s| - 1]) then TrimEnd(s[..|s| - 1]) else s
  }

  /** `TrimEnd` keeps a prefix, drops only whitespace, and stops at the last
      character that is not whitespace. */
  lemma {:induction false} TrimEndSpec(s: string)
    ensures var r := TrimEnd(s);
      |r| <= |s| && r == s[..|r|] &&
      (forall i | |r| <= i < |s| :: IsSpace(s[i])) &&
      (r == [] || !IsSpace(r[|r| - 1]))
    decreases |s|
  {
    if |s| > 0 && IsSpace(s[|s| - 1]) {
      TrimEndSpec(s[..|s| - 1]);
    }
  }

  /** `s.trim()`: whitespace removed from both ends. */
  function Trim(s: string): string {
    TrimEnd(TrimStart(s))
  }

  /** The trimmed text is no longer than `s` and has no whitespace at either
      end; it is empty exactly when `s` is all whitespace, and text that is
      already trimmed is left as it is. */
  lemma TrimSpec(s: string)
    ensures var r := Trim(s);
      |r| <= |s| && IsTrimmed(r) && (r == [] <==> AllSpace(s)) && (IsTrimmed(s) ==> r == s)
  {
    var t := TrimStart(s);
    var r := TrimEnd(t);
    TrimStartSpec(s);
    TrimEndSpec(t);
    if r != [] {
      assert r[0] == t[0];
    }
    if t != [] {
      assert !IsSpace(s[|s| - |t|]);
    }
    if IsTrimmed(s) && s != [] {
      assert t == s;
    }
  }

  /** Trimming twice is the same as trimming once. */
  lemma TrimIdempotent(s: string)
    ensures Trim(Trim(s)) == Trim(s)
  {
    TrimSpec(s);
    TrimSpec(Trim(s));
  }

  /** JavaScript's `toLowerCase` on one character, for the ASCII letters. */
  function LowerChar(c: char): char {
    if 'A' <= c <= 'Z' then (c as int + 32) as char else c
  }

  /** `s.toLowerCase()`, character by character. */
  function ToLower(s: string): (r: string)
    ensures |r| == |s|
    ensures forall i | 0 <= i < |s| :: r[i] == LowerChar(s[i])
  {
    seq(|s|, i requires 0 <= i < |s| => LowerChar(s[i]))
  }

  /** A lower-cased string is its own lower case. */
  lemma ToLowerIdempotent(s: string)
    ensures ToLower(ToLower(s)) == ToLower(s)
  {
  }

  /** `s.includes(q)`: `q` occurs in `s` at some position. */
  function Contains(s: string, q: string): bool
    decreases |s|
  {
    q <= s || (|s| > 0 && Contains(s[1..], q))
  }

  /** `q` occurs in `s` starting at position `k`. */
  predicate OccursAt(s: string, q: string, k: int) {
    0 <= k <= |s| - |q| && s[k..k + |q|] == q
  }

  /** An occurrence at some position is found by `Contains`. */
  lemma {:induction false} OccurrenceContained(s: string, q: string, k: int)
    requires OccursAt(s, q, k)
    ensures Contains(s, q)
    decreases k
  {
    if k == 0 {
      assert s[..|q|] == q;
    } else {
      assert s[1..][k - 1..k - 1 + |q|] == s[k..k + |q|];
      OccurrenceContained(s[1..], q, k - 1);
    }
  }

  /** When `Contains` holds, there is a position where `q` occurs. */
  lemma {:induction false} ContainedOccurrence(s: string, q: string) returns (k: int)
    requires Contains(s, q)
    ensures OccursAt(s, q, k)
    decreases |s|
  {
    if q <= s {
      k := 0;
      assert s[..|q|] == q;
    } else {
      var j := ContainedOccurrence(s[1..], q);
      k := j + 1;
      assert s[1..][j..j + |q|] == s[k..k + |q|];
    }
  }

  /** `Contains` agrees with the positional definition of an occurrence. */
  lemma ContainsAt(s: string, q: string)
    ensures Contains(s, q) <==> exists k :: OccursAt(s, q, k)
  {
    if Contains(s, q) {
      var k := ContainedOccurrence(s, q);
    }
    if exists k :: OccursAt(s, q, k) {
      var k :| OccursAt(s, q, k);
      OccurrenceContained(s, q, k);
    }
  }

  /** The empty query occurs in every string. */
  lemma ContainsEmpty(s: string)
    ensures Contains(s, [])
  {
  }
}
