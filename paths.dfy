/**
 * The path helpers of the orchestrator: `x.trim()`, the reduce that drops
 * repeated paths, and `ensureAbsolute`.
 */
module Paths {
  import opened Common

  /** ECMAScript WhiteSpace and LineTerminator code points, which `String.prototype.trim` strips. */
  predicate IsWhitespace(c: char) {
    var n := c as int;
    n == 0x09 || n == 0x0A || n == 0x0B || n == 0x0C || n == 0x0D || n == 0x20 || n == 0xA0
    || n == 0x1680 || (0x2000 <= n <= 0x200A) || n == 0x2028 || n == 0x2029 || n == 0x202F
    || n == 0x205F || n == 0x3000 || n == 0xFEFF
  }

  /** `s` without its leading whitespace. */
  function TrimStart(s: string): (r: string)
    ensures |r| <= |s| && r == s[|s| - |r|..]
    ensures forall k :: 0 <= k < |s| - |r| ==> IsWhitespace(s[k])
    ensures r == [] || !IsWhitespace(r[0])
  {
    if s != [] && IsWhitespace(s[0]) then TrimStart(s[1..]) else s
  }

  /** `s` without its trailing whitespace. */
  function TrimEnd(s: string): (r: string)
    ensures |r| <= |s| && r == s[..|r|]
    ensures forall k :: |r| <= k < |s| ==> IsWhitespace(s[k])
    ensures r == [] || !IsWhitespace(r[|r| - 1])
  {
    if s != [] && IsWhitespace(s[|s| - 1]) then TrimEnd(s[..|s| - 1]) else s
  }

  /** `s.trim()`: whitespace stripped from both ends. */
  function Trim(s: string): (r: string)
    ensures r == [] || (!IsWhitespace(r[0]) && !IsWhitespace(r[|r| - 1]))
  {
    TrimEnd(TrimStart(s))
  }

  /** `s.trim()` is the slice of `s` between a whitespace prefix and a whitespace suffix. */
  lemma TrimIsSlice(s: string) returns (i: nat)
    ensures i + |Trim(s)| <= |s| && Trim(s) == s[i..i + |Trim(s)|]
    ensures forall k :: 0 <= k < i ==> IsWhitespace(s[k])
    ensures forall k :: i + |Trim(s)| <= k < |s| ==> IsWhitespace(s[k])
  {
    var t := TrimStart(s);
    i := |s| - |t|;
    assert Trim(s) == t[..|Trim(s)|];
  }

  /** Trimming twice is trimming once. */
  lemma TrimIdempotent(s: string)
    ensures Trim(Trim(s)) == Trim(s)
  {
    var r := Trim(s);
    assert TrimStart(r) == r;
    assert TrimEnd(r) == r;
  }

  /** `args.map(x => x.trim())`. */
  function TrimAll(xs: seq<string>): seq<string> {
    seq(|xs|, k requires 0 <= k < |xs| => Trim(xs[k]))
  }

  /** Position of the first occurrence of `x` in `xs`, or -1: `Array.prototype.indexOf`. */
  function IndexOf<T(==)>(xs: seq<T>, x: T): (r: int)
    ensures -1 <= r < |xs|
    ensures r == -1 <==> x !in xs
    ensures r >= 0 ==> xs[r] == x && forall k :: 0 <= k < r ==> xs[k] != x
  {
    if xs == [] then -1
    else if xs[0] == x then 0
    else var i := IndexOf(xs[1..], x); if i == -1 then -1 else i + 1
  }

  lemma IndexOfPrefix<T>(xs: seq<T>, x: T, y: T)
    requires x in xs
    ensures IndexOf(xs + [y], x) == IndexOf(xs, x)
  {
    var i := IndexOf(xs, x);
    assert (xs + [y])[i] == x;
  }

  /** Appending an element leaves the first positions of the elements already present unchanged. */
  lemma IndexOfPrefixAll(xs: seq<string>, ys: seq<string>, y: string)
    requires forall k :: 0 <= k < |ys| ==> ys[k] in xs
    ensures forall k :: 0 <= k < |ys| ==> IndexOf(xs + [y], ys[k]) == IndexOf(xs, ys[k])
  {
    forall k | 0 <= k < |ys| ensures IndexOf(xs + [y], ys[k]) == IndexOf(xs, ys[k]) {
      IndexOfPrefix(xs, ys[k], y);
    }
  }

  predicate NoDuplicates<T(==)>(xs: seq<T>) {
    forall i, j :: 0 <= i < j < |xs| ==> xs[i] != xs[j]
  }

  /**
   * `reduce((s, x) => s.indexOf(x) === -1 ? [...s, x] : s, [])`: the first
   * occurrence of every element, in the order of first occurrence.
   */
  function Dedup(xs: seq<string>): (r: seq<string>)
    ensures NoDuplicates(r)
    ensures forall x :: x in r <==> x in xs
    ensures forall i, j :: 0 <= i < j < |r| ==> IndexOf(xs, r[i]) < IndexOf(xs, r[j])
    decreases |xs|
  {
    if xs == [] then []
    else
      var pre, last := xs[..|xs| - 1], xs[|xs| - 1];
      var s := Dedup(pre);
      assert xs == pre + [last];
      IndexOfPrefixAll(pre, s, last);
      if IndexOf(s, last) == -1 then s + [last] else s
  }

  predicate IsAsciiLetter(c: char) {
    ('a' <= c <= 'z') || ('A' <= c <= 'Z')
  }

  /** The regex `/^[a-zA-Z]+:(\\|\/)/` matches with its letter run ending at `n`: letters, a colon, then a slash or backslash. */
  predicate MatchesAt(path: string, n: int) {
    && 1 <= n && n + 1 < |path|
    && (forall k :: 0 <= k < n ==> IsAsciiLetter(path[k]))
    && path[n] == ':' && (path[n + 1] == '/' || path[n + 1] == '\\')
  }

  /** What `/^[a-zA-Z]+:(\\|\/)/` matches. */
  ghost predicate MatchesAbsolute(path: string) {
    exists n :: MatchesAt(path, n)
  }

  /** Length of the run of ASCII letters that starts `s`. */
  function LetterRun(s: string): (n: nat)
    ensures n <= |s|
    ensures forall k :: 0 <= k < n ==> IsAsciiLetter(s[k])
    ensures n < |s| ==> !IsAsciiLetter(s[n])
  {
    if s != [] && IsAsciiLetter(s[0]) then 1 + LetterRun(s[1..]) else 0
  }

  /** The regex can only match with the letter run ending at the colon. */
  lemma MatchUsesLetterRun(path: string)
    requires MatchesAbsolute(path)
    ensures MatchesAt(path, LetterRun(path))
  {
    var n := LetterRun(path);
    var m :| MatchesAt(path, m);
    assert !IsAsciiLetter(path[m]);
  }

  /** `ensureAbsolute`: the path itself when it is drive- or scheme-absolute, otherwise the error naming it. */
  function EnsureAbsolute(path: string): (r: Result<string>)
    ensures r == Ok(path) <==> MatchesAbsolute(path)
    ensures r.Err? ==> r == Err(NotAbsolute(path))
  {
    var n := LetterRun(path);
    if MatchesAt(path, n) then Ok(path)
    else
      assert !MatchesAbsolute(path) by {
        if MatchesAbsolute(path) {
          MatchUsesLetterRun(path);
        }
      }
      Err(NotAbsolute(path))
  }
}
