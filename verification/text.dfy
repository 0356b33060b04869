/**
 * The few Python string operations the package manager relies on:
 * `str.strip()`, `str.lower()`, the `in` substring test, `str.find`
 * (through `str.split(sep, 1)`) and `str.split('\n')`.
 */
module Text {
  import opened Wrappers

  /** Characters for which Python's `str.isspace()` holds; `str.strip()` removes them at both ends. */
  predicate IsSpace(c: char) {
    var n := c as int;
    n == 0x20 || 0x09 <= n <= 0x0D || 0x1C <= n <= 0x1F || n == 0x85 || n == 0xA0 ||
    n == 0x1680 || 0x2000 <= n <= 0x200A || n == 0x2028 || n == 0x2029 ||
    n == 0x202F || n == 0x205F || n == 0x3000
  }

  /** Number of leading whitespace characters of `s`. */
  function SkipLeft(s: string): (k: nat)
    ensures k <= |s|
    ensures forall i :: 0 <= i < k ==> IsSpace(s[i])
    ensures k < |s| ==> !IsSpace(s[k])
  {
    if s == [] || !IsSpace(s[0]) then 0 else 1 + SkipLeft(s[1..])
  }

  /** Length of `s` once its trailing whitespace is dropped. */
  function SkipRight(s: string): (k: nat)
    ensures k <= |s|
    ensures forall i :: k <= i < |s| ==> IsSpace(s[i])
    ensures 0 < k ==> !IsSpace(s[k - 1])
  {
    if s == [] || !IsSpace(s[|s| - 1]) then |s| else SkipRight(s[..|s| - 1])
  }

  /**
   * Python's `s.strip()`: the longest slice of `s` that neither starts nor
   * ends with whitespace, everything cut off being whitespace.
   */
  function Strip(s: string): (r: string)
    ensures SkipLeft(s) + |r| <= |s| && r == s[SkipLeft(s)..SkipLeft(s) + |r|]
    ensures forall i :: SkipLeft(s) + |r| <= i < |s| ==> IsSpace(s[i])
    ensures r != [] ==> !IsSpace(r[0]) && !IsSpace(r[|r| - 1])
    ensures r == [] <==> forall i :: 0 <= i < |s| ==> IsSpace(s[i])
  {
    var t := s[SkipLeft(s)..];
    t[..SkipRight(t)]
  }

  /** A string that neither starts nor ends with whitespace is its own strip. */
  lemma StripTrimmed(s: string)
    requires s != [] ==> !IsSpace(s[0]) && !IsSpace(s[|s| - 1])
    ensures Strip(s) == s
  {
  }

  /** Stripping twice is stripping once. */
  lemma StripIdempotent(s: string)
    ensures Strip(Strip(s)) == Strip(s)
  {
    StripTrimmed(Strip(s));
  }

  /** Python's `str.lower()` on one character, for the ASCII letters. */
  function LowerChar(c: char): char {
    if 'A' <= c <= 'Z' then (c as int + 32) as char else c
  }

  /** Python's `s.lower()`, character by character. */
  function Lower(s: string): (r: string)
    ensures |r| == |s|
    ensures forall i :: 0 <= i < |s| ==> r[i] == LowerChar(s[i])
  {
    seq(|s|, i requires 0 <= i < |s| => LowerChar(s[i]))
  }

  /** `pat` occurs in `s` starting at index `i`. */
  predicate OccursAt(s: string, pat: string, i: nat) {
    i + |pat| <= |s| && s[i..i + |pat|] == pat
  }

  /** Python's `pat in s`. */
  predicate Contains(s: string, pat: string) {
    exists i: nat | i <= |s| :: OccursAt(s, pat, i)
  }

  /** The first index at or after `k` where `pat` occurs in `s`, if any. */
  function FindFrom(s: string, pat: string, k: nat): (r: Option<nat>)
    ensures r.Some? ==> k <= r.value && OccursAt(s, pat, r.value)
    ensures r.Some? ==> forall j: nat :: k <= j < r.value ==> !OccursAt(s, pat, j)
    ensures r.None? ==> forall j: nat :: k <= j ==> !OccursAt(s, pat, j)
    decreases |s| - k
  {
    if k + |pat| > |s| then None
    else if OccursAt(s, pat, k) then Some(k)
    else FindFrom(s, pat, k + 1)
  }

  /** Python's `s.find(pat)`: the first occurrence, present exactly when `pat in s`. */
  function Find(s: string, pat: string): (r: Option<nat>)
    ensures r.Some? <==> Contains(s, pat)
    ensures r.Some? ==> OccursAt(s, pat, r.value)
    ensures r.Some? ==> forall j: nat :: j < r.value ==> !OccursAt(s, pat, j)
  {
    FindFrom(s, pat, 0)
  }

  /** The pieces of `lines` glued back together with a newline between neighbours. */
  function JoinLines(lines: seq<string>): string
    requires |lines| >= 1
  {
    if |lines| == 1 then lines[0] else lines[0] + "\n" + JoinLines(lines[1..])
  }

  /**
   * Python's `s.split('\n')`: never empty, no piece holds a newline, and
   * joining the pieces with newlines gives `s` back.
   */
  function SplitLines(s: string): (r: seq<string>)
    ensures |r| >= 1
    ensures forall k :: 0 <= k < |r| ==> '\n' !in r[k]
    ensures JoinLines(r) == s
  {
    if s == [] then [""]
    else
      var rest := SplitLines(s[1..]);
      if s[0] == '\n' then
        assert s == "\n" + s[1..];
        [""] + rest
      else
        var r := [[s[0]] + rest[0]] + rest[1..];
        assert r[1..] == rest[1..];
        assert s == [s[0]] + s[1..];
        r
  }

  /** A newline-free prefix stays glued to the first piece of what follows it. */
  lemma {:induction false} SplitLinesPrefix(a: string, rest: string)
    requires '\n' !in a
    ensures SplitLines(a + rest) == [a + SplitLines(rest)[0]] + SplitLines(rest)[1..]
  {
    if a != [] {
      assert a + rest == [a[0]] + (a[1..] + rest);
      SplitLinesPrefix(a[1..], rest);
      assert [a[0]] + (a[1..] + SplitLines(rest)[0]) == a + SplitLines(rest)[0];
    } else {
      var r := SplitLines(rest);
      assert a + rest == rest && a + r[0] == r[0];
      assert r == [r[0]] + r[1..];
    }
  }

  /** Splitting newline-free pieces joined with newlines gives the pieces back. */
  lemma {:induction false} SplitJoinLines(lines: seq<string>)
    requires |lines| >= 1
    requires forall k :: 0 <= k < |lines| ==> '\n' !in lines[k]
    ensures SplitLines(JoinLines(lines)) == lines
  {
    if |lines| == 1 {
      SplitLinesPrefix(lines[0], "");
      assert lines[0] + "" == lines[0];
    } else {
      var tail := JoinLines(lines[1..]);
      SplitJoinLines(lines[1..]);
      assert lines[0] + "\n" + tail == lines[0] + ("\n" + tail);
      SplitLinesPrefix(lines[0], "\n" + tail);
      assert ("\n" + tail)[1..] == tail;
      assert lines[0] + "" == lines[0];
      assert lines == [lines[0]] + lines[1..];
    }
  }
}
