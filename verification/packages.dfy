/**
 * The installed-package list: parsing `pip list --format=freeze` output,
 * the case-insensitive display order, and the search filter.
 */
module Packages {
  import opened Wrappers
  import opened Text

  /** One row of the installed-package table. */
  datatype Package = Package(name: string, version: string)

  /** The separator of the freeze format, `name==version`. */
  const Sep: string := "=="

  // ---------------------------------------------------------------------
  // Freeze parsing

  /**
   * One line of freeze output: a record exactly when the line holds `==`,
   * split at its first `==`, both halves stripped.
   */
  function ParseLine(line: string): (r: Option<Package>)
    ensures r.Some? <==> Contains(line, Sep)
  {
    match Find(line, Sep)
    case None => None
    case Some(i) => Some(Package(Strip(line[..i]), Strip(line[i + |Sep|..])))
  }

  /**
   * The name is the stripped text before the FIRST `==`, the version the
   * stripped remainder (which may itself hold `==`).
   */
  lemma ParseLineAtFirstSep(line: string, i: nat)
    requires OccursAt(line, Sep, i)
    requires forall j: nat :: j < i ==> !OccursAt(line, Sep, j)
    ensures ParseLine(line) == Some(Package(Strip(line[..i]), Strip(line[i + 2..])))
  {
    assert Contains(line, Sep);
    var f := Find(line, Sep);
    assert f.Some? && OccursAt(line, Sep, f.value);
    assert f.value >= i;
    assert f.value <= i;
  }

  /** The records of `lines`, one per line holding `==`, in line order. */
  function ParseLines(lines: seq<string>): seq<Package> {
    if lines == [] then []
    else
      var last := lines[|lines| - 1];
      ParseLines(lines[..|lines| - 1]) + (if Contains(last, Sep) then [ParseLine(last).value] else [])
  }

  /** A single line yields its record when it holds `==` and nothing otherwise. */
  lemma ParseOneLine(line: string)
    ensures ParseLines([line]) == if Contains(line, Sep) then [ParseLine(line).value] else []
  {
    assert [line][..0] == [];
  }

  /** Parsing distributes over concatenation of line lists, so records keep line order. */
  lemma {:induction false} ParseLinesAppend(a: seq<string>, b: seq<string>)
    ensures ParseLines(a + b) == ParseLines(a) + ParseLines(b)
    decreases |b|
  {
    if b == [] {
      assert a + b == a;
    } else {
      var b' := b[..|b| - 1];
      assert (a + b)[..|a + b| - 1] == a + b';
      ParseLinesAppend(a, b');
    }
  }

  /** The number of records is the number of lines holding `==`. */
  function CountSep(lines: seq<string>): nat {
    if lines == [] then 0
    else CountSep(lines[..|lines| - 1]) + (if Contains(lines[|lines| - 1], Sep) then 1 else 0)
  }

  lemma {:induction false} ParseLinesLength(lines: seq<string>)
    ensures |ParseLines(lines)| == CountSep(lines) <= |lines|
  {
    if lines != [] {
      ParseLinesLength(lines[..|lines| - 1]);
    }
  }

  /**
   * A pinned requirement `name==rest` whose name has no `=` parses back to
   * its stripped halves, whatever `rest` holds (a further `==` included).
   */
  lemma ParsePinned(name: string, rest: string)
    requires '=' !in name
    ensures ParseLine(name + Sep + rest) == Some(Package(Strip(name), Strip(rest)))
  {
    var line := name + Sep + rest;
    assert OccursAt(line, Sep, |name|) by {
      assert line[|name|..|name| + 2] == Sep;
    }
    forall j: nat | j < |name|
      ensures !OccursAt(line, Sep, j)
    {
      assert line[j] == name[j];
    }
    ParseLineAtFirstSep(line, |name|);
    assert line[..|name|] == name;
    assert line[|name| + 2..] == rest;
  }

  /**
   * The `packages.append` loop of the package loader: every line of the
   * freeze output is tried in turn.
   */
  method ParseFreeze(output: string) returns (packages: seq<Package>)
    ensures packages == ParseLines(SplitLines(output))
    ensures |packages| <= |SplitLines(output)|
  {
    var lines := SplitLines(output);
    packages := [];
    var i := 0;
    while i < |lines|
      invariant 0 <= i <= |lines|
      invariant packages == ParseLines(lines[..i])
    {
      var line := lines[i];
      assert lines[..i + 1][..i] == lines[..i];
      if Contains(line, Sep) {
        var p := ParseLine(line);
        packages := packages + [p.value];
      }
      i := i + 1;
    }
    assert lines[..i] == lines;
    ParseLinesLength(lines);
  }

  // ---------------------------------------------------------------------
  // Display order: `sorted(packages, key=lambda x: x[0].lower())`

  /** The sort key: the lower-cased name. */
  function Key(p: Package): string {
    Lower(p.name)
  }

  /** Python's `a <= b` on strings: lexicographic by code point. */
  predicate LexLe(a: string, b: string) {
    if a == [] then true
    else if b == [] then false
    else if a[0] < b[0] then true
    else if a[0] == b[0] then LexLe(a[1..], b[1..])
    else false
  }

  lemma {:induction false} LexLeTotal(a: string, b: string)
    ensures LexLe(a, b) || LexLe(b, a)
  {
    if a != [] && b != [] && a[0] == b[0] {
      LexLeTotal(a[1..], b[1..]);
    }
  }

  lemma {:induction false} LexLeTrans(a: string, b: string, c: string)
    requires LexLe(a, b) && LexLe(b, c)
    ensures LexLe(a, c)
  {
    if a != [] && b != [] && c != [] && a[0] == b[0] && b[0] == c[0] {
      LexLeTrans(a[1..], b[1..], c[1..]);
    }
  }

  /** Rows are in non-decreasing order of lower-cased name. */
  ghost predicate SortedByKey(s: seq<Package>) {
    forall i, j :: 0 <= i < j < |s| ==> LexLe(Key(s[i]), Key(s[j]))
  }

  /** Places `p` before the first row whose key is not smaller. */
  function Insert(p: Package, s: seq<Package>): seq<Package> {
    if s == [] then [p]
    else if LexLe(Key(p), Key(s[0])) then [p] + s
    else [s[0]] + Insert(p, s[1..])
  }

  /** Inserting adds exactly the one row. */
  lemma {:induction false} InsertPermutes(p: Package, s: seq<Package>)
    ensures multiset(Insert(p, s)) == multiset(s) + multiset{p}
  {
    if s != [] && !LexLe(Key(p), Key(s[0])) {
      InsertPermutes(p, s[1..]);
      assert s == [s[0]] + s[1..];
    }
  }

  /** Inserting into a sorted list keeps it sorted. */
  lemma {:induction false} InsertSorted(p: Package, s: seq<Package>)
    requires SortedByKey(s)
    ensures SortedByKey(Insert(p, s))
  {
    if s == [] {
    } else if LexLe(Key(p), Key(s[0])) {
      forall j | 0 <= j < |s| ensures LexLe(Key(p), Key(s[j])) {
        if j > 0 { LexLeTrans(Key(p), Key(s[0]), Key(s[j])); }
      }
    } else {
      LexLeTotal(Key(p), Key(s[0]));
      var rest := Insert(p, s[1..]);
      InsertSorted(p, s[1..]);
      InsertPermutes(p, s[1..]);
      forall j | 0 <= j < |rest| ensures LexLe(Key(s[0]), Key(rest[j])) {
        assert rest[j] in multiset(rest);
        if rest[j] != p {
          assert rest[j] in multiset(s[1..]);
          var k :| 0 <= k < |s[1..]| && s[1..][k] == rest[j];
          assert s[k + 1] == rest[j];
        }
      }
    }
  }

  /** The displayed order: a permutation of the rows, sorted by lower-cased name. */
  function SortByName(s: seq<Package>): (r: seq<Package>)
    ensures SortedByKey(r)
    ensures multiset(r) == multiset(s)
  {
    if s == [] then []
    else
      var rest := SortByName(s[1..]);
      assert multiset(s) == multiset(s[1..]) + multiset{s[0]} by {
        assert s == [s[0]] + s[1..];
      }
      var r := Insert(s[0], rest);
      InsertPermutes(s[0], rest);
      InsertSorted(s[0], rest);
      r
  }

  // ---------------------------------------------------------------------
  // Search filter

  /** The query typed into the package entry: `entry.strip().lower()`. */
  function Query(entry: string): (q: string)
    ensures |q| <= |entry|
    ensures q == [] <==> forall i :: 0 <= i < |entry| ==> IsSpace(entry[i])
    ensures q != [] ==> !IsSpace(q[0]) && !IsSpace(q[|q| - 1])
  {
    Lower(Strip(entry))
  }

  /** The rows whose lower-cased name contains `q`, in their original order. */
  function Matching(s: seq<Package>, q: string): (r: seq<Package>)
    ensures forall p :: p in r <==> p in s && Contains(Key(p), q)
    ensures multiset(r) <= multiset(s)
  {
    if s == [] then []
    else
      assert s == [s[0]] + s[1..];
      (if Contains(Key(s[0]), q) then [s[0]] else []) + Matching(s[1..], q)
  }

  /** Filtering distributes over concatenation: the original order is kept. */
  lemma {:induction false} MatchingAppend(a: seq<Package>, b: seq<Package>, q: string)
    ensures Matching(a + b, q) == Matching(a, q) + Matching(b, q)
  {
    if a == [] {
      assert a + b == b;
    } else {
      assert (a + b)[0] == a[0];
      assert (a + b)[1..] == a[1..] + b;
      MatchingAppend(a[1..], b, q);
    }
  }

  /** Every row matches, so the filter keeps them all. */
  lemma {:induction false} MatchingAll(s: seq<Package>, q: string)
    requires forall p :: p in s ==> Contains(Key(p), q)
    ensures Matching(s, q) == s
  {
    if s != [] {
      MatchingAll(s[1..], q);
    }
  }

  /**
   * `filter_packages`: an empty query shows every stored row, any other
   * query the stored rows whose lower-cased name contains it.
   */
  function Filter(stored: seq<Package>, entry: string): (r: seq<Package>)
    ensures Query(entry) == [] ==> r == stored
    ensures Query(entry) != [] ==> forall p :: p in r <==> p in stored && Contains(Key(p), Query(entry))
    ensures multiset(r) <= multiset(stored)
  {
    var q := Query(entry);
    if q == [] then stored else Matching(stored, q)
  }

  /** Filtering an already filtered list with the same entry changes nothing. */
  lemma FilterIdempotent(stored: seq<Package>, entry: string)
    ensures Filter(Filter(stored, entry), entry) == Filter(stored, entry)
  {
    var q := Query(entry);
    if q != [] {
      MatchingAll(Matching(stored, q), q);
    }
  }

  /**
   * The table after loading and then clearing the search box: every
   * loaded row, in case-insensitive name order.
   */
  lemma EmptyQueryShowsAll(stored: seq<Package>, entry: string)
    requires forall i :: 0 <= i < |entry| ==> IsSpace(entry[i])
    ensures multiset(SortByName(Filter(stored, entry))) == multiset(stored)
    ensures SortedByKey(SortByName(Filter(stored, entry)))
  {
    assert Strip(entry) == [];
  }
}
