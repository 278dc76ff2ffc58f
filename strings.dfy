/** The Python string operations the extractor and the indexer rely on
    (`find`, `in`, `strip`, `lower`, `replace`, `split`, `startswith`,
    `endswith`), written out over `string` = `seq<char>`. */
module Strings {

  /** `p` occurs in `s` starting at index `i`. */
  predicate OccursAt(s: string, p: string, i: int) {
    0 <= i && i + |p| <= |s| && s[i..i + |p|] == p
  }

  /** Python's `s.find(p, start)`: the least index at or after `start` where
      `p` occurs, or -1 when there is none. */
  function Find(s: string, p: string, start: nat): (r: int)
    ensures r == -1 || (start <= r && OccursAt(s, p, r))
    ensures forall j :: start <= j && (r == -1 || j < r) ==> !OccursAt(s, p, j)
    decreases |s| - start
  {
    if start + |p| > |s| then -1
    else if OccursAt(s, p, start) then start
    else Find(s, p, start + 1)
  }

  /** A `Find` result is pinned down by the first occurrence at or after `start`. */
  lemma FindIs(s: string, p: string, start: nat, k: int)
    requires start <= k && OccursAt(s, p, k)
    requires forall j :: start <= j < k ==> !OccursAt(s, p, j)
    ensures Find(s, p, start) == k
  {
  }

  /** `Find` returns -1 exactly when nothing occurs at or after `start`. */
  lemma FindNone(s: string, p: string, start: nat)
    requires forall j :: start <= j ==> !OccursAt(s, p, j)
    ensures Find(s, p, start) == -1
  {
  }

  /** Python's `p in s`. */
  predicate Contains(s: string, p: string) {
    Find(s, p, 0) >= 0
  }

  lemma ContainsIff(s: string, p: string)
    ensures Contains(s, p) <==> exists i :: OccursAt(s, p, i)
  {
    if exists i :: OccursAt(s, p, i) {
      var i :| OccursAt(s, p, i);
      assert 0 <= i;
    }
  }

  /** A string none of whose characters is `c` contains no pattern starting with `c`. */
  lemma NoOccurrenceWithoutHead(s: string, p: string, lo: int, hi: int)
    requires |p| > 0 && 0 <= lo <= hi <= |s|
    requires forall k :: lo <= k < hi ==> s[k] != p[0]
    ensures forall j :: lo <= j < hi ==> !OccursAt(s, p, j)
  {
    forall j | lo <= j < hi ensures !OccursAt(s, p, j) {
      assert s[j] != p[0];
    }
  }

  /** The characters of an occurrence are those of the pattern. */
  lemma OccursChars(s: string, p: string, i: int)
    requires OccursAt(s, p, i)
    ensures forall d :: 0 <= d < |p| ==> s[i + d] == p[d]
  {
    forall d | 0 <= d < |p| ensures s[i + d] == p[d] {
      assert s[i..i + |p|][d] == s[i + d];
    }
  }

  /** One mismatching character rules out an occurrence. */
  lemma NotAt(s: string, p: string, i: int, d: int)
    requires 0 <= d < |p| && 0 <= i && i + d < |s| && s[i + d] != p[d]
    ensures !OccursAt(s, p, i)
  {
    if i + |p| <= |s| {
      assert s[i..i + |p|][d] == s[i + d];
    }
  }

  /** `Find` stops at the first occurrence when no earlier index holds the
      pattern's first character. */
  lemma FindFirstAt(s: string, p: string, start: nat, k: int)
    requires |p| > 0 && start <= k && OccursAt(s, p, k)
    requires forall j :: start <= j < k ==> s[j] != p[0]
    ensures Find(s, p, start) == k
  {
    NoOccurrenceWithoutHead(s, p, start, k);
    FindIs(s, p, start, k);
  }

  /** Skipping a stretch without occurrences does not change what `Find` returns. */
  lemma FindSame(s: string, p: string, a: nat, b: nat)
    requires a <= b
    requires forall j :: a <= j < b ==> !OccursAt(s, p, j)
    ensures Find(s, p, a) == Find(s, p, b)
  {
    var r := Find(s, p, b);
    if r >= 0 {
      FindIs(s, p, a, r);
    } else {
      FindNone(s, p, a);
    }
  }

  /** `Find` fails when the pattern's first character never occurs from `start` on. */
  lemma FindNoHead(s: string, p: string, start: nat)
    requires |p| > 0
    requires forall j :: start <= j < |s| ==> s[j] != p[0]
    ensures Find(s, p, start) == -1
  {
    forall j | start <= j ensures !OccursAt(s, p, j) {
      if j < |s| {
        NotAt(s, p, j, 0);
      }
    }
    FindNone(s, p, start);
  }

  /** An occurrence is unaffected by what is put in front of the string. */
  lemma OccursShift(a: string, b: string, p: string, j: int)
    requires 0 <= j
    ensures OccursAt(a + b, p, |a| + j) <==> OccursAt(b, p, j)
  {
    if j + |p| <= |b| {
      assert (a + b)[|a| + j..|a| + j + |p|] == b[j..j + |p|];
    }
  }

  /** Searching after a prefix is searching the rest. */
  lemma FindShift(a: string, b: string, p: string, i: nat)
    ensures Find(a + b, p, |a| + i) == (if Find(b, p, i) < 0 then -1 else |a| + Find(b, p, i))
  {
    var r := Find(b, p, i);
    forall j | |a| + i <= j && (r < 0 || j < |a| + r) ensures !OccursAt(a + b, p, j) {
      OccursShift(a, b, p, j - |a|);
    }
    if r >= 0 {
      OccursShift(a, b, p, r);
      FindIs(a + b, p, |a| + i, |a| + r);
    } else {
      FindNone(a + b, p, |a| + i);
    }
  }

  /** The first occurrence is right after a prefix without the pattern's first character. */
  lemma FindAfter(pre: string, rest: string, p: string)
    requires |p| > 0 && p[0] !in pre && StartsWith(rest, p)
    ensures Find(pre + rest, p, 0) == |pre|
  {
    var s := pre + rest;
    assert s[|pre|..|pre| + |p|] == rest[..|p|];
    forall j | 0 <= j < |pre| ensures s[j] != p[0] {
      assert s[j] == pre[j];
    }
    FindFirstAt(s, p, 0, |pre|);
  }

  /** A slice that spells `x + y` splits into a slice spelling `x` and one spelling `y`. */
  lemma SplitSlice(s: string, i: int, x: string, y: string)
    requires 0 <= i && i + |x| + |y| <= |s| && s[i..i + |x| + |y|] == x + y
    ensures s[i..i + |x|] == x && s[i + |x|..i + |x| + |y|] == y
  {
    assert s[i..i + |x|] == s[i..i + |x| + |y|][..|x|];
    assert s[i + |x|..i + |x| + |y|] == s[i..i + |x| + |y|][|x|..];
  }

  lemma ConcatAssoc(x: string, y: string, z: string)
    ensures (x + y) + z == x + (y + z)
  {
  }

  /** `SplitSlice` with the cut points named. */
  lemma SplitSliceAt(s: string, i: int, j: int, k: int, x: string, y: string)
    requires 0 <= i && j == i + |x| && k == j + |y| && k <= |s| && s[i..k] == x + y
    ensures s[i..j] == x && s[j..k] == y
  {
    SplitSlice(s, i, x, y);
  }

  lemma NotInConcat(c: char, a: string, b: string)
    requires c !in a && c !in b
    ensures c !in a + b
  {
  }

  /** The characters of a concatenation, piece by piece. */
  lemma CharsOfConcat(line: string, a: string, b: string)
    requires line == a + b
    ensures forall k :: 0 <= k < |a| ==> line[k] == a[k]
    ensures forall k :: |a| <= k < |line| ==> line[k] == b[k - |a|]
  {
  }

  /** A character missing from the head is at no index of the head. */
  lemma CharAbsentBefore(line: string, a: string, b: string, ch: char)
    requires line == a + b && ch !in a
    ensures forall k :: 0 <= k < |a| ==> line[k] != ch
  {
    forall k | 0 <= k < |a| ensures line[k] != ch {
      assert line[k] == a[k] && a[k] in a;
    }
  }

  /** A character missing from the tail is at no index of the tail. */
  lemma CharAbsentAfter(line: string, a: string, b: string, ch: char)
    requires line == a + b && ch !in b
    ensures forall k :: |a| <= k < |line| ==> line[k] != ch
  {
    forall k | |a| <= k < |line| ensures line[k] != ch {
      assert line[k] == b[k - |a|] && b[k - |a|] in b;
    }
  }

  /** A pattern that starts the tail occurs right after the head. */
  lemma OccursAfter(line: string, pre: string, tail: string, p: string)
    requires line == pre + tail && StartsWith(tail, p)
    ensures OccursAt(line, p, |pre|)
  {
    assert line[|pre|..|pre| + |p|] == tail[..|p|];
  }

  /** Six pieces, regrouped to the right. */
  lemma Regroup6(a: string, b: string, c: string, d: string, e: string, f: string)
    ensures a + b + c + d + e + f == a + (b + (c + (d + (e + f))))
  {
    calc {
      a + b + c + d + e + f;
      { ConcatAssoc(a + b + c + d, e, f); }
      a + b + c + d + (e + f);
      { ConcatAssoc(a + b + c, d, e + f); }
      a + b + c + (d + (e + f));
      { ConcatAssoc(a + b, c, d + (e + f)); }
      a + b + (c + (d + (e + f)));
      { ConcatAssoc(a, b, c + (d + (e + f))); }
      a + (b + (c + (d + (e + f))));
    }
  }

  predicate StartsWith(s: string, p: string) {
    |p| <= |s| && s[..|p|] == p
  }

  predicate EndsWith(s: string, p: string) {
    |p| <= |s| && s[|s| - |p|..] == p
  }

  /** Python's `str.isspace` for one character. */
  predicate IsSpace(c: char) {
    || c == ' '
    || ('\t' <= c <= '\r')
    || ('\U{1C}' <= c <= '\U{1F}')
    || c == '\U{85}' || c == '\U{A0}' || c == '\U{1680}'
    || ('\U{2000}' <= c <= '\U{200A}')
    || c == '\U{2028}' || c == '\U{2029}' || c == '\U{202F}' || c == '\U{205F}' || c == '\U{3000}'
  }

  /** The number of whitespace characters `s` starts with. */
  function LeadingSpaces(s: string): (n: nat)
    ensures n <= |s|
    ensures forall k :: 0 <= k < n ==> IsSpace(s[k])
    ensures n == |s| || !IsSpace(s[n])
  {
    if s == [] || !IsSpace(s[0]) then 0 else 1 + LeadingSpaces(s[1..])
  }

  /** The number of whitespace characters `s` ends with. */
  function TrailingSpaces(s: string): (n: nat)
    ensures n <= |s|
    ensures forall k :: |s| - n <= k < |s| ==> IsSpace(s[k])
    ensures n == |s| || !IsSpace(s[|s| - n - 1])
  {
    if s == [] || !IsSpace(s[|s| - 1]) then 0 else 1 + TrailingSpaces(s[..|s| - 1])
  }

  /** Python's `s.strip()`: whitespace removed at both ends. */
  function Strip(s: string): (r: string)
    ensures |r| <= |s|
    ensures r == [] || (!IsSpace(r[0]) && !IsSpace(r[|r| - 1]))
  {
    var t := s[LeadingSpaces(s)..];
    t[..|t| - TrailingSpaces(t)]
  }

  /** A string without whitespace at either end is its own `strip()`. */
  lemma StripNoEdges(s: string)
    requires s == [] || (!IsSpace(s[0]) && !IsSpace(s[|s| - 1]))
    ensures Strip(s) == s
  {
    assert LeadingSpaces(s) == 0;
    assert s[0..] == s;
  }

  /** `strip()` removes exactly the whitespace that surrounds the text. */
  lemma StripAround(pre: string, t: string, post: string)
    requires forall k :: 0 <= k < |pre| ==> IsSpace(pre[k])
    requires forall k :: 0 <= k < |post| ==> IsSpace(post[k])
    requires t == [] || (!IsSpace(t[0]) && !IsSpace(t[|t| - 1]))
    ensures Strip(pre + t + post) == t
  {
    var s := pre + t + post;
    if t == [] {
      assert forall k :: 0 <= k < |s| ==> IsSpace(s[k]);
      AllSpaceLeading(s);
    } else {
      LeadingSpacesIs(s, |pre|);
      var u := s[|pre|..];
      assert u == t + post;
      TrailingSpacesIs(u, |post|);
      assert u[..|u| - |post|] == t;
    }
  }

  /** `strip()` keeps any string that holds a non-whitespace character
      non-empty. */
  lemma StripNonEmpty(s: string, k: nat)
    requires k < |s| && !IsSpace(s[k])
    ensures Strip(s) != []
  {
    var n := LeadingSpaces(s);
    assert n <= k;
    var t := s[n..];
    assert t[k - n] == s[k];
    assert TrailingSpaces(t) < |t|;
  }

  /** `strip()` of a string that starts with a non-whitespace character
      starts with that character. */
  lemma StripKeepsHead(s: string)
    requires s != [] && !IsSpace(s[0])
    ensures Strip(s) != [] && Strip(s)[0] == s[0]
  {
    StripNonEmpty(s, 0);
    assert LeadingSpaces(s) == 0;
    assert s[0..] == s;
  }

  lemma AllSpaceLeading(s: string)
    requires forall k :: 0 <= k < |s| ==> IsSpace(s[k])
    ensures LeadingSpaces(s) == |s|
  {
  }

  lemma LeadingSpacesIs(s: string, n: nat)
    requires n < |s| && !IsSpace(s[n])
    requires forall k :: 0 <= k < n ==> IsSpace(s[k])
    ensures LeadingSpaces(s) == n
  {
  }

  lemma TrailingSpacesIs(s: string, n: nat)
    requires n < |s| && !IsSpace(s[|s| - n - 1])
    requires forall k :: |s| - n <= k < |s| ==> IsSpace(s[k])
    ensures TrailingSpaces(s) == n
  {
  }

  /** Python's `lower()` on one character, for ASCII and Latin-1 capitals;
      every other character is left as it is. */
  function LowerChar(c: char): (d: char)
  {
    if 'A' <= c <= 'Z' || ('\U{C0}' <= c <= '\U{DE}' && c != '\U{D7}') then (c as int + 32) as char
    else c
  }

  /** Python's `s.lower()`, character by character. */
  function Lower(s: string): (r: string)
    ensures |r| == |s|
    ensures forall k :: 0 <= k < |s| ==> r[k] == LowerChar(s[k])
  {
    seq(|s|, k requires 0 <= k < |s| => LowerChar(s[k]))
  }

  /** Python's `s.replace(p, q)`: every non-overlapping occurrence of `p`,
      scanned from the left, replaced by `q`. An empty `p` inserts `q`
      around every character. */
  function ReplaceAll(s: string, p: string, q: string): string
    decreases |s|
  {
    if p == [] then (if s == [] then q else q + [s[0]] + ReplaceAll(s[1..], p, q))
    else if |s| < |p| then s
    else if s[..|p|] == p then q + ReplaceAll(s[|p|..], p, q)
    else [s[0]] + ReplaceAll(s[1..], p, q)
  }

  /** Replacing a pattern that does not start anywhere in `s` changes nothing. */
  lemma {:induction false} ReplaceAbsent(s: string, p: string, q: string)
    requires p != [] && forall k :: 0 <= k < |s| ==> s[k] != p[0]
    ensures ReplaceAll(s, p, q) == s
    decreases |s|
  {
    if |s| >= |p| {
      assert s[..|p|][0] == s[0];
      ReplaceAbsent(s[1..], p, q);
    }
  }

  /** Text that cannot start the pattern passes through `replace` unchanged. */
  lemma {:induction false} ReplacePlainPrefix(a: string, b: string, p: string, q: string)
    requires p != [] && p[0] !in a
    ensures ReplaceAll(a + b, p, q) == a + ReplaceAll(b, p, q)
    decreases |a|
  {
    if a == [] {
      assert a + b == b;
    } else if |a + b| < |p| {
      assert ReplaceAll(a + b, p, q) == a + b;
      assert ReplaceAll(b, p, q) == b;
    } else {
      var t := a[1..];
      assert (a + b)[0] == a[0] && (a + b)[1..] == t + b;
      assert p[0] !in t by {
        assert forall k :: 0 <= k < |t| ==> t[k] == a[k + 1];
      }
      ReplaceHeadKept(a + b, p, q);
      ReplacePlainPrefix(t, b, p, q);
      assert [a[0]] + (t + ReplaceAll(b, p, q)) == ([a[0]] + t) + ReplaceAll(b, p, q);
      assert [a[0]] + t == a;
    }
  }

  /** A string whose first character cannot start the pattern keeps it. */
  lemma ReplaceHeadKept(s: string, p: string, q: string)
    requires p != [] && |s| >= |p| && s[0] != p[0]
    ensures ReplaceAll(s, p, q) == [s[0]] + ReplaceAll(s[1..], p, q)
  {
    assert s[..|p|][0] != p[0];
  }

  /** An occurrence at the head is replaced, and `replace` goes on after it. */
  lemma ReplaceAtHead(p: string, b: string, q: string)
    requires p != []
    ensures ReplaceAll(p + b, p, q) == q + ReplaceAll(b, p, q)
  {
    var s := p + b;
    assert s[..|p|] == p;
    assert s[|p|..] == b;
  }

  /** Deleting a non-empty pattern never makes a string longer. */
  lemma {:induction false} ReplaceDeleteShrinks(s: string, p: string)
    requires p != []
    ensures |ReplaceAll(s, p, [])| <= |s|
    decreases |s|
  {
    if |s| >= |p| {
      if s[..|p|] == p {
        ReplaceDeleteShrinks(s[|p|..], p);
      } else {
        ReplaceDeleteShrinks(s[1..], p);
      }
    }
  }

  /** Replacing a pattern by text no longer than it never lengthens `s`. */
  lemma {:induction false} ReplaceNoLonger(s: string, p: string, q: string)
    requires p != [] && |q| <= |p|
    ensures |ReplaceAll(s, p, q)| <= |s|
    decreases |s|
  {
    if |s| >= |p| {
      if s[..|p|] == p {
        ReplaceNoLonger(s[|p|..], p, q);
      } else {
        ReplaceNoLonger(s[1..], p, q);
      }
    }
  }

  /** The number of occurrences of character `c` in `s`. */
  function CountChar(s: string, c: char): nat {
    if s == [] then 0 else (if s[0] == c then 1 else 0) + CountChar(s[1..], c)
  }

  lemma {:induction false} CountCharAppend(a: string, b: string, c: char)
    ensures CountChar(a + b, c) == CountChar(a, c) + CountChar(b, c)
    decreases |a|
  {
    if a == [] {
      assert a + b == b;
    } else {
      assert (a + b)[1..] == a[1..] + b;
      CountCharAppend(a[1..], b, c);
    }
  }

  lemma {:induction false} CountCharAbsent(s: string, c: char)
    requires c !in s
    ensures CountChar(s, c) == 0
    decreases |s|
  {
    if s != [] {
      assert s[0] in s;
      CountCharAbsent(s[1..], c);
    }
  }

  /** Python's `s.split(sep)` for a one-character separator. */
  function Split(s: string, sep: char): (r: seq<string>)
    ensures |r| == CountChar(s, sep) + 1
    ensures forall k :: 0 <= k < |r| ==> sep !in r[k]
  {
    if s == [] then [[]]
    else
      var rest := Split(s[1..], sep);
      if s[0] == sep then [[]] + rest
      else [[s[0]] + rest[0]] + rest[1..]
  }

  /** Python's `sep.join(parts)`. */
  function Join(parts: seq<string>, sep: string): string {
    if parts == [] then []
    else if |parts| == 1 then parts[0]
    else parts[0] + sep + Join(parts[1..], sep)
  }

  /** Splitting undoes joining on a separator the parts do not contain. */
  lemma {:induction false} SplitJoin(parts: seq<string>, sep: char)
    requires |parts| >= 1
    requires forall k :: 0 <= k < |parts| ==> sep !in parts[k]
    ensures Split(Join(parts, [sep]), sep) == parts
    decreases |parts|
  {
    if |parts| == 1 {
      SplitNoSep(parts[0], sep);
    } else {
      SplitJoin(parts[1..], sep);
      SplitPrefix(parts[0], Join(parts[1..], [sep]), sep);
    }
  }

  /** Joining the pieces of a split on the same separator gives the text back. */
  lemma {:induction false} JoinSplit(s: string, sep: char)
    ensures Join(Split(s, sep), [sep]) == s
    decreases |s|
  {
    if s != [] {
      var rest := Split(s[1..], sep);
      JoinSplit(s[1..], sep);
      if s[0] == sep {
        JoinEmptyHead(rest, [sep]);
      } else {
        JoinHeadChar(s[0], rest, [sep]);
      }
      assert [s[0]] + s[1..] == s;
    }
  }

  /** An empty first part contributes only the separator. */
  lemma JoinEmptyHead(rest: seq<string>, sep: string)
    requires |rest| >= 1
    ensures Join([[]] + rest, sep) == sep + Join(rest, sep)
  {
    assert ([[]] + rest)[1..] == rest;
  }

  /** A character put in front of the first part comes out in front of the join. */
  lemma JoinHeadChar(c: char, rest: seq<string>, sep: string)
    requires |rest| >= 1
    ensures Join([[c] + rest[0]] + rest[1..], sep) == [c] + Join(rest, sep)
  {
    var parts := [[c] + rest[0]] + rest[1..];
    if |rest| > 1 {
      assert parts[1..] == rest[1..];
      assert ([c] + rest[0]) + sep + Join(rest[1..], sep) == [c] + (rest[0] + sep + Join(rest[1..], sep));
    }
  }

  lemma {:induction false} SplitNoSep(s: string, sep: char)
    requires sep !in s
    ensures Split(s, sep) == [s]
    decreases |s|
  {
    if s != [] {
      assert s[0] in s;
      SplitNoSep(s[1..], sep);
      assert [s[0]] + s[1..] == s;
    }
  }

  lemma {:induction false} SplitPrefix(a: string, b: string, sep: char)
    requires sep !in a
    ensures Split(a + [sep] + b, sep) == [a] + Split(b, sep)
    decreases |a|
  {
    if a == [] {
      assert a + [sep] + b == [sep] + b;
    } else {
      assert a[0] in a;
      assert (a + [sep] + b)[0] == a[0];
      assert (a + [sep] + b)[1..] == a[1..] + [sep] + b;
      SplitPrefix(a[1..], b, sep);
      assert [a[0]] + a[1..] == a;
    }
  }
}
