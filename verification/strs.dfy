/**
 * The Python `str` operations the modelled code relies on, over `string` (a `seq<char>`):
 * prefix and suffix tests, substring search, `split`, `join`, `replace`, `count`, `strip`,
 * `splitlines`, `lower`, decimal rendering and parsing, and code-point ordering.
 */
module Strs {
  import opened Wrappers

  predicate StartsWith(s: string, p: string) {
    |p| <= |s| && s[..|p|] == p
  }

  predicate EndsWith(s: string, p: string) {
    |p| <= |s| && s[|s| - |p|..] == p
  }

  /** `t` occurs in `s` starting at offset `i`. */
  predicate OccursAt(s: string, t: string, i: int) {
    0 <= i && i + |t| <= |s| && s[i..i + |t|] == t
  }

  /** Python's `t in s`. */
  predicate Contains(s: string, t: string) {
    exists i | 0 <= i <= |s| - |t| :: OccursAt(s, t, i)
  }

  lemma OccursAtContains(s: string, t: string, i: int)
    requires OccursAt(s, t, i)
    ensures Contains(s, t)
  {
  }

  lemma StartsWithTransitive(a: string, b: string, c: string)
    requires StartsWith(b, a) && StartsWith(c, b)
    ensures StartsWith(c, a)
  {
    assert c[..|a|] == c[..|b|][..|a|];
  }

  lemma StartsWithContains(s: string, t: string)
    requires StartsWith(s, t)
    ensures Contains(s, t)
  {
    assert OccursAt(s, t, 0);
  }

  /** An occurrence inside a slice is an occurrence in the whole string. */
  lemma OccursInSlice(s: string, t: string, lo: int, hi: int, j: int)
    requires 0 <= lo <= hi <= |s|
    requires OccursAt(s[lo..hi], t, j)
    ensures OccursAt(s, t, lo + j)
  {
    var u := s[lo..hi];
    assert u[j..j + |t|] == t;
    forall k | 0 <= k < |t| ensures s[lo + j + k] == t[k] {
      assert t[k] == u[j..j + |t|][k] == u[j + k];
    }
    assert s[lo + j..lo + j + |t|] == t;
  }

  lemma ContainsSlice(s: string, t: string, lo: int, hi: int)
    requires 0 <= lo <= hi <= |s|
    requires Contains(s[lo..hi], t)
    ensures Contains(s, t)
  {
    var j :| 0 <= j <= hi - lo - |t| && OccursAt(s[lo..hi], t, j);
    OccursInSlice(s, t, lo, hi, j);
  }

  lemma ContainsLeft(a: string, b: string, t: string)
    requires Contains(a, t)
    ensures Contains(a + b, t)
  {
    var ab := a + b;
    assert ab[0..|a|] == a;
    ContainsSlice(ab, t, 0, |a|);
  }

  lemma ContainsRight(a: string, b: string, t: string)
    requires Contains(b, t)
    ensures Contains(a + b, t)
  {
    var ab := a + b;
    assert ab[|a|..|ab|] == b;
    ContainsSlice(ab, t, |a|, |ab|);
  }

  /** First offset at or after `k` where `t` occurs in `s`. */
  function IndexFrom(s: string, t: string, k: nat): (r: Option<nat>)
    requires k <= |s|
    ensures r.Some? ==> k <= r.value && OccursAt(s, t, r.value)
    ensures r.Some? ==> forall j | k <= j < r.value :: !OccursAt(s, t, j)
    ensures r.None? ==> forall j | k <= j :: !OccursAt(s, t, j)
    decreases |s| - k
  {
    if OccursAt(s, t, k) then Some(k)
    else if k + |t| >= |s| then None
    else IndexFrom(s, t, k + 1)
  }

  /** Python's `s.find(t)`, with `None` for -1. */
  function IndexOf(s: string, t: string): (r: Option<nat>)
    ensures r.Some? ==> OccursAt(s, t, r.value)
    ensures r.Some? ==> forall j | 0 <= j < r.value :: !OccursAt(s, t, j)
    ensures r.None? <==> !Contains(s, t)
  {
    IndexFrom(s, t, 0)
  }

  /** A prefix that ends before the first occurrence holds no occurrence. */
  lemma NoOccurrenceBefore(s: string, t: string, i: nat)
    requires |t| > 0 && i <= |s|
    requires forall j | 0 <= j < i :: !OccursAt(s, t, j)
    ensures !Contains(s[..i], t)
  {
    if Contains(s[..i], t) {
      var j :| 0 <= j <= i - |t| && OccursAt(s[..i], t, j);
      OccursInSlice(s, t, 0, i, j);
    }
  }

  /** Python's `sep.join(parts)`. */
  function Join(parts: seq<string>, sep: string): string
  {
    if |parts| == 0 then ""
    else if |parts| == 1 then parts[0]
    else parts[0] + sep + Join(parts[1..], sep)
  }

  /** A join begins with its first part. */
  lemma JoinStartsWithHead(x: string, rest: seq<string>, sep: string)
    ensures StartsWith(Join([x] + rest, sep), x)
  {
    if |rest| > 0 {
      assert ([x] + rest)[1..] == rest;
      assert (x + sep + Join(rest, sep))[..|x|] == x;
    }
  }

  /** A join whose first part is not empty is not empty. */
  lemma JoinNonEmpty(parts: seq<string>, sep: string)
    requires |parts| > 0 && |parts[0]| > 0
    ensures Join(parts, sep) != ""
  {
    assert parts == [parts[0]] + parts[1..];
    JoinStartsWithHead(parts[0], parts[1..], sep);
  }

  /** Two parts join around one separator. */
  lemma JoinPair(x: string, y: string, sep: string)
    ensures Join([x, y], sep) == x + sep + y
  {
    assert [x, y][1..] == [y];
  }

  lemma {:induction false} JoinAppend(parts: seq<string>, x: string, sep: string)
    requires |parts| > 0
    ensures Join(parts + [x], sep) == Join(parts, sep) + sep + x
  {
    if |parts| == 1 {
    } else {
      assert (parts + [x])[1..] == parts[1..] + [x];
      JoinAppend(parts[1..], x, sep);
    }
  }

  lemma {:induction false} JoinConcat(a: seq<string>, b: seq<string>, sep: string)
    requires |a| > 0 && |b| > 0
    ensures Join(a + b, sep) == Join(a, sep) + sep + Join(b, sep)
  {
    var ab := a + b;
    assert ab[0] == a[0];
    if |a| == 1 {
      assert ab[1..] == b;
      assert Join(ab, sep) == a[0] + sep + Join(b, sep);
    } else {
      assert ab[1..] == a[1..] + b;
      JoinConcat(a[1..], b, sep);
      calc {
        Join(ab, sep);
        a[0] + sep + Join(a[1..] + b, sep);
        a[0] + sep + (Join(a[1..], sep) + sep + Join(b, sep));
        (a[0] + sep + Join(a[1..], sep)) + sep + Join(b, sep);
      }
    }
  }

  /** Python's `s.split(sep)` for a non-empty separator: the pieces between occurrences,
      found left to right without overlap. */
  function Split(s: string, sep: string): (parts: seq<string>)
    requires |sep| > 0
    ensures |parts| >= 1
    ensures Join(parts, sep) == s
    ensures forall k | 0 <= k < |parts| :: !Contains(parts[k], sep)
    decreases |s|
  {
    match IndexOf(s, sep)
    case None => [s]
    case Some(i) =>
      NoOccurrenceBefore(s, sep, i);
      var rest := Split(s[i + |sep|..], sep);
      SplitCons(s, sep, i, rest);
      [s[..i]] + rest
  }

  /** A string is the part before `i`, the slice from `i` to `j`, and the rest. */
  lemma SliceAround(s: string, i: nat, j: nat)
    requires i <= j <= |s|
    ensures s == s[..i] + s[i..j] + s[j..]
  {
    assert s[..i] + s[i..j] == s[..j];
  }

  /** One step of `Split`: the piece before the first separator, then the pieces after it. */
  lemma SplitCons(s: string, sep: string, i: nat, rest: seq<string>)
    requires OccursAt(s, sep, i) && !Contains(s[..i], sep)
    requires |rest| >= 1 && Join(rest, sep) == s[i + |sep|..]
    requires forall k | 0 <= k < |rest| :: !Contains(rest[k], sep)
    ensures Join([s[..i]] + rest, sep) == s
    ensures forall k | 0 <= k < |[s[..i]] + rest| :: !Contains(([s[..i]] + rest)[k], sep)
  {
    var parts := [s[..i]] + rest;
    assert parts[1..] == rest;
    SliceAround(s, i, i + |sep|);
    forall k | 0 <= k < |parts| ensures !Contains(parts[k], sep) {
      if k > 0 {
        assert parts[k] == rest[k - 1];
      }
    }
  }

  lemma SplitNoSep(s: string, sep: string)
    requires |sep| > 0 && !Contains(s, sep)
    ensures Split(s, sep) == [s]
  {
  }

  /** Splitting a string that has exactly one occurrence of `sep` gives the two sides. */
  lemma SplitOnce(a: string, b: string, sep: string)
    requires |sep| > 0 && !Contains(a, sep) && !Contains(b, sep)
    requires forall j | 0 <= j < |a| + |sep| :: !OccursAt(a + sep + b, sep, j) || j == |a|
    ensures Split(a + sep + b, sep) == [a, b]
  {
    var s := a + sep + b;
    assert OccursAt(s, sep, |a|);
    var r := IndexOf(s, sep);
    assert r.Some?;
    assert r.value == |a|;
    assert s[..|a|] == a;
    assert s[|a| + |sep|..] == b;
  }

  /** Python's `s.replace(pat, rep)` for a non-empty `pat`. */
  function ReplaceAll(s: string, pat: string, rep: string): string
    requires |pat| > 0
  {
    Join(Split(s, pat), rep)
  }

  lemma ReplaceAbsent(s: string, pat: string, rep: string)
    requires |pat| > 0 && !Contains(s, pat)
    ensures ReplaceAll(s, pat, rep) == s
  {
  }

  lemma ReplaceUnchanged(s: string, pat: string, rep: string)
    requires |pat| > 0
    ensures !Contains(s, pat) ==> ReplaceAll(s, pat, rep) == s
  {
    if !Contains(s, pat) {
      ReplaceAbsent(s, pat, rep);
    }
  }

  /** A one-character pattern occurs only where that character stands. */
  lemma CharAbsent(s: string, c: char)
    requires forall i | 0 <= i < |s| :: s[i] != c
    ensures !Contains(s, [c])
  {
    forall i | 0 <= i <= |s| - 1 ensures !OccursAt(s, [c], i) {
      assert s[i..i + 1][0] == s[i];
    }
  }

  /** Each piece of a join appears in it; the separator appears when there are two pieces. */
  lemma JoinContainsSep(parts: seq<string>, sep: string)
    requires |parts| >= 2
    ensures Contains(Join(parts, sep), sep)
  {
    var rest := Join(parts[1..], sep);
    var j := parts[0] + sep + rest;
    assert j[|parts[0]|..|parts[0]| + |sep|] == sep;
    assert OccursAt(j, sep, |parts[0]|);
  }

  lemma SplitWhenPresent(s: string, sep: string)
    requires |sep| > 0 && Contains(s, sep)
    ensures |Split(s, sep)| >= 2
  {
    assert IndexOf(s, sep).Some?;
  }

  /** Replacing an occurring `pat` puts `rep` into the result. */
  lemma ReplacePresent(s: string, pat: string, rep: string)
    requires |pat| > 0 && Contains(s, pat)
    ensures Contains(ReplaceAll(s, pat, rep), rep)
  {
    SplitWhenPresent(s, pat);
    JoinContainsSep(Split(s, pat), rep);
  }

  /** Python's `s.count(t)`: non-overlapping occurrences, `len(s) + 1` for the empty string. */
  function Count(s: string, t: string): nat
    decreases |s|
  {
    if |t| == 0 then |s| + 1
    else
      match IndexOf(s, t)
      case None => 0
      case Some(i) => 1 + Count(s[i + |t|..], t)
  }

  /** The count is the number of separators `split` finds. */
  lemma {:induction false} CountIsSplitGaps(s: string, t: string)
    requires |t| > 0
    ensures Count(s, t) == |Split(s, t)| - 1
    decreases |s|
  {
    match IndexOf(s, t)
    case None =>
    case Some(i) =>
      CountIsSplitGaps(s[i + |t|..], t);
  }

  lemma CountPositive(s: string, t: string)
    requires |t| > 0
    ensures Count(s, t) > 0 <==> Contains(s, t)
  {
  }

  /** Python's whitespace, the characters `str.strip()` removes. */
  const Whitespace: set<char> := {
    ' ', '\t', '\n', '\U{b}', '\U{c}', '\r', '\U{1c}', '\U{1d}', '\U{1e}', '\U{1f}', '\U{85}', '\U{a0}',
    '\U{1680}', '\U{2000}', '\U{2001}', '\U{2002}', '\U{2003}', '\U{2004}', '\U{2005}', '\U{2006}',
    '\U{2007}', '\U{2008}', '\U{2009}', '\U{200a}', '\U{2028}', '\U{2029}', '\U{202f}', '\U{205f}',
    '\U{3000}'
  }

  /** Python's `s.lstrip(chars)`. */
  function LStripSet(s: string, cs: set<char>): (r: string)
    ensures |r| <= |s| && r == s[|s| - |r|..]
    ensures |r| > 0 ==> r[0] !in cs
  {
    if |s| > 0 && s[0] in cs then LStripSet(s[1..], cs) else s
  }

  /** What `lstrip` removes is made of characters of `cs`. */
  lemma LStripRemoved(s: string, cs: set<char>)
    ensures forall k | 0 <= k < |s| - |LStripSet(s, cs)| :: s[k] in cs
  {
    if |s| > 0 && s[0] in cs {
      LStripRemoved(s[1..], cs);
    }
  }

  /** Python's `s.rstrip(chars)`. */
  function RStripSet(s: string, cs: set<char>): (r: string)
    ensures |r| <= |s| && r == s[..|r|]
    ensures |r| > 0 ==> r[|r| - 1] !in cs
  {
    if |s| > 0 && s[|s| - 1] in cs then RStripSet(s[..|s| - 1], cs) else s
  }

  /** What `rstrip` removes is made of characters of `cs`. */
  lemma RStripRemoved(s: string, cs: set<char>)
    ensures forall k | |RStripSet(s, cs)| <= k < |s| :: s[k] in cs
  {
    if |s| > 0 && s[|s| - 1] in cs {
      RStripRemoved(s[..|s| - 1], cs);
    }
  }

  /** Python's `s.strip(chars)`: a middle slice of `s` with no character of `cs` at either end. */
  function StripSet(s: string, cs: set<char>): (r: string)
    ensures |r| <= |s|
    ensures |r| > 0 ==> r[0] !in cs && r[|r| - 1] !in cs
  {
    var l := LStripSet(s, cs);
    var r := RStripSet(l, cs);
    assert |r| > 0 ==> r[0] == l[0];
    r
  }

  /** `strip` returns a contiguous slice of its argument. */
  lemma StripSetIsSlice(s: string, cs: set<char>)
    ensures var l := |s| - |LStripSet(s, cs)|;
      l + |StripSet(s, cs)| <= |s| && StripSet(s, cs) == s[l..l + |StripSet(s, cs)|]
  {
    var ls := LStripSet(s, cs);
    var r := RStripSet(ls, cs);
    assert StripSet(s, cs) == r;
    SliceOfSlice(s, |s| - |ls|, ls, r);
  }

  lemma SliceOfSlice(s: string, l: nat, ls: string, r: string)
    requires l <= |s| && ls == s[l..] && |r| <= |ls| && r == ls[..|r|]
    ensures l + |r| <= |s| && r == s[l..l + |r|]
  {
  }

  /** What `strip` leaves holds no occurrence the original did not. */
  lemma StripSetInside(s: string, cs: set<char>, t: string)
    requires !Contains(s, t)
    ensures !Contains(StripSet(s, cs), t)
  {
    StripSetIsSlice(s, cs);
    var l := |s| - |LStripSet(s, cs)|;
    var r := StripSet(s, cs);
    if Contains(r, t) {
      ContainsSlice(s, t, l, l + |r|);
    }
  }

  function Strip(s: string): string { StripSet(s, Whitespace) }

  function RStrip(s: string): string { RStripSet(s, Whitespace) }

  /** The characters Python's `str.splitlines()` breaks at. */
  const LineBreaks: set<char> := {
    '\n', '\r', '\U{b}', '\U{c}', '\U{1c}', '\U{1d}', '\U{1e}', '\U{85}', '\U{2028}', '\U{2029}'
  }

  function SplitLinesFrom(s: string, start: nat, i: nat): (lines: seq<string>)
    requires start <= i <= |s|
    requires forall k | start <= k < i :: s[k] !in LineBreaks
    ensures forall k | 0 <= k < |lines| :: forall c | c in lines[k] :: c !in LineBreaks
    decreases |s| - i
  {
    if i == |s| then
      (if start < |s| then [s[start..]] else [])
    else if s[i] in LineBreaks then
      var next := if s[i] == '\r' && i + 1 < |s| && s[i + 1] == '\n' then i + 2 else i + 1;
      [s[start..i]] + SplitLinesFrom(s, next, next)
    else
      SplitLinesFrom(s, start, i + 1)
  }

  /** Python's `s.splitlines()`: lines without their terminators, no trailing empty line. */
  function SplitLines(s: string): (lines: seq<string>)
    ensures forall k | 0 <= k < |lines| :: forall c | c in lines[k] :: c !in LineBreaks
  {
    SplitLinesFrom(s, 0, 0)
  }

  lemma LStripKeeps(s: string, cs: set<char>)
    requires |s| > 0 && s[0] !in cs
    ensures LStripSet(s, cs) == s
  {
  }

  lemma RStripKeeps(s: string, cs: set<char>)
    requires |s| > 0 && s[|s| - 1] !in cs
    ensures RStripSet(s, cs) == s
  {
  }

  lemma StripKeeps(s: string, cs: set<char>)
    requires |s| > 0 && s[0] !in cs && s[|s| - 1] !in cs
    ensures StripSet(s, cs) == s
  {
    LStripKeeps(s, cs);
    RStripKeeps(s, cs);
  }

  predicate NoLineBreak(s: string) {
    forall k | 0 <= k < |s| :: s[k] !in LineBreaks
  }

  /** Scanning over characters that are not line breaks does not cut a line. */
  lemma {:induction false} SplitLinesScan(s: string, start: nat, i: nat, j: nat)
    requires start <= i <= j <= |s|
    requires forall k | start <= k < j :: s[k] !in LineBreaks
    ensures SplitLinesFrom(s, start, i) == SplitLinesFrom(s, start, j)
    decreases j - i
  {
    if i < j {
      SplitLinesScan(s, start, i + 1, j);
    }
  }

  /** Where `s[start..]` is a line, a line feed and more, those are found at their places in `s`. */
  lemma JoinedAt(s: string, start: nat, l: string, rest: string)
    requires start <= |s| && s[start..] == l + "\n" + rest
    ensures start + |l| < |s| && s[start..start + |l|] == l
    ensures s[start + |l|] == '\n' && s[start + |l| + 1..] == rest
  {
    var t := s[start..];
    assert t[..|l|] == l;
    assert t[|l|] == '\n';
    assert t[|l| + 1..] == rest;
  }

  lemma {:induction false} SplitLinesFromJoin(s: string, lines: seq<string>, start: nat)
    requires start <= |s| && s[start..] == Join(lines, "\n")
    requires |lines| > 0 && |lines[|lines| - 1]| > 0
    requires forall k | 0 <= k < |lines| :: NoLineBreak(lines[k])
    ensures SplitLinesFrom(s, start, start) == lines
    decreases |lines|
  {
    var l := lines[0];
    var e := start + |l|;
    if |lines| == 1 {
      assert s[start..] == l;
    } else {
      JoinedAt(s, start, l, Join(lines[1..], "\n"));
    }
    assert s[start..e] == l;
    assert NoLineBreak(l);
    forall k | start <= k < e ensures s[k] !in LineBreaks {
      assert s[k] == l[k - start];
    }
    SplitLinesScan(s, start, start, e);
    if |lines| == 1 {
      assert e == |s|;
      assert s[start..] == l;
    } else {
      var rest := lines[1..];
      SplitLinesFromJoin(s, rest, e + 1);
      assert SplitLinesFrom(s, start, e) == [l] + rest;
      assert lines == [l] + rest;
    }
  }

  /** `splitlines` undoes joining break-free lines with "\n" (when the last line is not empty). */
  lemma SplitLinesJoin(lines: seq<string>)
    requires |lines| > 0 && |lines[|lines| - 1]| > 0
    requires forall k | 0 <= k < |lines| :: NoLineBreak(lines[k])
    ensures SplitLines(Join(lines, "\n")) == lines
  {
    var s := Join(lines, "\n");
    assert s[0..] == s;
    SplitLinesFromJoin(s, lines, 0);
  }

  function LowerChar(c: char): char {
    if 'A' <= c <= 'Z' then (c as int + 32) as char else c
  }

  /** Python's `s.lower()`, on the ASCII letters. */
  function Lower(s: string): (r: string)
    ensures |r| == |s|
    ensures forall k | 0 <= k < |s| :: r[k] == LowerChar(s[k])
    ensures forall k | 0 <= k < |s| :: !('A' <= r[k] <= 'Z')
  {
    seq(|s|, k requires 0 <= k < |s| => LowerChar(s[k]))
  }

  lemma LowerIdempotent(s: string)
    ensures Lower(Lower(s)) == Lower(s)
  {
  }

  predicate IsDigit(c: char) { '0' <= c <= '9' }

  predicate AllDigits(s: string) { forall k | 0 <= k < |s| :: IsDigit(s[k]) }

  function DigitChar(d: nat): char
    requires d < 10
  {
    ('0' as int + d) as char
  }

  /** Python's `str(n)` for a natural number. */
  function NatToString(n: nat): (r: string)
    ensures |r| >= 1 && AllDigits(r)
    ensures n < 10 <==> |r| == 1
  {
    if n < 10 then [DigitChar(n)] else NatToString(n / 10) + [DigitChar(n % 10)]
  }

  /** Python's `int(s)` on a non-empty string of ASCII digits. */
  function ParseNat(s: string): nat
    requires AllDigits(s)
  {
    if |s| == 0 then 0 else ParseNat(s[..|s| - 1]) * 10 + (s[|s| - 1] as int - '0' as int)
  }

  lemma {:induction false} ParseNatToString(n: nat)
    ensures ParseNat(NatToString(n)) == n
  {
    if n >= 10 {
      var r := NatToString(n);
      assert r[..|r| - 1] == NatToString(n / 10);
      ParseNatToString(n / 10);
    }
  }

  /** Leading zeros do not change the parsed value. */
  lemma {:induction false} ParseNatLeadingZero(s: string)
    requires AllDigits(s)
    ensures ParseNat("0" + s) == ParseNat(s)
    decreases |s|
  {
    if |s| > 0 {
      var z := "0" + s;
      assert z[..|z| - 1] == "0" + s[..|s| - 1];
      ParseNatLeadingZero(s[..|s| - 1]);
    }
  }

  /** Python's `<=` on strings: lexicographic by code point, a proper prefix first. */
  predicate LexLe(a: string, b: string)
    decreases |a|
  {
    |a| == 0 || (|b| > 0 && (a[0] < b[0] || (a[0] == b[0] && LexLe(a[1..], b[1..]))))
  }

  lemma LexTotal(a: string, b: string)
    ensures LexLe(a, b) || LexLe(b, a)
    decreases |a|
  {
    if |a| > 0 && |b| > 0 && a[0] == b[0] {
      LexTotal(a[1..], b[1..]);
    }
  }

  lemma LexAntisymmetric(a: string, b: string)
    requires LexLe(a, b) && LexLe(b, a)
    ensures a == b
    decreases |a|
  {
    if |a| > 0 {
      LexAntisymmetric(a[1..], b[1..]);
      assert a == [a[0]] + a[1..];
      assert b == [b[0]] + b[1..];
    }
  }
}
