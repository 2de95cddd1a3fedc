/**
 * The text edits of claudex/copier.py: appending `.claude/` to `.gitignore`, and patching the
 * `LINT_DIRS` / `LINT_EXTENSIONS` lines of the stop-lint hook, either from the detected profile or
 * from a preset's dash lists. A file is an `Option<string>`: `None` when it does not exist.
 */
module CopierText {
  import opened Wrappers
  import opened Strs
  import Detectors

  // ---------------------------------------------------------------------------------------
  // ensure_gitignore

  const GitignoreMarker := ".claude/"
  const GitignoreBlock := "\n# Claude Code config\n.claude/\n"

  /** The `.gitignore` after `ensure_gitignore`; a missing file reads as empty and is created. */
  function EnsureGitignore(gitignore: Option<string>): (r: string)
    ensures var prev := gitignore.GetOr("");
            && StartsWith(r, prev)
            && Contains(r, GitignoreMarker)
            && (Contains(prev, GitignoreMarker) ==> r == prev)
            && (!Contains(prev, GitignoreMarker) ==>
                  var added := r[|prev|..];
                  && EndsWith(added, GitignoreBlock)
                  && (|added| == |GitignoreBlock| + 1 <==> prev != "" && !EndsWith(prev, "\n"))
                  && (|added| == |GitignoreBlock| + 1 ==> added == "\n" + GitignoreBlock)
                  && (|added| == |GitignoreBlock| || |added| == |GitignoreBlock| + 1))
  {
    var prev := gitignore.GetOr("");
    if Contains(prev, GitignoreMarker) then prev
    else
      var sep := if prev != "" && !EndsWith(prev, "\n") then "\n" else "";
      var tail := sep + GitignoreBlock;
      var r := prev + tail;
      assert GitignoreBlock[|GitignoreBlock| - 9..|GitignoreBlock| - 1] == GitignoreMarker;
      assert tail[|tail| - 9..|tail| - 1] == GitignoreMarker;
      OccursAtContains(r, GitignoreMarker, |r| - 9);
      assert r[..|prev|] == prev;
      assert r[|prev|..] == tail;
      r
  }

  /** A second call finds the marker and leaves the file as the first call left it. */
  lemma GitignoreIdempotent(gitignore: Option<string>)
    ensures EnsureGitignore(Some(EnsureGitignore(gitignore))) == EnsureGitignore(gitignore)
  {
  }

  // ---------------------------------------------------------------------------------------
  // Python's repr of strings and lists of strings

  /** The quote `repr` chooses: single, unless the text has a single quote and no double one. */
  function QuoteFor(s: string): (q: char)
    ensures q == '\'' || q == '"'
    ensures q == '"' ==> q !in s
  {
    if '\'' in s && '"' !in s then '"' else '\''
  }

  /** A Latin-1 character `repr` writes as `\xNN`: the C0 controls other than tab, line feed and
      carriage return, DEL and the C1 controls, the no-break space and the soft hyphen. */
  predicate HexEscaped(c: char) {
    var n := c as int;
    (n < 0x20 && c != '\t' && c != '\n' && c != '\r') || (0x7f <= n <= 0xa0) || n == 0xad
  }

  const HexDigits := "0123456789abcdef"

  function HexValue(d: char): (n: nat)
    ensures n < 16
    ensures d in HexDigits ==> HexDigits[n] == d
  {
    if '0' <= d <= '9' then d as int - '0' as int
    else if 'a' <= d <= 'f' then d as int - 'a' as int + 10
    else 0
  }

  /** One character inside a literal quoted with `q`. */
  function EscapeChar(c: char, q: char): (r: string)
    ensures |r| > 0
    ensures |r| == 1 <==> r == [c]
    ensures |r| > 1 ==> r[0] == '\\'
  {
    if c == '\\' then "\\\\"
    else if c == q then ['\\', q]
    else if c == '\n' then "\\n"
    else if c == '\r' then "\\r"
    else if c == '\t' then "\\t"
    else if HexEscaped(c) then ['\\', 'x', HexDigits[c as int / 16], HexDigits[c as int % 16]]
    else [c]
  }

  function Escape(s: string, q: char): string {
    if |s| == 0 then "" else EscapeChar(s[0], q) + Escape(s[1..], q)
  }

  /** `repr(s)`. */
  function StrRepr(s: string): (r: string)
    ensures |r| >= 2 && r[0] == r[|r| - 1] == QuoteFor(s)
  {
    var q := QuoteFor(s);
    [q] + Escape(s, q) + [q]
  }

  /** `repr(xs)` for a list of strings. */
  function ListRepr(xs: seq<string>): (r: string)
    ensures |r| >= 2 && r[0] == '[' && r[|r| - 1] == ']'
  {
    "[" + Join(Reprs(xs), ", ") + "]"
  }

  function Reprs(xs: seq<string>): (r: seq<string>)
    ensures |r| == |xs| && forall k | 0 <= k < |xs| :: r[k] == StrRepr(xs[k])
  {
    if |xs| == 0 then [] else [StrRepr(xs[0])] + Reprs(xs[1..])
  }

  /** Reading the body of a string literal back: the escapes `repr` writes. */
  function Unescape(t: string): string
    decreases |t|
  {
    if |t| == 0 then ""
    else if t[0] == '\\' && |t| >= 4 && t[1] == 'x' && t[2] in HexDigits && t[3] in HexDigits then
      [(HexValue(t[2]) * 16 + HexValue(t[3])) as char] + Unescape(t[4..])
    else if t[0] == '\\' && |t| >= 2 then
      [if t[1] == 'n' then '\n' else if t[1] == 'r' then '\r' else if t[1] == 't' then '\t' else t[1]]
      + Unescape(t[2..])
    else [t[0]] + Unescape(t[1..])
  }

  /** The value of a quoted literal, if `t` is one. */
  function ReadLiteral(t: string): Option<string> {
    if |t| >= 2 && (t[0] == '\'' || t[0] == '"') && t[|t| - 1] == t[0] then Some(Unescape(t[1..|t| - 1]))
    else None
  }

  lemma UnescapeChar(c: char, q: char, rest: string)
    requires q == '\'' || q == '"'
    ensures Unescape(EscapeChar(c, q) + rest) == [c] + Unescape(rest)
  {
    var e := EscapeChar(c, q);
    if |e| == 4 {
      UnescapeHex(c, e, rest);
    } else if |e| == 2 {
      assert (e + rest)[2..] == rest;
    } else {
      assert (e + rest)[1..] == rest;
    }
  }

  /** A `\xNN` escape reads back as the character it encodes. */
  lemma UnescapeHex(c: char, e: string, rest: string)
    requires c as int < 256
    requires e == ['\\', 'x', HexDigits[c as int / 16], HexDigits[c as int % 16]]
    ensures Unescape(e + rest) == [c] + Unescape(rest)
  {
    var n := c as int;
    HexDigitsBack(n);
    assert (e + rest)[4..] == rest;
    assert (e + rest)[..4] == e;
  }

  lemma HexDigitsBack(n: int)
    requires 0 <= n < 256
    ensures HexDigits[n / 16] in HexDigits && HexDigits[n % 16] in HexDigits
    ensures HexValue(HexDigits[n / 16]) * 16 + HexValue(HexDigits[n % 16]) == n
  {
    var hi, lo := n / 16, n % 16;
    assert HexValue(HexDigits[hi]) == hi by { HexValueOf(hi); }
    assert HexValue(HexDigits[lo]) == lo by { HexValueOf(lo); }
  }

  lemma HexValueOf(k: int)
    requires 0 <= k < 16
    ensures HexValue(HexDigits[k]) == k
  {
  }

  lemma {:induction false} UnescapeEscape(s: string, q: char)
    requires q == '\'' || q == '"'
    ensures Unescape(Escape(s, q)) == s
  {
    if |s| > 0 {
      UnescapeChar(s[0], q, Escape(s[1..], q));
      UnescapeEscape(s[1..], q);
    }
  }

  /** Python reads back exactly the string `repr` wrote. */
  lemma ReprRoundTrip(s: string)
    ensures ReadLiteral(StrRepr(s)) == Some(s)
  {
    var q := QuoteFor(s);
    var r := StrRepr(s);
    assert r[1..|r| - 1] == Escape(s, q);
    UnescapeEscape(s, q);
  }

  // ---------------------------------------------------------------------------------------
  // patch_lint_hook

  const DirsPlaceholder := "LINT_DIRS = [\"src/\", \"tests/\"]"
  const ExtsPlaceholder := "LINT_EXTENSIONS = [\".py\"]"

  /** The line that replaces each placeholder. */
  function DirsLine(dirs: seq<string>): string { "LINT_DIRS = " + ListRepr(dirs) }
  function ExtsLine(exts: seq<string>): string { "LINT_EXTENSIONS = " + ListRepr(exts) }

  function WithSlash(d: string): (r: string)
    ensures EndsWith(r, "/") && StartsWith(r, d)
    ensures EndsWith(d, "/") ==> r == d
    ensures !EndsWith(d, "/") ==> |r| == |d| + 1
  {
    if EndsWith(d, "/") then d else d + "/"
  }

  /** The directories to lint: the source and test directories, or `src/` and `tests/` when there
      are none, each with a trailing '/'. */
  function LintDirs(srcDirs: seq<string>, testDirs: seq<string>): (r: seq<string>)
    ensures |r| > 0
    ensures forall k | 0 <= k < |r| :: EndsWith(r[k], "/")
    ensures |srcDirs + testDirs| > 0 ==>
      |r| == |srcDirs + testDirs| && forall k | 0 <= k < |r| :: r[k] == WithSlash((srcDirs + testDirs)[k])
    ensures |srcDirs + testDirs| == 0 ==> r == ["src/", "tests/"]
  {
    var ds := if |srcDirs + testDirs| > 0 then srcDirs + testDirs else ["src/", "tests/"];
    seq(|ds|, k requires 0 <= k < |ds| => WithSlash(ds[k]))
  }

  /** The extensions to lint, by language. */
  function LintExtensions(language: Detectors.Language): (r: seq<string>)
    ensures |r| > 0
  {
    match language
    case Python => [".py"]
    case TypeScript => [".ts", ".tsx", ".js", ".jsx"]
    case JavaScript => [".ts", ".tsx", ".js", ".jsx"]
    case Mixed => [".py", ".ts", ".tsx", ".js", ".jsx"]
    case Unset => [".py"]
  }

  /** Python files are linted unless the project is pure TypeScript or JavaScript, and the
      TypeScript/JavaScript extensions exactly when it has any of those. */
  lemma LintExtensionsCover(language: Detectors.Language)
    ensures ".py" in LintExtensions(language) <==> !(language.TypeScript? || language.JavaScript?)
    ensures (".ts" in LintExtensions(language)) <==> (language.TypeScript? || language.JavaScript? || language.Mixed?)
    ensures forall e | e in LintExtensions(language) :: e in [".py", ".ts", ".tsx", ".js", ".jsx"]
  {
  }

  /** Both placeholder lines replaced, dirs first. */
  function PatchPlaceholders(content: string, dirs: Option<seq<string>>, exts: Option<seq<string>>): (r: string)
    ensures dirs.None? && exts.None? ==> r == content
    ensures !Contains(content, DirsPlaceholder) && !Contains(content, ExtsPlaceholder) ==> r == content
  {
    var afterDirs := if dirs.Some? then ReplaceAll(content, DirsPlaceholder, DirsLine(dirs.value)) else content;
    ReplaceUnchanged(content, DirsPlaceholder, DirsLine(dirs.GetOr([])));
    ReplaceUnchanged(afterDirs, ExtsPlaceholder, ExtsLine(exts.GetOr([])));
    if exts.Some? then ReplaceAll(afterDirs, ExtsPlaceholder, ExtsLine(exts.value)) else afterDirs
  }

  /** `patch_lint_hook`: the hook's new text, or `None` when there is no hook to patch. */
  function PatchLintHook(hook: Option<string>, srcDirs: seq<string>, testDirs: seq<string>,
                         language: Detectors.Language): (r: Option<string>)
    ensures hook.None? <==> r.None?
    ensures hook.Some? && !Contains(hook.value, DirsPlaceholder) && !Contains(hook.value, ExtsPlaceholder) ==> r == hook
  {
    match hook
    case None => None
    case Some(content) =>
      Some(PatchPlaceholders(content, Some(LintDirs(srcDirs, testDirs)), Some(LintExtensions(language))))
  }

  /** A text holding a placeholder once gets exactly the rendered line in its place. */
  lemma PatchOnce(a: string, b: string, pat: string, line: string)
    requires |pat| > 0 && !Contains(a, pat) && !Contains(b, pat)
    requires forall j | 0 <= j < |a| + |pat| :: !OccursAt(a + pat + b, pat, j) || j == |a|
    ensures ReplaceAll(a + pat + b, pat, line) == a + line + b
  {
    SplitOnce(a, b, pat);
    assert Join([a, b], line) == a + line + b;
  }

  /** `pat` occurs in `a + pat + b` exactly once: at `|a|`, and nowhere else. */
  predicate Once(a: string, pat: string, b: string) {
    && !Contains(a, pat) && !Contains(b, pat)
    && forall j | 0 <= j < |a| + |pat| :: !OccursAt(a + pat + b, pat, j) || j == |a|
  }

  /** What stands where the dirs placeholder line was: the rendered line, or the placeholder when
      there is no value. */
  function DirsOut(dirs: Option<seq<string>>): string {
    if dirs.Some? then DirsLine(dirs.value) else DirsPlaceholder
  }

  function ExtsOut(exts: Option<seq<string>>): string {
    if exts.Some? then ExtsLine(exts.value) else ExtsPlaceholder
  }

  /**
   * The layout of the shipped hook: the dirs placeholder line, then the extensions placeholder
   * line, each once. Each line with a value is replaced in place, and nothing else changes. A
   * rendered dirs line that itself holds the extensions placeholder would be rewritten by the
   * second `replace` as well, which the second requirement rules out.
   */
  lemma PlaceholdersBoth(a: string, m: string, c: string, dirs: Option<seq<string>>, exts: Option<seq<string>>)
    requires dirs.Some? ==> Once(a, DirsPlaceholder, m + ExtsPlaceholder + c)
    requires exts.Some? ==> Once(a + DirsOut(dirs) + m, ExtsPlaceholder, c)
    ensures PatchPlaceholders(a + DirsPlaceholder + m + ExtsPlaceholder + c, dirs, exts)
         == a + DirsOut(dirs) + m + ExtsOut(exts) + c
  {
    TwoPatches(a, m, c, DirsPlaceholder, ExtsPlaceholder, DirsLine(dirs.GetOr([])), ExtsLine(exts.GetOr([])),
               dirs.Some?, exts.Some?);
  }

  /** Two `replace` calls in a row, each of a pattern that occurs once at its place (or skipped),
      change only those two places. */
  lemma TwoPatches(a: string, m: string, c: string, p: string, q: string, x: string, y: string, gp: bool, gq: bool)
    requires |p| > 0 && |q| > 0
    requires gp ==> Once(a, p, m + q + c)
    requires gq ==> Once(a + (if gp then x else p) + m, q, c)
    ensures var s := a + p + m + q + c;
      var s1 := if gp then ReplaceAll(s, p, x) else s;
      (if gq then ReplaceAll(s1, q, y) else s1) == a + (if gp then x else p) + m + (if gq then y else q) + c
  {
    var b := m + q + c;
    assert a + p + m + q + c == a + p + b;
    PatchOrKeep(a, b, p, x, gp);
    var mid := a + (if gp then x else p) + m;
    assert a + (if gp then x else p) + b == mid + q + c;
    PatchOrKeep(mid, c, q, y, gq);
  }

  /** Replacing a placeholder that occurs once, or leaving it, changes only that occurrence. */
  lemma PatchOrKeep(a: string, b: string, pat: string, line: string, go: bool)
    requires |pat| > 0
    requires go ==> Once(a, pat, b)
    ensures (if go then ReplaceAll(a + pat + b, pat, line) else a + pat + b) == a + (if go then line else pat) + b
  {
    if go {
      PatchOnce(a, b, pat, line);
    }
  }

  /** `patch_lint_hook` on the shipped layout: the detected directories and the language's
      extensions replace the two placeholder lines, and nothing else changes. */
  lemma PatchLintHookBoth(a: string, m: string, c: string, srcDirs: seq<string>, testDirs: seq<string>,
                          language: Detectors.Language)
    requires Once(a, DirsPlaceholder, m + ExtsPlaceholder + c)
    requires Once(a + DirsLine(LintDirs(srcDirs, testDirs)) + m, ExtsPlaceholder, c)
    ensures PatchLintHook(Some(a + DirsPlaceholder + m + ExtsPlaceholder + c), srcDirs, testDirs, language)
         == Some(a + DirsLine(LintDirs(srcDirs, testDirs)) + m + ExtsLine(LintExtensions(language)) + c)
  {
    PlaceholdersBoth(a, m, c, Some(LintDirs(srcDirs, testDirs)), Some(LintExtensions(language)));
  }

  // ---------------------------------------------------------------------------------------
  // patch_lint_hook_from_preset

  /** One list item: the stripped line without leading '-' and ' ', then without surrounding
      double and then single quotes. */
  function DashItem(line: string): string {
    StripSet(StripSet(LStripSet(Strip(line), {'-', ' '}), {'"'}), {'\''})
  }

  /** The item a line gives, when its stripped form starts with '-'. */
  function DashItemOf(line: string): (r: Option<string>)
    ensures r.Some? <==> StartsWith(Strip(line), "-")
  {
    if StartsWith(Strip(line), "-") then Some(DashItem(line)) else None
  }

  /** The values `f` gives over `lines`, in order, dropping the lines it gives nothing for (a list
      comprehension with an `if`). */
  function Collect(lines: seq<string>, f: string -> Option<string>): (r: seq<string>)
    ensures |r| <= |lines|
  {
    if |lines| == 0 then []
    else (if f(lines[0]).Some? then [f(lines[0]).value] else []) + Collect(lines[1..], f)
  }

  /** Lines `f` gives nothing for contribute nothing. */
  lemma {:induction false} CollectNone(lines: seq<string>, f: string -> Option<string>)
    requires forall k | 0 <= k < |lines| :: f(lines[k]).None?
    ensures Collect(lines, f) == []
  {
    if |lines| > 0 {
      CollectNone(lines[1..], f);
    }
  }

  /** Lines `f` gives a value for each contribute exactly that value. */
  lemma {:induction false} CollectAll(lines: seq<string>, items: seq<string>, f: string -> Option<string>)
    requires |lines| == |items|
    requires forall k | 0 <= k < |lines| :: f(lines[k]) == Some(items[k])
    ensures Collect(lines, f) == items
  {
    if |lines| > 0 {
      CollectAll(lines[1..], items[1..], f);
      assert items == [items[0]] + items[1..];
    }
  }

  /** The items of a dash list: one per line whose stripped form starts with '-'. */
  function DashItemsOf(lines: seq<string>): (r: seq<string>)
    ensures |r| <= |lines|
  {
    Collect(lines, DashItemOf)
  }

  function DashItems(text: string): seq<string> {
    DashItemsOf(SplitLines(Strip(text)))
  }

  /** The preset value of a list key: its items, when it is a non-empty string with any. */
  function PresetList(value: Option<string>): (r: Option<seq<string>>)
    ensures r.Some? ==> |r.value| > 0
    ensures value.None? || value.value == "" ==> r.None?
  {
    if value.Some? && value.value != "" && |DashItems(value.value)| > 0 then Some(DashItems(value.value)) else None
  }

  /** `patch_lint_hook_from_preset`, given the preset's `lint_dirs` and `lint_extensions` when they
      are strings. */
  function PatchLintHookFromPreset(hook: Option<string>, lintDirs: Option<string>, lintExtensions: Option<string>)
    : (r: Option<string>)
    ensures hook.None? <==> r.None?
    ensures hook.Some? && PresetList(lintDirs).None? && PresetList(lintExtensions).None? ==> r == hook
    ensures hook.Some? && !Contains(hook.value, DirsPlaceholder) && !Contains(hook.value, ExtsPlaceholder) ==> r == hook
  {
    match hook
    case None => None
    case Some(content) => Some(PatchPlaceholders(content, PresetList(lintDirs), PresetList(lintExtensions)))
  }

  /** `patch_lint_hook_from_preset` on the shipped layout: each usable list replaces its placeholder
      line, a missing or empty one leaves its line alone, and nothing else changes. */
  lemma FromPresetBoth(a: string, m: string, c: string, lintDirs: Option<string>, lintExtensions: Option<string>)
    requires PresetList(lintDirs).Some? ==> Once(a, DirsPlaceholder, m + ExtsPlaceholder + c)
    requires PresetList(lintExtensions).Some? ==> Once(a + DirsOut(PresetList(lintDirs)) + m, ExtsPlaceholder, c)
    ensures PatchLintHookFromPreset(Some(a + DirsPlaceholder + m + ExtsPlaceholder + c), lintDirs, lintExtensions)
         == Some(a + DirsOut(PresetList(lintDirs)) + m + ExtsOut(PresetList(lintExtensions)) + c)
  {
    PlaceholdersBoth(a, m, c, PresetList(lintDirs), PresetList(lintExtensions));
  }

  /** An item that survives being written as "- item": printable ASCII, not starting with '-' or a
      space, not ending with a space, and not wrapped in a quote character at either end. */
  predicate PlainItem(x: string) {
    && |x| > 0
    && (forall k | 0 <= k < |x| :: ' ' <= x[k] <= '~')
    && x[0] != '-' && x[0] != ' ' && x[0] != '"' && x[0] != '\''
    && x[|x| - 1] != ' ' && x[|x| - 1] != '"' && x[|x| - 1] != '\''
  }

  lemma PrintableChar(c: char)
    requires ' ' <= c <= '~'
    ensures c !in LineBreaks
    ensures c != ' ' ==> c !in Whitespace
  {
  }

  lemma PlainItemNoBreak(x: string)
    requires PlainItem(x)
    ensures NoLineBreak(x) && x[0] !in Whitespace && x[|x| - 1] !in Whitespace
  {
    forall k | 0 <= k < |x| ensures x[k] !in LineBreaks {
      PrintableChar(x[k]);
    }
    PrintableChar(x[0]);
    PrintableChar(x[|x| - 1]);
  }

  function DashLine(x: string): string { "- " + x }

  function DashLines(xs: seq<string>): (r: seq<string>)
    ensures |r| == |xs| && forall k | 0 <= k < |xs| :: r[k] == DashLine(xs[k])
  {
    if |xs| == 0 then [] else [DashLine(xs[0])] + DashLines(xs[1..])
  }

  lemma DashLineStripped(x: string)
    requires PlainItem(x)
    ensures Strip(DashLine(x)) == DashLine(x)
  {
    var l := DashLine(x);
    PlainItemNoBreak(x);
    assert l[|l| - 1] == x[|x| - 1];
    StripKeeps(l, Whitespace);
  }

  lemma DashLineBody(x: string)
    requires PlainItem(x)
    ensures LStripSet(DashLine(x), {'-', ' '}) == x
  {
    var l := DashLine(x);
    assert l[1..][1..] == x;
    LStripKeeps(x, {'-', ' '});
  }

  lemma DashItemOfStripped(l: string, x: string)
    requires Strip(l) == l && LStripSet(l, {'-', ' '}) == x
    requires StripSet(x, {'"'}) == x && StripSet(x, {'\''}) == x
    ensures DashItem(l) == x
  {
  }

  lemma DashLineDash(x: string)
    ensures StartsWith(DashLine(x), "-")
  {
    assert DashLine(x)[..1] == "-";
  }

  lemma DashLineIsDashLine(x: string)
    requires PlainItem(x)
    ensures StartsWith(Strip(DashLine(x)), "-")
  {
    DashLineStripped(x);
    DashLineDash(x);
  }

  lemma DashItemLine(x: string)
    requires PlainItem(x)
    ensures StartsWith(Strip(DashLine(x)), "-")
    ensures DashItem(DashLine(x)) == x
  {
    DashLineIsDashLine(x);
    DashLineStripped(x);
    DashLineBody(x);
    StripKeeps(x, {'"'});
    StripKeeps(x, {'\''});
    DashItemOfStripped(DashLine(x), x);
  }

  lemma DashLineNoBreak(x: string)
    requires PlainItem(x)
    ensures NoLineBreak(DashLine(x))
  {
    PlainItemNoBreak(x);
    var l := DashLine(x);
    forall i | 0 <= i < |l| ensures l[i] !in LineBreaks {
      if i >= 2 { assert l[i] == x[i - 2]; }
    }
  }

  lemma StripKeepsDashed(j: string)
    requires |j| > 0 && j[0] == '-' && j[|j| - 1] !in Whitespace
    ensures Strip(j) == j
  {
    assert '-' !in Whitespace;
    StripKeeps(j, Whitespace);
  }

  lemma DashTextEnds(xs: seq<string>)
    requires |xs| > 0 && forall k | 0 <= k < |xs| :: PlainItem(xs[k])
    ensures var j := Join(DashLines(xs), "\n"); |j| > 0 && j[0] == '-' && j[|j| - 1] !in Whitespace
  {
    var lines := DashLines(xs);
    var last := xs[|xs| - 1];
    assert PlainItem(last);
    PlainItemNoBreak(last);
    assert lines[0] == "- " + xs[0];
    assert lines[|lines| - 1] == "- " + last;
    JoinHead(lines, "\n");
    JoinLast(lines, "\n");
  }

  /** A dash-list text made of plain items is already stripped. */
  lemma DashTextStripped(xs: seq<string>)
    requires |xs| > 0 && forall k | 0 <= k < |xs| :: PlainItem(xs[k])
    ensures Strip(Join(DashLines(xs), "\n")) == Join(DashLines(xs), "\n")
  {
    DashTextEnds(xs);
    StripKeepsDashed(Join(DashLines(xs), "\n"));
  }

  /** Each dash line gives back its item. */
  lemma DashItemsOfDashLines(xs: seq<string>)
    requires forall k | 0 <= k < |xs| :: PlainItem(xs[k])
    ensures DashItemsOf(DashLines(xs)) == xs
  {
    var lines := DashLines(xs);
    forall k | 0 <= k < |lines| ensures DashItemOf(lines[k]) == Some(xs[k]) {
      DashItemLine(xs[k]);
    }
    CollectAll(lines, xs, DashItemOf);
  }

  /** Writing items as a YAML dash list and reading the list back gives the items. */
  lemma DashListRoundTrip(xs: seq<string>)
    requires |xs| > 0 && forall k | 0 <= k < |xs| :: PlainItem(xs[k])
    ensures DashItems(Join(DashLines(xs), "\n")) == xs
  {
    var lines := DashLines(xs);
    forall k | 0 <= k < |lines| ensures NoLineBreak(lines[k]) {
      DashLineNoBreak(xs[k]);
    }
    DashTextStripped(xs);
    SplitLinesJoin(lines);
    DashItemsOfDashLines(xs);
  }

  lemma JoinHead(parts: seq<string>, sep: string)
    requires |parts| > 0 && |parts[0]| > 0
    ensures |Join(parts, sep)| > 0 && Join(parts, sep)[0] == parts[0][0]
  {
  }

  lemma {:induction false} JoinLast(parts: seq<string>, sep: string)
    requires |parts| > 0 && |parts[|parts| - 1]| > 0
    ensures var j := Join(parts, sep); |j| > 0 && j[|j| - 1] == parts[|parts| - 1][|parts[|parts| - 1]| - 1]
  {
    if |parts| > 1 {
      JoinLast(parts[1..], sep);
    }
  }
}
