/**
 * The parts of claudex/cli.py that decide something: the hand-written preset reader of
 * `load_preset` (one `key: value` per line, `key: |` opening a block of lines indented by two
 * spaces), and the exit codes of the `init` and `validate` commands. Reading the preset file,
 * the interactive confirmation and the printing are outside the model; the lines of the file
 * and the user's answer are inputs.
 */
module Cli {
  import opened Wrappers
  import opened Strs
  import Validator

  /** Python's `s.partition(sep)` when `sep` occurs: the text before its first occurrence and the text after. */
  function Partition(s: string, sep: string): (r: Option<(string, string)>)
    requires |sep| > 0
    ensures r.None? <==> !Contains(s, sep)
    ensures r.Some? ==> s == r.value.0 + sep + r.value.1 && !Contains(r.value.0, sep)
  {
    match IndexOf(s, sep)
    case None => None
    case Some(i) =>
      NoOccurrenceBefore(s, sep, i);
      assert s == s[..i] + sep + s[i + |sep|..];
      Some((s[..i], s[i + |sep|..]))
  }

  /** A value wrapped in double quotes loses one character at each end; a lone `"` becomes empty. */
  function Unquote(v: string): string {
    if StartsWith(v, "\"") && EndsWith(v, "\"") then
      if |v| >= 2 then v[1..|v| - 1] else ""
    else v
  }

  /** Quoting a value and unquoting it gives the value back, and unquoted values pass through. */
  lemma UnquoteQuoted(v: string)
    ensures Unquote("\"" + v + "\"") == v
    ensures (|v| == 0 || v[0] != '"') ==> Unquote(v) == v
  {
    var q := "\"" + v + "\"";
    assert StartsWith(q, "\"") && EndsWith(q, "\"");
    assert q[1..|q| - 1] == v;
  }

  /** `_parse_simple_yaml_line`: `(key, value)` split at the first ':', both stripped and the value unquoted. */
  function ParseSimpleLine(line: string): (r: Option<(string, string)>)
    ensures r.Some? <==>
      Contains(line, ":") && !StartsWith(Strip(line), "-") && Strip(Partition(line, ":").value.1) != "|"
  {
    if StartsWith(Strip(line), "-") then None
    else
      match Partition(line, ":")
      case None => None
      case Some((before, after)) =>
        var value := Strip(after);
        if value == "|" then None else Some((Strip(before), Unquote(value)))
  }

  /** Lines that are blank or comments once stripped. */
  predicate Skippable(line: string) {
    Strip(line) == "" || StartsWith(Strip(line), "#")
  }

  /** A line that opens a `key: |` block. */
  predicate OpensBlock(line: string) {
    Contains(line, ": |") && !StartsWith(Strip(line), "-")
  }

  /** `line.split(":")[0].strip()`. */
  function BlockKey(line: string): string {
    match Partition(line, ":")
    case Some((before, _)) => Strip(before)
    case None => Strip(line)
  }

  /** `_finalize_multiline`: the block's lines joined by newlines, trailing whitespace removed. */
  function Finalize(block: seq<string>): string {
    RStrip(Join(block, "\n"))
  }

  /** The loop state of `load_preset`. `key` is meaningful only once a block has been opened. */
  datatype Reader = Reader(config: map<string, string>, key: string, block: seq<string>, inBlock: bool)

  const Start := Reader(map[], "", [], false)

  /** The configuration with the open block, if any, stored under its key. */
  function Settle(rd: Reader): (m: map<string, string>)
    ensures m.Keys == rd.config.Keys + (if rd.inBlock then {rd.key} else {})
  {
    if rd.inBlock then rd.config[rd.key := Finalize(rd.block)] else rd.config
  }

  /**
   * One iteration of the `load_preset` loop. `closeOnOpen` chooses between the loop as written
   * (false: opening a block discards a block that is still open) and the corrected loop (true:
   * the open block is stored first).
   */
  function Feed(rd: Reader, line: string, closeOnOpen: bool): (r: Reader)
    ensures rd.config.Keys <= r.config.Keys
    ensures Skippable(line) ==> r.config == rd.config && r.inBlock == rd.inBlock && r.key == rd.key
    ensures !Skippable(line) && OpensBlock(line) ==> r.inBlock && r.block == [] && r.key == BlockKey(line)
  {
    if Skippable(line) then
      if rd.inBlock then rd.(block := rd.block + [""]) else rd
    else if OpensBlock(line) then
      var config := if closeOnOpen then Settle(rd) else rd.config;
      Reader(config, BlockKey(line), [], true)
    else if rd.inBlock && StartsWith(line, "  ") then
      rd.(block := rd.block + [line[2..]])
    else
      var config := Settle(rd);
      match ParseSimpleLine(line)
      case Some((k, v)) => rd.(config := config[k := v], inBlock := false)
      case None => rd.(config := config, inBlock := false)
  }

  /** A left fold of a step over lines. */
  function Fold(rd: Reader, lines: seq<string>, step: (Reader, string) -> Reader): Reader
    decreases |lines|
  {
    if |lines| == 0 then rd else Fold(step(rd, lines[0]), lines[1..], step)
  }

  lemma {:induction false} FoldAppend(rd: Reader, a: seq<string>, b: seq<string>, step: (Reader, string) -> Reader)
    ensures Fold(rd, a + b, step) == Fold(Fold(rd, a, step), b, step)
    decreases |a|
  {
    if |a| == 0 {
      assert a + b == b;
    } else {
      assert (a + b)[1..] == a[1..] + b;
      FoldAppend(step(rd, a[0]), a[1..], b, step);
    }
  }

  /** Folding a step that never removes a key never removes a key. */
  lemma {:induction false} FoldKeeps(rd: Reader, lines: seq<string>, step: (Reader, string) -> Reader)
    requires forall r: Reader, l: string :: r.config.Keys <= step(r, l).config.Keys
    ensures rd.config.Keys <= Fold(rd, lines, step).config.Keys
    decreases |lines|
  {
    if |lines| > 0 {
      FoldKeeps(step(rd, lines[0]), lines[1..], step);
    }
  }

  function FeedAll(rd: Reader, lines: seq<string>, closeOnOpen: bool): Reader {
    Fold(rd, lines, (r, l) => Feed(r, l, closeOnOpen))
  }

  lemma FeedAllAppend(rd: Reader, a: seq<string>, b: seq<string>, c: bool)
    ensures FeedAll(rd, a + b, c) == FeedAll(FeedAll(rd, a, c), b, c)
  {
    FoldAppend(rd, a, b, (r, l) => Feed(r, l, c));
  }

  lemma FeedAllNil(rd: Reader, c: bool)
    ensures FeedAll(rd, [], c) == rd
  {
  }

  lemma FeedAllOne(rd: Reader, line: string, c: bool)
    ensures FeedAll(rd, [line], c) == Feed(rd, line, c)
  {
    var step := (r, l) => Feed(r, l, c);
    assert [line][1..] == [];
    assert Fold(rd, [line], step) == Fold(step(rd, line), [], step);
  }

  /** The loader never forgets a key once stored. */
  lemma FeedAllKeeps(rd: Reader, lines: seq<string>, c: bool)
    ensures rd.config.Keys <= FeedAll(rd, lines, c).config.Keys
  {
    FoldKeeps(rd, lines, (r, l) => Feed(r, l, c));
  }

  /** The line loop of `load_preset` followed by the trailing-block step. */
  function Load(lines: seq<string>, closeOnOpen: bool): (config: map<string, string>)
  {
    Settle(FeedAll(Start, lines, closeOnOpen))
  }

  /** `load_preset` on the text of a preset file, as written. */
  function LoadPreset(text: string): map<string, string> {
    Load(SplitLines(text), false)
  }

  /** `load_preset` with the open block stored before a new block opens. */
  function LoadPresetFixed(text: string): map<string, string> {
    Load(SplitLines(text), true)
  }

  // ---------------------------------------------------------------------------------------
  // What a preset file means, and how one is written.

  /** A top-level entry of a preset file. */
  datatype Entry = Scalar(key: string, value: string) | Block(key: string, lines: seq<string>)

  predicate NoChar(s: string, c: char) {
    forall i | 0 <= i < |s| :: s[i] != c
  }

  /** A key the reader returns unchanged: no colon or bar, no surrounding whitespace, not a list item or comment. */
  predicate PlainKey(k: string) {
    && |k| > 0
    && k[0] !in Whitespace && k[|k| - 1] !in Whitespace
    && k[0] != '-' && k[0] != '#'
    && NoChar(k, ':') && NoChar(k, '|') && NoLineBreak(k)
  }

  /** A scalar value the reader returns unchanged. */
  predicate PlainValue(v: string) {
    && |v| > 0
    && v[0] !in Whitespace && v[|v| - 1] !in Whitespace
    && v[0] != '"'
    && NoChar(v, '|') && NoLineBreak(v)
  }

  /** A block line that survives indentation and reading: empty, or without surrounding whitespace and not a comment. */
  predicate BlockLine(l: string) {
    && NoChar(l, '|') && NoLineBreak(l)
    && (|l| == 0 || (l[0] !in Whitespace && l[|l| - 1] !in Whitespace && l[0] != '#'))
  }

  predicate WellFormed(e: Entry) {
    PlainKey(e.key) &&
    match e
    case Scalar(_, v) => PlainValue(v)
    case Block(_, ls) => forall j | 0 <= j < |ls| :: BlockLine(ls[j])
  }

  /** The value a reader is meant to store for an entry. */
  function Value(e: Entry): string {
    match e
    case Scalar(_, v) => v
    case Block(_, ls) => Finalize(ls)
  }

  /** What a sequence of entries means: each key bound to the value of its last entry. */
  function Meaning(es: seq<Entry>): (m: map<string, string>)
    ensures forall j | 0 <= j < |es| :: es[j].key in m
  {
    if |es| == 0 then map[]
    else
      var m := Meaning(es[..|es| - 1]);
      assert forall j | 0 <= j < |es| - 1 :: es[..|es| - 1][j] == es[j];
      m[es[|es| - 1].key := Value(es[|es| - 1])]
  }

  function Indent(ls: seq<string>): seq<string> {
    if |ls| == 0 then [] else ["  " + ls[0]] + Indent(ls[1..])
  }

  function RenderEntry(e: Entry): seq<string> {
    match e
    case Scalar(k, v) => [k + ": " + v]
    case Block(k, ls) => [k + ": |"] + Indent(ls)
  }

  /** The lines of a preset file holding the entries, in order. */
  function Render(es: seq<Entry>): seq<string> {
    if |es| == 0 then [] else Render(es[..|es| - 1]) + RenderEntry(es[|es| - 1])
  }

  /** No block entry is directly followed by another block entry. */
  predicate NoAdjacentBlocks(es: seq<Entry>) {
    forall j | 0 <= j < |es| - 1 :: !(es[j].Block? && es[j + 1].Block?)
  }

  // ---------------------------------------------------------------------------------------
  // String facts the reader's steps rest on.

  lemma AbsentChar(s: string, t: string, j: nat)
    requires j < |t| && NoChar(s, t[j])
    ensures !Contains(s, t)
  {
    forall i | 0 <= i <= |s| - |t| ensures !OccursAt(s, t, i) {
      assert s[i..i + |t|][j] == s[i + j];
    }
  }

  /** Stripping whitespace-only text leaves nothing. */
  lemma {:induction false} StripBlank(pre: string)
    requires forall i | 0 <= i < |pre| :: pre[i] in Whitespace
    ensures LStripSet(pre, Whitespace) == ""
    ensures Strip(pre) == ""
    decreases |pre|
  {
    if |pre| > 0 {
      StripBlank(pre[1..]);
    }
  }

  /** Leading whitespace before text without surrounding whitespace is all that stripping removes. */
  lemma {:induction false} StripAfterBlank(pre: string, s: string)
    requires forall i | 0 <= i < |pre| :: pre[i] in Whitespace
    requires |s| > 0 && s[0] !in Whitespace && s[|s| - 1] !in Whitespace
    ensures LStripSet(pre + s, Whitespace) == s
    ensures Strip(pre + s) == s
    decreases |pre|
  {
    if |pre| == 0 {
      assert pre + s == s;
      LStripKeeps(s, Whitespace);
    } else {
      assert (pre + s)[1..] == pre[1..] + s;
      StripAfterBlank(pre[1..], s);
    }
    RStripKeeps(s, Whitespace);
  }

  lemma StripPlain(s: string)
    requires |s| > 0 && s[0] !in Whitespace && s[|s| - 1] !in Whitespace
    ensures Strip(s) == s
  {
    StripAfterBlank("", s);
    assert "" + s == s;
  }

  /** The first colon of `k + ": " + rest` is the one after the key. */
  lemma PartitionAfterKey(k: string, rest: string)
    requires NoChar(k, ':')
    ensures Partition(k + ":" + rest, ":") == Some((k, rest))
  {
    var s := k + ":" + rest;
    assert OccursAt(s, ":", |k|);
    var r := IndexOf(s, ":");
    assert r.Some?;
    forall j | 0 <= j < |k| ensures !OccursAt(s, ":", j) {
      assert s[j] == k[j];
    }
    assert r.value == |k|;
    assert s[..|k|] == k && s[|k| + 1..] == rest;
  }

  // ---------------------------------------------------------------------------------------
  // The reader's steps on rendered lines.

  /** How a `key: value` line of a plain key and value is classified and parsed. */
  lemma ScalarLine(k: string, v: string)
    requires PlainKey(k) && PlainValue(v)
    ensures !Skippable(k + ": " + v) && !OpensBlock(k + ": " + v) && !StartsWith(k + ": " + v, "  ")
    ensures ParseSimpleLine(k + ": " + v) == Some((k, v))
  {
    var line := k + ": " + v;
    ScalarHead(k, v);
    ScalarNoBar(k, v);
    AbsentChar(line, ": |", 2);
    ScalarParse(k, v);
  }

  lemma ScalarNoBar(k: string, v: string)
    requires NoChar(k, '|') && NoChar(v, '|')
    ensures NoChar(k + ": " + v, '|')
  {
    var line := k + ": " + v;
    forall i | 0 <= i < |line| ensures line[i] != '|' {
      if i < |k| {
        assert line[i] == k[i];
      } else if i >= |k| + 2 {
        assert line[i] == v[i - |k| - 2];
      }
    }
  }

  /** The line starts with the key's first character, so it is neither blank, a comment, a list item nor indented. */
  lemma ScalarHead(k: string, v: string)
    requires PlainKey(k) && PlainValue(v)
    ensures !Skippable(k + ": " + v) && !StartsWith(Strip(k + ": " + v), "-") && !StartsWith(k + ": " + v, "  ")
  {
    var line := k + ": " + v;
    StripPlain(line);
    assert line[0] == k[0];
    assert "  "[0] == ' ';
  }

  lemma ScalarParse(k: string, v: string)
    requires PlainKey(k) && PlainValue(v)
    requires !StartsWith(Strip(k + ": " + v), "-")
    ensures ParseSimpleLine(k + ": " + v) == Some((k, v))
  {
    var line := k + ": " + v;
    assert Partition(line, ":") == Some((k, " " + v)) by {
      assert line == k + ":" + (" " + v);
      PartitionAfterKey(k, " " + v);
    }
    assert Strip(" " + v) == v by {
      assert " "[0] in Whitespace;
      StripAfterBlank(" ", v);
    }
    assert v != "|" by { assert v[0] != '|'; }
    ParsePlainLine(line, k, " " + v);
    assert Strip(k) == k by { StripPlain(k); }
    assert Unquote(v) == v by { UnquoteQuoted(v); }
  }

  lemma ParsePlainLine(line: string, before: string, after: string)
    requires !StartsWith(Strip(line), "-")
    requires Partition(line, ":") == Some((before, after))
    requires Strip(after) != "|"
    ensures ParseSimpleLine(line) == Some((Strip(before), Unquote(Strip(after))))
  {
  }

  /** A `key: value` line closes an open block and binds the key. */
  lemma StepScalar(rd: Reader, k: string, v: string, c: bool)
    requires PlainKey(k) && PlainValue(v)
    ensures Feed(rd, k + ": " + v, c) == rd.(config := Settle(rd)[k := v], inBlock := false)
  {
    ScalarLine(k, v);
  }

  /** How a `key: |` line is classified. */
  lemma OpenLine(k: string)
    requires PlainKey(k)
    ensures !Skippable(k + ": |") && OpensBlock(k + ": |") && BlockKey(k + ": |") == k
  {
    var line := k + ": |";
    assert line == k + ":" + " |";
    StripPlain(line);
    StripPlain(k);
    assert Strip(line)[0] == k[0];
    assert OccursAt(line, ": |", |k|);
    PartitionAfterKey(k, " |");
  }

  /** A `key: |` line opens a block named by the key. */
  lemma StepOpen(rd: Reader, k: string, c: bool)
    requires PlainKey(k)
    ensures Feed(rd, k + ": |", c) == Reader(if c then Settle(rd) else rd.config, k, [], true)
  {
    OpenLine(k);
  }

  /** How an indented block line is classified. */
  lemma IndentedLine(l: string)
    requires BlockLine(l)
    ensures |l| == 0 ==> Skippable("  " + l)
    ensures |l| > 0 ==> !Skippable("  " + l) && !OpensBlock("  " + l)
    ensures StartsWith("  " + l, "  ") && ("  " + l)[2..] == l
  {
    if |l| == 0 {
      IndentedBlank(l);
    } else {
      IndentedText(l);
    }
  }

  lemma IndentedBlank(l: string)
    requires |l| == 0
    ensures Skippable("  " + l)
  {
    assert "  " + l == "  ";
    assert forall i | 0 <= i < |"  "| :: "  "[i] in Whitespace;
    StripBlank("  ");
  }

  lemma IndentedText(l: string)
    requires BlockLine(l) && |l| > 0
    ensures !Skippable("  " + l) && !OpensBlock("  " + l)
  {
    var line := "  " + l;
    assert Strip(line) == l by {
      assert forall i | 0 <= i < |"  "| :: "  "[i] in Whitespace;
      StripAfterBlank("  ", l);
    }
    assert !Contains(line, ": |") by {
      assert NoChar(line, '|') by {
        forall i | 0 <= i < |line| ensures line[i] != '|' {
          if i >= 2 { assert line[i] == l[i - 2]; }
        }
      }
      AbsentChar(line, ": |", 2);
    }
  }

  /** An indented line inside a block adds the line, without its indentation, to the block. */
  lemma StepBlockLine(rd: Reader, l: string, c: bool)
    requires rd.inBlock && BlockLine(l)
    ensures Feed(rd, "  " + l, c) == rd.(block := rd.block + [l])
  {
    IndentedLine(l);
  }

  lemma FeedAllBlockLine(rd: Reader, l: string, c: bool)
    requires rd.inBlock && BlockLine(l)
    ensures FeedAll(rd, ["  " + l], c) == rd.(block := rd.block + [l])
  {
    FeedAllOne(rd, "  " + l, c);
    StepBlockLine(rd, l, c);
  }

  lemma {:induction false} StepBlockLines(rd: Reader, ls: seq<string>, c: bool)
    requires rd.inBlock && forall j | 0 <= j < |ls| :: BlockLine(ls[j])
    ensures FeedAll(rd, Indent(ls), c) == rd.(block := rd.block + ls)
    decreases |ls|
  {
    if |ls| == 0 {
      assert rd.block + ls == rd.block;
      FeedAllNil(rd, c);
    } else {
      var head := ls[0];
      var rest := ls[1..];
      var rd' := rd.(block := rd.block + [head]);
      assert BlockLine(head);
      FeedAllBlockLine(rd, head, c);
      assert forall j | 0 <= j < |rest| :: BlockLine(rest[j]) by {
        forall j | 0 <= j < |rest| ensures BlockLine(rest[j]) { assert rest[j] == ls[j + 1]; }
      }
      StepBlockLines(rd', rest, c);
      assert rd'.block + rest == rd.block + ls by { ConsAppend(rd.block, ls); }
      IndentCons(ls);
      FeedAllAppend(rd, ["  " + head], Indent(rest), c);
    }
  }

  lemma ConsAppend<T>(a: seq<T>, ls: seq<T>)
    requires |ls| > 0
    ensures (a + [ls[0]]) + ls[1..] == a + ls
  {
    assert [ls[0]] + ls[1..] == ls;
  }

  lemma IndentCons(ls: seq<string>)
    requires |ls| > 0
    ensures Indent(ls) == ["  " + ls[0]] + Indent(ls[1..])
  {
  }

  /** A rendered block entry opens its block and collects its lines. */
  lemma StepBlockEntry(rd: Reader, k: string, ls: seq<string>, c: bool)
    requires WellFormed(Block(k, ls))
    ensures FeedAll(rd, RenderEntry(Block(k, ls)), c) == Reader(if c then Settle(rd) else rd.config, k, ls, true)
  {
    StepOpen(rd, k, c);
    var afterOpen := Feed(rd, k + ": |", c);
    StepBlockLines(afterOpen, ls, c);
    FeedAllAppend(rd, [k + ": |"], Indent(ls), c);
    FeedAllOne(rd, k + ": |", c);
    assert afterOpen.block + ls == ls;
  }

  /** The reader has consumed the lines of `es`: settled entries are stored, a final block is still open. */
  predicate Represents(rd: Reader, es: seq<Entry>) {
    if |es| == 0 then !rd.inBlock && rd.config == map[]
    else
      match es[|es| - 1]
      case Scalar(_, _) => !rd.inBlock && rd.config == Meaning(es)
      case Block(k, ls) => rd.inBlock && rd.key == k && rd.block == ls && rd.config == Meaning(es[..|es| - 1])
  }

  lemma SettleRepresents(rd: Reader, es: seq<Entry>)
    requires Represents(rd, es)
    ensures Settle(rd) == Meaning(es)
  {
  }

  /** Feeding one more rendered entry keeps the representation, unless as written a block follows a block. */
  lemma StepEntry(rd: Reader, es: seq<Entry>, e: Entry, c: bool)
    requires Represents(rd, es) && WellFormed(e)
    requires !c && e.Block? ==> !rd.inBlock
    ensures Represents(FeedAll(rd, RenderEntry(e), c), es + [e])
  {
    var es' := es + [e];
    assert es'[..|es'| - 1] == es;
    SettleRepresents(rd, es);
    match e
    case Scalar(k, v) =>
      StepScalar(rd, k, v, c);
      FeedAllOne(rd, k + ": " + v, c);
    case Block(k, ls) =>
      StepBlockEntry(rd, k, ls, c);
  }

  /** Reading the rendered lines of well-formed entries leaves the reader representing them. */
  lemma {:induction false} FeedRendered(es: seq<Entry>, c: bool)
    requires forall j | 0 <= j < |es| :: WellFormed(es[j])
    requires c || NoAdjacentBlocks(es)
    ensures Represents(FeedAll(Start, Render(es), c), es)
  {
    if |es| > 0 {
      var front := es[..|es| - 1];
      var e := es[|es| - 1];
      assert forall j | 0 <= j < |front| :: front[j] == es[j];
      assert c || NoAdjacentBlocks(front);
      FeedRendered(front, c);
      var rd := FeedAll(Start, Render(front), c);
      FeedAllAppend(Start, Render(front), RenderEntry(e), c);
      assert es == front + [e];
      if !c && e.Block? && |front| > 0 {
        assert !front[|front| - 1].Block?;
      }
      StepEntry(rd, front, e, c);
    }
  }

  /**
   * The corrected reader recovers every well-formed preset; the reader as written does too,
   * provided no block directly follows another.
   */
  lemma LoadRoundTrip(es: seq<Entry>, c: bool)
    requires forall j | 0 <= j < |es| :: WellFormed(es[j])
    requires c || NoAdjacentBlocks(es)
    ensures Load(Render(es), c) == Meaning(es)
  {
    FeedRendered(es, c);
    SettleRepresents(FeedAll(Start, Render(es), c), es);
  }

  lemma {:induction false} RenderShape(es: seq<Entry>)
    requires forall j | 0 <= j < |es| :: WellFormed(es[j])
    ensures |es| > 0 ==> |Render(es)| > 0 && |Render(es)[|Render(es)| - 1]| > 0
    ensures forall j | 0 <= j < |Render(es)| :: NoLineBreak(Render(es)[j])
  {
    if |es| > 0 {
      var front := es[..|es| - 1];
      var e := es[|es| - 1];
      assert forall j | 0 <= j < |front| :: front[j] == es[j];
      RenderShape(front);
      RenderEntryShape(e);
      var a, b := Render(front), RenderEntry(e);
      assert Render(es) == a + b;
    }
  }

  lemma RenderEntryShape(e: Entry)
    requires WellFormed(e)
    ensures |RenderEntry(e)| > 0 && |RenderEntry(e)[|RenderEntry(e)| - 1]| > 0
    ensures forall j | 0 <= j < |RenderEntry(e)| :: NoLineBreak(RenderEntry(e)[j])
  {
    match e
    case Scalar(k, v) =>
    case Block(k, ls) =>
      IndentShape(ls);
  }

  lemma {:induction false} IndentShape(ls: seq<string>)
    requires forall j | 0 <= j < |ls| :: BlockLine(ls[j])
    ensures |Indent(ls)| == |ls|
    ensures forall j | 0 <= j < |ls| :: NoLineBreak(Indent(ls)[j]) && |Indent(ls)[j]| > 0
  {
    if |ls| > 0 {
      IndentShape(ls[1..]);
      var r := Indent(ls);
      forall j | 0 <= j < |ls| ensures NoLineBreak(r[j]) && |r[j]| > 0 {
        if j == 0 {
          assert r[0] == "  " + ls[0];
          assert BlockLine(ls[0]);
        } else {
          assert r[j] == Indent(ls[1..])[j - 1];
        }
      }
    }
  }

  /** Written out as text, a well-formed preset reads back as its meaning with the corrected reader. */
  lemma PresetTextRoundTrip(es: seq<Entry>)
    requires |es| > 0 && forall j | 0 <= j < |es| :: WellFormed(es[j])
    ensures LoadPresetFixed(Join(Render(es), "\n")) == Meaning(es)
  {
    RenderShape(es);
    SplitLinesJoin(Render(es));
    LoadRoundTrip(es, true);
  }

  /**
   * As written, a block that directly follows another block discards it: the first block's key
   * is never stored, while the corrected reader keeps both.
   */
  lemma ConsecutiveBlocksLoseFirst(a: string, la: seq<string>, b: string, lb: seq<string>)
    requires WellFormed(Block(a, la)) && WellFormed(Block(b, lb))
    ensures Load(Render([Block(a, la), Block(b, lb)]), false) == map[b := Finalize(lb)]
    ensures Load(Render([Block(a, la), Block(b, lb)]), true) == map[a := Finalize(la), b := Finalize(lb)]
  {
    var x, y := Block(a, la), Block(b, lb);
    RenderTwo(x, y);
    TwoBlocks(a, la, b, lb, false);
    TwoBlocks(a, la, b, lb, true);
  }

  lemma TwoBlocks(a: string, la: seq<string>, b: string, lb: seq<string>, c: bool)
    requires WellFormed(Block(a, la)) && WellFormed(Block(b, lb))
    ensures Load(RenderEntry(Block(a, la)) + RenderEntry(Block(b, lb)), c)
         == (if c then map[a := Finalize(la)] else map[])[b := Finalize(lb)]
  {
    StepBlockEntry(Start, a, la, c);
    var rd := FeedAll(Start, RenderEntry(Block(a, la)), c);
    FeedAllAppend(Start, RenderEntry(Block(a, la)), RenderEntry(Block(b, lb)), c);
    StepBlockEntry(rd, b, lb, c);
  }

  lemma RenderTwo(x: Entry, y: Entry)
    ensures Render([x, y]) == RenderEntry(x) + RenderEntry(y)
  {
    assert [x, y][..1] == [x] && [x][..0] == [];
    assert Render([x]) == [] + RenderEntry(x);
  }

  // ---------------------------------------------------------------------------------------
  // Exit codes.

  datatype InitArgs = InitArgs(isDir: bool, claudeExists: bool, force: bool, yes: bool)

  /** How `cmd_init` ends: refused before detection, declined at the prompt, or carried out. */
  datatype InitOutcome = Refused | Declined | Initialised

  /** `cmd_init`'s decisions; `confirmed` is the answer to the prompt, asked only without `--yes`. */
  function Init(args: InitArgs, confirmed: bool): (r: InitOutcome)
    ensures r == Refused <==> !args.isDir || (args.claudeExists && !args.force)
    ensures r == Initialised ==> args.isDir && (!args.claudeExists || args.force) && (args.yes || confirmed)
    ensures r == Declined ==> !args.yes && !confirmed
  {
    if !args.isDir then Refused
    else if args.claudeExists && !args.force then Refused
    else if !args.yes && !confirmed then Declined
    else Initialised
  }

  function ExitCode(r: InitOutcome): int {
    if r == Refused then 2 else 0
  }

  /** An existing `.claude/` without `--force` ends with exit status 2 and writes nothing. */
  lemma ExistingClaudeNeedsForce(args: InitArgs, confirmed: bool)
    requires args.claudeExists && !args.force
    ensures ExitCode(Init(args, confirmed)) == 2 && Init(args, confirmed) != Initialised
  {
  }

  /** `cmd_validate`: 0 exactly when every check passes, 1 otherwise. */
  function ValidateExit(p: Validator.Project): (code: int)
    ensures code == 0 <==> Validator.Healthy(p)
    ensures code == 0 || code == 1
  {
    if |Validator.ValidateProject(p).failures| == 0 then 0 else 1
  }
}
