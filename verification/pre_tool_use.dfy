/**
 * The pre-tool-use hook (claudex/templates/project/hooks/pre-tool-use.py) as a pure decision:
 * given the tool call, whether the session's task file exists and the layer table, it allows the
 * call or blocks it with a message. Reading stdin, locating the project root and printing the
 * JSON answer are not modelled; the session file's existence is an input.
 */
module PreToolUse {
  import opened Wrappers
  import opened Strs
  import PurePaths

  /** The tool call as the hook reads it; absent keys read as "". */
  datatype Request = Request(toolName: string, filePath: string, content: string)

  /** The result of one check: `(True, "")` or `(False, message)`. */
  datatype Check = Pass | Fail(message: string)

  /** What the hook prints: `{"allow": true}` or `{"allow": false, "message": ...}`. */
  datatype Response = Allow | Deny(message: string)

  /** The response and the size warning sent to stderr, when the size check ran and warned. */
  datatype Outcome = Outcome(response: Response, warning: Option<string>)

  /** `LAYER_FILE_BLOCKS`: a layer path and the basename keywords it rejects, in table order. */
  type LayerTable = seq<(string, seq<string>)>

  /** The table as shipped: no entries. */
  const ShippedLayerFileBlocks: LayerTable := []

  const MaxLines := 500
  const WarnLines := 300

  const Guarded: seq<string> := ["Write", "Edit", "MultiEdit"]
  const SourceExtensions: seq<string> := [".py", ".ts", ".tsx", ".js", ".jsx"]

  // ---------------------------------------------------------------------------------------
  // Paths

  /** `path.replace("\\", "/").lower()`. */
  function Normalized(path: string): string {
    Lower(ReplaceAll(path, "\\", "/"))
  }

  predicate IsSource(path: string) {
    exists k | 0 <= k < |SourceExtensions| :: EndsWith(path, SourceExtensions[k])
  }

  /** Paths under `.claude/` or `tests/` are never checked. */
  predicate Exempt(path: string) {
    Contains(Normalized(path), "/.claude/") || Contains(Normalized(path), "/tests/")
  }

  // ---------------------------------------------------------------------------------------
  // check_layer_placement

  function PlacementMessage(kw: string, layer: string, path: string): string {
    "BLOCKED: Files matching '" + kw + "' don't belong in " + layer + ". File: " + path
  }

  /** A layer entry applies to the path when `/layer` occurs in `str(Path(path))`, normalised:
      so "./" pieces, repeated slashes and a trailing slash do not count. */
  predicate InLayer(path: string, layer: string) {
    Contains(Normalized(PurePaths.PathString(path)), "/" + layer)
  }

  /** The keyword loop for one layer: the first keyword that occurs in the basename. */
  function FirstKeyword(base: string, kws: seq<string>): (r: Option<string>)
    ensures r.None? <==> forall j | 0 <= j < |kws| :: !Contains(base, kws[j])
    ensures r.Some? ==> exists j | 0 <= j < |kws| ::
      kws[j] == r.value && Contains(base, kws[j]) && forall i | 0 <= i < j :: !Contains(base, kws[i])
  {
    if |kws| == 0 then None
    else if Contains(base, kws[0]) then Some(kws[0])
    else
      var r := FirstKeyword(base, kws[1..]);
      assert forall i | 1 <= i < |kws| :: kws[1..][i - 1] == kws[i];
      r
  }

  /** `check_layer_placement`: the first layer of the table that holds the path and rejects its basename. */
  function CheckLayerPlacement(table: LayerTable, path: string): (c: Check)
    ensures c.Pass? <==> forall i | 0 <= i < |table| :: !Rejects(table[i], path)
    ensures c.Fail? ==> exists i | 0 <= i < |table| ::
      && Rejects(table[i], path)
      && (forall j | 0 <= j < i :: !Rejects(table[j], path))
      && c.message == PlacementMessage(FirstKeyword(Lower(PurePaths.Name(path)), table[i].1).value, table[i].0, path)
  {
    var n := FirstRejecting(table, path);
    if n == |table| then Pass
    else
      var kw := FirstKeyword(Lower(PurePaths.Name(path)), table[n].1);
      assert kw.Some?;
      Fail(PlacementMessage(kw.value, table[n].0, path))
  }

  /** The position of the first table entry that rejects the path (`|table|` when none does). */
  function FirstRejecting(table: LayerTable, path: string): (n: nat)
    ensures n <= |table|
    ensures forall i | 0 <= i < n :: !Rejects(table[i], path)
    ensures n < |table| ==> Rejects(table[n], path)
  {
    if |table| == 0 then 0
    else if Rejects(table[0], path) then 0
    else
      var n := FirstRejecting(table[1..], path);
      assert forall i | 1 <= i < n + 1 :: table[1..][i - 1] == table[i];
      n + 1
  }

  /** A table entry that blocks the path. */
  predicate Rejects(entry: (string, seq<string>), path: string) {
    InLayer(path, entry.0) && exists j | 0 <= j < |entry.1| :: Contains(Lower(PurePaths.Name(path)), entry.1[j])
  }

  /** With the shipped, empty table the placement check never blocks. */
  lemma ShippedPlacementPasses(path: string)
    ensures CheckLayerPlacement(ShippedLayerFileBlocks, path) == Pass
  {
  }

  // ---------------------------------------------------------------------------------------
  // check_file_size

  /** `content.count("\n") + 1`. */
  function LineCount(content: string): nat {
    Count(content, "\n") + 1
  }

  function SizeHead(lines: nat): string {
    "BLOCKED: File has " + NatToString(lines) + " lines"
  }

  function SizeMessage(lines: nat, path: string): string {
    SizeHead(lines) + " (max: 500). Split into smaller modules. File: " + path
  }

  function SizeWarning(lines: nat): string {
    "File has " + NatToString(lines) + " lines (ideal: <=300). Consider refactoring."
  }

  /** `check_file_size`: blocks above 500 lines, warns above 300. */
  function CheckFileSize(path: string, content: string): (r: (Check, Option<string>))
    ensures r.0.Fail? <==> LineCount(content) > MaxLines
    ensures r.1.Some? <==> WarnLines < LineCount(content) <= MaxLines
    ensures r.0.Fail? ==> StartsWith(r.0.message, SizeHead(LineCount(content)))
  {
    var lines := LineCount(content);
    if lines > MaxLines then
      var m := SizeMessage(lines, path);
      var h := SizeHead(lines);
      assert m[..|h|] == h;
      (Fail(m), None)
    else if lines > WarnLines then (Pass, Some(SizeWarning(lines)))
    else (Pass, None)
  }

  /** The count is of lines: text made of n lines without line feeds has n lines. */
  lemma {:induction false} LineCountOfLines(ls: seq<string>)
    requires |ls| > 0
    requires forall k | 0 <= k < |ls| :: !Contains(ls[k], "\n")
    ensures LineCount(Join(ls, "\n")) == |ls|
    decreases |ls|
  {
    if |ls| > 1 {
      var x, rest := ls[0], ls[1..];
      var s := Join(ls, "\n");
      assert s == x + "\n" + Join(rest, "\n");
      assert OccursAt(s, "\n", |x|) by {
        assert s[|x|..|x| + 1][0] == s[|x|];
      }
      forall j | 0 <= j < |x| ensures !OccursAt(s, "\n", j) {
        assert s[j..j + 1] == x[j..j + 1];
        assert !OccursAt(x, "\n", j);
      }
      var i := IndexOf(s, "\n");
      assert i.Some?;
      assert i.value == |x|;
      assert s[|x| + 1..] == Join(rest, "\n");
      assert forall k | 0 <= k < |rest| :: rest[k] == ls[k + 1];
      LineCountOfLines(rest);
    } else {
      assert Join(ls, "\n") == ls[0];
      assert IndexOf(ls[0], "\n").None?;
    }
  }

  // ---------------------------------------------------------------------------------------
  // check_session_exists

  const NoTask := "BLOCKED: No active task. Run '/dev start <task>' first to initialize session."

  function CheckSessionExists(taskFileExists: bool): Check {
    if taskFileExists then Pass else Fail(NoTask)
  }

  // ---------------------------------------------------------------------------------------
  // main

  /** The checks `main` runs, in order: session, layer, and size for a `Write` with content. */
  function Checks(req: Request, taskFileExists: bool, table: LayerTable): seq<Check> {
    [CheckSessionExists(taskFileExists), CheckLayerPlacement(table, req.filePath)]
    + (if req.toolName == "Write" && req.content != "" then [CheckFileSize(req.filePath, req.content).0] else [])
  }

  /** The first failing check's message, if any. */
  function FirstFailure(cs: seq<Check>): (r: Option<string>)
    ensures r.None? <==> forall i | 0 <= i < |cs| :: cs[i].Pass?
    ensures r.Some? ==> exists i | 0 <= i < |cs| ::
      cs[i] == Fail(r.value) && forall j | 0 <= j < i :: cs[j].Pass?
  {
    if |cs| == 0 then None
    else if cs[0].Fail? then Some(cs[0].message)
    else
      var r := FirstFailure(cs[1..]);
      assert forall i | 1 <= i < |cs| :: cs[1..][i - 1] == cs[i];
      r
  }

  /** Whether the call reaches the checks at all. */
  predicate Gated(req: Request) {
    req.toolName in Guarded && req.filePath != "" && IsSource(req.filePath) && !Exempt(req.filePath)
  }

  /**
   * `main` after the request is decoded: ungated calls are allowed outright; otherwise the
   * checks run in order and the first failure's message is the answer. The size check's warning
   * is produced only when the size check is reached.
   */
  function Decide(req: Request, taskFileExists: bool, table: LayerTable): (o: Outcome)
    ensures o.response.Deny? ==> Gated(req)
  {
    if !Gated(req) then Outcome(Allow, None)
    else
      var cs := Checks(req, taskFileExists, table);
      var reached := taskFileExists && CheckLayerPlacement(table, req.filePath).Pass?
        && req.toolName == "Write" && req.content != "";
      var warning := if reached then CheckFileSize(req.filePath, req.content).1 else None;
      match FirstFailure(cs)
      case Some(m) => Outcome(Deny(m), warning)
      case None => Outcome(Allow, warning)
  }

  /** A request that cannot be decoded is allowed. */
  function DecideInput(input: Option<Request>, taskFileExists: bool, table: LayerTable): (o: Outcome)
    ensures input.None? ==> o == Outcome(Allow, None)
  {
    match input
    case None => Outcome(Allow, None)
    case Some(req) => Decide(req, taskFileExists, table)
  }

  /**
   * The decision spelled out: a missing task file blocks every gated call with the no-task
   * message; then the placement check; then, for a `Write` with content, the size limit;
   * otherwise the call is allowed.
   */
  lemma DecideOrder(req: Request, taskFileExists: bool, table: LayerTable)
    ensures var o := Decide(req, taskFileExists, table);
      o.response ==
        if !Gated(req) then Allow
        else if !taskFileExists then Deny(NoTask)
        else if CheckLayerPlacement(table, req.filePath).Fail? then Deny(CheckLayerPlacement(table, req.filePath).message)
        else if req.toolName == "Write" && req.content != "" && LineCount(req.content) > MaxLines then
          Deny(SizeMessage(LineCount(req.content), req.filePath))
        else Allow
  {
    var session, layer := CheckSessionExists(taskFileExists), CheckLayerPlacement(table, req.filePath);
    var size := if req.toolName == "Write" && req.content != "" then [CheckFileSize(req.filePath, req.content).0] else [];
    assert Checks(req, taskFileExists, table) == [session, layer] + size;
    FirstOfThree(session, layer, size);
    if |size| > 0 {
      var lines := LineCount(req.content);
      assert size[0] == if lines > MaxLines then Fail(SizeMessage(lines, req.filePath)) else Pass;
    }
  }

  /** The first failure among two checks and an optional third. */
  lemma FirstOfThree(a: Check, b: Check, rest: seq<Check>)
    requires |rest| <= 1
    ensures FirstFailure([a, b] + rest) ==
      if a.Fail? then Some(a.message)
      else if b.Fail? then Some(b.message)
      else if |rest| == 1 && rest[0].Fail? then Some(rest[0].message)
      else None
  {
    assert [a, b] + rest == [a] + ([b] + rest);
    FirstFailureCons(a, [b] + rest);
    FirstFailureCons(b, rest);
    if |rest| == 1 {
      assert rest == [rest[0]] + [];
      FirstFailureCons(rest[0], []);
    }
  }

  lemma FirstFailureCons(c: Check, rest: seq<Check>)
    ensures FirstFailure([c] + rest) == if c.Fail? then Some(c.message) else FirstFailure(rest)
  {
    assert ([c] + rest)[1..] == rest;
  }

  /** Only files over 500 lines are blocked for size, and only for `Write`; `Edit` content is never measured. */
  lemma SizeLimitOnlyForWrite(req: Request, table: LayerTable)
    requires Gated(req) && CheckLayerPlacement(table, req.filePath).Pass?
    ensures Decide(req, true, table).response.Deny? <==>
      req.toolName == "Write" && req.content != "" && LineCount(req.content) > MaxLines
  {
    DecideOrder(req, true, table);
  }

  /** With the shipped table, a gated call with a task file is blocked only for size. */
  lemma ShippedDecision(req: Request)
    requires Gated(req)
    ensures Decide(req, true, ShippedLayerFileBlocks).response.Deny? <==>
      req.toolName == "Write" && req.content != "" && LineCount(req.content) > MaxLines
  {
    SizeLimitOnlyForWrite(req, ShippedLayerFileBlocks);
  }
}
