/**
 * The session-start hook (claudex/templates/project/hooks/session-start.py): it reports the
 * current task and what to do with it, the background queue and the parallel sessions, merged
 * into one message. File contents are inputs (`None` when the file is missing or unreadable);
 * the ages of files, which the hook computes from the clock, are inputs together with the text
 * the hook's float formatting makes of them.
 */
module SessionStart {
  import opened Wrappers
  import opened Strs

  // ---------------------------------------------------------------------------------------
  // check_session_state

  const TaskHeading := "## Task Description"

  /** `s[:80]`. */
  function Take80(s: string): (r: string)
    ensures |r| <= 80 && StartsWith(s, r)
    ensures |s| <= 80 ==> r == s
    ensures |s| > 80 ==> |r| == 80
  {
    if |s| <= 80 then s else s[..80]
  }

  /** `content.split(heading)[1].split("##")[0].strip()`: the task section up to the next heading. */
  function TaskSection(content: string): (r: string)
    requires Contains(content, TaskHeading)
    ensures !Contains(r, "##")
  {
    SplitWhenPresent(content, TaskHeading);
    var part := Split(Split(content, TaskHeading)[1], "##")[0];
    StripInside(part, "##");
    Strip(part)
  }

  /** `s.split("\n")[0].strip()`: the first line of some text, stripped. */
  function FirstLine(s: string): (r: string)
    ensures !Contains(r, "\n")
    ensures !Contains(s, "##") ==> !Contains(r, "##")
  {
    var first := Split(s, "\n")[0];
    SplitHeadPrefix(s, "\n");
    StripInside(first, "\n");
    assert !Contains(s, "##") ==> !Contains(Strip(first), "##") by {
      if !Contains(s, "##") {
        NoneInPrefix(s, first, "##");
        StripInside(first, "##");
      }
    }
    Strip(first)
  }

  /** The first piece of a split is a prefix of the text split. */
  lemma SplitHeadPrefix(s: string, sep: string)
    requires |sep| > 0
    ensures StartsWith(s, Split(s, sep)[0])
  {
    var parts := Split(s, sep);
    assert parts == [parts[0]] + parts[1..];
    JoinStartsWithHead(parts[0], parts[1..], sep);
  }

  /**
   * The task name: the first line of the task section, stripped and cut to 80 characters;
   * `None` when the task file has no task heading. (`split("\n")` never yields an empty list,
   * so the source's "Unknown" alternative is never taken.)
   */
  function TaskName(content: string): (r: Option<string>)
    ensures r.None? <==> !Contains(content, TaskHeading)
  {
    if Contains(content, TaskHeading) then Some(Take80(FirstLine(TaskSection(content)))) else None
  }

  /** A task name is at most 80 characters, one line, and never runs into the next heading. */
  lemma TaskNameShape(content: string)
    requires Contains(content, TaskHeading)
    ensures var n := TaskName(content).value;
      |n| <= 80 && !Contains(n, "\n") && !Contains(n, "##")
  {
    var line := FirstLine(TaskSection(content));
    NoneInPrefix(line, Take80(line), "\n");
    NoneInPrefix(line, Take80(line), "##");
  }

  /** What `strip` leaves holds no occurrence the original did not. */
  lemma StripInside(s: string, t: string)
    requires !Contains(s, t)
    ensures !Contains(Strip(s), t)
  {
    StripSetInside(s, Whitespace, t);
  }

  /** A prefix holds no occurrence its whole did not. */
  lemma NoneInPrefix(s: string, p: string, t: string)
    requires !Contains(s, t) && StartsWith(s, p)
    ensures !Contains(p, t)
  {
    if Contains(p, t) {
      assert s[..|p|] == p;
      ContainsSlice(s, t, 0, |p|);
    }
  }

  /** Splitting where the first occurrence follows `a` yields `a`, then the pieces of the rest. */
  lemma SplitFront(a: string, b: string, sep: string)
    requires |sep| > 0
    requires forall j | 0 <= j < |a| :: !OccursAt(a + sep + b, sep, j)
    ensures Split(a + sep + b, sep) == [a] + Split(b, sep)
  {
    var s := a + sep + b;
    assert s[|a|..|a| + |sep|] == sep;
    assert OccursAt(s, sep, |a|);
    assert IndexOf(s, sep) == Some(|a|);
    assert s[..|a|] == a;
    assert s[|a| + |sep|..] == b;
  }

  predicate NoHash(s: string) { forall i | 0 <= i < |s| :: s[i] != '#' }

  lemma NoHashNoHeading(a: string)
    requires NoHash(a)
    ensures !Contains(a, "##")
  {
    forall j | 0 <= j <= |a| - 2
      ensures !OccursAt(a, "##", j)
    {
      assert a[j..j + 2][0] == a[j];
    }
  }

  lemma HashFree(a: string, b: string)
    requires NoHash(a)
    ensures forall j | 0 <= j < |a| :: !OccursAt(a + "##" + b, "##", j)
  {
    forall j | 0 <= j < |a|
      ensures !OccursAt(a + "##" + b, "##", j)
    {
      var s := a + "##" + b;
      assert s[j] == a[j];
    }
  }

  /** Text free of `#` followed by the next heading (or by nothing) reads back as the text. */
  lemma HeadBeforeHeading(y: string, a: string)
    requires NoHash(a) && StartsWith(y, a)
    requires |y| == |a| || (|y| >= |a| + 2 && y[|a|] == '#' && y[|a| + 1] == '#')
    ensures Split(y, "##")[0] == a
  {
    if |y| == |a| {
      assert y == a;
      NoHashNoHeading(a);
      SplitNoSep(a, "##");
    } else {
      HeadBeforeNextHeading(y, a);
    }
  }

  lemma HeadBeforeNextHeading(y: string, a: string)
    requires NoHash(a) && StartsWith(y, a)
    requires |y| >= |a| + 2 && y[|a|] == '#' && y[|a| + 1] == '#'
    ensures Split(y, "##")[0] == a
  {
    var b := y[|a| + 2..];
    assert y == a + "##" + b by {
      assert y[|a|..|a| + 2] == "##";
      SliceAround(y, |a|, |a| + 2);
    }
    HashFree(a, b);
    SplitFront(a, b, "##");
  }

  /** The section after the task heading ends at the next heading or the next task heading. */
  lemma SectionBeforeHeading(a: string, rest: string)
    requires NoHash(a)
    ensures var y := Split(a + "## " + rest, TaskHeading)[0];
      StartsWith(y, a) && (|y| == |a| || (|y| >= |a| + 2 && y[|a|] == '#' && y[|a| + 1] == '#'))
  {
    var x := a + "## " + rest;
    assert x[..|a|] == a && x[|a|] == '#' && x[|a| + 1] == '#' && x[|a| + 2] == ' ';
    match IndexOf(x, TaskHeading)
    case None =>
    case Some(k) =>
      assert x[k..k + |TaskHeading|] == TaskHeading;
      assert TaskHeading[0] == '#' && TaskHeading[1] == '#';
      assert x[k] == x[k..k + |TaskHeading|][0];
      assert x[k + 1] == x[k..k + |TaskHeading|][1];
      assert k >= |a|;
      assert k != |a| + 1;
      assert x[..k][..|a|] == a;
  }

  /** `strip` removes the framing line breaks around a line. */
  lemma StripFramed(d: string)
    requires |d| > 0 && d[0] !in Whitespace && d[|d| - 1] !in Whitespace
    ensures Strip("\n" + d + "\n") == d
  {
    var s := "\n" + d + "\n";
    assert s[1..] == d + "\n";
    LStripKeeps(d + "\n", Whitespace);
    assert (d + "\n")[..|d|] == d;
    RStripKeeps(d, Whitespace);
  }

  /**
   * Writing a one-line description under the task heading, followed by the next heading,
   * and reading the task name back gives the description.
   */
  lemma TaskNameRoundTrip(d: string, rest: string)
    requires 0 < |d| <= 80 && NoHash(d) && !Contains(d, "\n")
    requires d[0] !in Whitespace && d[|d| - 1] !in Whitespace
    ensures TaskName(TaskHeading + "\n" + d + "\n## " + rest) == Some(d)
  {
    TaskSectionRoundTrip(d, rest);
    FirstLineOfLine(d);
  }

  /** The description, framed by line breaks under the task heading, is the task section. */
  lemma TaskSectionRoundTrip(d: string, rest: string)
    requires 0 < |d| && NoHash(d)
    requires d[0] !in Whitespace && d[|d| - 1] !in Whitespace
    ensures var c := TaskHeading + "\n" + d + "\n## " + rest;
      Contains(c, TaskHeading) && TaskSection(c) == d
  {
    var a := "\n" + d + "\n";
    assert NoHash(a) by {
      forall i | 0 <= i < |a| ensures a[i] != '#' {
        if 0 < i < |a| - 1 {
          assert a[i] == d[i - 1];
        }
      }
    }
    var x := a + "## " + rest;
    var c := TaskHeading + "\n" + d + "\n## " + rest;
    var y := Split(x, TaskHeading)[0];
    TaskFraming(d, rest);
    assert c == "" + TaskHeading + x;
    assert Contains(c, TaskHeading) by { HeadingStart(x); }
    assert Split(c, TaskHeading)[1] == y by {
      SplitFront("", x, TaskHeading);
    }
    assert Split(y, "##")[0] == a by {
      SectionBeforeHeading(a, rest);
      HeadBeforeHeading(y, a);
    }
    StripFramed(d);
  }

  lemma TaskFraming(d: string, rest: string)
    ensures TaskHeading + "\n" + d + "\n## " + rest == "" + TaskHeading + (("\n" + d + "\n") + "## " + rest)
  {
    assert "\n## " == "\n" + "## ";
  }

  lemma HeadingStart(x: string)
    ensures Contains("" + TaskHeading + x, TaskHeading)
  {
    assert ("" + TaskHeading + x)[..|TaskHeading|] == TaskHeading;
    assert OccursAt("" + TaskHeading + x, TaskHeading, 0);
  }

  /** A line without line breaks or surrounding whitespace is its own first line. */
  lemma FirstLineOfLine(d: string)
    requires 0 < |d| && !Contains(d, "\n")
    requires d[0] !in Whitespace && d[|d| - 1] !in Whitespace
    ensures FirstLine(d) == d
  {
    SplitNoSep(d, "\n");
    StripKeeps(d, Whitespace);
  }

  datatype Recommendation = Start | Continue | Archive

  /** A file's age as the hook measures it, with the text its `:.0f` and `:.1f` formats give. */
  datatype Age = Unreadable | Hours(hours: real, whole: string, tenths: string)

  datatype SessionState = SessionState(
    hasSession: bool,
    isStale: bool,
    taskName: Option<string>,
    recommendation: Option<Recommendation>,
    message: Option<string>)

  const NoTaskMessage := "No active task found. Run '/dev start <task>' to begin."
  const FoundMessage := "Active session found. Run '/dev continue' to resume."

  /** `result['task_name'] or 'Unknown'`. */
  function NameOrUnknown(name: Option<string>): string {
    if name.Some? && name.value != "" then name.value else "Unknown"
  }

  function StaleMessage(whole: string, name: Option<string>): string {
    "Session is " + whole + "h old. Task: " + NameOrUnknown(name) + ". Run '/dev continue' to resume or '/dev start' for new task."
  }

  function ActiveMessage(name: Option<string>, tenths: string): string {
    "Active session: " + NameOrUnknown(name) + " (" + tenths + "h old). Run '/dev continue' to resume."
  }

  /**
   * `check_session_state`. `task` is the task file's text, `None` when the session directory
   * or the file is missing; `readable` is whether reading it succeeded.
   */
  function CheckSessionState(task: Option<string>, readable: bool, age: Age): (st: SessionState)
    ensures st.hasSession <==> task.Some?
    ensures st.message.Some? && st.message.value != ""
    ensures st.isStale ==> st.recommendation == Some(Archive)
    ensures st.recommendation == Some(Start) <==> !st.hasSession
  {
    match task
    case None => SessionState(false, false, None, Some(Start), Some(NoTaskMessage))
    case Some(content) =>
      var name := if readable then TaskName(content) else None;
      match age
      case Unreadable => SessionState(true, false, name, None, Some(FoundMessage))
      case Hours(h, whole, tenths) =>
        if h > 48.0 then SessionState(true, true, name, Some(Archive), Some(StaleMessage(whole, name)))
        else SessionState(true, false, name, Some(Continue), Some(ActiveMessage(name, tenths)))
  }

  /**
   * The recommendation table: no task file gives `start`; an age above 48 hours gives
   * `archive` and marks the session stale; a lower age gives `continue`; an age that cannot
   * be read leaves the recommendation unset.
   */
  lemma Recommendations(task: Option<string>, readable: bool, age: Age)
    ensures task.None? ==> CheckSessionState(task, readable, age).recommendation == Some(Start)
    ensures task.Some? && age.Hours? && age.hours > 48.0 ==>
      CheckSessionState(task, readable, age).recommendation == Some(Archive) && CheckSessionState(task, readable, age).isStale
    ensures task.Some? && age.Hours? && age.hours <= 48.0 ==>
      CheckSessionState(task, readable, age).recommendation == Some(Continue) && !CheckSessionState(task, readable, age).isStale
    ensures task.Some? && age.Unreadable? ==> CheckSessionState(task, readable, age).recommendation.None?
  {
  }

  // ---------------------------------------------------------------------------------------
  // check_background_queue

  const QueuePrefix := "BACKGROUND QUEUE: "

  function KickedMessage(kicked: nat, age: Age): string
    requires age.Hours?
  {
    QueuePrefix + NatToString(kicked) + " agent(s) " +
      if age.hours > 8.0 then "kicked " + age.whole + "h ago - run '/background-queue review' to check results"
      else "running"
  }

  function QueuedMessage(queued: nat): string {
    QueuePrefix + NatToString(queued) + " task(s) " + "queued - run '/night-kick' to launch them"
  }

  /** The queue's status lines: kicked agents, then queued tasks, each only when counted. */
  function QueueLines(content: string, age: Age): seq<string>
    requires Count(content, "| KICKED") > 0 ==> age.Hours?
  {
    var kicked, queued := Count(content, "| KICKED"), Count(content, "| QUEUED");
    (if kicked > 0 then [KickedMessage(kicked, age)] else []) + (if queued > 0 then [QueuedMessage(queued)] else [])
  }

  /**
   * `check_background_queue`: "" for a missing file, and "" when kicked agents are counted but
   * the file's age cannot be read (the exception handler); otherwise the status lines.
   */
  function CheckBackgroundQueue(queue: Option<string>, age: Age): string {
    match queue
    case None => ""
    case Some(content) =>
      if Count(content, "| KICKED") > 0 && age.Unreadable? then ""
      else Join(QueueLines(content, age), "\n")
  }

  /**
   * One status line per kind of entry present: the kicked line iff "| KICKED" occurs, the
   * queued line iff "| QUEUED" occurs.
   */
  lemma QueueReport(content: string, age: Age)
    requires Count(content, "| KICKED") > 0 ==> age.Hours?
    ensures var ls := QueueLines(content, age);
      && |ls| == (if Contains(content, "| KICKED") then 1 else 0) + (if Contains(content, "| QUEUED") then 1 else 0)
      && (Contains(content, "| QUEUED") <==> QueuedMessage(Count(content, "| QUEUED")) in ls)
  {
    CountPositive(content, "| KICKED");
    CountPositive(content, "| QUEUED");
    var kicked, queued := Count(content, "| KICKED"), Count(content, "| QUEUED");
    if kicked > 0 {
      QueuedNotKicked(kicked, queued, age);
    }
  }

  /** The report is empty exactly when there are no status lines. */
  lemma QueueSilent(content: string, age: Age)
    requires Count(content, "| KICKED") > 0 ==> age.Hours?
    ensures CheckBackgroundQueue(Some(content), age) == "" <==> |QueueLines(content, age)| == 0
  {
    var ls := QueueLines(content, age);
    if |ls| > 0 {
      assert |ls[0]| >= |QueuePrefix|;
      JoinNonEmpty(ls, "\n");
    }
  }

  /** The kicked line never reads as the queued line. */
  lemma QueuedNotKicked(kicked: nat, queued: nat, age: Age)
    requires age.Hours?
    ensures KickedMessage(kicked, age) != QueuedMessage(queued)
  {
    var k, q := KickedMessage(kicked, age), QueuedMessage(queued);
    var n, m := NatToString(kicked), NatToString(queued);
    var p := QueuePrefix;
    if |n| == |m| {
      assert k[|p| + |n| + 1] == 'a';
      assert q[|p| + |m| + 1] == 't';
    } else if |n| < |m| {
      assert k[|p| + |n|] == ' ';
      assert q[|p| + |n|] == m[|n|];
    } else {
      assert q[|p| + |m|] == ' ';
      assert k[|p| + |m|] == n[|m|];
    }
  }

  // ---------------------------------------------------------------------------------------
  // check_parallel_sessions

  const ActiveHeading := "## Active Sessions"
  const NoParallel := "No active parallel sessions"

  predicate Opens(line: string) { Contains(line, ActiveHeading) }

  /** A table row that is neither the header row nor the separator row. */
  predicate IsRow(line: string) {
    StartsWith(line, "|") && !StartsWith(line, "| #") && !StartsWith(line, "| -")
  }

  /** The counting loop of `check_parallel_sessions`. */
  function CountFrom(lines: seq<string>, inTable: bool): nat
    decreases |lines|
  {
    if |lines| == 0 then 0
    else if Opens(lines[0]) then CountFrom(lines[1..], true)
    else if inTable && StartsWith(lines[0], "##") then 0
    else (if inTable && IsRow(lines[0]) then 1 else 0) + CountFrom(lines[1..], inTable)
  }

  /** Where a table that opened ends: the first other `##` line, or the end. */
  function TableEnd(lines: seq<string>): (e: nat)
    ensures e <= |lines|
    ensures forall j | 0 <= j < e :: !(StartsWith(lines[j], "##") && !Opens(lines[j]))
    ensures e < |lines| ==> StartsWith(lines[e], "##") && !Opens(lines[e])
  {
    if |lines| == 0 then 0
    else if StartsWith(lines[0], "##") && !Opens(lines[0]) then 0
    else
      var e := TableEnd(lines[1..]);
      assert forall j | 1 <= j < |lines| :: lines[1..][j - 1] == lines[j];
      1 + e
  }

  /** The rows among some lines, heading lines not counted. */
  function CountRows(lines: seq<string>): (n: nat)
    ensures n <= |lines|
  {
    if |lines| == 0 then 0
    else (if IsRow(lines[0]) && !Opens(lines[0]) then 1 else 0) + CountRows(lines[1..])
  }

  /** The first line holding the active-sessions heading. */
  function FirstOpen(lines: seq<string>): (r: Option<nat>)
    ensures r.Some? ==> r.value < |lines| && Opens(lines[r.value]) && forall j | 0 <= j < r.value :: !Opens(lines[j])
    ensures r.None? ==> forall j | 0 <= j < |lines| :: !Opens(lines[j])
  {
    if |lines| == 0 then None
    else if Opens(lines[0]) then Some(0)
    else
      var r := FirstOpen(lines[1..]);
      assert forall j | 1 <= j < |lines| :: lines[1..][j - 1] == lines[j];
      if r.Some? then Some(r.value + 1) else None
  }

  /**
   * The active-session count defined directly: the rows after the first active-sessions
   * heading and before the next other `##` line.
   */
  function ActiveRows(lines: seq<string>): nat {
    match FirstOpen(lines)
    case None => 0
    case Some(a) => CountRows(lines[a + 1..][..TableEnd(lines[a + 1..])])
  }

  lemma {:induction false} CountInTable(lines: seq<string>)
    ensures CountFrom(lines, true) == CountRows(lines[..TableEnd(lines)])
    decreases |lines|
  {
    if |lines| > 0 {
      CountInTable(lines[1..]);
      var e := TableEnd(lines);
      if !(StartsWith(lines[0], "##") && !Opens(lines[0])) {
        assert lines[..e][1..] == lines[1..][..e - 1];
      }
    }
  }

  lemma {:induction false} CountBeforeTable(lines: seq<string>)
    ensures CountFrom(lines, false) == ActiveRows(lines)
    decreases |lines|
  {
    if |lines| > 0 {
      if Opens(lines[0]) {
        CountInTable(lines[1..]);
      } else {
        CountBeforeTable(lines[1..]);
        var r := FirstOpen(lines[1..]);
        if r.Some? {
          assert lines[1..][r.value + 1..] == lines[r.value + 2..];
        }
      }
    }
  }

  function ParallelMessage(count: nat): string {
    "PARALLEL SESSIONS: " + NatToString(count) + " active session(s) - check PARALLEL_SESSIONS.md before editing shared files"
  }

  /** `check_parallel_sessions`. */
  function CheckParallelSessions(parallel: Option<string>): string {
    match parallel
    case None => ""
    case Some(content) =>
      if Contains(content, NoParallel) then ""
      else
        var n := CountFrom(Split(content, "\n"), false);
        if n > 0 then ParallelMessage(n) else ""
  }

  /**
   * A message is produced iff the file exists, does not say there are no parallel sessions,
   * and its active-sessions table has rows; the message gives their number.
   */
  lemma ParallelReport(content: string)
    ensures var n := ActiveRows(Split(content, "\n"));
      CheckParallelSessions(Some(content)) ==
        if Contains(content, NoParallel) || n == 0 then "" else ParallelMessage(n)
  {
    CountBeforeTable(Split(content, "\n"));
  }

  // ---------------------------------------------------------------------------------------
  // main

  /** The non-empty status lines, queue first. */
  function Extra(bg: string, par: string): (r: seq<string>)
    ensures |r| <= 2 && forall k | 0 <= k < |r| :: r[k] != ""
    ensures r == [] <==> bg == "" && par == ""
  {
    (if bg != "" then [bg] else []) + (if par != "" then [par] else [])
  }

  /** `main`'s message merge: the extra status lines follow the state's message after a blank line. */
  function Merge(message: Option<string>, bg: string, par: string): (r: Option<string>)
    ensures bg == "" && par == "" ==> r == message
    ensures (bg != "" || par != "") && message.Some? && message.value != "" ==>
      r == Some(message.value + "\n\n" + Join(Extra(bg, par), "\n"))
    ensures (bg != "" || par != "") && !(message.Some? && message.value != "") ==>
      r == Some(Join(Extra(bg, par), "\n"))
  {
    var extra := Extra(bg, par);
    if |extra| == 0 then message
    else
      var msg := Join(extra, "\n");
      if message.Some? && message.value != "" then
        var p := message.value + "\n\n";
        assert (p + msg)[..|p|] == p;
        Some(p + msg)
      else Some(msg)
  }

  datatype Output = Output(hasActiveSession: bool, recommendation: Option<Recommendation>, userMessage: Option<string>)

  /** `main`: the state's flags, and the merged message when it is not empty. */
  function Main(task: Option<string>, readable: bool, age: Age, queue: Option<string>, queueAge: Age, parallel: Option<string>): (o: Output)
    ensures o.hasActiveSession <==> task.Some?
    ensures o.recommendation == Some(Start) <==> task.None?
    ensures o.userMessage.Some?
  {
    var st := CheckSessionState(task, readable, age);
    MergeKeepsMessage(st.message.value, CheckBackgroundQueue(queue, queueAge), CheckParallelSessions(parallel));
    var m := Merge(st.message, CheckBackgroundQueue(queue, queueAge), CheckParallelSessions(parallel));
    Output(st.hasSession, st.recommendation, if m.Some? && m.value != "" then m else None)
  }

  /** A message that is there keeps its place at the head of the merged one. */
  lemma MergeKeepsMessage(message: string, bg: string, par: string)
    requires message != ""
    ensures var m := Merge(Some(message), bg, par); m.Some? && StartsWith(m.value, message)
  {
    var m := Merge(Some(message), bg, par);
    if bg != "" || par != "" {
      var p := message + "\n\n";
      assert m.value[..|p|] == p;
      assert p[..|message|] == message;
    }
  }

  /**
   * The state's message always exists, so the user always gets a message, and it begins with
   * the state's own message; the extra lines only ever follow it.
   */
  lemma MainMessage(task: Option<string>, readable: bool, age: Age, queue: Option<string>, queueAge: Age, parallel: Option<string>)
    ensures var st := CheckSessionState(task, readable, age);
      var o := Main(task, readable, age, queue, queueAge, parallel);
      o.userMessage.Some? && StartsWith(o.userMessage.value, st.message.value)
    ensures var st := CheckSessionState(task, readable, age);
      var extra := Extra(CheckBackgroundQueue(queue, queueAge), CheckParallelSessions(parallel));
      var o := Main(task, readable, age, queue, queueAge, parallel);
      o.userMessage == Some(if extra == [] then st.message.value else st.message.value + "\n\n" + Join(extra, "\n"))
  {
    var st := CheckSessionState(task, readable, age);
    MergeKeepsMessage(st.message.value, CheckBackgroundQueue(queue, queueAge), CheckParallelSessions(parallel));
  }
}
