/**
 * `validate_project` of claudex/validator.py: the health check of an installed `.claude/`
 * directory. The project is given as the set of relative paths that exist ('/'-separated) and
 * the text of `.gitignore`; the check list is evaluated in order and each check adds one
 * message either to the passes or to the failures.
 */
module Validator {
  import opened Strs

  const RequiredDirs: seq<string> := ["hooks", "commands", "rules", "session", "feedback"]

  const RequiredFiles: seq<string> := [
    "settings.json",
    "hooks/session-start.py",
    "hooks/pre-tool-use.py",
    "hooks/post-tool-use.py",
    "hooks/pre-compact.py",
    "hooks/stop-lint-check.py",
    "hooks/session-end.py"
  ]

  /** What the validator can observe of a project: which relative paths exist, and what
      `.gitignore` holds (read only when it exists). */
  datatype Project = Project(paths: set<string>, gitignore: string)

  /** One entry of the check list: whether it passed, and the message it reports. */
  datatype Check = Check(passed: bool, message: string)

  /** `(passes, failures)`. */
  datatype Report = Report(passes: seq<string>, failures: seq<string>)

  // The messages, as the source words them.
  const NoClaudeDir := "'.claude/' directory not found - run 'claudex init' to create it"
  const ClaudeDirPresent := "'.claude/' directory exists"
  function DirPresent(d: string): string { "'.claude/" + d + "/' exists" }
  function DirMissing(d: string): string { "Missing '.claude/" + d + "/' - run 'claudex init --force' to restore" }
  function FilePresent(f: string): string { "'.claude/" + f + "' exists" }
  function FileMissing(f: string): string { "Missing '.claude/" + f + "' - run 'claudex init --force' to restore" }
  const ClaudeMdPresent := "'CLAUDE.md' exists at project root"
  const ClaudeMdMissing := "Missing 'CLAUDE.md' at project root - run 'claudex init --force' to generate"
  const NoGitignore := "No '.gitignore' file - create one with '.claude/' entry"
  const GitignoreListsClaude := "'.gitignore' contains '.claude/'"
  const GitignoreLacksClaude := "'.gitignore' missing '.claude/' entry - add it manually or run 'claudex init --force'"
  const McpPresent := "'.mcp.json' exists (MCP integration enabled)"
  const McpMissing := "'.mcp.json' missing (optional - enables MCP integration)"

  function ClaudePath(rel: string): string { ".claude/" + rel }

  /** One check per required directory, in order. */
  function DirChecks(p: Project, dirs: seq<string>): (cs: seq<Check>)
    ensures |cs| == |dirs|
    ensures forall i | 0 <= i < |dirs| :: cs[i].passed <==> ClaudePath(dirs[i]) in p.paths
  {
    if |dirs| == 0 then []
    else
      var d := dirs[0];
      var c := if ClaudePath(d) in p.paths then Check(true, DirPresent(d))
               else Check(false, DirMissing(d));
      [c] + DirChecks(p, dirs[1..])
  }

  /** One check per required file, in order. */
  function FileChecks(p: Project, files: seq<string>): (cs: seq<Check>)
    ensures |cs| == |files|
    ensures forall i | 0 <= i < |files| :: cs[i].passed <==> ClaudePath(files[i]) in p.paths
  {
    if |files| == 0 then []
    else
      var f := files[0];
      var c := if ClaudePath(f) in p.paths then Check(true, FilePresent(f))
               else Check(false, FileMissing(f));
      [c] + FileChecks(p, files[1..])
  }

  /** The three checks after the required files: CLAUDE.md, `.gitignore` and the optional `.mcp.json`. */
  function RootChecks(p: Project): (cs: seq<Check>)
    ensures |cs| == 3
    ensures cs[0].passed <==> "CLAUDE.md" in p.paths
    ensures cs[1].passed <==> ".gitignore" in p.paths && Contains(p.gitignore, ".claude/")
    ensures cs[2].passed
  {
    var md := if "CLAUDE.md" in p.paths then Check(true, ClaudeMdPresent) else Check(false, ClaudeMdMissing);
    var gi := if ".gitignore" !in p.paths then Check(false, NoGitignore)
              else if Contains(p.gitignore, ".claude/") then Check(true, GitignoreListsClaude)
              else Check(false, GitignoreLacksClaude);
    var mcp := if ".mcp.json" in p.paths then Check(true, McpPresent) else Check(true, McpMissing);
    [md, gi, mcp]
  }

  /** The check list `validate_project` runs, stopping after the first when `.claude` is missing. */
  function Checks(p: Project): (cs: seq<Check>)
    ensures ".claude" !in p.paths ==> |cs| == 1 && !cs[0].passed
    ensures ".claude" in p.paths ==>
      && |cs| == 1 + |RequiredDirs| + |RequiredFiles| + 3
      && cs[0].passed
      && (forall i | 0 <= i < |RequiredDirs| :: cs[1 + i].passed <==> ClaudePath(RequiredDirs[i]) in p.paths)
      && (forall i | 0 <= i < |RequiredFiles| ::
            cs[1 + |RequiredDirs| + i].passed <==> ClaudePath(RequiredFiles[i]) in p.paths)
      && (cs[13].passed <==> "CLAUDE.md" in p.paths)
      && (cs[14].passed <==> ".gitignore" in p.paths && Contains(p.gitignore, ".claude/"))
      && cs[15].passed
  {
    if ".claude" !in p.paths then [Check(false, NoClaudeDir)]
    else
      var front := FrontChecks(p);
      var rs := RootChecks(p);
      var cs := front + rs;
      assert forall i | 0 <= i < |front| :: cs[i] == front[i];
      assert cs[13] == rs[0] && cs[14] == rs[1] && cs[15] == rs[2];
      cs
  }

  /** The `.claude/` check followed by the required directories and files. */
  function FrontChecks(p: Project): (cs: seq<Check>)
    requires ".claude" in p.paths
    ensures |cs| == 1 + |RequiredDirs| + |RequiredFiles|
    ensures cs[0].passed
    ensures forall i | 0 <= i < |RequiredDirs| :: cs[1 + i].passed <==> ClaudePath(RequiredDirs[i]) in p.paths
    ensures forall i | 0 <= i < |RequiredFiles| ::
              cs[1 + |RequiredDirs| + i].passed <==> ClaudePath(RequiredFiles[i]) in p.paths
  {
    ClaudeChecks(p, RequiredDirs, RequiredFiles)
  }

  /** The `.claude/` check followed by checks for the given directories and files. */
  function ClaudeChecks(p: Project, dirs: seq<string>, files: seq<string>): (cs: seq<Check>)
    ensures |cs| == 1 + |dirs| + |files|
    ensures cs[0].passed
    ensures forall i | 0 <= i < |dirs| :: cs[1 + i].passed <==> ClaudePath(dirs[i]) in p.paths
    ensures forall i | 0 <= i < |files| :: cs[1 + |dirs| + i].passed <==> ClaudePath(files[i]) in p.paths
  {
    var ds := DirChecks(p, dirs);
    var fs := FileChecks(p, files);
    var cs := [Check(true, ClaudeDirPresent)] + ds + fs;
    assert forall i | 0 <= i < |ds| :: cs[1 + i] == ds[i];
    assert forall i | 0 <= i < |fs| :: cs[1 + |ds| + i] == fs[i];
    cs
  }

  /** The messages of the checks with the given outcome, in order. */
  function Messages(cs: seq<Check>, outcome: bool): (ms: seq<string>)
    ensures |ms| <= |cs|
    ensures |ms| == 0 <==> forall i | 0 <= i < |cs| :: cs[i].passed != outcome
  {
    if |cs| == 0 then []
    else (if cs[0].passed == outcome then [cs[0].message] else []) + Messages(cs[1..], outcome)
  }

  /** Every check lands in exactly one of the two lists. */
  lemma {:induction false} MessagesPartition(cs: seq<Check>)
    ensures |Messages(cs, true)| + |Messages(cs, false)| == |cs|
  {
    if |cs| > 0 {
      MessagesPartition(cs[1..]);
    }
  }

  /** Everything the validator asks for is in place. */
  predicate Healthy(p: Project) {
    && ".claude" in p.paths
    && (forall d | d in RequiredDirs :: ClaudePath(d) in p.paths)
    && (forall f | f in RequiredFiles :: ClaudePath(f) in p.paths)
    && "CLAUDE.md" in p.paths
    && ".gitignore" in p.paths && Contains(p.gitignore, ".claude/")
  }

  /** `validate_project`: the passing and the failing messages of the check list. */
  function ValidateProject(p: Project): (r: Report)
    ensures |r.passes| + |r.failures| == |Checks(p)|
    ensures ".claude" !in p.paths ==> r.passes == [] && |r.failures| == 1
    ensures ".claude" in p.paths ==> |r.passes| + |r.failures| == 16
    ensures |r.failures| == 0 <==> Healthy(p)
  {
    var cs := Checks(p);
    MessagesPartition(cs);
    HealthyIffAllPass(p);
    Report(Messages(cs, true), Messages(cs, false))
  }

  lemma HealthyIffAllPass(p: Project)
    ensures Healthy(p) <==> forall i | 0 <= i < |Checks(p)| :: Checks(p)[i].passed
  {
    var cs := Checks(p);
    if ".claude" in p.paths {
      if forall i | 0 <= i < |cs| :: cs[i].passed {
        forall d | d in RequiredDirs ensures ClaudePath(d) in p.paths {
          var i :| 0 <= i < |RequiredDirs| && RequiredDirs[i] == d;
          assert cs[1 + i].passed;
        }
        forall f | f in RequiredFiles ensures ClaudePath(f) in p.paths {
          var i :| 0 <= i < |RequiredFiles| && RequiredFiles[i] == f;
          assert cs[1 + |RequiredDirs| + i].passed;
        }
        assert cs[13].passed && cs[14].passed;
      }
      if Healthy(p) {
        forall i | 0 <= i < |cs| ensures cs[i].passed {
          if 1 <= i < 1 + |RequiredDirs| {
            assert RequiredDirs[i - 1] in RequiredDirs;
          } else if 1 + |RequiredDirs| <= i < 1 + |RequiredDirs| + |RequiredFiles| {
            assert RequiredFiles[i - 1 - |RequiredDirs|] in RequiredFiles;
          }
        }
      }
    }
  }

  /** The optional `.mcp.json` never causes a failure: adding or removing it leaves the failures alone. */
  lemma McpJsonNeverFails(p: Project)
    ensures ValidateProject(p).failures == ValidateProject(p.(paths := p.paths - {".mcp.json"})).failures
    ensures ValidateProject(p).failures == ValidateProject(p.(paths := p.paths + {".mcp.json"})).failures
  {
    var without := p.(paths := p.paths - {".mcp.json"});
    var with := p.(paths := p.paths + {".mcp.json"});
    McpIrrelevant(p, without);
    McpIrrelevant(p, with);
  }

  /** Two projects that differ at most in `.mcp.json` get the same failures. */
  lemma McpIrrelevant(p: Project, q: Project)
    requires p.gitignore == q.gitignore
    requires forall x | x != ".mcp.json" :: x in p.paths <==> x in q.paths
    ensures ValidateProject(p).failures == ValidateProject(q).failures
  {
    assert ".claude" in p.paths <==> ".claude" in q.paths;
    if ".claude" in p.paths {
      DirChecksAgree(p, q, RequiredDirs);
      FileChecksAgree(p, q, RequiredFiles);
      assert FrontChecks(p) == FrontChecks(q);
      MessagesAppend(FrontChecks(p), RootChecks(p), false);
      MessagesAppend(FrontChecks(q), RootChecks(q), false);
      RootFailuresAgree(p, q);
    }
  }

  lemma RootFailuresAgree(p: Project, q: Project)
    requires p.gitignore == q.gitignore
    requires forall x | x != ".mcp.json" :: x in p.paths <==> x in q.paths
    ensures Messages(RootChecks(p), false) == Messages(RootChecks(q), false)
  {
    assert "CLAUDE.md" in p.paths <==> "CLAUDE.md" in q.paths;
    assert ".gitignore" in p.paths <==> ".gitignore" in q.paths;
    var rp, rq := RootChecks(p), RootChecks(q);
    assert rp[..2] == rq[..2];
    assert rp == rp[..2] + [rp[2]] && rq == rq[..2] + [rq[2]];
    FailuresIgnorePass(rp[..2], rp[2]);
    FailuresIgnorePass(rq[..2], rq[2]);
  }

  /** Filtering distributes over concatenation. */
  lemma {:induction false} MessagesAppend(a: seq<Check>, b: seq<Check>, outcome: bool)
    ensures Messages(a + b, outcome) == Messages(a, outcome) + Messages(b, outcome)
  {
    if |a| > 0 {
      var head := if a[0].passed == outcome then [a[0].message] else [];
      assert Messages(a, outcome) == head + Messages(a[1..], outcome);
      assert Messages(a + b, outcome) == head + Messages(a[1..] + b, outcome) by {
        assert (a + b)[1..] == a[1..] + b;
        assert (a + b)[0] == a[0];
      }
      MessagesAppend(a[1..], b, outcome);
      SeqAssoc(head, Messages(a[1..], outcome), Messages(b, outcome));
    } else {
      assert a + b == b;
    }
  }

  lemma SeqAssoc<T>(x: seq<T>, y: seq<T>, z: seq<T>)
    ensures x + (y + z) == (x + y) + z
  {
  }

  lemma DirChecksAgree(p: Project, q: Project, dirs: seq<string>)
    requires forall x | x != ".mcp.json" :: x in p.paths <==> x in q.paths
    ensures DirChecks(p, dirs) == DirChecks(q, dirs)
  {
    if |dirs| > 0 {
      assert ClaudePath(dirs[0]) != ".mcp.json" by { assert ClaudePath(dirs[0])[1] == 'c'; }
      DirChecksAgree(p, q, dirs[1..]);
    }
  }

  lemma FileChecksAgree(p: Project, q: Project, files: seq<string>)
    requires forall x | x != ".mcp.json" :: x in p.paths <==> x in q.paths
    ensures FileChecks(p, files) == FileChecks(q, files)
  {
    if |files| > 0 {
      assert ClaudePath(files[0]) != ".mcp.json" by { assert ClaudePath(files[0])[1] == 'c'; }
      FileChecksAgree(p, q, files[1..]);
    }
  }

  lemma {:induction false} FailuresIgnorePass(cs: seq<Check>, c: Check)
    requires c.passed
    ensures Messages(cs + [c], false) == Messages(cs, false)
  {
    if |cs| == 0 {
      assert [c][1..] == [];
    } else {
      assert (cs + [c])[1..] == cs[1..] + [c];
      FailuresIgnorePass(cs[1..], c);
    }
  }
}
