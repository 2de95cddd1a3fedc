/**
 * `generate_claude_md` of claudex/generator.py: the CLAUDE.md text built from a detected profile
 * and a preset's configuration (the `key: value` map the preset reader returns). The document is
 * seven sections in a fixed order, empty ones left out, joined by a horizontal rule.
 */
module Generator {
  import opened Wrappers
  import opened Strs
  import opened Detectors

  /** `preset_config.get(key, "")`. */
  function Get(config: map<string, string>, key: string): string {
    if key in config then config[key] else ""
  }

  function Lines(ls: seq<string>): string {
    Join(ls, "\n")
  }

  const Rule := "\n\n---\n\n"

  // ---------------------------------------------------------------------------------------
  // _section_header, _section_constraints

  function HeaderLines(p: Profile): seq<string> {
    ["# " + p.name] + (if p.description != "" then ["", "## Project Overview", "", p.description] else [])
  }

  function Header(p: Profile): string {
    Lines(HeaderLines(p))
  }

  const NeverCommit :=
    "**Never commit** - `.claude/`, "
    + "`.env`, `.env.*`, `*.pem`, `*.key`, "
    + "`*.token`, `credentials.json`, "
    + "`secrets.yaml`"
  const CommitTests :=
    "**Always commit tests** - Test "
    + "files in `tests/` must be committed "
    + "for CI"
  const CleanHistory :=
    "**Clean git history** - No AI "
    + "tool names, no Co-Authored-By "
    + "AI lines in commits/PRs"
  const RuleVersioning :=
    "**Rule versioning** - All business "
    + "rules versioned, evaluations "
    + "reference rule_version_id"

  const BaseConstraints: seq<string> := [NeverCommit, CommitTests, CleanHistory]

  /** The constraints, with rule versioning inserted at index 1 when a database was detected. */
  function ConstraintItems(hasDb: bool): seq<string> {
    if hasDb then BaseConstraints[..1] + [RuleVersioning] + BaseConstraints[1..] else BaseConstraints
  }

  /** `f"{i}. {item}"` for `i` counting up from `from`. */
  function Numbered(items: seq<string>, from: nat): (r: seq<string>)
    ensures |r| == |items|
  {
    if |items| == 0 then [] else [NatToString(from) + ". " + items[0]] + Numbered(items[1..], from + 1)
  }

  lemma {:induction false} NumberedItems(items: seq<string>, from: nat)
    ensures forall i | 0 <= i < |items| :: Numbered(items, from)[i] == NatToString(from + i) + ". " + items[i]
    decreases |items|
  {
    if |items| > 0 {
      NumberedItems(items[1..], from + 1);
      var r := Numbered(items, from);
      forall i | 0 <= i < |items| ensures r[i] == NatToString(from + i) + ". " + items[i] {
        if i > 0 {
          assert r[i] == Numbered(items[1..], from + 1)[i - 1];
        }
      }
    }
  }

  function ConstraintLines(p: Profile): seq<string> {
    Numbered(ConstraintItems(p.hasDb), 1)
  }

  function Constraints(p: Profile): string {
    Lines(["## Hard Constraints (Non-negotiable)", ""] + ConstraintLines(p))
  }

  /**
   * The constraints are numbered 1..n with no gap; n is 4 with a database and 3 without, and the
   * database adds exactly the rule-versioning item, in second place.
   */
  lemma ConstraintNumbering(p: Profile)
    ensures |ConstraintLines(p)| == (if p.hasDb then 4 else 3)
    ensures forall i | 0 <= i < |ConstraintLines(p)| ::
      ConstraintLines(p)[i] == NatToString(i + 1) + ". " + ConstraintItems(p.hasDb)[i]
    ensures p.hasDb ==> ConstraintItems(true)[1] == RuleVersioning
    ensures p.hasDb ==> ConstraintItems(true)[..1] + ConstraintItems(true)[2..] == ConstraintItems(false)
  {
    NumberedItems(ConstraintItems(p.hasDb), 1);
    var t := ConstraintItems(true);
    assert t[..1] + t[2..] == BaseConstraints;
  }

  // ---------------------------------------------------------------------------------------
  // _section_architecture, _section_layer_rules

  /** `f"  {d}/"` for each directory. */
  function DirLines(ds: seq<string>): (r: seq<string>)
    ensures |r| == |ds|
    ensures forall k | 0 <= k < |ds| :: r[k] == "  " + ds[k] + "/"
  {
    if |ds| == 0 then [] else ["  " + ds[0] + "/"] + DirLines(ds[1..])
  }

  /** ``f"- `{d}/` - {what}"`` for each directory. */
  function Bullets(ds: seq<string>, what: string): (r: seq<string>)
    ensures |r| == |ds|
    ensures forall k | 0 <= k < |ds| :: r[k] == "- `" + ds[k] + "/` - " + what
  {
    if |ds| == 0 then [] else ["- `" + ds[0] + "/` - " + what] + Bullets(ds[1..], what)
  }

  /** The repository tree: the detected one, else the preset's, else the name and the source and test directories. */
  function TreeLines(p: Profile, config: map<string, string>): seq<string> {
    if p.directoryTree != "" then [p.directoryTree]
    else if Get(config, "architecture_tree") != "" then [Get(config, "architecture_tree")]
    else [p.name + "/"] + DirLines(p.srcDirs) + DirLines(p.testDirs)
  }

  function LayerDescriptionLines(p: Profile, config: map<string, string>): seq<string> {
    if Get(config, "layer_description") != "" then [Get(config, "layer_description")]
    else if |p.srcDirs| > 0 then
      ["Project follows standard layered architecture:", ""]
      + Bullets(p.srcDirs, "Application source code") + Bullets(p.testDirs, "Test suites")
    else []
  }

  function Architecture(p: Profile, config: map<string, string>): string {
    Lines(["## Architecture", "", "### Repository Structure", "", "```"] + TreeLines(p, config)
      + ["```", "", "### Layer Responsibilities", ""] + LayerDescriptionLines(p, config))
  }

  /**
   * The tree shown is the detected tree whenever there is one, whatever the preset says; the
   * preset's tree comes next; only without either is a tree built from the name and directories,
   * one line per directory.
   */
  lemma ArchitecturePreference(p: Profile, c1: map<string, string>, c2: map<string, string>)
    ensures p.directoryTree != "" ==> TreeLines(p, c1) == TreeLines(p, c2) == [p.directoryTree]
    ensures p.directoryTree == "" && Get(c1, "architecture_tree") != "" ==> TreeLines(p, c1) == [Get(c1, "architecture_tree")]
    ensures p.directoryTree == "" && Get(c1, "architecture_tree") == "" ==>
      TreeLines(p, c1)[0] == p.name + "/" && |TreeLines(p, c1)| == 1 + |p.srcDirs| + |p.testDirs|
  {
  }

  function LayerRules(config: map<string, string>): string {
    if Get(config, "layer_rules") == "" then "" else Lines(["## Layer Rules", "", Get(config, "layer_rules")])
  }

  // ---------------------------------------------------------------------------------------
  // _section_workflow, _section_testing

  const Workflow :=
    "## Development Workflow\n\n"
    + "Follow the standard development workflow in "
    + "`.claude/rules/development/"
    + "DEVELOPMENT_WORKFLOW.md`:\n\n"
    + "1. Use `/dev start <task>` to initialize\n"
    + "2. Follow TDD approach for core modules\n"
    + "3. Run `/validate-architecture` "
    + "before implementation\n"
    + "4. Run `/run-tests` before completion\n"
    + "5. Use `/dev complete` for final QA"

  const TableHead: seq<string> := ["| Layer | Test Type | Coverage Target |", "|-------|-----------|-----------------|"]
  const PythonRows: seq<string> := [
    "| Core/Domain | Unit tests | 95% |",
    "| Application | Unit + Integration | 80% |",
    "| Infrastructure | Integration | 70% |",
    "| E2E | Full pipeline | Critical paths |"
  ]
  const ScriptRows: seq<string> := [
    "| Components | Unit tests | 90% |",
    "| Hooks/Utils | Unit tests | 90% |",
    "| Integration | API tests | 80% |",
    "| E2E | Full workflows | Critical paths |"
  ]
  const NoTable :=
    "Write tests for all business "
    + "logic with appropriate coverage "
    + "targets."

  function TestingRows(language: Language): seq<string> {
    if language == Python then TableHead + PythonRows
    else if language == TypeScript || language == JavaScript then TableHead + ScriptRows
    else [NoTable]
  }

  function Testing(p: Profile): string {
    Lines(["## Testing Strategy", ""] + TestingRows(p.language))
  }

  // ---------------------------------------------------------------------------------------
  // _build_quick_start_commands, _build_dev_server_command, _section_quick_start

  const InstallCommands: seq<(string, string)> := [
    ("uv", "uv sync"), ("poetry", "poetry install"), ("pip", "pip install -r requirements.txt"),
    ("npm", "npm install"), ("pnpm", "pnpm install"), ("yarn", "yarn install")
  ]

  /** The install command for the package manager; other values, and none, add no install line. */
  function InstallCommand(pm: Option<string>): Option<string> {
    if pm == Some("uv") then Some("uv sync")
    else if pm == Some("poetry") then Some("poetry install")
    else if pm == Some("pip") then Some("pip install -r requirements.txt")
    else if pm == Some("npm") then Some("npm install")
    else if pm == Some("pnpm") then Some("pnpm install")
    else if pm == Some("yarn") then Some("yarn install")
    else None
  }

  /**
   * The install command is the one the table pairs with the package manager, and it is run by
   * that package manager; a package manager outside the table gets no command.
   */
  lemma InstallCommandTable(pm: Option<string>)
    ensures InstallCommand(pm).Some? <==> exists j | 0 <= j < |InstallCommands| :: pm == Some(InstallCommands[j].0)
    ensures forall j | 0 <= j < |InstallCommands| :: pm == Some(InstallCommands[j].0) ==> InstallCommand(pm) == Some(InstallCommands[j].1)
    ensures InstallCommand(pm).Some? ==> StartsWith(InstallCommand(pm).value, pm.value + " ")
  {
    if pm == Some("uv") {
      assert pm == Some(InstallCommands[0].0);
    } else if pm == Some("poetry") {
      assert pm == Some(InstallCommands[1].0);
    } else if pm == Some("pip") {
      assert pm == Some(InstallCommands[2].0);
    } else if pm == Some("npm") {
      assert pm == Some(InstallCommands[3].0);
    } else if pm == Some("pnpm") {
      assert pm == Some(InstallCommands[4].0);
    } else if pm == Some("yarn") {
      assert pm == Some(InstallCommands[5].0);
    }
    if InstallCommand(pm).Some? {
      var c := InstallCommand(pm).value;
      assert StartsWith(c, pm.value + " ");
    }
  }

  const Runserver := "python manage.py runserver"
  const FlaskRun := "flask run"

  /** `ep.replace("/", ".").replace(".py", "")`. */
  function Module(ep: string): string {
    ReplaceAll(ReplaceAll(ep, "/", "."), ".py", "")
  }

  /** An entry point the dev-server loop stops at. */
  predicate Decisive(ep: string, framework: Option<string>) {
    ep == "manage.py"
    || ((Contains(ep, "main.py") || Contains(ep, "app.py")) && (framework == Some("FastAPI") || framework == Some("Flask")))
  }

  /** The command a decisive entry point yields. */
  function CommandFor(ep: string, framework: Option<string>): string
    requires Decisive(ep, framework)
  {
    if ep == "manage.py" then Runserver
    else if framework == Some("FastAPI") then "uvicorn " + Module(ep) + ":app --reload"
    else FlaskRun
  }

  /** Where the entry-point loop of `_build_dev_server_command` stops: the first decisive entry point. */
  function FirstDecisive(eps: seq<string>, framework: Option<string>): (n: nat)
    ensures n <= |eps|
    ensures forall j | 0 <= j < n :: !Decisive(eps[j], framework)
    ensures n < |eps| ==> Decisive(eps[n], framework)
  {
    if |eps| == 0 || Decisive(eps[0], framework) then 0 else 1 + FirstDecisive(eps[1..], framework)
  }

  /** The entry-point loop of `_build_dev_server_command`: the first decisive entry point decides. */
  function DevFromEntries(eps: seq<string>, framework: Option<string>): (r: Option<string>)
    ensures r.None? <==> forall i | 0 <= i < |eps| :: !Decisive(eps[i], framework)
    ensures r.Some? ==>
      var n := FirstDecisive(eps, framework);
      n < |eps| && r.value == CommandFor(eps[n], framework) && DevShape(r.value)
  {
    var n := FirstDecisive(eps, framework);
    if n == |eps| then None
    else
      CommandShape(eps[n], framework);
      Some(CommandFor(eps[n], framework))
  }

  /** A decisive entry point's command has the form of a dev-server command. */
  lemma CommandShape(ep: string, framework: Option<string>)
    requires Decisive(ep, framework)
    ensures DevShape(CommandFor(ep, framework))
  {
    if ep != "manage.py" && framework == Some("FastAPI") {
      var m := Module(ep);
      assert ("uvicorn " + m + ":app --reload")[..8] == "uvicorn ";
    }
  }

  /** `profile.package_manager or "npm"`. */
  function ScriptRunner(pm: Option<string>): string {
    if pm.Some? && pm.value != "" then pm.value else "npm"
  }

  /** The form every dev-server command takes. */
  predicate DevShape(d: string) {
    d == "" || d == Runserver || d == FlaskRun || StartsWith(d, "uvicorn ") || EndsWith(d, " run dev")
  }

  /** `_build_dev_server_command`: a decisive entry point, else `<pm> run dev` for TypeScript and JavaScript, else nothing. */
  function DevServerCommand(p: Profile): (d: string)
    ensures DevShape(d)
    ensures d == "" <==> DevFromEntries(p.entryPoints, p.framework).None? && p.language != TypeScript && p.language != JavaScript
  {
    match DevFromEntries(p.entryPoints, p.framework)
    case Some(c) => c
    case None =>
      if p.language == TypeScript || p.language == JavaScript then
        var d := ScriptRunner(p.packageManager) + " run dev";
        assert EndsWith(d, " run dev");
        d
      else ""
  }

  function InstallLines(p: Profile): seq<string> {
    match InstallCommand(p.packageManager)
    case Some(c) => [c]
    case None => []
  }

  const DockerLines: seq<string> := ["", "# Start services", "docker-compose up -d"]

  function MigrationLines(p: Profile): seq<string> {
    if p.hasDb && p.language == Python then
      ["", "# Run migrations"]
      + (if p.framework == Some("Django") then ["python manage.py migrate"]
         else if exists i | 0 <= i < |p.entryPoints| :: Contains(p.entryPoints[i], "alembic") then ["alembic upgrade head"]
         else [])
    else []
  }

  function DevLines(p: Profile): seq<string> {
    var d := DevServerCommand(p);
    if d != "" then ["", "# Start dev server", d] else []
  }

  /** `_build_quick_start_commands`: install, services, migrations and dev server, each only when it applies. */
  function QuickStartCommands(p: Profile): (cmds: seq<string>)
    ensures |cmds| == 0 <==>
      InstallCommand(p.packageManager).None? && !p.hasDocker && !(p.hasDb && p.language == Python) && DevServerCommand(p) == ""
  {
    InstallLines(p) + (if p.hasDocker then DockerLines else []) + MigrationLines(p) + DevLines(p)
  }

  const NoQuickStart := "# No quick start commands detected"

  /** The lines inside the quick-start code block. */
  function QuickStartBody(p: Profile, config: map<string, string>): seq<string> {
    var cmds := QuickStartCommands(p);
    if |cmds| > 0 then cmds
    else if Get(config, "quick_start") != "" then [Get(config, "quick_start")]
    else [NoQuickStart]
  }

  function QuickStart(p: Profile, config: map<string, string>): string {
    Lines(["## Quick Start", "", "```bash"] + QuickStartBody(p, config) + ["```"])
  }

  /** The preset's quick start, and then the placeholder, are used only when no command was built. */
  lemma QuickStartFallback(p: Profile, config: map<string, string>)
    ensures |QuickStartCommands(p)| > 0 ==> QuickStartBody(p, config) == QuickStartCommands(p)
    ensures |QuickStartCommands(p)| == 0 && Get(config, "quick_start") != "" ==> QuickStartBody(p, config) == [config["quick_start"]]
    ensures |QuickStartCommands(p)| == 0 && Get(config, "quick_start") == "" ==> QuickStartBody(p, config) == [NoQuickStart]
    ensures |QuickStartBody(p, config)| > 0
  {
  }

  /** No dev-server command reads as one of the quick-start markers or service lines. */
  lemma DevNotMarker(x: string)
    ensures DevShape(x) ==> x != "docker-compose up -d" && x != "# Start services" && x != "# Run migrations"
  {
    var a, b, c := "docker-compose up -d", "# Start services", "# Run migrations";
    assert a[..8][0] != "uvicorn "[0] && a[|a| - 8..][7] != " run dev"[7];
    assert b[..8][0] != "uvicorn "[0] && b[|b| - 8..][7] != " run dev"[7];
    assert c[..8][0] != "uvicorn "[0] && c[|c| - 8..][7] != " run dev"[7];
  }

  predicate HasLine(cmds: seq<string>, x: string) {
    exists i | 0 <= i < |cmds| :: cmds[i] == x
  }

  /** The services block (`docker-compose up -d`) appears exactly when Docker was detected. */
  lemma DockerBlockIff(p: Profile)
    ensures HasLine(QuickStartCommands(p), "docker-compose up -d") <==> p.hasDocker
  {
    var i, m, d := InstallLines(p), MigrationLines(p), DevLines(p);
    var cmds := QuickStartCommands(p);
    var dock := if p.hasDocker then DockerLines else [];
    assert cmds == i + dock + m + d;
    var x := "docker-compose up -d";
    if p.hasDocker {
      assert cmds[|i| + 2] == x;
    } else {
      assert cmds == i + m + d;
      forall k | 0 <= k < |cmds| ensures cmds[k] != x {
        if k < |i| {
          assert cmds[k] == i[k];
        } else if k < |i| + |m| {
          assert cmds[k] == m[k - |i|];
        } else {
          assert cmds[k] == d[k - |i| - |m|];
          DevNotMarker(DevServerCommand(p));
        }
      }
    }
  }

  /** The migration block appears exactly for Python projects with a database; Django migrates through manage.py. */
  lemma MigrationBlockIff(p: Profile)
    ensures HasLine(QuickStartCommands(p), "# Run migrations") <==> p.hasDb && p.language == Python
    ensures p.hasDb && p.language == Python && p.framework == Some("Django") ==>
      HasLine(QuickStartCommands(p), "python manage.py migrate")
  {
    var i, m, d := InstallLines(p), MigrationLines(p), DevLines(p);
    var cmds := QuickStartCommands(p);
    var dock := if p.hasDocker then DockerLines else [];
    assert cmds == i + dock + m + d;
    var x := "# Run migrations";
    if p.hasDb && p.language == Python {
      assert cmds[|i| + |dock| + 1] == x;
      if p.framework == Some("Django") {
        assert cmds[|i| + |dock| + 2] == "python manage.py migrate";
      }
    } else {
      assert cmds == i + dock + d;
      forall k | 0 <= k < |cmds| ensures cmds[k] != x {
        if k < |i| {
          assert cmds[k] == i[k];
        } else if k < |i| + |dock| {
          assert cmds[k] == dock[k - |i|];
        } else {
          assert cmds[k] == d[k - |i| - |dock|];
          DevNotMarker(DevServerCommand(p));
        }
      }
    }
  }

  /** `"main.py".replace("/", ".").replace(".py", "")` is `main`. */
  lemma ModuleOfMainPy()
    ensures Module("main.py") == "main"
  {
    var ep := "main.py";
    assert !Contains("main", ".py") by {
      forall i | 0 <= i <= 1 ensures !OccursAt("main", ".py", i) {
        assert "main"[i..i + 3][0] == "main"[i];
      }
    }
    assert forall j | 0 <= j < 7 :: !OccursAt(ep, ".py", j) || j == 4 by {
      forall j | 0 <= j < 7 && j != 4 ensures !OccursAt(ep, ".py", j) {
        if j + 3 <= 7 {
          assert ep[j..j + 3][0] == ep[j];
        }
      }
    }
    assert !Contains(ep, "/") by {
      forall i | 0 <= i <= |ep| - 1 ensures !OccursAt(ep, "/", i) {
        assert ep[i..i + 1][0] == ep[i];
      }
    }
    ReplaceAbsent(ep, "/", ".");
    assert "main" + ".py" + "" == ep;
    SplitOnce("main", "", ".py");
  }

  /** A FastAPI project whose only entry point is `main.py` is served by uvicorn from module `main`. */
  lemma FastApiDevServer(p: Profile)
    requires p.entryPoints == ["main.py"] && p.framework == Some("FastAPI")
    ensures DevServerCommand(p) == "uvicorn main:app --reload"
  {
    assert OccursAt(p.entryPoints[0], "main.py", 0);
    assert FirstDecisive(p.entryPoints, p.framework) == 0;
    ModuleOfMainPy();
    assert DevServerCommand(p) == "uvicorn " + "main" + ":app --reload";
    UvicornMain();
  }

  lemma UvicornMain()
    ensures "uvicorn " + "main" + ":app --reload" == "uvicorn main:app --reload"
  {
  }

  // ---------------------------------------------------------------------------------------
  // generate_claude_md

  function Sections(p: Profile, config: map<string, string>): seq<string> {
    [Header(p), Constraints(p), Architecture(p, config), LayerRules(config), Workflow, Testing(p), QuickStart(p, config)]
  }

  /** `s for s in sections if s`. */
  function NonEmpty(ss: seq<string>): (r: seq<string>)
    ensures |r| <= |ss|
    ensures forall i | 0 <= i < |r| :: r[i] != ""
  {
    if |ss| == 0 then [] else (if ss[0] != "" then [ss[0]] else []) + NonEmpty(ss[1..])
  }

  /** `generate_claude_md`. */
  function GenerateClaudeMd(p: Profile, config: map<string, string>): (md: string)
    ensures StartsWith(md, "# " + p.name)
  {
    DocumentHead(p, config);
    Join(NonEmpty(Sections(p, config)), Rule)
  }

  /** The document begins with its header, and the header with the title line. */
  lemma DocumentHead(p: Profile, config: map<string, string>)
    ensures StartsWith(Join(NonEmpty(Sections(p, config)), Rule), "# " + p.name)
  {
    var ne := NonEmpty(Sections(p, config));
    var h := Header(p);
    assert ne == [h] + ne[1..] by {
      SectionsPresent(p, config);
    }
    assert StartsWith(Join(ne, Rule), h) by {
      JoinStartsWithHead(h, ne[1..], Rule);
    }
    HeaderStartsWithTitle(p);
    StartsWithTransitive("# " + p.name, h, Join(ne, Rule));
  }

  lemma HeaderStartsWithTitle(p: Profile)
    ensures StartsWith(Header(p), "# " + p.name)
  {
    var hl := HeaderLines(p);
    assert hl == ["# " + p.name] + hl[1..];
    JoinStartsWithHead("# " + p.name, hl[1..], "\n");
  }

  lemma LinesNonEmpty(x: string, rest: seq<string>)
    requires x != ""
    ensures Lines([x] + rest) != ""
  {
    JoinStartsWithHead(x, rest, "\n");
  }

  lemma HeaderNonEmpty(p: Profile)
    ensures Header(p) != ""
  {
    assert HeaderLines(p) == ["# " + p.name] + HeaderLines(p)[1..];
    LinesNonEmpty("# " + p.name, HeaderLines(p)[1..]);
  }

  lemma ConstraintsNonEmpty(p: Profile)
    ensures Constraints(p) != ""
  {
    var h := "## Hard Constraints (Non-negotiable)";
    assert [h, ""] + ConstraintLines(p) == [h] + ([""] + ConstraintLines(p));
    LinesNonEmpty(h, [""] + ConstraintLines(p));
  }

  lemma ArchitectureNonEmpty(p: Profile, config: map<string, string>)
    ensures Architecture(p, config) != ""
  {
    var t, l := TreeLines(p, config), LayerDescriptionLines(p, config);
    var rest := ["", "### Repository Structure", "", "```"] + t + ["```", "", "### Layer Responsibilities", ""] + l;
    assert ["## Architecture", "", "### Repository Structure", "", "```"] + t
      + ["```", "", "### Layer Responsibilities", ""] + l == ["## Architecture"] + rest;
    LinesNonEmpty("## Architecture", rest);
  }

  lemma TestingNonEmpty(p: Profile)
    ensures Testing(p) != ""
  {
    var rows := TestingRows(p.language);
    assert ["## Testing Strategy", ""] + rows == ["## Testing Strategy"] + ([""] + rows);
    LinesNonEmpty("## Testing Strategy", [""] + rows);
  }

  lemma QuickStartNonEmpty(p: Profile, config: map<string, string>)
    ensures QuickStart(p, config) != ""
  {
    var body := QuickStartBody(p, config);
    var rest := ["", "```bash"] + body + ["```"];
    assert ["## Quick Start", "", "```bash"] + body + ["```"] == ["## Quick Start"] + rest;
    LinesNonEmpty("## Quick Start", rest);
  }

  lemma LayerRulesPresent(config: map<string, string>)
    ensures LayerRules(config) == "" <==> Get(config, "layer_rules") == ""
  {
    if Get(config, "layer_rules") != "" {
      LinesNonEmpty("## Layer Rules", ["", Get(config, "layer_rules")]);
    }
  }

  /**
   * Every section but the layer rules always has text, so the document has six sections, or seven
   * when the preset defines `layer_rules`.
   */
  lemma SectionsPresent(p: Profile, config: map<string, string>)
    ensures NonEmpty(Sections(p, config)) ==
      (if Get(config, "layer_rules") == "" then
         [Header(p), Constraints(p), Architecture(p, config), Workflow, Testing(p), QuickStart(p, config)]
       else Sections(p, config))
  {
    HeaderNonEmpty(p);
    ConstraintsNonEmpty(p);
    ArchitectureNonEmpty(p, config);
    TestingNonEmpty(p);
    QuickStartNonEmpty(p, config);
    LayerRulesPresent(config);
    assert Workflow != "";
    FilterSevenTexts(Header(p), Constraints(p), Architecture(p, config), LayerRules(config), Workflow, Testing(p), QuickStart(p, config));
  }

  /** `FilterSeven` on the seven texts spelled out. */
  lemma FilterSevenTexts(h: string, c: string, a: string, l: string, w: string, t: string, q: string)
    requires h != "" && c != "" && a != "" && w != "" && t != "" && q != ""
    ensures NonEmpty([h, c, a, l, w, t, q]) == if l == "" then [h, c, a, w, t, q] else [h, c, a, l, w, t, q]
  {
    var front, back := [h, c, a], [w, t, q];
    var mid := if l == "" then [] else [l];
    assert [h, c, a, l, w, t, q] == front + ([l] + back);
    assert NonEmpty(front) == front by { NonEmptyAll(front); }
    assert NonEmpty([l] + back) == mid + back by {
      NonEmptyCons(l, back);
      NonEmptyAll(back);
    }
    NonEmptyAppend(front, [l] + back);
    assert front + (mid + back) == if l == "" then [h, c, a, w, t, q] else [h, c, a, l, w, t, q];
  }

  lemma {:induction false} NonEmptyAppend(a: seq<string>, b: seq<string>)
    ensures NonEmpty(a + b) == NonEmpty(a) + NonEmpty(b)
    decreases |a|
  {
    if |a| > 0 {
      assert (a + b)[1..] == a[1..] + b;
      NonEmptyAppend(a[1..], b);
    } else {
      assert a + b == b;
    }
  }

  lemma {:induction false} NonEmptyAll(ss: seq<string>)
    requires forall i | 0 <= i < |ss| :: ss[i] != ""
    ensures NonEmpty(ss) == ss
    decreases |ss|
  {
    if |ss| > 0 {
      NonEmptyAll(ss[1..]);
    }
  }

  lemma NonEmptyCons(x: string, rest: seq<string>)
    ensures NonEmpty([x] + rest) == (if x != "" then [x] else []) + NonEmpty(rest)
  {
    assert ([x] + rest)[1..] == rest;
  }
}
