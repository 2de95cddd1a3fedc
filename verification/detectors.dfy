/**
 * The project detector of claudex/detectors.py: a pure function from an abstract snapshot of a
 * project directory to a `Profile`. The snapshot carries the root listing (as `iterdir` yields it),
 * the manifests already parsed, and the modification times of lock files; every detection step
 * is a `Profile -> Profile` transform applied in the order `detect_project` runs them.
 */
module Detectors {
  import opened Wrappers
  import opened Strs
  import opened FileTree

  datatype Language = Unset | Python | TypeScript | JavaScript | Mixed

  /** The `[project]` table of pyproject.toml; absent keys read as "" or as the empty list. */
  datatype ProjectTable = ProjectTable(
    name: string,
    description: string,
    dependencies: seq<string>,
    requiresPython: string)

  /** What the detector reads from the `[tool]` table: whether it has `poetry` and `ruff` sub-tables,
      and the keys of `[tool.poetry.dependencies]` (empty when absent or not a table). */
  datatype ToolTable = ToolTable(hasPoetry: bool, poetryDependencies: set<string>, hasRuff: bool)

  /** A pyproject.toml that parsed to a non-empty table. */
  datatype PyProject = PyProject(project: ProjectTable, tool: ToolTable)

  /** A package.json that parsed to a JSON object. `dependencies` is `None` when that key holds a
      value other than an object or null, which makes `.keys()` raise. */
  datatype PackageJson = PackageJson(name: string, description: string, dependencies: Option<set<string>>)

  /** A project directory: its name, its listing as a tree (for `iterdir` and `rglob`), the relative
      paths that exist (for `.exists()`), the parsed manifests and the lock files' mtimes. The tree and
      the path set are independent views; nothing here requires them to agree. */
  datatype Snapshot = Snapshot(
    rootName: string,
    entries: seq<Node>,
    paths: set<seq<string>>,
    pyproject: Option<PyProject>,
    packageJson: Option<PackageJson>,
    mtimes: map<string, nat>)

  datatype Profile = Profile(
    name: string,
    description: string,
    language: Language,
    framework: Option<string>,
    packageManager: Option<string>,
    pythonVersion: Option<string>,
    hasDb: bool,
    dbType: Option<string>,
    hasRedis: bool,
    hasDocker: bool,
    hasCi: bool,
    gitInitialized: bool,
    srcDirs: seq<string>,
    testDirs: seq<string>,
    entryPoints: seq<string>,
    directoryTree: string,
    existingClaudeDir: bool,
    existingClaudeMd: bool,
    existingLinter: Option<string>,
    presetSelected: string)

  /** The project name and description. */
  datatype Identity = Identity(name: string, description: string)

  /** The fields the two dependency steps decide; the second step starts from what the first left. */
  datatype Stack = Stack(framework: Option<string>, hasDb: bool, dbType: Option<string>, hasRedis: bool)

  /** A database type is only ever recorded together with `has_db`, and it is one of the three
      families with indicators (never "sqlite"). */
  predicate StackOk(st: Stack) {
    st.dbType.Some? ==> st.hasDb && st.dbType.value in {"postgresql", "mysql", "mongodb"}
  }

  /** The dependency fields of a freshly constructed `ProjectProfile()`. */
  const NoStack := Stack(None, false, None, false)

  // ---------------------------------------------------------------------------------------
  // Lookup tables, in their declaration order

  const PythonFrameworks: seq<(string, string)> :=
    [("fastapi", "FastAPI"), ("django", "Django"), ("flask", "Flask"), ("starlette", "Starlette")]

  const JsFrameworks: seq<(string, string)> :=
    [("next", "Next.js"), ("react", "React"), ("vue", "Vue"), ("express", "Express"),
     ("nuxt", "Nuxt"), ("svelte", "Svelte")]

  const DbIndicators: seq<(string, seq<string>)> :=
    [("postgresql", ["sqlalchemy", "psycopg2", "asyncpg", "prisma", "django"]),
     ("mysql", ["mysqlclient", "pymysql"]),
     ("mongodb", ["pymongo", "motor", "mongoengine"]),
     ("sqlite", [])]

  const LockFileMap: seq<(string, string)> :=
    [("uv.lock", "uv"), ("poetry.lock", "poetry"), ("package-lock.json", "npm"),
     ("pnpm-lock.yaml", "pnpm"), ("yarn.lock", "yarn")]

  /** FRAMEWORK_TO_PRESET, as its (unique-keyed) rows. */
  const FrameworkToPreset: seq<(string, string)> :=
    [("FastAPI", "python-fastapi"), ("Django", "python-django"), ("Flask", "python-fastapi"),
     ("Starlette", "python-fastapi"), ("Next.js", "nextjs"), ("React", "nextjs"),
     ("Vue", "generic"), ("Express", "generic")]

  const SkipDirs: set<string> :=
    {"node_modules", "__pycache__", ".git", ".venv", "venv", ".tox", "dist", "build", ".next",
     ".nuxt", "coverage", "htmlcov"}

  const CommonSrcNames: set<string> :=
    {"src", "app", "lib", "api", "core", "components", "pages", "hooks", "backend", "frontend",
     "server", "client"}

  const EntryCandidates: seq<string> :=
    ["main.py", "app.py", "manage.py", "index.ts", "index.js", "server.ts", "server.js"]

  // ---------------------------------------------------------------------------------------
  // Ordered-table lookups

  /** Index of the first row, at or after `i`, whose key is in `keys`. */
  function FirstKeyFrom(table: seq<(string, string)>, keys: set<string>, i: nat): (r: Option<nat>)
    requires i <= |table|
    ensures r.Some? ==> i <= r.value < |table| && table[r.value].0 in keys
    ensures r.Some? ==> forall j | i <= j < r.value :: table[j].0 !in keys
    ensures r.None? ==> forall j | i <= j < |table| :: table[j].0 !in keys
    decreases |table| - i
  {
    if i == |table| then None
    else if table[i].0 in keys then Some(i)
    else FirstKeyFrom(table, keys, i + 1)
  }

  /** The value of the first row of an ordered table whose key is in `keys` (a `for ... break` loop). */
  function FirstMatch(table: seq<(string, string)>, keys: set<string>): (r: Option<string>)
    ensures r.Some? <==> exists j | 0 <= j < |table| :: table[j].0 in keys
    ensures r.Some? ==> exists j | 0 <= j < |table| ::
      table[j].0 in keys && table[j].1 == r.value && forall i | 0 <= i < j :: table[i].0 !in keys
  {
    match FirstKeyFrom(table, keys, 0)
    case None => None
    case Some(j) => Some(table[j].1)
  }

  /** Some indicator of the list is among `keys` (`any(ind in deps for ind in indicators)`). */
  predicate Meets(indicators: seq<string>, keys: set<string>) {
    exists k | 0 <= k < |indicators| :: indicators[k] in keys
  }

  /** Index of the first database family, at or after `i`, whose indicators meet `keys`. */
  function FirstFamilyFrom(table: seq<(string, seq<string>)>, keys: set<string>, i: nat): (r: Option<nat>)
    requires i <= |table|
    ensures r.Some? ==> i <= r.value < |table| && Meets(table[r.value].1, keys)
    ensures r.Some? ==> forall j | i <= j < r.value :: !Meets(table[j].1, keys)
    ensures r.None? ==> forall j | i <= j < |table| :: !Meets(table[j].1, keys)
    decreases |table| - i
  {
    if i == |table| then None
    else if Meets(table[i].1, keys) then Some(i)
    else FirstFamilyFrom(table, keys, i + 1)
  }

  // ---------------------------------------------------------------------------------------
  // _read_pyproject and the manifests

  /** `(root / path).exists()`. */
  predicate Present(s: Snapshot, path: seq<string>) {
    path in s.paths
  }

  predicate HasPyproject(s: Snapshot) { Present(s, ["pyproject.toml"]) }
  predicate HasPackageJson(s: Snapshot) { Present(s, ["package.json"]) }
  predicate HasTsconfig(s: Snapshot) { Present(s, ["tsconfig.json"]) }

  /** `_read_pyproject`: the parsed table when pyproject.toml exists and parses to a non-empty table. */
  function ReadPyproject(s: Snapshot): (r: Option<PyProject>)
    ensures r.Some? ==> HasPyproject(s) && r == s.pyproject
    ensures HasPyproject(s) ==> r == s.pyproject
  {
    if HasPyproject(s) then s.pyproject else None
  }

  /** package.json, when it exists and parses to a JSON object. */
  function ReadPackageJson(s: Snapshot): (r: Option<PackageJson>)
    ensures r.Some? ==> HasPackageJson(s) && r == s.packageJson
    ensures HasPackageJson(s) ==> r == s.packageJson
  {
    if HasPackageJson(s) then s.packageJson else None
  }

  // ---------------------------------------------------------------------------------------
  // _detect_name

  /** `_detect_name`: pyproject's `[project]` name, else package.json's, else the directory name. */
  function DetectName(s: Snapshot): (r: Identity)
    ensures r.name != "" || s.rootName == ""
    ensures ReadPyproject(s).Some? && ReadPyproject(s).value.project.name != "" ==>
      r == Identity(ReadPyproject(s).value.project.name, ReadPyproject(s).value.project.description)
    ensures ((ReadPyproject(s).None? || ReadPyproject(s).value.project.name == "")
             && ReadPackageJson(s).Some? && ReadPackageJson(s).value.name != "") ==>
      r == Identity(ReadPackageJson(s).value.name, ReadPackageJson(s).value.description)
    ensures ((ReadPyproject(s).None? || ReadPyproject(s).value.project.name == "")
             && (ReadPackageJson(s).None? || ReadPackageJson(s).value.name == "")) ==>
      r.name == s.rootName
  {
    var py := ReadPyproject(s);
    var id1 := if py.Some? then Identity(py.value.project.name, py.value.project.description) else Identity("", "");
    var pj := ReadPackageJson(s);
    var id2 := if id1.name == "" && pj.Some? then Identity(pj.value.name, pj.value.description) else id1;
    if id2.name == "" then id2.(name := s.rootName) else id2
  }

  // ---------------------------------------------------------------------------------------
  // _detect_language

  /** Number of entries at any depth below a listing whose name ends with `ext` (`len(rglob("*" + ext))`). */
  function CountSuffix(nodes: seq<Node>, ext: string): nat
    decreases nodes
  {
    if |nodes| == 0 then 0
    else
      (if EndsWith(nodes[0].name, ext) then 1 else 0)
      + (if nodes[0].Dir? then CountSuffix(nodes[0].children, ext) else 0)
      + CountSuffix(nodes[1..], ext)
  }

  /** Some entry at any depth below a listing has a name ending with `ext` (`any(rglob("*" + ext))`). */
  predicate AnySuffix(nodes: seq<Node>, ext: string)
    decreases nodes
  {
    |nodes| > 0 &&
    (EndsWith(nodes[0].name, ext)
     || (nodes[0].Dir? && AnySuffix(nodes[0].children, ext))
     || AnySuffix(nodes[1..], ext))
  }

  /** The existence test `any(...)` and the count `len(list(...))` agree. */
  lemma {:induction false} AnySuffixIffCount(nodes: seq<Node>, ext: string)
    ensures AnySuffix(nodes, ext) <==> CountSuffix(nodes, ext) > 0
    decreases nodes
  {
    if |nodes| > 0 {
      if nodes[0].Dir? {
        AnySuffixIffCount(nodes[0].children, ext);
      }
      AnySuffixIffCount(nodes[1..], ext);
    }
  }

  function PyCount(s: Snapshot): nat { CountSuffix(s.entries, ".py") }
  function TsCount(s: Snapshot): nat { CountSuffix(s.entries, ".ts") + CountSuffix(s.entries, ".tsx") }
  function JsCount(s: Snapshot): nat { CountSuffix(s.entries, ".js") + CountSuffix(s.entries, ".jsx") }

  /** `_detect_language`: the manifest decision table, then the file-count fallback; `Unset` is the
      untouched default "". */
  function DetectLanguage(s: Snapshot): (r: Language)
    ensures r == Mixed <==> HasPyproject(s) && HasPackageJson(s)
    ensures r == Python <==>
      (HasPyproject(s) && !HasPackageJson(s))
      || (!HasPyproject(s) && !HasTsconfig(s) && !HasPackageJson(s) && PyCount(s) > TsCount(s) + JsCount(s))
    ensures r == TypeScript <==>
      (!HasPyproject(s) && HasTsconfig(s))
      || (!HasPyproject(s) && !HasTsconfig(s) && !HasPackageJson(s) && PyCount(s) <= TsCount(s) + JsCount(s) && TsCount(s) > 0)
    ensures r == Unset <==>
      !HasPyproject(s) && !HasPackageJson(s) && !HasTsconfig(s) && PyCount(s) == 0 && TsCount(s) == 0 && JsCount(s) == 0
  {
    if HasPyproject(s) && HasPackageJson(s) then Mixed
    else if HasPyproject(s) then Python
    else if HasTsconfig(s) then TypeScript
    else if HasPackageJson(s) then JavaScript
    else if PyCount(s) > TsCount(s) + JsCount(s) then Python
    else if TsCount(s) > 0 then TypeScript
    else if JsCount(s) > 0 then JavaScript
    else Unset
  }

  // ---------------------------------------------------------------------------------------
  // _detect_python_deps

  /** The text before the first occurrence of `sep` (`s.split(sep)[0]`). */
  function Before(s: string, sep: string): (r: string)
    requires |sep| > 0
    ensures StartsWith(s, r)
    ensures !Contains(r, sep)
    ensures !Contains(s, sep) ==> r == s
    ensures Contains(s, sep) ==> OccursAt(s, sep, |r|) && forall i | 0 <= i < |r| :: !OccursAt(s, sep, i)
  {
    var parts := Split(s, sep);
    SplitPrefix(s, sep);
    parts[0]
  }

  lemma SplitPrefix(s: string, sep: string)
    requires |sep| > 0
    ensures StartsWith(s, Split(s, sep)[0])
  {
    var parts := Split(s, sep);
    if |parts| > 1 {
      assert s == parts[0] + sep + Join(parts[1..], sep);
    }
  }

  /** `dep.split("[")[0].split(">=")[0].split("==")[0].lower()`. */
  function DependencyName(dep: string): string {
    Lower(Before(Before(Before(dep, "["), ">="), "=="))
  }

  function PoetryNames(keys: set<string>): set<string> {
    set k | k in keys && k != "python" :: Lower(k)
  }

  function ProjectNames(deps: seq<string>): set<string> {
    set k | 0 <= k < |deps| :: DependencyName(deps[k])
  }

  /** The normalised dependency set of a pyproject: both declaration styles together. */
  function PythonDeps(py: PyProject): set<string> {
    ProjectNames(py.project.dependencies) + PoetryNames(py.tool.poetryDependencies)
  }

  /** The database family whose indicator list first meets `deps`. The sqlite list is empty, so it never wins. */
  function PythonDb(deps: set<string>): (r: Option<string>)
    ensures r.Some? <==> exists j | 0 <= j < |DbIndicators| :: Meets(DbIndicators[j].1, deps)
    ensures r.Some? ==> r.value in {"postgresql", "mysql", "mongodb"}
  {
    match FirstFamilyFrom(DbIndicators, deps, 0)
    case None => None
    case Some(j) => Some(DbIndicators[j].0)
  }

  /** `_detect_python_deps`: framework, database and redis from the pyproject dependency set. */
  function DetectPythonDeps(s: Snapshot, st: Stack): (r: Stack)
    ensures StackOk(st) ==> StackOk(r)
    ensures ReadPyproject(s).None? ==> r == st
    ensures ReadPyproject(s).Some? ==>
      var deps := PythonDeps(ReadPyproject(s).value);
      (r.framework == (if FirstMatch(PythonFrameworks, deps).Some? then FirstMatch(PythonFrameworks, deps) else st.framework))
      && (r.hasRedis <==> st.hasRedis || "redis" in deps || "aioredis" in deps)
      && (PythonDb(deps).Some? ==> r.hasDb && r.dbType == PythonDb(deps))
      && (PythonDb(deps).None? ==> r.hasDb == st.hasDb && r.dbType == st.dbType)
  {
    match ReadPyproject(s)
    case None => st
    case Some(py) =>
      var deps := PythonDeps(py);
      var fw := FirstMatch(PythonFrameworks, deps);
      var db := PythonDb(deps);
      var st1 := if fw.Some? then st.(framework := fw) else st;
      var st2 := if db.Some? then st1.(hasDb := true, dbType := db) else st1;
      if "redis" in deps || "aioredis" in deps then st2.(hasRedis := true) else st2
  }

  // ---------------------------------------------------------------------------------------
  // _detect_js_deps

  const JsDbDrivers: set<string> := {"pg", "postgres", "mysql", "mysql2", "mongodb", "mongoose", "prisma", "@prisma/client"}

  /** The JS database chain: the first driver pair present decides; prisma alone sets only `has_db`. */
  function JsDb(deps: set<string>, st: Stack): (r: Stack)
    ensures r.framework == st.framework && r.hasRedis == st.hasRedis
    ensures r.hasDb <==> st.hasDb || deps * JsDbDrivers != {}
    ensures r.dbType != st.dbType ==> r.dbType.Some? && r.dbType.value in {"postgresql", "mysql", "mongodb"}
    ensures "pg" in deps || "postgres" in deps ==> r.dbType == Some("postgresql")
    ensures !("pg" in deps || "postgres" in deps) && ("mysql" in deps || "mysql2" in deps) ==> r.dbType == Some("mysql")
    ensures (!("pg" in deps || "postgres" in deps) && !("mysql" in deps || "mysql2" in deps)
             && ("mongodb" in deps || "mongoose" in deps)) ==> r.dbType == Some("mongodb")
    ensures deps * {"pg", "postgres", "mysql", "mysql2", "mongodb", "mongoose"} == {} ==> r.dbType == st.dbType
  {
    var sql := {"pg", "postgres", "mysql", "mysql2", "mongodb", "mongoose"};
    assert JsDbDrivers == sql + {"prisma", "@prisma/client"};
    if "pg" in deps || "postgres" in deps then
      assert deps * sql != {} by { assert "pg" in deps * sql || "postgres" in deps * sql; }
      st.(hasDb := true, dbType := Some("postgresql"))
    else if "mysql" in deps || "mysql2" in deps then
      assert deps * sql != {} by { assert "mysql" in deps * sql || "mysql2" in deps * sql; }
      st.(hasDb := true, dbType := Some("mysql"))
    else if "mongodb" in deps || "mongoose" in deps then
      assert deps * sql != {} by { assert "mongodb" in deps * sql || "mongoose" in deps * sql; }
      st.(hasDb := true, dbType := Some("mongodb"))
    else if "prisma" in deps || "@prisma/client" in deps then
      assert deps * sql == {};
      assert deps * JsDbDrivers != {} by { assert "prisma" in deps * JsDbDrivers || "@prisma/client" in deps * JsDbDrivers; }
      st.(hasDb := true)
    else
      assert deps * JsDbDrivers == {};
      st
  }

  /** `_detect_js_deps`: runs after the Python step and overwrites what the dependencies name. A
      `dependencies` value that is not a mapping raises inside the `try`, so nothing is changed. */
  function DetectJsDeps(s: Snapshot, st: Stack): (r: Stack)
    ensures StackOk(st) ==> StackOk(r)
    ensures ReadPackageJson(s).None? || ReadPackageJson(s).value.dependencies.None? ==> r == st
    ensures ReadPackageJson(s).Some? && ReadPackageJson(s).value.dependencies.Some? ==>
      var deps := ReadPackageJson(s).value.dependencies.value;
      (r.framework == (if FirstMatch(JsFrameworks, deps).Some? then FirstMatch(JsFrameworks, deps) else st.framework))
      && (r.hasRedis <==> st.hasRedis || "redis" in deps || "ioredis" in deps)
      && (r.hasDb <==> st.hasDb || deps * JsDbDrivers != {})
      && (("pg" in deps || "postgres" in deps) ==> r.dbType == Some("postgresql"))
      && (!("pg" in deps || "postgres" in deps) && ("mysql" in deps || "mysql2" in deps) ==> r.dbType == Some("mysql"))
      && ((!("pg" in deps || "postgres" in deps) && !("mysql" in deps || "mysql2" in deps)
           && ("mongodb" in deps || "mongoose" in deps)) ==> r.dbType == Some("mongodb"))
      && (deps * {"pg", "postgres", "mysql", "mysql2", "mongodb", "mongoose"} == {} ==> r.dbType == st.dbType)
  {
    var pj := ReadPackageJson(s);
    if pj.None? || pj.value.dependencies.None? then st
    else
      var deps := pj.value.dependencies.value;
      var fw := FirstMatch(JsFrameworks, deps);
      var st1 := if fw.Some? then st.(framework := fw) else st;
      var st2 := JsDb(deps, st1);
      if "redis" in deps || "ioredis" in deps then st2.(hasRedis := true) else st2
  }

  // ---------------------------------------------------------------------------------------
  // _detect_package_manager

  function MtimeOf(s: Snapshot, lock: string): nat {
    if lock in s.mtimes then s.mtimes[lock] else 0
  }

  /** The (manager, mtime) pairs of the lock files that exist, in table order. */
  function ExistingLocks(s: Snapshot, table: seq<(string, string)>): (r: seq<(string, nat)>)
    ensures forall x | x in r :: exists row | row in table ::
      Present(s, [row.0]) && x == (row.1, MtimeOf(s, row.0))
    ensures forall row | row in table && Present(s, [row.0]) :: (row.1, MtimeOf(s, row.0)) in r
    ensures |r| == 0 <==> forall j | 0 <= j < |table| :: !Present(s, [table[j].0])
    ensures |table| > 0 && Present(s, [table[0].0]) ==> r[0] == (table[0].1, MtimeOf(s, table[0].0))
  {
    if |table| == 0 then []
    else
      var rest := ExistingLocks(s, table[1..]);
      if Present(s, [table[0].0]) then [(table[0].1, MtimeOf(s, table[0].0))] + rest else rest
  }

  /** Python's `max(d, key=d.get)` over an insertion-ordered dict: the first entry of greatest value. */
  function NewestIndex(locks: seq<(string, nat)>): (r: nat)
    requires |locks| > 0
    ensures r < |locks|
    ensures forall k | 0 <= k < |locks| :: locks[k].1 <= locks[r].1
    ensures forall k | 0 <= k < r :: locks[k].1 < locks[r].1
  {
    if |locks| == 1 then 0
    else
      var i := NewestIndex(locks[..|locks| - 1]);
      if locks[|locks| - 1].1 > locks[i].1 then |locks| - 1 else i
  }

  predicate AnyLock(s: Snapshot) {
    exists row | row in LockFileMap :: Present(s, [row.0])
  }

  /** `_detect_package_manager`: the manager of the newest lock file, else the manifest fallbacks. */
  function DetectPackageManager(s: Snapshot): (r: Option<string>)
    ensures AnyLock(s) ==> r.Some?
    ensures !AnyLock(s) ==>
      r == (if ReadPyproject(s).Some? && ReadPyproject(s).value.tool.hasPoetry then Some("poetry")
            else if HasPyproject(s) then Some("pip")
            else if HasPackageJson(s) then Some("npm")
            else None)
  {
    var locks := ExistingLocks(s, LockFileMap);
    if |locks| > 0 then Some(locks[NewestIndex(locks)].0)
    else if ReadPyproject(s).Some? && ReadPyproject(s).value.tool.hasPoetry then Some("poetry")
    else if HasPyproject(s) then Some("pip")
    else if HasPackageJson(s) then Some("npm")
    else None
  }

  /** With any lock file present, the chosen manager is that of an existing lock file whose mtime no
      other existing lock file exceeds. */
  lemma NewestLockWins(s: Snapshot)
    requires AnyLock(s)
    ensures exists row | row in LockFileMap ::
      Present(s, [row.0]) && DetectPackageManager(s) == Some(row.1)
      && forall other | other in LockFileMap && Present(s, [other.0]) :: MtimeOf(s, other.0) <= MtimeOf(s, row.0)
  {
    var locks := ExistingLocks(s, LockFileMap);
    NewestRow(s, LockFileMap);
    assert DetectPackageManager(s) == Some(locks[NewestIndex(locks)].0);
  }

  /** Over any table, the newest existing lock file names a row whose mtime no other present row exceeds. */
  lemma NewestRow(s: Snapshot, table: seq<(string, string)>)
    requires exists row | row in table :: Present(s, [row.0])
    ensures var locks := ExistingLocks(s, table);
      |locks| > 0 && exists row | row in table ::
        Present(s, [row.0]) && locks[NewestIndex(locks)].0 == row.1
        && forall other | other in table && Present(s, [other.0]) :: MtimeOf(s, other.0) <= MtimeOf(s, row.0)
  {
    var locks := ExistingLocks(s, table);
    var some :| some in table && Present(s, [some.0]);
    assert (some.1, MtimeOf(s, some.0)) in locks;
    var i := NewestIndex(locks);
    assert locks[i] in locks;
    var w :| w in table && Present(s, [w.0]) && locks[i] == (w.1, MtimeOf(s, w.0));
    forall other | other in table && Present(s, [other.0])
      ensures MtimeOf(s, other.0) <= MtimeOf(s, w.0)
    {
      assert (other.1, MtimeOf(s, other.0)) in locks;
    }
  }

  /** On a tie for the newest mtime the earliest row of the lock-file table wins: uv.lock, when it
      is among the newest, decides for uv. */
  lemma {:induction false} UvWinsTies(s: Snapshot)
    requires Present(s, ["uv.lock"])
    requires forall row | row in LockFileMap && Present(s, [row.0]) :: MtimeOf(s, row.0) <= MtimeOf(s, "uv.lock")
    ensures DetectPackageManager(s) == Some("uv")
  {
    var locks := ExistingLocks(s, LockFileMap);
    assert locks[0] == ("uv", MtimeOf(s, "uv.lock"));
    var i := NewestIndex(locks);
    assert locks[i] in locks;
    var w :| w in LockFileMap && Present(s, [w.0]) && locks[i] == (w.1, MtimeOf(s, w.0));
    assert locks[i].1 <= locks[0].1;
    assert i == 0;
  }

  // ---------------------------------------------------------------------------------------
  // _detect_python_version

  function DetectPythonVersion(s: Snapshot): (r: Option<string>)
    ensures r.Some? <==> ReadPyproject(s).Some? && ReadPyproject(s).value.project.requiresPython != ""
    ensures r.Some? ==> r.value == ReadPyproject(s).value.project.requiresPython
  {
    var py := ReadPyproject(s);
    if py.Some? && py.value.project.requiresPython != "" then Some(py.value.project.requiresPython) else None
  }

  // ---------------------------------------------------------------------------------------
  // _detect_directories, _contains_source_files, _generate_tree

  /** Entries both `_detect_directories` and `_generate_tree` pass over. */
  predicate Hidden(name: string) { name in SkipDirs || StartsWith(name, ".") }

  /** `_contains_source_files`. For typescript, javascript and mixed, the `or` of the four generator
      objects evaluates to the first (a generator is always truthy), so only `*.ts` is searched. */
  predicate ContainsSourceFiles(dir: Node, lang: Language)
    requires dir.Dir?
  {
    match lang
    case Python => AnySuffix(dir.children, ".py")
    case TypeScript | JavaScript | Mixed => AnySuffix(dir.children, ".ts")
    case Unset => true
  }

  /** Source directories among the root entries, in listing order. */
  function SrcDirs(entries: seq<Node>, lang: Language): (r: seq<string>)
    ensures forall x | x in r :: x in CommonSrcNames
    ensures forall x | x in r :: exists e | e in entries :: e.Dir? && e.name == x && ContainsSourceFiles(e, lang)
    ensures forall e | e in entries && e.Dir? && !Hidden(e.name) && e.name in CommonSrcNames && ContainsSourceFiles(e, lang) ::
      e.name in r
  {
    if |entries| == 0 then []
    else
      var e := entries[0];
      var rest := SrcDirs(entries[1..], lang);
      if e.Dir? && !Hidden(e.name) && e.name in CommonSrcNames && ContainsSourceFiles(e, lang)
      then [e.name] + rest
      else rest
  }

  /** Test directories among the root entries: the directories named "tests" or "test". */
  function TestDirs(entries: seq<Node>): (r: seq<string>)
    ensures forall x | x in r :: x == "tests" || x == "test"
    ensures forall x | x in r :: exists e | e in entries :: e.Dir? && e.name == x
    ensures forall e | e in entries && e.Dir? && (e.name == "tests" || e.name == "test") :: e.name in r
  {
    if |entries| == 0 then []
    else
      var e := entries[0];
      var rest := TestDirs(entries[1..]);
      assert "tests"[..1][0] != "."[0] && "test"[..1][0] != "."[0];
      if e.Dir? && !Hidden(e.name) && e.name !in CommonSrcNames && (e.name == "tests" || e.name == "test")
      then [e.name] + rest
      else rest
  }

  /** A JavaScript project's `app/` holding only `.js` files is not a source directory, because only
      `*.ts` is searched. */
  lemma JsOnlyDirectoryIsNotSource(f: Node)
    requires f.File? && f.name == "index.js"
    ensures SrcDirs([Dir("app", [f])], JavaScript) == []
  {
    assert !EndsWith(f.name, ".ts") by {
      assert f.name[|f.name| - 3..] == ".js";
    }
    assert !AnySuffix([f], ".ts");
  }

  const MaxDepth: nat := 2

  function VisibleDirs(nodes: seq<Node>): (r: seq<Node>)
    ensures forall n | n in r :: n in nodes && n.Dir? && !Hidden(n.name)
    ensures forall n | n in nodes && n.Dir? && !Hidden(n.name) :: n in r
  {
    if |nodes| == 0 then []
    else if nodes[0].Dir? && !Hidden(nodes[0].name) then [nodes[0]] + VisibleDirs(nodes[1..])
    else VisibleDirs(nodes[1..])
  }

  /** The `walk` of `_generate_tree`: visible directories, sorted by name (files sort after directories
      and are never printed), each followed by its own listing one level deeper, down to `MaxDepth`. */
  function TreeLines(nodes: seq<Node>, prefix: string, depth: nat): (r: seq<string>)
    ensures depth >= MaxDepth ==> r == []
    ensures forall l | l in r :: StartsWith(l, prefix + "  ") && EndsWith(l, "/")
    decreases MaxDepth - depth, 1
  {
    if depth >= MaxDepth then [] else TreeLinesOf(SortByName(VisibleDirs(nodes)), prefix, depth)
  }

  function TreeLinesOf(dirs: seq<Node>, prefix: string, depth: nat): (r: seq<string>)
    requires depth < MaxDepth
    ensures forall l | l in r :: StartsWith(l, prefix + "  ") && EndsWith(l, "/")
    ensures |r| >= |dirs|
    decreases MaxDepth - depth, 0, |dirs|
  {
    if |dirs| == 0 then []
    else
      var d := dirs[0];
      var line := DirLine(prefix, d);
      var below := if d.Dir? then TreeLines(d.children, prefix + "  ", depth + 1) else [];
      assert StartsWith(line, prefix + "  ") by { assert line[..|prefix + "  "|] == prefix + "  "; }
      assert forall l | l in below :: StartsWith(l, prefix + "  ") by {
        forall l | l in below ensures StartsWith(l, prefix + "  ") {
          assert StartsWith(l, prefix + "  " + "  ");
          assert l[..|prefix + "  "|] == (prefix + "  " + "  ")[..|prefix + "  "|];
        }
      }
      [line] + below + TreeLinesOf(dirs[1..], prefix, depth)
  }

  /** The line of one directory under `prefix`. */
  function DirLine(prefix: string, n: Node): string {
    prefix + "  " + n.name + "/"
  }

  /** Reference meaning of the walk, as a set of lines: `l` is the line of a visible directory of the
      listing, or a line shown one level deeper inside such a directory; nothing at or below `MaxDepth`. */
  predicate Shown(nodes: seq<Node>, prefix: string, depth: nat, l: string)
    decreases MaxDepth - depth
  {
    depth < MaxDepth &&
    exists n | n in nodes && n.Dir? && !Hidden(n.name) ::
      l == DirLine(prefix, n) || Shown(n.children, prefix + "  ", depth + 1, l)
  }

  /** The walk prints exactly the shown lines: every visible directory down to `MaxDepth`, and
      nothing for files, skipped or hidden entries, or anything deeper. */
  lemma {:induction false} TreeLinesShown(nodes: seq<Node>, prefix: string, depth: nat)
    ensures forall l :: l in TreeLines(nodes, prefix, depth) <==> Shown(nodes, prefix, depth, l)
    decreases MaxDepth - depth, 1
  {
    if depth < MaxDepth {
      var dirs := SortByName(VisibleDirs(nodes));
      TreeLinesOfShown(dirs, prefix, depth);
      forall n ensures n in dirs <==> n in nodes && n.Dir? && !Hidden(n.name) {
        SortedMembers(VisibleDirs(nodes), n);
      }
    }
  }

  /** The lines of a sorted listing are the lines of its directories and of what is shown inside them. */
  lemma {:induction false} TreeLinesOfShown(dirs: seq<Node>, prefix: string, depth: nat)
    requires depth < MaxDepth
    ensures forall l :: l in TreeLinesOf(dirs, prefix, depth) <==>
      exists n | n in dirs :: l == DirLine(prefix, n) || (n.Dir? && Shown(n.children, prefix + "  ", depth + 1, l))
    decreases MaxDepth - depth, 0, |dirs|
  {
    if |dirs| > 0 {
      if dirs[0].Dir? {
        TreeLinesShown(dirs[0].children, prefix + "  ", depth + 1);
      }
      TreeLinesOfShown(dirs[1..], prefix, depth);
      assert forall n | n in dirs :: n == dirs[0] || n in dirs[1..];
      assert forall n | n in dirs[1..] :: n in dirs;
    }
  }

  /** When no visible directory has a visible subdirectory, the walk prints one line per visible
      directory, in sorted order. */
  lemma FlatTreeInOrder(nodes: seq<Node>)
    requires forall n | n in nodes && n.Dir? && !Hidden(n.name) :: VisibleDirs(n.children) == []
    ensures var ds := SortByName(VisibleDirs(nodes));
      var r := TreeLines(nodes, "", 0);
      |r| == |ds| && forall k | 0 <= k < |ds| :: r[k] == DirLine("", ds[k])
  {
    var ds := SortByName(VisibleDirs(nodes));
    forall n | n in ds ensures n.Dir? && VisibleDirs(n.children) == [] {
      SortedMembers(VisibleDirs(nodes), n);
    }
    FlatLines(ds);
  }

  lemma {:induction false} FlatLines(ds: seq<Node>)
    requires forall n | n in ds :: n.Dir? && VisibleDirs(n.children) == []
    ensures var r := TreeLinesOf(ds, "", 0); |r| == |ds| && forall k | 0 <= k < |ds| :: r[k] == DirLine("", ds[k])
  {
    if |ds| > 0 {
      assert TreeLines(ds[0].children, "  ", 1) == [] by {
        assert SortByName(VisibleDirs(ds[0].children)) == [];
      }
      assert forall n | n in ds[1..] :: n in ds;
      FlatLines(ds[1..]);
    }
  }

  /** One line per directory of `ds`, in the order given. */
  function LinesAt(prefix: string, ds: seq<Node>): (r: seq<string>)
    ensures |r| == |ds| && forall k | 0 <= k < |ds| :: r[k] == DirLine(prefix, ds[k])
  {
    if |ds| == 0 then [] else [DirLine(prefix, ds[0])] + LinesAt(prefix, ds[1..])
  }

  /** Reference listing for `MaxDepth` 2: each top-level directory's line, followed by the lines of
      its own visible subdirectories, sorted by name, one level in; nothing deeper. */
  function TwoLevel(ds: seq<Node>): seq<string> {
    if |ds| == 0 then []
    else
      var below := if ds[0].Dir? then LinesAt("  ", SortByName(VisibleDirs(ds[0].children))) else [];
      [DirLine("", ds[0])] + below + TwoLevel(ds[1..])
  }

  /** The walk prints the two-level listing: the sorted visible root directories, each directly
      followed by its sorted visible subdirectories. */
  lemma TreeLinesTwoLevel(nodes: seq<Node>)
    ensures TreeLines(nodes, "", 0) == TwoLevel(SortByName(VisibleDirs(nodes)))
  {
    TwoLevelOf(SortByName(VisibleDirs(nodes)));
  }

  lemma {:induction false} TwoLevelOf(ds: seq<Node>)
    ensures TreeLinesOf(ds, "", 0) == TwoLevel(ds)
  {
    if |ds| > 0 {
      var d := ds[0];
      var below := if d.Dir? then LinesAt("  ", SortByName(VisibleDirs(d.children))) else [];
      assert "" + "  " == "  ";
      if d.Dir? {
        SecondLevel(SortByName(VisibleDirs(d.children)), "  ");
        assert TreeLines(d.children, "  ", 1) == below;
      }
      TwoLevelOf(ds[1..]);
      assert TreeLinesOf(ds, "", 0) == [DirLine("", d)] + below + TreeLinesOf(ds[1..], "", 0);
    }
  }

  /** One level above `MaxDepth`, the walk prints only the directories' own lines. */
  lemma {:induction false} SecondLevel(ds: seq<Node>, prefix: string)
    ensures TreeLinesOf(ds, prefix, 1) == LinesAt(prefix, ds)
  {
    if |ds| > 0 {
      SecondLevel(ds[1..], prefix);
    }
  }

  /** `_generate_tree`: the root name, then the walk, joined by newlines. */
  function GenerateTree(s: Snapshot): (r: string)
    ensures StartsWith(r, s.rootName + "/")
    ensures exists lines ::
      r == Join([s.rootName + "/"] + lines, "\n") && forall l :: l in lines <==> Shown(s.entries, "", 0, l)
    ensures r == Join([s.rootName + "/"] + TwoLevel(SortByName(VisibleDirs(s.entries))), "\n")
  {
    var lines := [s.rootName + "/"] + TreeLines(s.entries, "", 0);
    JoinStartsWithHead(s.rootName + "/", TreeLines(s.entries, "", 0), "\n");
    TreeLinesShown(s.entries, "", 0);
    TreeLinesTwoLevel(s.entries);
    Join(lines, "\n")
  }

  // ---------------------------------------------------------------------------------------
  // _detect_entry_points, _detect_existing_setup

  /** Where a candidate is looked for: the root, or a source directory. */
  function EntryPath(dir: Option<string>, c: string): seq<string> {
    if dir.None? then [c] else [dir.value, c]
  }

  /** How a found candidate is reported: its name, or "dir/name". */
  function EntryLabel(dir: Option<string>, c: string): string {
    if dir.None? then c else dir.value + "/" + c
  }

  /** Every two reported entries name candidates in the order of the candidate list. */
  predicate InCandidateOrder(xs: seq<string>, dir: Option<string>, cands: seq<string>) {
    forall i, j | 0 <= i < j < |xs| :: LabelsInOrder(xs[i], xs[j], dir, cands)
  }

  /** `x` and `y` label candidates of `cands`, the one of `x` coming first. */
  predicate LabelsInOrder(x: string, y: string, dir: Option<string>, cands: seq<string>) {
    exists a, b | 0 <= a < b < |cands| :: x == EntryLabel(dir, cands[a]) && y == EntryLabel(dir, cands[b])
  }

  /** The candidates found in one directory, in candidate order. */
  function EntryPointsIn(s: Snapshot, dir: Option<string>, cands: seq<string>): (r: seq<string>)
    ensures |r| <= |cands|
    ensures forall x | x in r :: exists c | c in cands :: x == EntryLabel(dir, c) && Present(s, EntryPath(dir, c))
    ensures forall c | c in cands && Present(s, EntryPath(dir, c)) :: EntryLabel(dir, c) in r
    ensures (forall c | c in cands :: !Present(s, EntryPath(dir, c))) ==> r == []
    ensures InCandidateOrder(r, dir, cands)
  {
    if |cands| == 0 then []
    else
      var rest := EntryPointsIn(s, dir, cands[1..]);
      if Present(s, EntryPath(dir, cands[0])) then
        OrderCons(EntryLabel(dir, cands[0]), rest, dir, cands);
        [EntryLabel(dir, cands[0])] + rest
      else
        OrderSkip(rest, dir, cands);
        rest
  }

  /** Putting the first candidate's label before labels of later candidates keeps the order. */
  lemma OrderCons(x: string, rest: seq<string>, dir: Option<string>, cands: seq<string>)
    requires |cands| > 0 && x == EntryLabel(dir, cands[0])
    requires forall y | y in rest :: exists c | c in cands[1..] :: y == EntryLabel(dir, c)
    requires InCandidateOrder(rest, dir, cands[1..])
    ensures InCandidateOrder([x] + rest, dir, cands)
  {
    var xs := [x] + rest;
    forall i, j | 0 <= i < j < |xs| ensures LabelsInOrder(xs[i], xs[j], dir, cands)
    {
      if i == 0 {
        assert xs[j] == rest[j - 1] && rest[j - 1] in rest;
        var c :| c in cands[1..] && rest[j - 1] == EntryLabel(dir, c);
        var k :| 0 <= k < |cands| - 1 && cands[1..][k] == c;
        assert xs[i] == EntryLabel(dir, cands[0]) && xs[j] == EntryLabel(dir, cands[k + 1]);
      } else {
        assert xs[i] == rest[i - 1] && xs[j] == rest[j - 1];
        assert LabelsInOrder(rest[i - 1], rest[j - 1], dir, cands[1..]);
        var a, b :| 0 <= a < b < |cands| - 1
          && rest[i - 1] == EntryLabel(dir, cands[1..][a]) && rest[j - 1] == EntryLabel(dir, cands[1..][b]);
        assert xs[i] == EntryLabel(dir, cands[a + 1]) && xs[j] == EntryLabel(dir, cands[b + 1]);
      }
    }
  }

  /** Labels ordered by the later candidates are ordered by the whole list. */
  lemma OrderSkip(rest: seq<string>, dir: Option<string>, cands: seq<string>)
    requires |cands| > 0 && InCandidateOrder(rest, dir, cands[1..])
    ensures InCandidateOrder(rest, dir, cands)
  {
    forall i, j | 0 <= i < j < |rest| ensures LabelsInOrder(rest[i], rest[j], dir, cands)
    {
      assert LabelsInOrder(rest[i], rest[j], dir, cands[1..]);
      var a, b :| 0 <= a < b < |cands| - 1
        && rest[i] == EntryLabel(dir, cands[1..][a]) && rest[j] == EntryLabel(dir, cands[1..][b]);
      assert rest[i] == EntryLabel(dir, cands[a + 1]) && rest[j] == EntryLabel(dir, cands[b + 1]);
    }
  }

  /** `x` reports a candidate of `cands` found in source directory `d`. */
  predicate FoundUnder(s: Snapshot, cands: seq<string>, d: string, x: string) {
    exists c | c in cands :: x == EntryLabel(Some(d), c) && Present(s, EntryPath(Some(d), c))
  }

  /** The candidates found in each source directory, directory by directory. */
  function EntryPointsUnder(s: Snapshot, srcDirs: seq<string>, cands: seq<string>): (r: seq<string>)
    ensures forall x | x in r :: exists d | d in srcDirs :: FoundUnder(s, cands, d, x)
    ensures forall d, c | d in srcDirs && c in cands && Present(s, [d, c]) :: d + "/" + c in r
  {
    if |srcDirs| == 0 then []
    else
      var here := EntryPointsIn(s, Some(srcDirs[0]), cands);
      var rest := EntryPointsUnder(s, srcDirs[1..], cands);
      UnderCons(s, srcDirs, cands, here, rest);
      here + rest
  }

  lemma UnderCons(s: Snapshot, srcDirs: seq<string>, cands: seq<string>, here: seq<string>, rest: seq<string>)
    requires |srcDirs| > 0 && here == EntryPointsIn(s, Some(srcDirs[0]), cands)
    requires forall x | x in rest :: exists d | d in srcDirs[1..] :: FoundUnder(s, cands, d, x)
    requires forall d, c | d in srcDirs[1..] && c in cands && Present(s, [d, c]) :: d + "/" + c in rest
    ensures forall x | x in here + rest :: exists d | d in srcDirs :: FoundUnder(s, cands, d, x)
    ensures forall d, c | d in srcDirs && c in cands && Present(s, [d, c]) :: d + "/" + c in here + rest
  {
    var d0 := srcDirs[0];
    forall x | x in here + rest ensures exists d | d in srcDirs :: FoundUnder(s, cands, d, x) {
      if x in here {
        assert FoundUnder(s, cands, d0, x);
      } else {
        var d :| d in srcDirs[1..] && FoundUnder(s, cands, d, x);
        assert d in srcDirs;
      }
    }
    forall d, c | d in srcDirs && c in cands && Present(s, [d, c]) ensures d + "/" + c in here + rest {
      if d == d0 {
        assert EntryPath(Some(d0), c) == [d0, c];
        assert EntryLabel(Some(d0), c) in here;
      } else {
        assert d in srcDirs[1..] by { assert srcDirs == [d0] + srcDirs[1..]; }
        assert d + "/" + c in rest;
      }
    }
  }

  /** What `_detect_entry_points` promises of its list `r`, for a candidate list `cands`: every
      candidate present at the root or in a source directory is listed; nothing else is; and the root
      candidates come first, in candidate order. */
  predicate EntryPointsSpec(s: Snapshot, srcDirs: seq<string>, cands: seq<string>, r: seq<string>) {
    (forall c | c in cands && Present(s, [c]) :: c in r)
    && (forall d, c | d in srcDirs && c in cands && Present(s, [d, c]) :: d + "/" + c in r)
    && (forall x | x in r ::
          (x in cands && Present(s, [x])) || (exists d | d in srcDirs :: FoundUnder(s, cands, d, x)))
    && exists k | 0 <= k <= |r| :: RootPart(s, cands, r, k) && UnderPart(s, srcDirs, cands, r, k)
  }

  /** The first `k` entries are root candidates, in candidate order. */
  predicate RootPart(s: Snapshot, cands: seq<string>, r: seq<string>, k: nat)
    requires k <= |r|
  {
    (forall x | x in r[..k] :: x in cands && Present(s, [x])) && InCandidateOrder(r[..k], None, cands)
  }

  /** The entries from `k` on are candidates found under a source directory. */
  predicate UnderPart(s: Snapshot, srcDirs: seq<string>, cands: seq<string>, r: seq<string>, k: nat)
    requires k <= |r|
  {
    forall x | x in r[k..] :: exists d | d in srcDirs :: FoundUnder(s, cands, d, x)
  }

  /** The entry points for a candidate list: root candidates, then those under each source directory. */
  function EntryPoints(s: Snapshot, srcDirs: seq<string>, cands: seq<string>): (r: seq<string>)
    ensures EntryPointsSpec(s, srcDirs, cands, r)
  {
    var top := EntryPointsIn(s, None, cands);
    var under := EntryPointsUnder(s, srcDirs, cands);
    RootCandidates(s, cands);
    Concatenated(s, srcDirs, cands, top, under);
    top + under
  }

  /** `_detect_entry_points`: the entry points for the seven candidate names. `_detect_dev_server`
      takes the first decisive entry, so the root-first order matters. */
  function DetectEntryPoints(s: Snapshot, srcDirs: seq<string>): (r: seq<string>)
    ensures EntryPointsSpec(s, srcDirs, EntryCandidates, r)
  {
    EntryPoints(s, srcDirs, EntryCandidates)
  }

  /** The root's entry points are exactly the present candidates, by their bare names. */
  lemma RootCandidates(s: Snapshot, cands: seq<string>)
    ensures var top := EntryPointsIn(s, None, cands);
      (forall x | x in top :: x in cands && Present(s, [x])) && forall c | c in cands && Present(s, [c]) :: c in top
  {
    var top := EntryPointsIn(s, None, cands);
    forall x | x in top ensures x in cands && Present(s, [x]) {
      var c :| c in cands && x == EntryLabel(None, c) && Present(s, EntryPath(None, c));
    }
    forall c | c in cands && Present(s, [c]) ensures c in top {
      assert EntryPath(None, c) == [c];
    }
  }

  lemma Concatenated(s: Snapshot, srcDirs: seq<string>, cands: seq<string>, top: seq<string>, under: seq<string>)
    requires forall x | x in top :: x in cands && Present(s, [x])
    requires forall c | c in cands && Present(s, [c]) :: c in top
    requires InCandidateOrder(top, None, cands)
    requires forall x | x in under :: exists d | d in srcDirs :: FoundUnder(s, cands, d, x)
    requires forall d, c | d in srcDirs && c in cands && Present(s, [d, c]) :: d + "/" + c in under
    ensures EntryPointsSpec(s, srcDirs, cands, top + under)
  {
    var r := top + under;
    var k := |top|;
    assert r[..k] == top && r[k..] == under;
    assert RootPart(s, cands, r, k);
    assert UnderPart(s, srcDirs, cands, r, k);
    assert forall x | x in r :: x in top || x in under;
  }

  /** The linter part of `_detect_existing_setup`. The ruff check needs pyproject's `[tool.ruff]` even
      when only ruff.toml exists, and an eslint or biome config found afterwards overwrites it. */
  function DetectLinter(s: Snapshot): (r: Option<string>)
    ensures r == Some("eslint") <==> Present(s, [".eslintrc.json"]) || Present(s, [".eslintrc.js"])
    ensures r == Some("biome") <==>
      Present(s, ["biome.json"]) && !Present(s, [".eslintrc.json"]) && !Present(s, [".eslintrc.js"])
    ensures r == Some("ruff") <==>
      ReadPyproject(s).Some? && ReadPyproject(s).value.tool.hasRuff
      && !Present(s, [".eslintrc.json"]) && !Present(s, [".eslintrc.js"]) && !Present(s, ["biome.json"])
    ensures r.None? || r.value in {"ruff", "eslint", "biome"}
  {
    var ruff :=
      if (Present(s, ["ruff.toml"]) || HasPyproject(s)) && ReadPyproject(s).Some? && ReadPyproject(s).value.tool.hasRuff
      then Some("ruff") else None;
    if Present(s, [".eslintrc.json"]) || Present(s, [".eslintrc.js"]) then Some("eslint")
    else if Present(s, ["biome.json"]) then Some("biome")
    else ruff
  }

  // ---------------------------------------------------------------------------------------
  // detect_project

  /** The preset chosen for a detected framework: its mapping, or "generic". */
  function PresetFor(framework: Option<string>): (r: string)
    ensures framework.None? || (forall j | 0 <= j < |FrameworkToPreset| :: FrameworkToPreset[j].0 != framework.value)
      ==> r == "generic"
    ensures framework.Some? && (exists j | 0 <= j < |FrameworkToPreset| :: FrameworkToPreset[j].0 == framework.value)
      ==> exists j | 0 <= j < |FrameworkToPreset| :: FrameworkToPreset[j] == (framework.value, r)
  {
    if framework.Some? && framework.value != "" then
      match FirstMatch(FrameworkToPreset, {framework.value})
      case Some(preset) => preset
      case None => "generic"
    else "generic"
  }

  /** `detect_project`: every step in order, each reading what earlier steps decided. */
  function DetectProject(s: Snapshot): (r: Profile)
    ensures r.presetSelected == PresetFor(r.framework)
  {
    var id := DetectName(s);
    var lang := DetectLanguage(s);
    var st := DetectJsDeps(s, DetectPythonDeps(s, NoStack));
    var src := SrcDirs(s.entries, lang);
    Profile(
      name := id.name,
      description := id.description,
      language := lang,
      framework := st.framework,
      packageManager := DetectPackageManager(s),
      pythonVersion := DetectPythonVersion(s),
      hasDb := st.hasDb,
      dbType := st.dbType,
      hasRedis := st.hasRedis,
      hasDocker := Present(s, ["Dockerfile"]) || Present(s, ["docker-compose.yml"]),
      hasCi := Present(s, [".github", "workflows"]) || Present(s, [".gitlab-ci.yml"]),
      gitInitialized := Present(s, [".git"]),
      srcDirs := src,
      testDirs := TestDirs(s.entries),
      entryPoints := DetectEntryPoints(s, src),
      directoryTree := GenerateTree(s),
      existingClaudeDir := Present(s, [".claude"]),
      existingClaudeMd := Present(s, ["CLAUDE.md"]),
      existingLinter := DetectLinter(s),
      presetSelected := PresetFor(st.framework))
  }

  // ---------------------------------------------------------------------------------------
  // Properties of the detector

  /** One of the three version markers starts at offset `i`: "[", ">=" or "==". */
  predicate MarkerAt(s: string, i: int) {
    OccursAt(s, "[", i) || OccursAt(s, ">=", i) || OccursAt(s, "==", i)
  }

  /** A dependency's name is the lower-cased text before the first marker of any kind ("[", ">=" or
      "=="), wherever the three splits meet it; a plain name is only lower-cased. */
  lemma DependencyNameIsMarkerFreePrefix(dep: string)
    ensures exists n | 0 <= n <= |dep| ::
      DependencyName(dep) == Lower(dep[..n]) && (n == |dep| || MarkerAt(dep, n))
      && forall i | 0 <= i < n :: !MarkerAt(dep, i)
    ensures !Contains(dep, "[") && !Contains(dep, ">=") && !Contains(dep, "==") ==> DependencyName(dep) == Lower(dep)
  {
    var a := Before(dep, "[");
    var b := Before(a, ">=");
    var c := Before(b, "==");
    BeforeFirst(dep, "[");
    BeforeFirst(a, ">=");
    BeforeFirst(b, "==");
    FirstMarker(dep, a, b, c);
  }

  /** `r` is the part of `s` before the first `sep`, or all of `s`. */
  predicate StopsAtFirst(s: string, r: string, sep: string) {
    StartsWith(s, r) && (|r| == |s| || OccursAt(s, sep, |r|)) && forall i | 0 <= i < |r| :: !OccursAt(s, sep, i)
  }

  lemma BeforeFirst(s: string, sep: string)
    requires |sep| > 0
    ensures StopsAtFirst(s, Before(s, sep), sep)
  {
    var r := Before(s, sep);
    if !Contains(s, sep) {
      forall i | 0 <= i < |r| ensures !OccursAt(s, sep, i) {
        if OccursAt(s, sep, i) { OccursAtContains(s, sep, i); }
      }
    }
  }

  /** Cutting before "[", then ">=", then "==" cuts before the first of the three markers. */
  lemma FirstMarker(dep: string, a: string, b: string, c: string)
    requires StopsAtFirst(dep, a, "[") && StopsAtFirst(a, b, ">=") && StopsAtFirst(b, c, "==")
    ensures dep[..|c|] == c
    ensures |c| == |dep| || MarkerAt(dep, |c|)
    ensures forall i | 0 <= i < |c| :: !MarkerAt(dep, i)
  {
    StartsWithTransitive(c, b, a);
    StartsWithTransitive(c, a, dep);
    forall i | 0 <= i < |c| ensures !MarkerAt(dep, i) {
      NoMarkerAt(dep, a, b, c, i);
    }
    if |c| < |b| {
      OccursInPrefix(dep, a, "==", |c|);
      OccursInPrefix(a, b, "==", |c|);
    } else if |b| < |a| {
      OccursInPrefix(dep, a, ">=", |b|);
    }
  }

  lemma NoMarkerAt(dep: string, a: string, b: string, c: string, i: nat)
    requires StopsAtFirst(dep, a, "[") && StopsAtFirst(a, b, ">=") && StopsAtFirst(b, c, "==")
    requires i < |c|
    ensures !MarkerAt(dep, i)
  {
    StartsWithTransitive(b, a, dep);
    assert |a| < |dep| ==> dep[|a|] == '[' by {
      if |a| < |dep| { assert dep[|a|] == dep[|a|..|a| + 1][0]; }
    }
    assert |b| < |a| ==> dep[|b|] == '>' by {
      if |b| < |a| { assert dep[|b|] == a[|b|] == a[|b|..|b| + 2][0]; }
    }
    assert OccursAt(dep, ">=", i) || OccursAt(dep, "==", i) ==> dep[i + 1] == '=' by {
      if OccursAt(dep, ">=", i) || OccursAt(dep, "==", i) { assert dep[i + 1] == dep[i..i + 2][1]; }
    }
    if OccursAt(dep, ">=", i) && i + 2 <= |a| {
      OccursInPrefix(dep, a, ">=", i);
    }
    if OccursAt(dep, "==", i) && i + 2 <= |b| {
      OccursInPrefix(dep, b, "==", i);
    }
  }

  /** An occurrence that fits inside a prefix is an occurrence in the prefix, and conversely. */
  lemma OccursInPrefix(s: string, q: string, t: string, i: nat)
    requires StartsWith(s, q) && i + |t| <= |q|
    ensures OccursAt(s, t, i) <==> OccursAt(q, t, i)
  {
    assert q == s[..|q|];
    assert s[i..i + |t|] == q[i..i + |t|] by {
      forall k | i <= k < i + |t| ensures s[k] == q[k] { assert q[k] == s[..|q|][k]; }
    }
  }

  /** The framework tables are ordered: fastapi wins over every later Python row, next over every later JS row. */
  lemma FrameworkTableOrder(deps: set<string>)
    ensures "fastapi" in deps ==> FirstMatch(PythonFrameworks, deps) == Some("FastAPI")
    ensures "django" in deps && "fastapi" !in deps ==> FirstMatch(PythonFrameworks, deps) == Some("Django")
    ensures "next" in deps ==> FirstMatch(JsFrameworks, deps) == Some("Next.js")
    ensures "react" in deps && "next" !in deps ==> FirstMatch(JsFrameworks, deps) == Some("React")
  {
    assert PythonFrameworks[0] == ("fastapi", "FastAPI") && PythonFrameworks[1] == ("django", "Django");
    assert JsFrameworks[0] == ("next", "Next.js") && JsFrameworks[1] == ("react", "React");
  }

  /** The JS dependency step runs second, so a JS framework overwrites a Python one. */
  lemma JsFrameworkOverridesPython(s: Snapshot)
    requires ReadPackageJson(s).Some? && ReadPackageJson(s).value.dependencies.Some?
    requires FirstMatch(JsFrameworks, ReadPackageJson(s).value.dependencies.value).Some?
    ensures DetectProject(s).framework == FirstMatch(JsFrameworks, ReadPackageJson(s).value.dependencies.value)
  {
  }

  /** Whatever the manifests say, a recorded database type comes with `has_db` and is never "sqlite". */
  lemma {:induction false} DetectedDatabaseIsKnown(s: Snapshot)
    ensures var r := DetectProject(s); r.dbType.Some? ==> r.hasDb && r.dbType.value in {"postgresql", "mysql", "mongodb"}
  {
    var st1 := DetectPythonDeps(s, NoStack);
    assert StackOk(st1);
    var st2 := DetectJsDeps(s, st1);
    assert StackOk(st2);
  }

  /** With no pyproject, a package.json naming only prisma sets `has_db` but leaves `db_type` unset. */
  lemma PrismaAloneSetsOnlyHasDb(s: Snapshot)
    requires ReadPyproject(s).None?
    requires ReadPackageJson(s).Some? && ReadPackageJson(s).value.dependencies == Some({"prisma"})
    ensures DetectProject(s).hasDb && DetectProject(s).dbType.None?
  {
    var st1 := DetectPythonDeps(s, NoStack);
    assert st1 == NoStack;
    var deps: set<string> := {"prisma"};
    assert deps * {"pg", "postgres", "mysql", "mysql2", "mongodb", "mongoose"} == {};
    assert deps * JsDbDrivers != {} by { assert "prisma" in deps * JsDbDrivers; }
    var st2 := DetectJsDeps(s, st1);
    assert st2.hasDb && st2.dbType.None?;
  }

  /** Every preset name detection can choose. */
  lemma PresetSelectionRange(framework: Option<string>)
    ensures PresetFor(framework) in {"python-fastapi", "python-django", "nextjs", "generic"}
  {
  }

  /** An empty directory: nothing but its own name is detected, and the preset is "generic". */
  lemma EmptyProject(name: string)
    ensures var r := DetectProject(Snapshot(name, [], {}, None, None, map[]));
      r.name == name && r.language == Unset && r.framework.None? && r.packageManager.None?
      && !r.hasDb && r.srcDirs == [] && r.entryPoints == [] && r.existingLinter.None?
      && r.presetSelected == "generic" && r.directoryTree == name + "/"
  {
    var s := Snapshot(name, [], {}, None, None, map[]);
    assert !AnyLock(s);
  }

  /** A FastAPI service with SQLAlchemy and Redis, locked by uv, is detected as such and gets the
      FastAPI preset. */
  lemma FastApiProject(s: Snapshot)
    requires HasPyproject(s) && !HasPackageJson(s) && s.pyproject.Some?
    requires PythonDeps(s.pyproject.value) == {"fastapi", "sqlalchemy", "redis"}
    requires Present(s, ["uv.lock"])
    ensures var r := DetectProject(s);
      r.language == Python && r.framework == Some("FastAPI") && r.hasDb && r.dbType == Some("postgresql")
      && r.hasRedis && r.packageManager.Some? && r.presetSelected == "python-fastapi"
  {
    var st := DetectJsDeps(s, DetectPythonDeps(s, NoStack));
    assert st == Stack(Some("FastAPI"), true, Some("postgresql"), true) by { FastApiStack(s); }
    assert DetectPackageManager(s).Some? by {
      assert AnyLock(s) by { assert LockFileMap[0] in LockFileMap; }
    }
    assert PresetFor(Some("FastAPI")) == "python-fastapi" by { FastApiPreset(); }
  }

  lemma FastApiPreset()
    ensures PresetFor(Some("FastAPI")) == "python-fastapi"
  {
    assert FrameworkToPreset[0] == ("FastAPI", "python-fastapi");
    assert FirstMatch(FrameworkToPreset, {"FastAPI"}) == Some("python-fastapi");
  }

  lemma FastApiStack(s: Snapshot)
    requires HasPyproject(s) && !HasPackageJson(s) && s.pyproject.Some?
    requires PythonDeps(s.pyproject.value) == {"fastapi", "sqlalchemy", "redis"}
    ensures DetectJsDeps(s, DetectPythonDeps(s, NoStack)) == Stack(Some("FastAPI"), true, Some("postgresql"), true)
  {
    var deps := PythonDeps(s.pyproject.value);
    FrameworkTableOrder(deps);
    assert DbIndicators[0].1[0] == "sqlalchemy";
    assert Meets(DbIndicators[0].1, deps);
  }
}
