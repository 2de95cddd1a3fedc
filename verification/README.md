# claudex in Dafny

A verified model of the decision logic of claudex, the tool that sets up Claude Code configuration for an
existing project. claudex detects what kind of project a directory holds and copies its `.claude/`
templates into it. It then generates a project-specific `CLAUDE.md`, compiles role registries into agent
files and checks the health of the result. It also ships hooks that run around every file edit and at
session start.

The model is pure. A project directory is a snapshot value: a tree of entries, a set of existing paths,
manifests that are already parsed and lock-file modification times. The destination of a copy is a map
from paths to contents. Every file the hooks read is an input string (`None` when missing), and every
clock reading is a parameter.

A snapshot's `paths` set answers the `.exists()` checks, and its `entries` tree answers `iterdir()` and
`rglob()`. The two are independent views of the directory: the model does not require them to agree,
so every property holds for any pair of them, including the consistent ones a real directory gives.

| file | module | what it models |
|---|---|---|
| `wrappers.dfy` | `Wrappers` | `Option` |
| `strs.dfy` | `Strs` | the Python `str` operations the code uses: `in`, `startswith`, `split`, `join`, `replace`, `count`, `strip`, `splitlines`, `lower`, `int`/`str` of naturals |
| `pure_paths.dfy` | `PurePaths` | `PurePosixPath` parsing: anchor and parts, `str(Path(p))` and `Path(p).name` |
| `filetree.dfy` | `FileTree` | directory trees, `sorted(iterdir())`, and lexical `Path.resolve()` with `is_relative_to` |
| `detectors.dfy` | `Detectors` | `detect_project` and its ten steps, over a project snapshot |
| `layer_configs.dfy` | `LayerConfigs` | `PRESETS` and `get_preset` |
| `copier.dfy` | `Copier` | `copy_tree`: the walk over the template tree, then its effect on the destination |
| `copier_text.dfy` | `CopierText` | `ensure_gitignore`, `patch_lint_hook`, `patch_lint_hook_from_preset` |
| `validator.dfy` | `Validator` | `validate_project` |
| `cli.dfy` | `Cli` | the preset reader of `load_preset`, and the exit codes of `init` and `validate` |
| `generator.dfy` | `Generator` | `generate_claude_md` and its section builders |
| `compiler.dfy` | `Compiler` | `compile_implementer_agents` and `compile_verifier_agents` over parsed role records |
| `pre_tool_use.dfy` | `PreToolUse` | the allow/block decision of the pre-tool-use hook |
| `post_tool_use.dfy` | `PostToolUse` | violation rules, violation ids and the session-summary update of the post-tool-use hook |
| `session_start.dfy` | `SessionStart` | the session-start hook: task state, background queue, parallel sessions, message merge |

Some behaviour is modelled as the code does it, even where the surrounding prose suggests otherwise:

- For TypeScript, JavaScript and mixed projects, `_contains_source_files` only looks for `*.ts` files.
  The `or` of the four generator objects yields the first one, which is always truthy.
- An eslint or biome configuration overrides a ruff one.
- Update-mode preservation compares raw string prefixes, so the pattern `docs/` also preserves `docs-old/x.md`.
- The pre-tool-use hook tests layers on `str(Path(file_path))`, so `./domain/x.py` is not inside layer `domain`
  there. The post-tool-use hook tests the raw path, so the same file is inside it. `PreToolUse.InLayer` and
  `PostToolUse.InLayer` keep that difference.
- `copy_tree` matches skip patterns against the entry's name. `item.relative_to(src)` of a listed child is
  that name, so a pattern containing `/` never matches anything.

The agent templates of `compiler.py` are a parameter of the `Compiler` functions (`Templates`). The
constant `Compiler.Shipped` holds the source's own text, and `Compiler.CompileAgents` applies it. So the
lemmas about compiled files hold for any template prose, and in particular for the shipped one.

## Model

| member | source | states |
|---|---|---|
| FileTree.InsertByName | claudex/copier.py:47 | inserting an entry into a name-sorted listing keeps it sorted and adds exactly that entry |
| FileTree.SortByName | claudex/copier.py:47 | `sorted(src.iterdir())` returns the same entries (as a multiset) ordered by name |
| FileTree.SortedMembers | claudex/copier.py:47 | an entry is in the sorted listing iff it is in the original listing |
| FileTree.Resolve | claudex/copier.py:59 | resolving a path removes every `..` and never makes the path longer |
| FileTree.ResolveAppend | claudex/copier.py:59 | resolving a path extended by one component is one resolution step after resolving the path |
| FileTree.WithinDescend | claudex/copier.py:58-61 | descending by an ordinary component keeps a contained path under the root |
| FileTree.WithinClimb | claudex/copier.py:58-61 | climbing with `..` stays under the root iff the path was strictly below it, or the root is the filesystem root |
| FileTree.Prefixes | claudex/copier.py:67 | `mkdir(parents=True)` brings into existence exactly the non-empty ancestors of the path and the path itself: every member is one of them, and every one of them is a member |
| Detectors.FirstKeyFrom | claudex/detectors.py:181-184 | the index of the first table row, at or after a start, whose key is in the set; no earlier row qualifies |
| Detectors.FirstMatch | claudex/detectors.py:181-184 | the `for ... break` lookup finds a value iff some row's key is among the dependencies, and the value is from the first such row |
| Detectors.FirstFamilyFrom | claudex/detectors.py:187-191 | the first database family whose indicator list meets the dependencies; no earlier family does |
| Detectors.ReadPyproject | claudex/detectors.py:383-391 | parsed pyproject data exists only when pyproject.toml exists |
| Detectors.ReadPackageJson | claudex/detectors.py:200-205 | parsed package.json data exists only when package.json exists |
| Detectors.DetectName | claudex/detectors.py:110-132 | the name is pyproject's name, else package.json's, else the directory name, so it is never empty for a named directory |
| Detectors.AnySuffixIffCount | claudex/detectors.py:151-153 | `any(rglob(pattern))` holds iff `len(list(rglob(pattern)))` is positive |
| Detectors.DetectLanguage | claudex/detectors.py:135-160 | mixed iff both manifests exist; python iff only pyproject exists, or there is no manifest and no tsconfig and .py files outnumber .ts/.tsx/.js/.jsx files; typescript iff tsconfig exists without pyproject, or there is no manifest and no tsconfig, .py files do not outnumber the others and some .ts file exists; unset iff there is no manifest, no tsconfig and no source file |
| Detectors.Before | claudex/detectors.py:174 | `s.split(sep)[0]` is the prefix of `s` that ends just before the first `sep`, so `sep` occurs there and nowhere earlier; it is all of `s` when `sep` is absent |
| Detectors.BeforeFirst | claudex/detectors.py:174 | the text `split(sep)[0]` gives stops exactly at the first separator, or at the end of the text |
| Detectors.PythonDb | claudex/detectors.py:29-34 | a database is found iff some family's indicators meet the dependencies, and it is never "sqlite" |
| Detectors.DetectPythonDeps | claudex/detectors.py:163-195 | without pyproject nothing changes; otherwise the framework is the first table match, the database the first family met, and redis is set by redis or aioredis |
| Detectors.JsDb | claudex/detectors.py:214-225 | has_db is set iff some JS driver is present; pg or postgres gives postgresql, otherwise mysql or mysql2 gives mysql, otherwise mongodb or mongoose gives mongodb; without any of these six the type is left alone, and framework and redis never change |
| Detectors.DetectJsDeps | claudex/detectors.py:198-232 | without package.json dependencies nothing changes; otherwise a JS framework match overwrites the framework, redis or ioredis sets redis, a driver sets has_db, and the database type follows the postgresql, mysql, mongodb precedence |
| Detectors.ExistingLocks | claudex/detectors.py:237-241 | exactly the lock files that exist, each with its manager and mtime, in table order |
| Detectors.NewestIndex | claudex/detectors.py:245 | `max(..., key=...)` picks an entry with the greatest mtime, and the first one on ties |
| Detectors.DetectPackageManager | claudex/detectors.py:235-254 | with a lock file, some manager is chosen; without one: poetry when pyproject has a poetry section, else pip with pyproject, else npm with package.json, else none |
| Detectors.NewestLockWins | claudex/detectors.py:243-245 | the chosen manager is that of an existing lock file whose mtime no other existing lock file exceeds |
| Detectors.UvWinsTies | claudex/detectors.py:36-42 | when uv.lock ties for newest, uv is chosen |
| Detectors.DetectPythonVersion | claudex/detectors.py:257-263 | set iff pyproject has a non-empty requires-python, and then equal to it |
| Detectors.SrcDirs | claudex/detectors.py:272-280 | exactly the visible root directories with a common source name that pass the source-file check |
| Detectors.TestDirs | claudex/detectors.py:281-282 | exactly the root directories named tests or test |
| Detectors.JsOnlyDirectoryIsNotSource | claudex/detectors.py:298-304 | in a JavaScript project, an `app/` holding only .js files is not a source directory, because only `*.ts` is scanned |
| Detectors.VisibleDirs | claudex/detectors.py:321-325 | exactly the directories of a listing that are not skipped or hidden |
| Detectors.TreeLines | claudex/detectors.py:312-327 | the walk adds nothing at depth 2 or deeper, and every line is an indented directory name ending in "/"; order and nesting are stated by TreeLinesTwoLevel |
| Detectors.TreeLinesShown | claudex/detectors.py:312-327 | the walk prints exactly the shown lines: each visible directory's own line and, one level deeper, the lines shown inside it, down to depth 2 |
| Detectors.TreeLinesOf | claudex/detectors.py:321-327 | every line is indented under the prefix and ends in "/", and every directory of the listing gets at least its own line |
| Detectors.TreeLinesOfShown | claudex/detectors.py:321-327 | the loop prints exactly each listed directory's line and the lines shown inside it |
| Detectors.FlatTreeInOrder | claudex/detectors.py:315-327 | when no visible directory holds visible subdirectories, the tree lists the visible root directories, one per line, in name order |
| Detectors.LinesAt | claudex/detectors.py:323-324 | one line per directory, in the order given, each the prefix, two spaces, the name and "/" |
| Detectors.TreeLinesTwoLevel | claudex/detectors.py:312-327 | the walk prints the visible root directories sorted by name, each directly followed by its own visible subdirectories sorted by name and indented one level; nothing deeper |
| Detectors.GenerateTree | claudex/detectors.py:308-330 | the tree is the root's name and "/", then the two-level listing in order, joined by newlines; its lines are exactly those of visible directories down to depth 2: no file, hidden or skipped entry, and nothing deeper |
| Detectors.EntryPointsIn | claudex/detectors.py:354-362 | exactly the candidates present in one directory, each labelled by its name or by "dir/name", in candidate order |
| Detectors.EntryPointsUnder | claudex/detectors.py:358-362 | every entry found under a source directory is a candidate present there, and every candidate present in a source directory is listed as "dir/name" |
| Detectors.DetectEntryPoints | claudex/detectors.py:340-364 | every candidate present at the root, and every candidate present in a source directory as "dir/name", is listed; nothing else is; the root ones come first, in candidate order |
| Detectors.DetectLinter | claudex/detectors.py:367-380 | eslint iff an eslint config exists; biome iff biome.json exists and no eslint config; ruff iff pyproject has `[tool.ruff]` and neither of the others is present |
| Detectors.PresetFor | claudex/detectors.py:101-105 | the FRAMEWORK_TO_PRESET value for a mapped framework, otherwise "generic" |
| Detectors.DetectProject | claudex/detectors.py:86-107 | the selected preset is always the preset for the detected framework |
| Detectors.DependencyNameIsMarkerFreePrefix | claudex/detectors.py:174 | a dependency name is the lowercased text before the first "[", ">=" or "==", whichever comes first, or the whole text without one; a plain name is just lowercased |
| Detectors.FrameworkTableOrder | claudex/detectors.py:13-27 | fastapi wins over later Python rows and next over later JS rows; django and react win when the earlier key is absent |
| Detectors.JsFrameworkOverridesPython | claudex/detectors.py:92-93 | when package.json names a JS framework, it replaces whatever the Python step found |
| Detectors.DetectedDatabaseIsKnown | claudex/detectors.py:186-225 | a recorded database type always comes with has_db and is postgresql, mysql or mongodb |
| Detectors.PrismaAloneSetsOnlyHasDb | claudex/detectors.py:224-225 | with prisma as the only JS database dependency, has_db is set and db_type stays unset |
| Detectors.PresetSelectionRange | claudex/detectors.py:44-53 | the selected preset is one of python-fastapi, python-django, nextjs and generic |
| Detectors.EmptyProject | claudex/detectors.py:86-107 | an empty directory yields only its name, an unset language and the generic preset |
| Detectors.FastApiProject | claudex/detectors.py:86-107 | a uv-locked FastAPI project with SQLAlchemy and Redis gets FastAPI, postgresql, redis, uv and python-fastapi |
| Detectors.FastApiStack | claudex/detectors.py:163-232 | the two dependency steps on that project produce FastAPI, postgresql and redis |
| LayerConfigs.FindPreset | claudex/layer_configs.py:60 | the first preset row with the name, or none when no row has it |
| LayerConfigs.GetPreset | claudex/layer_configs.py:55-60 | a known name gives its own preset, and an unknown name gives the generic preset |
| LayerConfigs.KnownPresets | claudex/layer_configs.py:15-52 | each of the four names finds its own entry, and all three generic maps are empty |
| LayerConfigs.EveryPresetRulesNameLayers | claudex/layer_configs.py:15-52 | every sibling-block and file-block key of every preset is one of that preset's layers |
| LayerConfigs.DetectedPresetsExist | claudex/layer_configs.py:15-60 | every preset the detector can select names an existing layer preset |
| Copier.StripName | claudex/copier.py:54-56 | a name ending in ".template" loses every ".template"; any other name is kept |
| Copier.StripTemplateRoundTrip | claudex/copier.py:54-56 | stripping `n + ".template"` gives back `n` |
| Copier.WalkGood | claudex/copier.py:47-72 | every operation keeps its stripped, non-skipped names and lies inside the root; an abort names a destination outside the root |
| Copier.WalkItemsGood | claudex/copier.py:47-72 | the same guarantee for the loop over the remaining sorted entries, including `__pycache__` pruning |
| Copier.WalkContent | claudex/copier.py:47-72 | every copy the walk yields names a source file below the walked directory, reached through no skipped name and no `__pycache__`, and carries that file's content |
| Copier.WalkComplete | claudex/copier.py:47-72 | a walk that completes copies every such kept source file to its stripped destination, with its content |
| Copier.StripAll | claudex/copier.py:54-56 | a destination path has one component per source component, each the stripped name |
| Copier.StepOp | claudex/copier.py:63-95 | a directory is made, or a file is skipped as preserved (update mode, existing destination, and a prefix match on the relative path with backslashes turned into "/"), announced as CREATE or UPDATE (dry run), or written; nothing else changes |
| Copier.ApplyEvents | claudex/copier.py:63-95 | one event per operation, at its destination and of its kind: a dry run never writes, a real run never announces, and outside update mode nothing is skipped |
| Copier.ApplyFootprint | claudex/copier.py:63-95 | only the copies' targets gain or change content, only the operations' directories are added, and everything else stays as it was |
| Copier.PlainRun | claudex/copier.py:90-95 | outside update mode, a real run adds exactly the walk's writes (later ones win) and its directories |
| Copier.WritesKeys | claudex/copier.py:90-95 | a plain run writes exactly the targets of its copies |
| Copier.WritesAgree | claudex/copier.py:90-95 | when every copy reaching a target carries the same content, the run leaves that content there |
| Copier.CopyTreeCopiesKept | claudex/copier.py:33-95 | after a plain `copy_tree` that completes, every kept source file's content is at its stripped destination, when no other entry reaches it with other content |
| Copier.PlainRunIdempotent | claudex/copier.py:90-95 | running the same copy twice leaves the destination as one run left it |
| Copier.PreservedUntouched | claudex/copier.py:78-84 | in update mode, an existing preserved file keeps its content |
| Copier.UpdateWithoutPreserved | claudex/copier.py:78-84 | when no copied file is preserved, update mode behaves exactly like a plain run |
| Copier.Plan | claudex/copier.py:85-88 | the real event a dry-run event announces, for the same destination |
| Copier.PlanLog | claudex/copier.py:85-88 | maps every event of a dry-run log to its real event, in order |
| Copier.DryRunFidelity | claudex/copier.py:63-95 | when no two entries reach the same destination, the dry run announces exactly what the real run does |
| Copier.PlainPreviewActions | claudex/copier.py:63-95 | outside update mode, the dry run lists the real run's directories and file writes one for one |
| Copier.CollidingNames | claudex/copier.py:54-56 | `a.md.template` and `a.md` both strip to `a.md` |
| Copier.CollidingPreview | claudex/copier.py:85-88 | with two entries reaching one destination, the dry run announces two creations |
| Copier.CollidingOverwrite | claudex/copier.py:90-95 | with two entries reaching one destination, the real run creates the file, then overwrites it, and the later content wins |
| Copier.OpsContained | claudex/copier.py:58-61 | every written file lies inside the resolved root, and every created directory lies on the root's line of descent |
| Copier.CopyTree | claudex/copier.py:33-95 | a dry run changes nothing; files are only added or changed inside the root; an abort names a destination outside the root |
| Copier.PreservedBy | claudex/copier.py:79-80 | a file is preserved when its relative path text starts with some pattern whose trailing "/" is removed |
| Copier.RelTextPlain | claudex/copier.py:79 | without a backslash, the relative path text is the path joined by "/" |
| Copier.RelTextBackslash | claudex/copier.py:79 | a backslash inside a name becomes "/": the name `x\y` has the text `x/y` |
| Copier.BackslashNamePreserved | claudex/copier.py:79-80 | in update mode a template named `session\CURRENT_TASK.md` is preserved, like `session/CURRENT_TASK.md` |
| Copier.NotPreservedByHead | claudex/copier.py:80 | a path is not preserved when no pattern begins with its first character |
| Copier.DefaultPreserveSet | claudex/copier.py:16-30 | the session logs and everything under `knowledge` are preserved, and so is `docs-old/x.md` by the raw prefix `docs` |
| Copier.ClaudeMdNotPreserved | claudex/copier.py:16-30 | the top-level `CLAUDE.md` is not preserved |
| Copier.WalkItemsFlat | claudex/copier.py:47-95 | plain files that are not skipped and not templates are copied one by one under their own names |
| Copier.WalkFlat | claudex/copier.py:47 | a flat listing of plain files is copied file by file, in sorted order |
| CopierText.EnsureGitignore | claudex/copier.py:156-167 | the old text stays a prefix; the block is appended iff ".claude/" was absent, preceded by "\n" exactly when the old text is non-empty and does not end in one |
| CopierText.GitignoreIdempotent | claudex/copier.py:156-167 | a second call leaves the file as the first call left it |
| CopierText.QuoteFor | claudex/copier.py:120-121 | `repr` uses double quotes only when the text has no double quote |
| CopierText.StrRepr | claudex/copier.py:120-121 | `repr(s)` begins and ends with the chosen quote; each character stands for itself or is an escape starting with a backslash (`\\`, the quote, `\n`, `\r`, `\t`, or `\xNN` for Latin-1 control and invisible characters) |
| CopierText.ListRepr | claudex/copier.py:120-121 | `repr(list)` is bracketed |
| CopierText.ReprRoundTrip | claudex/copier.py:120-121 | reading the literal `repr` wrote gives back the original string |
| CopierText.EscapeChar | claudex/copier.py:120-121 | a character is written as itself exactly when it needs no escape, and an escape always starts with a backslash |
| CopierText.UnescapeHex | claudex/copier.py:120-121 | a `\xNN` escape reads back as the Latin-1 character it encodes |
| CopierText.WithSlash | claudex/copier.py:108 | every directory ends in "/", and one that already does is kept |
| CopierText.LintDirs | claudex/copier.py:106-108 | the source and test directories each with a trailing "/", or `src/` and `tests/` when both lists are empty |
| CopierText.LintExtensions | claudex/copier.py:110-118 | a non-empty extension list for every language |
| CopierText.LintExtensionsCover | claudex/copier.py:110-118 | `.py` is linted unless the project is TypeScript or JavaScript; `.ts` is linted iff the project is TypeScript, JavaScript or mixed |
| CopierText.PatchPlaceholders | claudex/copier.py:120-121 | without placeholder lines, or without values, the text is unchanged |
| CopierText.PatchLintHook | claudex/copier.py:98-122 | a missing hook stays missing, and a hook without placeholder lines is unchanged |
| CopierText.PatchOnce | claudex/copier.py:120-121 | a text holding a placeholder exactly once gets the rendered line in its place, and nothing else changes |
| CopierText.PatchOrKeep | claudex/copier.py:120-121 | a placeholder that occurs once is either replaced by its line or, when no value is given, kept, and nothing else changes |
| CopierText.TwoPatches | claudex/copier.py:120-121 | two `replace` calls in a row, each of a placeholder occurring once at its place or skipped, change exactly those two places |
| CopierText.PlaceholdersBoth | claudex/copier.py:120-121 | a text holding the dirs placeholder and, after it, the extensions placeholder, each once, gets each one replaced by its rendered line when a value is given and kept otherwise; nothing else changes |
| CopierText.PatchLintHookBoth | claudex/copier.py:98-122 | on the shipped layout, the dirs placeholder line becomes `LINT_DIRS = ` and the repr of the detected source and test directories, the extensions placeholder line becomes `LINT_EXTENSIONS = ` and the repr of the language's extensions, and nothing else changes |
| CopierText.DashItemOf | claudex/copier.py:135-139 | a line gives an item iff its stripped form starts with "-" |
| CopierText.DashItemsOf | claudex/copier.py:135-139 | at most one item per line |
| CopierText.PresetList | claudex/copier.py:133-140 | an absent or empty value gives no list, and a list is never empty |
| CopierText.PatchLintHookFromPreset | claudex/copier.py:125-153 | a missing hook stays missing; without usable lists, or without placeholders, the hook is unchanged |
| CopierText.FromPresetBoth | claudex/copier.py:125-153 | on the shipped layout, each of `lint_dirs` and `lint_extensions` that is a usable list replaces its placeholder line, each unusable one leaves its placeholder, and nothing else changes |
| CopierText.DashListRoundTrip | claudex/copier.py:135-139 | items written as a "- item" list and read back come out unchanged |
| Validator.DirChecks | claudex/validator.py:34-40 | one check per required directory, in order, passing iff `.claude/<dir>` exists |
| Validator.FileChecks | claudex/validator.py:42-48 | one check per required file, in order, passing iff `.claude/<file>` exists |
| Validator.RootChecks | claudex/validator.py:50-78 | CLAUDE.md passes iff present; .gitignore passes iff present and containing ".claude/"; .mcp.json always passes |
| Validator.Checks | claudex/validator.py:21-80 | a missing `.claude` gives one failing check; otherwise the `.claude` check, 5 directories, 7 files and 3 root checks |
| Validator.FrontChecks | claudex/validator.py:26-48 | the `.claude` check passes, then one check per required directory and per required file |
| Validator.Messages | claudex/validator.py:21-24 | the messages of the checks with one outcome; empty iff no check has that outcome |
| Validator.MessagesPartition | claudex/validator.py:21-80 | every check lands in exactly one of passes and failures |
| Validator.ValidateProject | claudex/validator.py:21-80 | no `.claude` gives no passes and one failure; otherwise 16 messages; no failures iff the project is healthy |
| Validator.HealthyIffAllPass | claudex/validator.py:21-80 | the project is healthy iff every check passes |
| Validator.McpJsonNeverFails | claudex/validator.py:73-78 | adding or removing `.mcp.json` never changes the failures |
| Validator.McpIrrelevant | claudex/validator.py:73-78 | two projects that differ only in `.mcp.json` get the same failures |
| Cli.Partition | claudex/cli.py:16 | `partition(":")` splits at the first colon, and gives nothing when there is no colon |
| Cli.UnquoteQuoted | claudex/cli.py:23-24 | a double-quoted value loses its quotes; a value not starting with a quote is kept |
| Cli.ParseSimpleLine | claudex/cli.py:11-26 | a pair is read iff the line has a colon, is not a list item and its value is not "\|" |
| Cli.Settle | claudex/cli.py:69-70 | storing the open block adds exactly its key |
| Cli.Feed | claudex/cli.py:48-77 | keys are never removed; blank and comment lines change no binding; a `key: \|` line opens an empty block under that key |
| Cli.FeedAllKeeps | claudex/cli.py:48-77 | the loader never forgets a stored key |
| Cli.Meaning | claudex/cli.py:77 | every entry's key is bound, the last entry for a key winning |
| Cli.StepScalar | claudex/cli.py:63-77 | a `key: value` line closes any open block and binds the key |
| Cli.StepOpen | claudex/cli.py:56-60 | a `key: \|` line opens a block; as written it discards an open block, the corrected loop stores it first |
| Cli.StepBlockLine | claudex/cli.py:63-66 | an indented line adds itself, without the two spaces, to the open block |
| Cli.LoadRoundTrip | claudex/cli.py:43-83 | the corrected reader recovers every well-formed preset; the reader as written does so when no block directly follows another |
| Cli.PresetTextRoundTrip | claudex/cli.py:43-83 | a preset written out as text reads back as its meaning with the corrected reader |
| Cli.ConsecutiveBlocksLoseFirst | claudex/cli.py:56-60 | as written, two consecutive blocks keep only the second; corrected, both are kept |
| Cli.Init | claudex/cli.py:224-271 | init is refused iff the target is not a directory or `.claude` exists without `--force`; it runs only when confirmed or `--yes` |
| Cli.ExistingClaudeNeedsForce | claudex/cli.py:234-238 | an existing `.claude/` without `--force` exits with 2 and does not initialise |
| Cli.ValidateExit | claudex/cli.py:294-311 | the exit code is 0 iff every check passes, otherwise 1 |
| Generator.Numbered | claudex/generator.py:59-60 | one numbered line per item |
| Generator.NumberedItems | claudex/generator.py:59-60 | line i reads "i+from. item i" |
| Generator.ConstraintNumbering | claudex/generator.py:36-62 | constraints are numbered 1..n; n is 4 with a database and 3 without; rule versioning is the second item and removing it gives the no-database list |
| Generator.DirLines | claudex/generator.py:85-90 | one line per directory, in order, each the directory indented by two spaces and ending in "/" |
| Generator.Bullets | claudex/generator.py:106-110 | one bullet per directory, in order, naming the directory with a trailing "/" in backquotes and then what it holds |
| Generator.ArchitecturePreference | claudex/generator.py:76-90 | the detected tree wins whatever the preset says, then the preset's tree, then the name with one line per source and test directory |
| Generator.InstallCommandTable | claudex/generator.py:206-218 | an install line exists iff the manager is one of the six; it is that manager's table entry and starts with the manager's name |
| Generator.FirstDecisive | claudex/generator.py:248-256 | the position of the first entry point that decides the dev command; none before it does |
| Generator.DevFromEntries | claudex/generator.py:248-256 | none iff no entry point is decisive; otherwise the command of the first decisive entry point |
| Generator.DevServerCommand | claudex/generator.py:245-263 | always runserver, uvicorn, flask run, `<pm> run dev` or empty; empty iff no decisive entry point and not TypeScript/JavaScript |
| Generator.QuickStartCommands | claudex/generator.py:201-242 | empty iff there is no install command, no Docker, no Python database and no dev server |
| Generator.QuickStartFallback | claudex/generator.py:185-195 | the built commands are used when present, else the preset's quick start, else the placeholder |
| Generator.DevNotMarker | claudex/generator.py:220-240 | a dev-server command never reads as a services or migration line |
| Generator.DockerBlockIff | claudex/generator.py:220-224 | the services block appears iff Docker was detected |
| Generator.MigrationBlockIff | claudex/generator.py:226-233 | the migration block appears iff there is a database and the language is Python; Django migrates through manage.py |
| Generator.FastApiDevServer | claudex/generator.py:251-254 | a FastAPI project with entry point `main.py` is served by `uvicorn main:app --reload` |
| Generator.NonEmpty | claudex/generator.py:20 | keeps only non-empty sections, never more than it was given |
| Generator.GenerateClaudeMd | claudex/generator.py:9-20 | the document starts with "# " and the project name |
| Generator.HeaderNonEmpty | claudex/generator.py:23-33 | the header always has text |
| Generator.ConstraintsNonEmpty | claudex/generator.py:36-62 | the constraints section always has text |
| Generator.ArchitectureNonEmpty | claudex/generator.py:65-112 | the architecture section always has text |
| Generator.TestingNonEmpty | claudex/generator.py:142-174 | the testing section always has text |
| Generator.QuickStartNonEmpty | claudex/generator.py:177-198 | the quick-start section always has text |
| Generator.LayerRulesPresent | claudex/generator.py:115-126 | the layer-rules section is empty iff the preset has no `layer_rules` |
| Generator.SectionsPresent | claudex/generator.py:9-20 | the document has six sections, or seven when the preset defines `layer_rules` |
| Compiler.BulletLines | claudex/compiler.py:118-124 | one bullet line per item |
| Compiler.ReadBulletLines | claudex/compiler.py:118-124 | removing each bullet's decoration gives back the items |
| Compiler.BulletListRoundTrip | claudex/compiler.py:118-124 | a non-empty list of single-line items survives rendering and reading back, one bullet per item, in order |
| Compiler.EmptyListIsFallbackItem | claudex/compiler.py:118 | an empty focus or checks list renders like the one-item list naming its fallback |
| Compiler.RenderTitle | claudex/compiler.py:12-13 | every agent file begins with "# " and the role's name |
| Compiler.DefaultsAreExplicit | claudex/compiler.py:110-113 | absent fields render as if the role spelled out the defaults: id for the name, "" for the description, `verification/report.md` and `critical` |
| Compiler.VerifierOutput | claudex/compiler.py:157 | a verifier file quotes its output path, which is `verification/report.md` by default |
| Compiler.VerifierBlocking | claudex/compiler.py:158 | a verifier file states its blocking level, which is `critical` by default |
| Compiler.IdPrefix | claudex/compiler.py:110-111 | the roles before the first role without an id, all of which have one |
| Compiler.CompileRoles | claudex/compiler.py:110-138 | one `{id}.md` file per role, in order, with the rendered content; a role without id stops the run with the files written so far |
| Compiler.FileNames | claudex/compiler.py:136 | the returned names are the written files' names, in order |
| Compiler.Compile | claudex/compiler.py:104-138 | a missing registry writes nothing and returns the empty list; a loaded one runs the role loop, which finishes iff every role has an id |
| Compiler.CompiledFilesTitled | claudex/compiler.py:110-137 | every written file is named after its role's id and starts with the role's title |
| Compiler.CompiledVerifiersReport | claudex/compiler.py:152-172 | every compiled verifier file quotes its role's output path and states its blocking level |
| PreToolUse.FirstKeyword | claudex/templates/project/hooks/pre-tool-use.py:51-52 | none iff no keyword occurs in the basename; otherwise the first one that does |
| PreToolUse.CheckLayerPlacement | claudex/templates/project/hooks/pre-tool-use.py:43-57 | passes iff no layer both holds the path and rejects its basename; a failure reports the first such layer |
| PreToolUse.ShippedPlacementPasses | claudex/templates/project/hooks/pre-tool-use.py:23-25 | with the shipped empty table, placement never blocks |
| PreToolUse.CheckFileSize | claudex/templates/project/hooks/pre-tool-use.py:60-83 | blocks iff the file has more than 500 lines; warns iff it has 301 to 500 |
| PreToolUse.LineCountOfLines | claudex/templates/project/hooks/pre-tool-use.py:63 | text made of n lines without line feeds counts as n lines |
| PreToolUse.FirstFailure | claudex/templates/project/hooks/pre-tool-use.py:152-156 | none iff every check passes; otherwise the message of the first failing check |
| PreToolUse.Decide | claudex/templates/project/hooks/pre-tool-use.py:121-158 | a block only happens for a gated call; the size warning appears only when the size check is reached |
| PreToolUse.DecideInput | claudex/templates/project/hooks/pre-tool-use.py:115-119 | input that cannot be decoded is allowed |
| PreToolUse.DecideOrder | claudex/templates/project/hooks/pre-tool-use.py:86-158 | a gated call without a task file gets the no-task message; then the placement check; then, for a Write with content, the size limit; otherwise it is allowed |
| PreToolUse.SizeLimitOnlyForWrite | claudex/templates/project/hooks/pre-tool-use.py:149-150 | with a task file and an empty table, a call is blocked iff it is a gated Write of more than 500 lines |
| PreToolUse.ShippedDecision | claudex/templates/project/hooks/pre-tool-use.py:144-158 | with the shipped table and a task file, only size blocks a call |
| PurePaths.Name | claudex/templates/project/hooks/pre-tool-use.py:50 | `Path(p).name` is empty iff the path has no parts, and otherwise a part: non-empty, free of "/" and not "." |
| PurePaths.NameOfAppended | claudex/templates/project/hooks/pre-tool-use.py:50 | the name of `dir/n` is `n`, whatever `dir` is |
| PurePaths.NameOfAppendedSlash | claudex/templates/project/hooks/pre-tool-use.py:50 | a trailing slash does not change the name |
| PurePaths.NameOfPart | claudex/templates/project/hooks/pre-tool-use.py:50 | a bare part is its own name |
| PurePaths.PathStringRoundTrip | claudex/templates/project/hooks/pre-tool-use.py:45 | parsing `str(Path(p))` again gives the same anchor, parts and name, so taking the string form twice is taking it once |
| PurePaths.SplitJoin | claudex/templates/project/hooks/pre-tool-use.py:45 | pieces free of "/" joined by "/" split back into the same pieces |
| PurePaths.PartsOfJoin | claudex/templates/project/hooks/pre-tool-use.py:45 | parts joined by "/" parse back to the same parts |
| PostToolUse.ImportViolations | claudex/templates/project/hooks/post-tool-use.py:84-92 | exactly one CRITICAL architecture violation per forbidden library the content imports, in list order, and none for the libraries it does not import |
| PostToolUse.PatternViolations | claudex/templates/project/hooks/post-tool-use.py:94-104 | exactly one HIGH architecture violation per forbidden pattern the content holds, in list order, and none for the others |
| PostToolUse.Scanned | claudex/templates/project/hooks/post-tool-use.py:84-120 | the shared loop reports exactly the entries the scan finds, one violation per entry, in list order |
| PostToolUse.ScanFacts | claudex/templates/project/hooks/post-tool-use.py:84-120 | every reported violation is made from an entry that was found, and every found entry's violation is reported |
| PostToolUse.PicksSound | claudex/templates/project/hooks/post-tool-use.py:84-120 | a picked violation is the one made at a found position |
| PostToolUse.PicksComplete | claudex/templates/project/hooks/post-tool-use.py:84-120 | the violation made at every found position is picked |
| PostToolUse.LayerViolations | claudex/templates/project/hooks/post-tool-use.py:80-104 | only architecture violations, and none when no layer holds the path |
| PostToolUse.LayerViolationsSound | claudex/templates/project/hooks/post-tool-use.py:80-104 | every layer violation comes from a rule whose layer holds the path |
| PostToolUse.LayerViolationsComplete | claudex/templates/project/hooks/post-tool-use.py:80-104 | every import and pattern violation of every rule whose layer holds the path is reported |
| PostToolUse.LayerViolationsSplit | claudex/templates/project/hooks/post-tool-use.py:80-104 | the violations of a rule table are those of its first rules followed by those of the rest, in table order |
| PostToolUse.LayerViolationsOne | claudex/templates/project/hooks/post-tool-use.py:80-104 | one rule contributes its import violations and then its pattern violations when its layer holds the path, and nothing otherwise |
| PostToolUse.SecretViolations | claudex/templates/project/hooks/post-tool-use.py:106-120 | exactly one CRITICAL security violation per secret pattern found in the lowercased content, in pattern order, and none when the content reads the environment |
| PostToolUse.ShippedOnlySecrets | claudex/templates/project/hooks/post-tool-use.py:106-122 | with the shipped empty rules, the violations are exactly the secret ones: one per secret pattern found, in order, at most four, all CRITICAL, none when the environment is read |
| PostToolUse.LayerRulesNeedLayer | claudex/templates/project/hooks/post-tool-use.py:80-82 | outside every layer, only the secret violations are reported |
| PostToolUse.DigitRun | claudex/templates/project/hooks/post-tool-use.py:48 | `\d+` matches the longest run of digits |
| PostToolUse.MaxOr0 | claudex/templates/project/hooks/post-tool-use.py:49 | `max(..., default=0)` bounds every id and is one of them, or 0 |
| PostToolUse.NextId | claudex/templates/project/hooks/post-tool-use.py:48-49 | the next id is above every existing id; it is 1 iff every id is 0, and otherwise one more than an existing id |
| PostToolUse.ZeroPad | claudex/templates/project/hooks/post-tool-use.py:55 | zero padding reaches the width and keeps the number's value |
| PostToolUse.Id3 | claudex/templates/project/hooks/post-tool-use.py:55 | `{n:03d}` has at least three digits and reads back as n |
| PostToolUse.HeadingReadsBack | claudex/templates/project/hooks/post-tool-use.py:48-55 | a heading the hook writes is read back as the same id on the next scan |
| PostToolUse.HeadedIds | claudex/templates/project/hooks/post-tool-use.py:48-55 | text free of "### V" around one written heading carries exactly that heading's id |
| PostToolUse.IdsAppend | claudex/templates/project/hooks/post-tool-use.py:48 | the ids of text joined before a line feed are the ids of the two pieces, in order |
| PostToolUse.LogViolation | claudex/templates/project/hooks/post-tool-use.py:39-73 | a missing log stays missing; an existing log keeps its text as a prefix and gains an entry headed "### V" with the next id and the date, carrying the message |
| PostToolUse.LogViolationNextId | claudex/templates/project/hooks/post-tool-use.py:48-55 | when the entry holds no further "### V", the log gains exactly the id it was given, so the next id after it is one more |
| PostToolUse.LogAll | claudex/templates/project/hooks/post-tool-use.py:187-188 | logging several violations keeps the old log as a prefix and adds at least one character per violation |
| PostToolUse.LogAllCarriesMessages | claudex/templates/project/hooks/post-tool-use.py:185-188 | every logged violation's message is in the text the run appended |
| PostToolUse.LogAllNextId | claudex/templates/project/hooks/post-tool-use.py:185-188 | logging n violations hands out n consecutive ids |
| PostToolUse.ScanFrom | claudex/templates/project/hooks/post-tool-use.py:143-148 | the insertion loop's result follows a bullet and precedes any heading after line 0; every later bullet lies past a heading |
| PostToolUse.InsertIndex | claudex/templates/project/hooks/post-tool-use.py:143-148 | the entry goes just after the last bullet before the section's next heading, or at the top |
| PostToolUse.InsertedLines | claudex/templates/project/hooks/post-tool-use.py:142-149 | the entry is inserted at that index, and removing it gives back the section's lines |
| PostToolUse.UpdateSession | claudex/templates/project/hooks/post-tool-use.py:125-153 | the summary is unchanged when it already mentions the path or the marker does not occur exactly once |
| PostToolUse.UpdatedMentionsPath | claudex/templates/project/hooks/post-tool-use.py:138-151 | a changed summary mentions the recorded path |
| PostToolUse.UpdateSessionIdempotent | claudex/templates/project/hooks/post-tool-use.py:134 | recording the same file again, at any time, leaves the summary unchanged |
| PostToolUse.UpdateSessionInserts | claudex/templates/project/hooks/post-tool-use.py:139-151 | the text up to the marker is kept and exactly one line is inserted after it |
| PostToolUse.Main | claudex/templates/project/hooks/post-tool-use.py:156-193 | the session is updated iff the tool is guarded and has a path, as "created" iff it is Write; the logged violations are exactly `check_for_violations` of the content (or `new_string`) for checked files and none otherwise; the status counts them |
| PostToolUse.MainInput | claudex/templates/project/hooks/post-tool-use.py:157-161 | input that cannot be decoded answers ok and does nothing |
| PostToolUse.ShippedMainSecretsOnly | claudex/templates/project/hooks/post-tool-use.py:185-191 | under the shipped rules, every logged violation is a secret |
| SessionStart.Take80 | claudex/templates/project/hooks/session-start.py:50 | `[:80]` gives a prefix of the text: all of it when it has at most 80 characters, else its first 80 |
| SessionStart.TaskSection | claudex/templates/project/hooks/session-start.py:49 | the task section has no "##" |
| SessionStart.FirstLine | claudex/templates/project/hooks/session-start.py:49-50 | the stripped first line has no line feed, and no "##" when the text had none |
| SessionStart.TaskName | claudex/templates/project/hooks/session-start.py:47-50 | a task name is read iff the file has the task heading |
| SessionStart.TaskNameShape | claudex/templates/project/hooks/session-start.py:48-50 | a task name is at most 80 characters, one line, and never runs into the next heading |
| SessionStart.TaskNameRoundTrip | claudex/templates/project/hooks/session-start.py:48-50 | a one-line description written under the task heading, followed by the next heading, reads back as the task name |
| SessionStart.CheckSessionState | claudex/templates/project/hooks/session-start.py:25-76 | there is a session iff the task file exists; a message is always set; a stale session is to be archived; "start" iff there is no session |
| SessionStart.Recommendations | claudex/templates/project/hooks/session-start.py:39-74 | no task file gives start; above 48 hours gives archive and stale; otherwise continue; an unreadable age leaves no recommendation |
| SessionStart.QueueReport | claudex/templates/project/hooks/session-start.py:89-109 | one kicked line iff "\| KICKED" occurs and one queued line iff "\| QUEUED" occurs |
| SessionStart.QueueSilent | claudex/templates/project/hooks/session-start.py:111 | the queue report is empty iff there are no status lines |
| SessionStart.QueuedNotKicked | claudex/templates/project/hooks/session-start.py:98-109 | the kicked line never reads as the queued line |
| SessionStart.TableEnd | claudex/templates/project/hooks/session-start.py:135-136 | the table ends at the first "##" line that is not the active-sessions heading |
| SessionStart.CountRows | claudex/templates/project/hooks/session-start.py:137-143 | at most one row per line |
| SessionStart.FirstOpen | claudex/templates/project/hooks/session-start.py:132-134 | the first line that holds the active-sessions heading |
| SessionStart.CountInTable | claudex/templates/project/hooks/session-start.py:131-143 | inside the table, the loop counts the rows before the table's end |
| SessionStart.CountBeforeTable | claudex/templates/project/hooks/session-start.py:129-143 | the loop's count equals the rows after the first heading and before the next other "##" line |
| SessionStart.ParallelReport | claudex/templates/project/hooks/session-start.py:121-150 | a message iff the file does not say there are no parallel sessions and the table has rows; the message gives their number |
| SessionStart.Extra | claudex/templates/project/hooks/session-start.py:167-171 | the queue and parallel status lines that are not empty, at most two, and none exactly when both are empty |
| SessionStart.Merge | claudex/templates/project/hooks/session-start.py:167-178 | without extra lines the message is unchanged; a non-empty message becomes itself, "\n\n" and the extra lines joined by "\n"; an absent or empty message is replaced by the joined lines |
| SessionStart.MergeKeepsMessage | claudex/templates/project/hooks/session-start.py:173-176 | an existing message stays at the head of the merged one |
| SessionStart.Main | claudex/templates/project/hooks/session-start.py:155-182 | the output reports an active session exactly when the task file exists, recommends starting exactly when it does not, and always carries a message |
| SessionStart.MainMessage | claudex/templates/project/hooks/session-start.py:155-182 | the user always gets a message: the session state's message, followed, when there are status lines, by "\n\n" and the queue and parallel lines joined by "\n" |

## Left out

- File and directory I/O, `shutil.copy2`, permissions and symlinks. Trees, snapshots and file contents are values, and `Path.resolve()` is lexical `..` removal.
- The parsers `tomllib`, `json` and `yaml.safe_load`. Their results are taken as parsed records; a failed parse is "no data".
- Clocks. Lock-file mtimes are naturals, file ages are reals, the dates and times written into logs are parameters, and the text that `:.0f`/`:.1f` formatting makes of an age is an input.
- Python `str.lower()` is modelled on ASCII letters only, and `\d` only on ASCII digits.
- `splitlines()` breaks only at the line separators `Strs.SplitLines` lists.
- Printing, argparse, `main` of the CLI, `cmd_info`, `cmd_presets`, `list_presets` and `_confirm_init`. The user's answer to the prompt is an input of `Cli.Init`.
- `load_preset`'s preset-file lookup and `sys.exit`. The model starts from the file's lines.
- `_init_claude_md`, `_init_project_files` and `_init_multi_agent_files`, which only sequence writes of the modelled operations.
- `cmd_update`, which is `copy_tree` in update mode.
- `setup_global`, which is home-directory I/O.
- `patch_layer_config`: it is not defined in claudex/copier.py, so there is nothing to model.
- token-budget.py, whose cost logic is floating point.
- stop-lint-check.py, which runs subprocesses.
- pre-compact.py and session-end.py, which append timestamps.
- `get_project_root`, which walks the working directory.
- `print` of the size warning to stderr. It is returned as `Outcome.warning`.
- The session-age warning of pre-tool-use.py (lines 96-109). It only prints to stderr.
- SessionStart.TaskName: `split("\n")` never yields an empty list, so the source's "Unknown" alternative on line 50 is unreachable and not modelled.
- SessionStart.CheckSessionState: `age_hours` (rounded to a tenth) is not part of the result, because `main` never outputs it.
- SessionStart.TaskNameRoundTrip: the description may not contain '#' at all. This is stronger than necessary but keeps the proof local.
- Compiler.CompileRoles: a role without `id` raises KeyError in the source. The model ends the run with `created == None`, keeping the files written before it.
- Detectors.DetectLanguage: a project with neither manifest nor source files keeps the profile's default language, modelled as `Unset`.
- StrRepr: characters above U+00FF that Python counts as non-printable are written as they are, not as `\uNNNN` or `\UNNNNNNNN` escapes, because Python's table of printable characters is not modelled.
- LogViolationNextId: assumes the new entry's text after its heading (date, path, message, tags) holds no "### V"; a message holding one would add a further id to the log.
- LogAllNextId: makes the same assumption for every logged violation.
- LogAll: its own contract states only the prefix and the growth; the messages and the ids of the appended entries are stated by LogAllCarriesMessages and LogAllNextId.
- LayerViolations: its own contract states only the kind and the out-of-layer case; which violations appear is stated by LayerViolationsSound, LayerViolationsComplete, LayerViolationsSplit and LayerViolationsOne.
- PlaceholdersBoth: covers the layout of the shipped hook, the dirs placeholder line before the extensions placeholder line, each occurring once. It requires that the text after the dirs swap still holds the extensions placeholder only at its place, so a rendered dirs line that itself held that placeholder is not covered; the second `replace` would rewrite it too. PatchLintHookBoth and FromPresetBoth make the same assumption.
- PatchPlaceholders: its own contract states only when the text is unchanged; the replacement itself is stated by PlaceholdersBoth.
- PatchLintHook: its own contract states only when the hook is unchanged; the replacement is stated by PatchLintHookBoth.
- PatchLintHookFromPreset: its own contract states only when the hook is unchanged; the replacement is stated by FromPresetBoth.
- WalkItemsGood: states containment and naming only; content and completeness of the walk are stated by WalkContent and WalkComplete.
- CopyTree: its own contract states the dry run and containment; the content at each destination is stated by CopyTreeCopiesKept.
- CopyTreeCopiesKept: requires that no other entry of the tree reaches the same destination with different content; when one does, the later entry in walk order wins (CollidingOverwrite).
- TreeLinesOf: its own contract states the line shape; which lines appear is stated by TreeLinesOfShown, and their order by TreeLinesTwoLevel.

## Findings

| source | as written | input that shows it | evidently intended | confidence | as-written member | corrected member |
|---|---|---|---|---|---|---|
| claudex/cli.py:56-60 | a `key: \|` line opens a new block without storing the block still open, so the earlier block's value is lost | the lines `a: \|`, `  x`, `b: \|`, `  y` load as `{"b": "y"}` | store the open block before opening the next, giving `{"a": "x", "b": "y"}` | not executed | Cli.ConsecutiveBlocksLoseFirst | Cli.PresetTextRoundTrip |
