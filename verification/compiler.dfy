/**
 * The agent-file compiler of claudex/compiler.py: each role of an implementer or verifier
 * registry becomes one `{id}.md` file rendered from a fixed template. The registry arrives
 * already parsed (the YAML reading is not modelled); a role is a record whose optional fields
 * are `None` when the key is absent and whose list fields are empty when the key is absent.
 */
module Compiler {
  import opened Wrappers
  import opened Strs

  datatype Role = Role(
    id: Option<string>,
    name: Option<string>,
    description: Option<string>,
    focus: seq<string>,
    filesOwned: seq<string>,
    mustNotTouch: seq<string>,
    checks: seq<string>,
    output: Option<string>,
    blocksMergeOn: Option<string>)

  /** A registry file: absent, or present with its `roles` list (empty when the key is missing). */
  datatype Registry = Absent | Loaded(roles: seq<Role>)

  /** Which of the two compilers, and so which template. */
  datatype Kind = Implementer | Verifier

  datatype AgentFile = AgentFile(fileName: string, content: string)

  /**
   * What a compiler run leaves behind: the files written, in order, and the returned list of
   * file names, or `None` when a role without `id` raised before the run finished.
   */
  datatype Run = Run(written: seq<AgentFile>, created: Option<seq<string>>)

  // ---------------------------------------------------------------------------------------
  // Field defaults

  /** `role.get("name", role_id)`. */
  function RoleName(r: Role): string
    requires r.id.Some?
  {
    r.name.GetOr(r.id.value)
  }

  function Description(r: Role): string {
    r.description.GetOr("")
  }

  const DefaultOutput := "verification/report.md"
  const DefaultBlocking := "critical"

  function OutputPath(r: Role): string {
    r.output.GetOr(DefaultOutput)
  }

  function Blocking(r: Role): string {
    r.blocksMergeOn.GetOr(DefaultBlocking)
  }

  // ---------------------------------------------------------------------------------------
  // Lists

  /** One line `pre + item + post` per item. */
  function BulletLines(items: seq<string>, pre: string, post: string): (r: seq<string>)
    ensures |r| == |items|
  {
    if |items| == 0 then [] else [pre + items[0] + post] + BulletLines(items[1..], pre, post)
  }

  /** The bullets joined by newlines, or the fallback line for an empty list. */
  function ListText(items: seq<string>, pre: string, post: string, fallback: string): string {
    if |items| == 0 then fallback else Join(BulletLines(items, pre, post), "\n")
  }

  const SeeClaudeMd := "- " + "See CLAUDE.md"
  const ProjectDependent := "- Project-dependent"
  const NoneSpecified := "- None specified"
  const SeeGuidelines := "- " + "See project guidelines"

  function FocusList(r: Role): string { ListText(r.focus, "- ", "", SeeClaudeMd) }
  function OwnedList(r: Role): string { ListText(r.filesOwned, "- `", "`", ProjectDependent) }
  function ForbiddenList(r: Role): string { ListText(r.mustNotTouch, "- `", "`", NoneSpecified) }
  function ChecksList(r: Role): string { ListText(r.checks, "- ", "", SeeGuidelines) }

  /** The text of a bullet line between its prefix and suffix. */
  function Unwrap(line: string, pre: string, post: string): string {
    if |pre| + |post| <= |line| then line[|pre|..|line| - |post|] else line
  }

  /** Reading a rendered list back: the lines, each with its bullet decoration removed. */
  function ReadBullets(lines: seq<string>, pre: string, post: string): (r: seq<string>)
    ensures |r| == |lines|
  {
    if |lines| == 0 then [] else [Unwrap(lines[0], pre, post)] + ReadBullets(lines[1..], pre, post)
  }

  lemma {:induction false} ReadBulletLines(items: seq<string>, pre: string, post: string)
    ensures ReadBullets(BulletLines(items, pre, post), pre, post) == items
    decreases |items|
  {
    if |items| > 0 {
      var l := pre + items[0] + post;
      assert l[|pre|..|l| - |post|] == items[0];
      ReadBulletLines(items[1..], pre, post);
      assert BulletLines(items, pre, post)[1..] == BulletLines(items[1..], pre, post);
    }
  }

  lemma BulletNoBreak(item: string, pre: string, post: string)
    requires NoLineBreak(item) && NoLineBreak(pre) && NoLineBreak(post)
    ensures NoLineBreak(pre + item + post)
  {
    var l := pre + item + post;
    forall k | 0 <= k < |l| ensures l[k] !in LineBreaks {
      if k < |pre| {
        assert l[k] == pre[k];
      } else if k < |pre| + |item| {
        assert l[k] == item[k - |pre|];
      } else {
        assert l[k] == post[k - |pre| - |item|];
      }
    }
  }

  /**
   * A non-empty list of single-line items survives rendering: splitting the text into lines and
   * removing each bullet's decoration gives back the items, one bullet per item, in order.
   */
  lemma BulletListRoundTrip(items: seq<string>, pre: string, post: string, fallback: string)
    requires |items| > 0 && |pre| > 0
    requires NoLineBreak(pre) && NoLineBreak(post)
    requires forall k | 0 <= k < |items| :: NoLineBreak(items[k])
    ensures ReadBullets(SplitLines(ListText(items, pre, post, fallback)), pre, post) == items
  {
    var lines := BulletLines(items, pre, post);
    forall k | 0 <= k < |lines| ensures NoLineBreak(lines[k]) && lines[k] == pre + items[k] + post {
      BulletAt(items, pre, post, k);
      BulletNoBreak(items[k], pre, post);
    }
    SplitLinesJoin(lines);
    ReadBulletLines(items, pre, post);
  }

  lemma {:induction false} BulletAt(items: seq<string>, pre: string, post: string, k: nat)
    requires k < |items|
    ensures BulletLines(items, pre, post)[k] == pre + items[k] + post
    decreases k
  {
    if k > 0 {
      BulletAt(items[1..], pre, post, k - 1);
    }
  }

  /** An empty list reads like the one-item list naming its fallback. */
  lemma EmptyListIsFallbackItem(r: Role)
    ensures |r.focus| == 0 ==> FocusList(r) == FocusList(r.(focus := ["See CLAUDE.md"]))
    ensures |r.checks| == 0 ==> ChecksList(r) == ChecksList(r.(checks := ["See project guidelines"]))
  {
    SingleBullet("See CLAUDE.md", "- ", "", SeeClaudeMd);
    SingleBullet("See project guidelines", "- ", "", SeeGuidelines);
  }

  lemma SingleBullet(item: string, pre: string, post: string, fallback: string)
    ensures ListText([item], pre, post, fallback) == pre + item + post
  {
    assert BulletLines([item], pre, post) == [pre + item + post];
  }

  // ---------------------------------------------------------------------------------------
  // Templates

  /**
   * The fixed prose of the implementer template, piece by piece: the text before the name, before
   * the description, before each of the three lists, and after the last one.
   */
  datatype ImplementerProse = ImplementerProse(
    beforeName: string, beforeDescription: string, beforeFocus: string,
    beforeOwned: string, beforeForbidden: string, closing: string)

  /**
   * The fixed prose of the verifier template: the text before the name, the description, the
   * checks and the output path, before the name again in the report heading, before the
   * blocking sentence, and after it.
   */
  datatype VerifierProse = VerifierProse(
    beforeName: string, beforeDescription: string, beforeChecks: string, beforeOutput: string,
    beforeReportName: string, beforeBlocking: string, closing: string)

  datatype Templates = Templates(implementer: ImplementerProse, verifier: VerifierProse)

  const Dash := "\U{2014}"

  /** `_IMPLEMENTER_TEMPLATE` and `_VERIFIER_TEMPLATE`, cut at their placeholders. */
  const Shipped := Templates(
    ImplementerProse(
      "\nYou are the **",
      "** " + Dash + " a specialist implementer "
      + "for this project.\n\n## Your Responsibility\n\n",
      "\n\n## Focus Areas\n\n",
      "\n\n## Files You Own\n\n",
      "\n\n## Files You Must NOT Touch\n\n",
      "\n\n## Working Style\n\n"
      + "- Follow the project's CLAUDE.md "
      + "architecture rules at all times\n"
      + "- Write tests for all code you "
      + "implement (see TESTING_GUIDELINES.md)\n"
      + "- Keep files \U{2264}300 lines "
      + "(hard limit: 500 lines)\n"
      + "- Run lint and format before "
      + "signaling completion\n"
      + "- Update `.claude/session/"
      + "TASK_PROGRESS.md` when done\n"
      + "- Use `/context-handoff` to hand back "
      + "to the orchestrator when complete\n"
      + "\n## Done Signal\n\n"
      + "When your work is complete, output:\n\n"
      + "```\nDONE: [brief summary of "
      + "what was implemented]\n"
      + "Files changed: [list]\n"
      + "Tests: [pass/fail count]\n```\n"),
    VerifierProse(
      "\nYou are the **",
      "** " + Dash + " you run AFTER implementers "
      + "complete to validate the work.\n\n"
      + "## Your Responsibility\n\n",
      "\n\n## What to Check\n\n",
      "\n\n## Output\n\nWrite your findings to ",
      ".\n\nUse this format:\n\n```markdown\n# ",
      " Report\n_Checked: [date]_\n\n"
      + "## Summary\n"
      + "[PASS / FAIL with one-line explanation]\n\n"
      + "## Issues Found\n\n"
      + "### Critical\n"
      + "- [file:line] [description]\n\n"
      + "### Warnings\n"
      + "- [file:line] [description]\n\n"
      + "## Verdict\n"
      + "[MERGE_READY / NEEDS_FIXES / "
      + "BLOCK_MERGE]\n```\n\n"
      + "## Blocking Criteria\n\n",
      "\n\nIf you find blocking issues, recommend "
      + "routing back to the relevant implementer.\n"))

  /** Where the verifier writes, as the template quotes it. */
  function OutputRef(output: string): string {
    "`" + output + "`"
  }

  /** The template's blocking sentence. */
  function BlockingRule(blocking: string): string {
    "**Blocks merge on**: " + blocking + " issues."
  }

  /** The first line of every agent file. */
  function Title(name: string): string {
    "# " + name + "\n"
  }

  /** `_IMPLEMENTER_TEMPLATE.format(...)`. */
  function ImplementerText(p: ImplementerProse, name: string, description: string, focus: string, owned: string, forbidden: string): string {
    Title(name) + ImplementerBody(p, name, description, focus, owned, forbidden)
  }

  function ImplementerBody(p: ImplementerProse, name: string, description: string, focus: string, owned: string, forbidden: string): string {
    p.beforeName + name + p.beforeDescription + description + p.beforeFocus + focus
    + p.beforeOwned + owned + p.beforeForbidden + forbidden + p.closing
  }

  /** `_VERIFIER_TEMPLATE.format(...)`: the name appears in the title, the introduction and the report heading. */
  function VerifierText(p: VerifierProse, name: string, description: string, checks: string, output: string, blocking: string): string {
    Title(name) + VerifierBody(p, name, description, checks, output, blocking)
  }

  function VerifierBody(p: VerifierProse, name: string, description: string, checks: string, output: string, blocking: string): string {
    VerifierIntro(p, name, description, checks) + OutputRef(output) + VerifierTail(p, name, blocking)
  }

  function VerifierIntro(p: VerifierProse, name: string, description: string, checks: string): string {
    p.beforeName + name + p.beforeDescription + description + p.beforeChecks + checks + p.beforeOutput
  }

  function VerifierTail(p: VerifierProse, name: string, blocking: string): string {
    p.beforeReportName + name + p.beforeBlocking + BlockingRule(blocking) + p.closing
  }

  /** The file a role renders to. */
  function Render(t: Templates, kind: Kind, r: Role): (content: string)
    requires r.id.Some?
  {
    var name := RoleName(r);
    var c :=
      match kind
      case Implementer => ImplementerText(t.implementer, name, Description(r), FocusList(r), OwnedList(r), ForbiddenList(r))
      case Verifier => VerifierText(t.verifier, name, Description(r), ChecksList(r), OutputPath(r), Blocking(r));
    c
  }

  /** Every agent file begins with the role's name as its title, whatever the template's prose. */
  lemma RenderTitle(t: Templates, kind: Kind, r: Role)
    requires r.id.Some?
    ensures StartsWith(Render(t, kind, r), "# " + RoleName(r) + "\n")
  {
    var name := RoleName(r);
    var title := Title(name);
    var body := match kind
      case Implementer => ImplementerBody(t.implementer, name, Description(r), FocusList(r), OwnedList(r), ForbiddenList(r))
      case Verifier => VerifierBody(t.verifier, name, Description(r), ChecksList(r), OutputPath(r), Blocking(r));
    assert Render(t, kind, r) == title + body;
    assert (title + body)[..|title|] == title;
  }

  /**
   * Absent fields render exactly as if the role spelled out their defaults: the id for the name,
   * "" for the description, `verification/report.md` for the output, `critical` for blocking.
   */
  lemma DefaultsAreExplicit(t: Templates, kind: Kind, r: Role)
    requires r.id.Some?
    ensures Render(t, kind, r) == Render(t, kind, r.(
      name := Some(RoleName(r)), description := Some(Description(r)),
      output := Some(OutputPath(r)), blocksMergeOn := Some(Blocking(r))))
  {
  }

  /** A verifier's file quotes its output path, the default one when the role gives none. */
  lemma VerifierOutput(t: Templates, r: Role)
    requires r.id.Some?
    ensures Contains(Render(t, Verifier, r), OutputRef(OutputPath(r)))
    ensures r.output.None? ==> Contains(Render(t, Verifier, r), OutputRef(DefaultOutput))
  {
    var name, o := RoleName(r), OutputRef(OutputPath(r));
    var intro := VerifierIntro(t.verifier, name, Description(r), ChecksList(r));
    var tail := VerifierTail(t.verifier, name, Blocking(r));
    Embedded(intro, o, tail);
    ContainsRight(Title(name), intro + o + tail, o);
  }

  /** A verifier's file states its blocking level, `critical` when the role gives none. */
  lemma VerifierBlocking(t: Templates, r: Role)
    requires r.id.Some?
    ensures Contains(Render(t, Verifier, r), BlockingRule(Blocking(r)))
    ensures r.blocksMergeOn.None? ==> Contains(Render(t, Verifier, r), BlockingRule(DefaultBlocking))
  {
    var p, name, u := t.verifier, RoleName(r), BlockingRule(Blocking(r));
    var intro, o := VerifierIntro(p, name, Description(r), ChecksList(r)), OutputRef(OutputPath(r));
    var tail := VerifierTail(p, name, Blocking(r));
    Embedded(p.beforeReportName + name + p.beforeBlocking, u, p.closing);
    ContainsRight(intro + o, tail, u);
    ContainsRight(Title(name), intro + o + tail, u);
  }

  lemma Embedded(a: string, t: string, b: string)
    ensures Contains(a + t + b, t)
  {
    assert (a + t + b)[|a|..|a| + |t|] == t;
    assert OccursAt(a + t + b, t, |a|);
  }

  // ---------------------------------------------------------------------------------------
  // compile_implementer_agents, compile_verifier_agents

  /** How far the loop gets: the number of leading roles that have an `id`. */
  function IdPrefix(roles: seq<Role>): (n: nat)
    ensures n <= |roles|
    ensures forall i | 0 <= i < n :: roles[i].id.Some?
    ensures n < |roles| ==> roles[n].id.None?
  {
    if |roles| == 0 || roles[0].id.None? then 0 else 1 + IdPrefix(roles[1..])
  }

  /** The file written for each of the given roles, in order. */
  function Files(t: Templates, kind: Kind, roles: seq<Role>): (fs: seq<AgentFile>)
    requires forall i | 0 <= i < |roles| :: roles[i].id.Some?
  {
    seq(|roles|, i requires 0 <= i < |roles| => AgentFile(roles[i].id.value + ".md", Render(t, kind, roles[i])))
  }

  /** The loop over the roles: one file per role, in order, until a role without `id` raises. */
  function CompileRoles(t: Templates, kind: Kind, roles: seq<Role>): (run: Run)
    ensures run.created.Some? <==> forall i | 0 <= i < |roles| :: roles[i].id.Some?
    ensures run.created.Some? ==> |run.written| == |roles| && run.created.value == FileNames(run.written)
    ensures run.created.None? ==>
      |run.written| < |roles| && roles[|run.written|].id.None?
      && forall i | 0 <= i < |run.written| :: roles[i].id.Some?
    ensures forall i | 0 <= i < |run.written| ::
      roles[i].id.Some? && run.written[i] == AgentFile(roles[i].id.value + ".md", Render(t, kind, roles[i]))
  {
    var n := IdPrefix(roles);
    var written := Files(t, kind, roles[..n]);
    Run(written, if n == |roles| then Some(FileNames(written)) else None)
  }

  function FileNames(fs: seq<AgentFile>): (names: seq<string>)
    ensures |names| == |fs| && forall i | 0 <= i < |fs| :: names[i] == fs[i].fileName
  {
    if |fs| == 0 then [] else [fs[0].fileName] + FileNames(fs[1..])
  }

  /** A compiler: nothing when the registry file is missing, else the roles compiled in order. */
  function Compile(t: Templates, kind: Kind, registry: Registry): (run: Run)
    ensures registry.Absent? ==> run == Run([], Some([]))
    ensures registry.Loaded? ==> |run.written| <= |registry.roles|
    ensures registry.Loaded? ==> run == CompileRoles(t, kind, registry.roles)
    ensures registry.Loaded? ==> (run.created.Some? <==> forall i | 0 <= i < |registry.roles| :: registry.roles[i].id.Some?)
  {
    match registry
    case Absent => Run([], Some([]))
    case Loaded(roles) => CompileRoles(t, kind, roles)
  }

  /** Every file a run writes is named after its role's id and starts with the role's title. */
  lemma CompiledFilesTitled(t: Templates, kind: Kind, registry: Registry)
    ensures forall i | 0 <= i < |Compile(t, kind, registry).written| ::
      registry.Loaded? && registry.roles[i].id.Some?
      && EndsWith(Compile(t, kind, registry).written[i].fileName, ".md")
      && StartsWith(Compile(t, kind, registry).written[i].content, "# " + RoleName(registry.roles[i]) + "\n")
  {
    var run := Compile(t, kind, registry);
    forall i | 0 <= i < |run.written|
      ensures registry.Loaded? && registry.roles[i].id.Some?
        && EndsWith(run.written[i].fileName, ".md")
        && StartsWith(run.written[i].content, "# " + RoleName(registry.roles[i]) + "\n")
    {
      var n := registry.roles[i].id.value + ".md";
      assert n[|n| - 3..] == ".md";
      RenderTitle(t, kind, registry.roles[i]);
    }
  }

  /** Every verifier file a run writes quotes its role's output path and states its blocking level. */
  lemma CompiledVerifiersReport(t: Templates, registry: Registry)
    ensures forall i | 0 <= i < |Compile(t, Verifier, registry).written| ::
      registry.Loaded? && registry.roles[i].id.Some?
      && Contains(Compile(t, Verifier, registry).written[i].content, OutputRef(OutputPath(registry.roles[i])))
      && Contains(Compile(t, Verifier, registry).written[i].content, BlockingRule(Blocking(registry.roles[i])))
  {
    var run := Compile(t, Verifier, registry);
    forall i | 0 <= i < |run.written|
      ensures registry.Loaded? && registry.roles[i].id.Some?
        && Contains(run.written[i].content, OutputRef(OutputPath(registry.roles[i])))
        && Contains(run.written[i].content, BlockingRule(Blocking(registry.roles[i])))
    {
      VerifierOutput(t, registry.roles[i]);
      VerifierBlocking(t, registry.roles[i]);
    }
  }

  /**
   * `compile_implementer_agents` and `compile_verifier_agents`: the shipped templates over the
   * registry's roles. Every lemma above holds for any template prose, so in particular for these.
   */
  function CompileAgents(kind: Kind, registry: Registry): Run {
    Compile(Shipped, kind, registry)
  }
}
