/**
 * The post-tool-use hook (claudex/templates/project/hooks/post-tool-use.py): after a write it
 * looks for layer and secret violations, logs each one with the next free `V<n>` id, and records
 * the touched file in the session summary. File reads and writes, the clock and stdin/stdout are
 * not modelled: file contents are inputs and results, and timestamps are parameters.
 */
module PostToolUse {
  import opened Wrappers
  import opened Strs
  import PreToolUse
  import PurePaths

  datatype Kind = Architecture | Security
  datatype Severity = Critical | High

  datatype Violation = Violation(kind: Kind, severity: Severity, message: string)

  /** One `LAYER_RULES` entry: a layer path with its forbidden libraries and import patterns. */
  datatype LayerRule = LayerRule(layer: string, forbiddenImports: seq<string>, noImportFrom: seq<string>)

  /** `LAYER_RULES` as shipped: no entries. */
  const ShippedLayerRules: seq<LayerRule> := []

  const SecretPatterns: seq<string> := ["api_key=", "password=", "secret=", "token="]

  // ---------------------------------------------------------------------------------------
  // check_for_violations

  function ImportMessage(layer: string, lib: string): string {
    "Layer '" + layer + "' imports forbidden library '" + lib + "'."
  }

  function PatternMessage(layer: string, pattern: string): string {
    "Layer '" + layer + "' has forbidden import pattern: '" + pattern + "'."
  }

  function SecretMessage(pattern: string): string {
    "Possible hardcoded secret detected ('" + pattern + "'). Use environment variables."
  }

  predicate Imports(content: string, lib: string) {
    Contains(content, "import " + lib) || Contains(content, "from " + lib)
  }

  /** Reading the environment anywhere in the content silences the secret check. */
  predicate ReadsEnvironment(content: string) {
    Contains(content, "os.getenv") || Contains(content, "os.environ")
  }

  /**
   * The three loops of `check_for_violations` share one shape: walk a list in order and report
   * one violation for each entry found in the content. A scan says what "found" means and what
   * violation is reported.
   */
  datatype Scan = ImportScan(layer: string, content: string)
                | PatternScan(layer: string, content: string)
                | SecretScan(content: string)

  predicate Found(sc: Scan, x: string) {
    match sc
    case ImportScan(_, c) => Imports(c, x)
    case PatternScan(_, c) => Contains(c, x)
    case SecretScan(c) => Contains(Lower(c), x) && !ReadsEnvironment(c)
  }

  function Make(sc: Scan, x: string): Violation {
    match sc
    case ImportScan(layer, _) => Violation(Architecture, Critical, ImportMessage(layer, x))
    case PatternScan(layer, _) => Violation(Architecture, High, PatternMessage(layer, x))
    case SecretScan(_) => Violation(Security, Critical, SecretMessage(x))
  }

  /** Whether each entry of `xs` is found, position by position. */
  function Flags(sc: Scan, xs: seq<string>): (f: seq<bool>)
    ensures |f| == |xs| && forall j | 0 <= j < |xs| :: f[j] == Found(sc, xs[j])
  {
    if |xs| == 0 then []
    else
      assert forall j | 1 <= j < |xs| :: xs[1..][j - 1] == xs[j];
      [Found(sc, xs[0])] + Flags(sc, xs[1..])
  }

  /** The violation each entry of `xs` would report, position by position. */
  function Candidates(sc: Scan, xs: seq<string>): (m: seq<Violation>)
    ensures |m| == |xs| && forall j | 0 <= j < |xs| :: m[j] == Make(sc, xs[j])
  {
    if |xs| == 0 then []
    else
      assert forall j | 1 <= j < |xs| :: xs[1..][j - 1] == xs[j];
      [Make(sc, xs[0])] + Candidates(sc, xs[1..])
  }

  /**
   * `vs` holds `made[j]` for exactly the positions `j` where `found[j]`, one per position, in
   * position order: `idx` lists those positions in increasing order.
   */
  ghost predicate Picks(found: seq<bool>, made: seq<Violation>, vs: seq<Violation>, idx: seq<nat>)
    requires |found| == |made|
  {
    && |idx| == |vs|
    && (forall a, b | 0 <= a < b < |idx| :: idx[a] < idx[b])
    && (forall k | 0 <= k < |idx| :: idx[k] < |found| && found[idx[k]] && vs[k] == made[idx[k]])
    && (forall j | 0 <= j < |found| && found[j] :: j in idx)
  }

  /** `vs` reports exactly the entries of `xs` the scan finds, one violation per position, in list order. */
  ghost predicate ReportsFound(sc: Scan, xs: seq<string>, vs: seq<Violation>) {
    exists idx :: Picks(Flags(sc, xs), Candidates(sc, xs), vs, idx)
  }

  /** What one entry contributes. */
  function Hit(sc: Scan, x: string): seq<Violation> {
    if Found(sc, x) then [Make(sc, x)] else []
  }

  /** The loop itself. */
  function Scanned(sc: Scan, xs: seq<string>): (vs: seq<Violation>)
    ensures |vs| <= |xs|
    ensures ReportsFound(sc, xs, vs)
    ensures (forall j | 0 <= j < |xs| :: !Found(sc, xs[j])) ==> vs == []
  {
    if |xs| == 0 then
      assert Picks(Flags(sc, xs), Candidates(sc, xs), [], []);
      []
    else
      var rest := Scanned(sc, xs[1..]);
      assert forall j | 1 <= j < |xs| :: xs[1..][j - 1] == xs[j];
      ScannedCons(sc, xs, rest);
      Hit(sc, xs[0]) + rest
  }

  lemma ScannedCons(sc: Scan, xs: seq<string>, rest: seq<Violation>)
    requires |xs| > 0 && ReportsFound(sc, xs[1..], rest)
    ensures ReportsFound(sc, xs, Hit(sc, xs[0]) + rest)
  {
    var found, made := Flags(sc, xs[1..]), Candidates(sc, xs[1..]);
    var ridx :| Picks(found, made, rest, ridx);
    PicksCons(Found(sc, xs[0]), Make(sc, xs[0]), found, made, rest, ridx);
    assert Flags(sc, xs) == [Found(sc, xs[0])] + found;
    assert Candidates(sc, xs) == [Make(sc, xs[0])] + made;
  }

  /** The positions of the tail, one further along. */
  function Shift(idx: seq<nat>): (r: seq<nat>)
    ensures |r| == |idx|
    ensures forall k | 0 <= k < |idx| :: r[k] == idx[k] + 1
  {
    seq(|idx|, k requires 0 <= k < |idx| => idx[k] + 1)
  }

  /** One more entry in front: reported first when found, and every later position moves up by one. */
  lemma PicksCons(f: bool, m: Violation, found: seq<bool>, made: seq<Violation>, rest: seq<Violation>, ridx: seq<nat>)
    requires |found| == |made| && Picks(found, made, rest, ridx)
    ensures Picks([f] + found, [m] + made, (if f then [m] else []) + rest, (if f then [0] else []) + Shift(ridx))
  {
    var lead: seq<nat> := if f then [0] else [];
    ShiftedOrder(lead, ridx);
    ShiftedElems(f, m, found, made, rest, ridx);
    ShiftedCovers(f, found, ridx);
  }

  lemma ShiftedOrder(lead: seq<nat>, ridx: seq<nat>)
    requires lead == [] || lead == [0]
    requires forall a, b | 0 <= a < b < |ridx| :: ridx[a] < ridx[b]
    ensures var idx := lead + Shift(ridx);
      forall a, b | 0 <= a < b < |idx| :: idx[a] < idx[b]
  {
    var idx := lead + Shift(ridx);
    var l := |lead|;
    forall a, b | 0 <= a < b < |idx| ensures idx[a] < idx[b] {
      assert idx[b] == ridx[b - l] + 1;
      if a >= l {
        assert idx[a] == ridx[a - l] + 1;
      }
    }
  }

  lemma ShiftedElems(f: bool, m: Violation, found: seq<bool>, made: seq<Violation>, rest: seq<Violation>, ridx: seq<nat>)
    requires |found| == |made| && |ridx| == |rest|
    requires forall k | 0 <= k < |ridx| :: ridx[k] < |found| && found[ridx[k]] && rest[k] == made[ridx[k]]
    ensures var idx := (if f then [0] else []) + Shift(ridx);
      var vs := (if f then [m] else []) + rest;
      var found', made' := [f] + found, [m] + made;
      forall k | 0 <= k < |idx| :: idx[k] < |found'| && found'[idx[k]] && vs[k] == made'[idx[k]]
  {
    var idx := (if f then [0] else []) + Shift(ridx);
    var vs := (if f then [m] else []) + rest;
    var found', made' := [f] + found, [m] + made;
    var l := if f then 1 else 0;
    forall k | 0 <= k < |idx| ensures idx[k] < |found'| && found'[idx[k]] && vs[k] == made'[idx[k]] {
      if k >= l {
        var i := ridx[k - l];
        assert vs[k] == rest[k - l] && idx[k] == i + 1;
        assert found'[i + 1] == found[i] && made'[i + 1] == made[i];
      }
    }
  }

  lemma ShiftedCovers(f: bool, found: seq<bool>, ridx: seq<nat>)
    requires forall j | 0 <= j < |found| && found[j] :: j in ridx
    ensures var idx := (if f then [0] else []) + Shift(ridx);
      var found' := [f] + found;
      forall j | 0 <= j < |found'| && found'[j] :: j in idx
  {
    var idx := (if f then [0] else []) + Shift(ridx);
    var found' := [f] + found;
    var l := if f then 1 else 0;
    forall j | 0 <= j < |found'| && found'[j] ensures j in idx {
      if j == 0 {
        assert idx[0] == 0;
      } else {
        assert found[j - 1];
        var k :| 0 <= k < |ridx| && ridx[k] == j - 1;
        assert idx[l + k] == j;
      }
    }
  }

  /** Every reported violation is the one for a found position. */
  lemma PicksSound(found: seq<bool>, made: seq<Violation>, vs: seq<Violation>, idx: seq<nat>)
    requires |found| == |made| && Picks(found, made, vs, idx)
    ensures forall v | v in vs :: exists j | 0 <= j < |found| :: found[j] && v == made[j]
  {
    forall v | v in vs ensures exists j | 0 <= j < |found| :: found[j] && v == made[j] {
      var k :| 0 <= k < |vs| && vs[k] == v;
      var j := idx[k];
      assert found[j] && v == made[j];
    }
  }

  /** Every found position is reported. */
  lemma PicksComplete(found: seq<bool>, made: seq<Violation>, vs: seq<Violation>, idx: seq<nat>)
    requires |found| == |made| && Picks(found, made, vs, idx)
    ensures forall j | 0 <= j < |found| && found[j] :: made[j] in vs
  {
    forall j | 0 <= j < |found| && found[j] ensures made[j] in vs {
      var k :| 0 <= k < |idx| && idx[k] == j;
      assert vs[k] == made[j];
    }
  }

  /** A scan's findings, stated on its entries: each violation is the one of a found entry, and
      every found entry has its violation reported. */
  lemma ScanFacts(sc: Scan, xs: seq<string>, vs: seq<Violation>)
    requires ReportsFound(sc, xs, vs)
    ensures forall v | v in vs :: exists j | 0 <= j < |xs| :: Found(sc, xs[j]) && v == Make(sc, xs[j])
    ensures forall j | 0 <= j < |xs| && Found(sc, xs[j]) :: Make(sc, xs[j]) in vs
  {
    var found, made := Flags(sc, xs), Candidates(sc, xs);
    var idx :| Picks(found, made, vs, idx);
    PicksSound(found, made, vs, idx);
    PicksComplete(found, made, vs, idx);
    forall v | v in vs ensures exists j | 0 <= j < |xs| :: Found(sc, xs[j]) && v == Make(sc, xs[j]) {
      var j :| 0 <= j < |found| && found[j] && v == made[j];
      assert Found(sc, xs[j]) && v == Make(sc, xs[j]);
    }
  }

  /** All violations of one scan have the scan's kind and severity. */
  lemma ScanShape(sc: Scan, xs: seq<string>, vs: seq<Violation>)
    requires ReportsFound(sc, xs, vs)
    ensures forall v | v in vs :: v.kind == Make(sc, "").kind && v.severity == Make(sc, "").severity
  {
    ScanFacts(sc, xs, vs);
    forall v | v in vs ensures v.kind == Make(sc, "").kind && v.severity == Make(sc, "").severity {
      var j :| 0 <= j < |xs| && Found(sc, xs[j]) && v == Make(sc, xs[j]);
    }
  }

  /** One CRITICAL violation per forbidden library the content imports, in list order. */
  function ImportViolations(layer: string, libs: seq<string>, content: string): (vs: seq<Violation>)
    ensures ReportsFound(ImportScan(layer, content), libs, vs)
    ensures |vs| <= |libs|
    ensures forall k | 0 <= k < |vs| :: vs[k].kind == Architecture && vs[k].severity == Critical
    ensures forall k | 0 <= k < |libs| ::
      Imports(content, libs[k]) ==> Violation(Architecture, Critical, ImportMessage(layer, libs[k])) in vs
  {
    var vs := Scanned(ImportScan(layer, content), libs);
    ScanFacts(ImportScan(layer, content), libs, vs);
    ScanShape(ImportScan(layer, content), libs, vs);
    vs
  }

  /** One HIGH violation per forbidden pattern the content holds, in list order. */
  function PatternViolations(layer: string, patterns: seq<string>, content: string): (vs: seq<Violation>)
    ensures ReportsFound(PatternScan(layer, content), patterns, vs)
    ensures |vs| <= |patterns|
    ensures forall k | 0 <= k < |vs| :: vs[k].kind == Architecture && vs[k].severity == High
    ensures forall k | 0 <= k < |patterns| ::
      Contains(content, patterns[k]) ==> Violation(Architecture, High, PatternMessage(layer, patterns[k])) in vs
  {
    var vs := Scanned(PatternScan(layer, content), patterns);
    ScanFacts(PatternScan(layer, content), patterns, vs);
    ScanShape(PatternScan(layer, content), patterns, vs);
    vs
  }

  /** The secret loop: one CRITICAL Security violation per pattern found in the lowercased content. */
  function SecretViolations(patterns: seq<string>, content: string): (vs: seq<Violation>)
    ensures ReportsFound(SecretScan(content), patterns, vs)
    ensures |vs| <= |patterns|
    ensures ReadsEnvironment(content) ==> vs == []
    ensures forall k | 0 <= k < |vs| :: vs[k].kind == Security && vs[k].severity == Critical
    ensures forall k | 0 <= k < |patterns| ::
      (Contains(Lower(content), patterns[k]) && !ReadsEnvironment(content) ==> Violation(Security, Critical, SecretMessage(patterns[k])) in vs)
  {
    var vs := Scanned(SecretScan(content), patterns);
    ScanFacts(SecretScan(content), patterns, vs);
    ScanShape(SecretScan(content), patterns, vs);
    vs
  }

  /**
   * `f"/{layer_path}" in path_str`. Unlike the pre-tool-use hook, this hook lowercases the path
   * as given and does not parse it with `Path` first.
   */
  predicate InLayer(path: string, layer: string) {
    Contains(PreToolUse.Normalized(path), "/" + layer)
  }

  /** What one layer rule contributes when the path is in its layer. */
  function RuleViolations(r: LayerRule, content: string): (vs: seq<Violation>)
    ensures forall k | 0 <= k < |vs| :: vs[k].kind == Architecture
  {
    var a := ImportViolations(r.layer, r.forbiddenImports, content);
    var b := PatternViolations(r.layer, r.noImportFrom, content);
    AllArchitecture(a, b);
    a + b
  }

  lemma AllArchitecture(a: seq<Violation>, b: seq<Violation>)
    requires forall k | 0 <= k < |a| :: a[k].kind == Architecture
    requires forall k | 0 <= k < |b| :: b[k].kind == Architecture
    ensures forall k | 0 <= k < |a + b| :: (a + b)[k].kind == Architecture
  {
    forall k | 0 <= k < |a + b| ensures (a + b)[k].kind == Architecture {
      if k >= |a| {
        assert (a + b)[k] == b[k - |a|];
      }
    }
  }

  /** The layer loop: rules whose `/layer` occurs in the normalised path contribute their violations. */
  function LayerViolations(rules: seq<LayerRule>, path: string, content: string): (vs: seq<Violation>)
    ensures forall k | 0 <= k < |vs| :: vs[k].kind == Architecture
    ensures (forall i | 0 <= i < |rules| :: !InLayer(path, rules[i].layer)) ==> vs == []
  {
    if |rules| == 0 then []
    else
      var r := rules[0];
      var rest := LayerViolations(rules[1..], path, content);
      assert forall i | 1 <= i < |rules| :: rules[1..][i - 1] == rules[i];
      var here := if InLayer(path, r.layer) then RuleViolations(r, content) else [];
      AllArchitecture(here, rest);
      here + rest
  }

  /** `v` is a violation of a rule whose layer holds the path. */
  ghost predicate FromRule(rules: seq<LayerRule>, path: string, content: string, v: Violation) {
    exists i | 0 <= i < |rules| :: InLayer(path, rules[i].layer) && v in RuleViolations(rules[i], content)
  }

  /** Every layer violation comes from a rule whose layer holds the path. */
  lemma {:induction false} LayerViolationsSound(rules: seq<LayerRule>, path: string, content: string)
    ensures forall v | v in LayerViolations(rules, path, content) :: FromRule(rules, path, content, v)
    decreases |rules|
  {
    if |rules| > 0 {
      var r := rules[0];
      var here := if InLayer(path, r.layer) then RuleViolations(r, content) else [];
      var rest := LayerViolations(rules[1..], path, content);
      assert LayerViolations(rules, path, content) == here + rest;
      LayerViolationsSound(rules[1..], path, content);
      forall v | v in here + rest ensures FromRule(rules, path, content, v) {
        if v in here {
          assert InLayer(path, rules[0].layer) && v in RuleViolations(rules[0], content);
        } else {
          assert FromRule(rules[1..], path, content, v);
          var i :| 0 <= i < |rules[1..]| && InLayer(path, rules[1..][i].layer) && v in RuleViolations(rules[1..][i], content);
          assert rules[1..][i] == rules[i + 1];
        }
      }
    }
  }

  /** Every violation of a rule whose layer holds the path is reported. */
  lemma {:induction false} LayerViolationsComplete(rules: seq<LayerRule>, path: string, content: string)
    ensures forall i, v | 0 <= i < |rules| && InLayer(path, rules[i].layer) && v in RuleViolations(rules[i], content) ::
      v in LayerViolations(rules, path, content)
    decreases |rules|
  {
    if |rules| > 0 {
      var r := rules[0];
      var here := if InLayer(path, r.layer) then RuleViolations(r, content) else [];
      var rest := LayerViolations(rules[1..], path, content);
      assert LayerViolations(rules, path, content) == here + rest;
      LayerViolationsComplete(rules[1..], path, content);
      forall i, v | 0 <= i < |rules| && InLayer(path, rules[i].layer) && v in RuleViolations(rules[i], content)
        ensures v in here + rest
      {
        if i > 0 {
          assert rules[1..][i - 1] == rules[i];
          assert v in rest;
        }
      }
    }
  }

  /**
   * The layer loop works rule by rule in table order: a table split in two reports the first
   * part's violations, then the second's.
   */
  lemma {:induction false} LayerViolationsSplit(r1: seq<LayerRule>, r2: seq<LayerRule>, path: string, content: string)
    ensures LayerViolations(r1 + r2, path, content) == LayerViolations(r1, path, content) + LayerViolations(r2, path, content)
    decreases |r1|
  {
    if |r1| == 0 {
      assert r1 + r2 == r2;
      assert LayerViolations(r1, path, content) == [];
    } else {
      assert (r1 + r2)[1..] == r1[1..] + r2;
      assert (r1 + r2)[0] == r1[0];
      LayerViolationsSplit(r1[1..], r2, path, content);
      LayerViolationsCons(r1 + r2, path, content);
      LayerViolationsCons(r1, path, content);
      Associate(RuleHits(r1[0], path, content), LayerViolations(r1[1..], path, content), LayerViolations(r2, path, content));
    }
  }

  /** What one rule contributes: its import and pattern violations when its layer holds the path. */
  function RuleHits(r: LayerRule, path: string, content: string): seq<Violation> {
    if InLayer(path, r.layer) then RuleViolations(r, content) else []
  }

  /** A single rule reports its imports and patterns when the path is in its layer, and nothing otherwise. */
  lemma LayerViolationsOne(r: LayerRule, path: string, content: string)
    ensures LayerViolations([r], path, content) == (if InLayer(path, r.layer) then RuleViolations(r, content) else [])
  {
    LayerViolationsCons([r], path, content);
    assert [r][1..] == [];
  }

  /** The first rule's violations come first, then the others'. */
  lemma LayerViolationsCons(rules: seq<LayerRule>, path: string, content: string)
    requires |rules| > 0
    ensures LayerViolations(rules, path, content) == RuleHits(rules[0], path, content) + LayerViolations(rules[1..], path, content)
  {
  }

  lemma Associate(x: seq<Violation>, y: seq<Violation>, z: seq<Violation>)
    ensures x + (y + z) == (x + y) + z
  {
  }

  /** `check_for_violations`: the layer rules' violations, then the secret violations. */
  function CheckForViolations(rules: seq<LayerRule>, path: string, content: string): seq<Violation> {
    LayerViolations(rules, path, content) + SecretViolations(SecretPatterns, content)
  }

  /**
   * With the shipped, empty rules only secret violations are possible: exactly one per secret
   * pattern found, in pattern order, all CRITICAL, and none when the content reads the
   * environment.
   */
  lemma ShippedOnlySecrets(path: string, content: string)
    ensures var vs := CheckForViolations(ShippedLayerRules, path, content);
      && ReportsFound(SecretScan(content), SecretPatterns, vs)
      && |vs| <= 4
      && (forall k | 0 <= k < |vs| :: vs[k].kind == Security && vs[k].severity == Critical)
      && (ReadsEnvironment(content) ==> vs == [])
      && (forall k | 0 <= k < 4 :: Contains(Lower(content), SecretPatterns[k]) && !ReadsEnvironment(content) ==>
            Violation(Security, Critical, SecretMessage(SecretPatterns[k])) in vs)
  {
    var vs := SecretViolations(SecretPatterns, content);
    assert CheckForViolations(ShippedLayerRules, path, content) == vs;
  }

  /** Layer rules fire only for paths inside their layer; elsewhere only secrets are reported. */
  lemma LayerRulesNeedLayer(rules: seq<LayerRule>, path: string, content: string)
    requires forall i | 0 <= i < |rules| :: !InLayer(path, rules[i].layer)
    ensures CheckForViolations(rules, path, content) == SecretViolations(SecretPatterns, content)
  {
  }

  // ---------------------------------------------------------------------------------------
  // log_violation: the next id

  /** The end of the run of digits starting at `i`. */
  function DigitRun(s: string, i: nat): (j: nat)
    requires i <= |s|
    ensures i <= j <= |s|
    ensures forall k | i <= k < j :: IsDigit(s[k])
    ensures j == |s| || !IsDigit(s[j])
    decreases |s| - i
  {
    if i < |s| && IsDigit(s[i]) then DigitRun(s, i + 1) else i
  }

  const IdMark := "### V"

  /** `### V` followed by a digit starts at `i`. */
  predicate HitAt(s: string, i: nat) {
    OccursAt(s, IdMark, i) && i + 5 < |s| && IsDigit(s[i + 5])
  }

  /** `re.findall(r"### V(\d+)", s)` from offset `i`, each match converted with `int`. */
  function IdsFrom(s: string, i: nat): seq<nat>
    requires i <= |s|
    decreases |s| - i
  {
    if i == |s| then []
    else if HitAt(s, i) then
      var j := DigitRun(s, i + 5);
      [ParseNat(s[i + 5..j])] + IdsFrom(s, j)
    else IdsFrom(s, i + 1)
  }

  function Ids(s: string): seq<nat> {
    IdsFrom(s, 0)
  }

  function MaxOr0(xs: seq<nat>): (m: nat)
    ensures forall k | 0 <= k < |xs| :: xs[k] <= m
    ensures m == 0 || exists k | 0 <= k < |xs| :: xs[k] == m
  {
    if |xs| == 0 then 0
    else
      var m := MaxOr0(xs[1..]);
      assert forall k | 1 <= k < |xs| :: xs[1..][k - 1] == xs[k];
      if xs[0] > m then xs[0] else m
  }

  /** `max(ids, default=0) + 1`. */
  function NextId(log: string): (n: nat)
    ensures n >= 1
    ensures forall k | 0 <= k < |Ids(log)| :: Ids(log)[k] < n
    ensures n == 1 <==> forall k | 0 <= k < |Ids(log)| :: Ids(log)[k] == 0
    ensures n > 1 ==> exists k | 0 <= k < |Ids(log)| :: Ids(log)[k] == n - 1
  {
    MaxOr0(Ids(log)) + 1
  }

  /** Left-pads with zeros to width `w`: `f"{n:0{w}d}"` on the decimal digits. */
  function ZeroPad(s: string, w: nat): (r: string)
    ensures |r| == if |s| >= w then |s| else w
    ensures AllDigits(s) ==> AllDigits(r) && ParseNat(r) == ParseNat(s)
    decreases w - |s|
  {
    if |s| >= w then s
    else
      var r := ZeroPad("0" + s, w);
      assert AllDigits(s) ==> ParseNat("0" + s) == ParseNat(s) by {
        if AllDigits(s) {
          ParseNatLeadingZero(s);
        }
      }
      r
  }

  /** `f"{n:03d}"`. */
  function Id3(n: nat): (s: string)
    ensures |s| >= 3 && AllDigits(s)
    ensures ParseNat(s) == n
  {
    ParseNatToString(n);
    ZeroPad(NatToString(n), 3)
  }

  /** An id heading written by the hook reads back as the same id when the log is next scanned. */
  lemma HeadingReadsBack(n: nat, rest: string)
    requires rest == "" || !IsDigit(rest[0])
    ensures var h := IdMark + Id3(n);
      Ids(h + rest) == [n] + IdsFrom(h + rest, |h|)
  {
    var d := Id3(n);
    var h := IdMark + d;
    var s := h + rest;
    assert s[..5] == IdMark;
    assert OccursAt(s, IdMark, 0);
    assert s[5] == d[0];
    assert HitAt(s, 0);
    DigitRunOver(s, 5, |h|);
    assert s[5..|h|] == d;
  }

  lemma {:induction false} DigitRunOver(s: string, i: nat, j: nat)
    requires i <= j <= |s|
    requires forall k | i <= k < j :: IsDigit(s[k])
    requires j == |s| || !IsDigit(s[j])
    ensures DigitRun(s, i) == j
    decreases j - i
  {
    if i < j {
      DigitRunOver(s, i + 1, j);
    }
  }

  /** Scanning text placed after other text finds what scanning it alone finds. */
  lemma {:induction false} DigitRunShift(a: string, b: string, i: nat)
    requires i <= |b|
    ensures DigitRun(a + b, |a| + i) == |a| + DigitRun(b, i)
    decreases |b| - i
  {
    if i < |b| {
      assert (a + b)[|a| + i] == b[i];
      DigitRunShift(a, b, i + 1);
    }
  }

  lemma HitAtShift(a: string, b: string, i: nat)
    requires i < |b|
    ensures HitAt(a + b, |a| + i) == HitAt(b, i)
  {
    var s := a + b;
    if i + 5 <= |b| {
      assert s[|a| + i..|a| + i + 5] == b[i..i + 5];
    }
    if i + 5 < |b| {
      assert s[|a| + i + 5] == b[i + 5];
    }
  }

  lemma {:induction false} IdsFromShift(a: string, b: string, i: nat)
    requires i <= |b|
    ensures IdsFrom(a + b, |a| + i) == IdsFrom(b, i)
    decreases |b| - i
  {
    var s := a + b;
    if i < |b| {
      HitAtShift(a, b, i);
      if HitAt(b, i) {
        DigitRunShift(a, b, i + 5);
        var j := DigitRun(b, i + 5);
        IdsFromShift(a, b, j);
        ShiftHitStep(a, b, i, j);
      } else {
        IdsFromMiss(s, |a| + i);
        IdsFromMiss(b, i);
        IdsFromShift(a, b, i + 1);
      }
    } else {
      assert |a| + i == |s|;
    }
  }

  lemma ShiftHitStep(a: string, b: string, i: nat, j: nat)
    requires i < |b| && HitAt(b, i) && HitAt(a + b, |a| + i)
    requires j == DigitRun(b, i + 5) && DigitRun(a + b, |a| + i + 5) == |a| + j
    requires IdsFrom(a + b, |a| + j) == IdsFrom(b, j)
    ensures IdsFrom(a + b, |a| + i) == IdsFrom(b, i)
  {
    var x, y := (a + b)[|a| + i + 5..|a| + j], b[i + 5..j];
    assert x == y;
    IdsFromHit(a + b, |a| + i, |a| + j);
    IdsFromHit(b, i, j);
  }

  lemma IdsFromHit(s: string, i: nat, j: nat)
    requires i < |s| && HitAt(s, i) && j == DigitRun(s, i + 5)
    ensures IdsFrom(s, i) == [ParseNat(s[i + 5..j])] + IdsFrom(s, j)
  {
  }

  lemma IdsFromMiss(s: string, i: nat)
    requires i < |s| && !HitAt(s, i)
    ensures IdsFrom(s, i) == IdsFrom(s, i + 1)
  {
  }

  /** A run of digits stops before a non-digit that follows the text. */
  lemma {:induction false} DigitRunPrefix(a: string, b: string, i: nat)
    requires i <= |a| && |b| > 0 && !IsDigit(b[0])
    ensures DigitRun(a + b, i) == DigitRun(a, i)
    decreases |a| - i
  {
    assert (a + b)[|a|] == b[0];
    if i < |a| {
      assert (a + b)[i] == a[i];
      DigitRunPrefix(a, b, i + 1);
    }
  }

  /** No character of an id heading is a line feed. */
  lemma MarkHasNoLineFeed(s: string, i: nat, p: nat)
    requires OccursAt(s, IdMark, i) && i <= p < i + 5
    ensures s[p] != '\n'
  {
    assert s[p] == s[i..i + 5][p - i];
  }

  /**
   * Text that starts with a line feed cannot complete an id heading begun before it, so the ids of
   * the whole are the ids of the first part followed by those found from the join on.
   */
  lemma {:induction false} IdsFromSplit(a: string, b: string, i: nat)
    requires i <= |a| && |b| > 0 && b[0] == '\n'
    ensures IdsFrom(a + b, i) == IdsFrom(a, i) + IdsFrom(a + b, |a|)
    decreases |a| - i
  {
    var s := a + b;
    if i < |a| {
      HitAtPrefix(a, b, i);
      if HitAt(a, i) {
        DigitRunPrefix(a, b, i + 5);
        var j := DigitRun(a, i + 5);
        assert s[i + 5..j] == a[i + 5..j];
        IdsFromSplit(a, b, j);
      } else {
        IdsFromSplit(a, b, i + 1);
      }
    }
  }

  lemma HitAtPrefix(a: string, b: string, i: nat)
    requires i < |a| && |b| > 0 && b[0] == '\n'
    ensures HitAt(a + b, i) == HitAt(a, i)
  {
    var s := a + b;
    assert s[|a|] == '\n';
    if OccursAt(s, IdMark, i) && |a| < i + 5 {
      MarkHasNoLineFeed(s, i, |a|);
    }
    if i + 5 <= |a| {
      assert s[i..i + 5] == a[i..i + 5];
    }
    if i + 5 < |a| {
      assert s[i + 5] == a[i + 5];
    }
  }

  /** Text with no id heading from `i` on has no ids from `i` on. */
  lemma {:induction false} IdsFromNoMark(s: string, i: nat)
    requires i <= |s|
    requires forall p | i <= p < |s| :: !OccursAt(s, IdMark, p)
    ensures IdsFrom(s, i) == []
    decreases |s| - i
  {
    if i < |s| {
      IdsFromNoMark(s, i + 1);
    }
  }

  lemma IdsAppend(a: string, b: string)
    requires |b| > 0 && b[0] == '\n'
    ensures Ids(a + b) == Ids(a) + Ids(b)
  {
    IdsFromSplit(a, b, 0);
    IdsFromShift(a, b, 0);
  }

  lemma {:induction false} MaxOr0Append(xs: seq<nat>, m: nat)
    requires forall k | 0 <= k < |xs| :: xs[k] < m
    ensures MaxOr0(xs + [m]) == m
    decreases |xs|
  {
    if |xs| > 0 {
      assert (xs + [m])[1..] == xs[1..] + [m];
      MaxOr0Append(xs[1..], m);
    } else {
      assert xs + [m] == [m];
    }
  }

  function SeverityText(severity: Severity): string {
    if severity == Critical then "CRITICAL" else "HIGH"
  }

  function KindText(kind: Kind): string {
    if kind == Architecture then "Architecture" else "Security"
  }

  /** The entry's lines between the date and the message. */
  function AfterDate(severity: Severity, kind: Kind, path: string): string {
    " - " + SeverityText(severity) + "\n\n**Type**: " + KindText(kind) + "\n**File**: " + path + "\n\n**What Happened**:\n"
  }

  /** The entry's lines after the message. */
  function AfterMessage(kind: Kind): string {
    "\n\n**Root Cause**:\nAuto-detected by post-tool-use hook\n\n**Tags**: #auto-detected #"
    + ReplaceAll(Lower(KindText(kind)), " ", "-") + "\n"
  }

  /** Everything the entry holds after its id: date, severity, type, file, message and tags. */
  function EntryTail(date: string, severity: Severity, kind: Kind, path: string, message: string): string {
    " - " + date + AfterDate(severity, kind, path) + message + AfterMessage(kind)
  }

  /** The separator line that opens each entry, and the entry's opening with the blank line after it. */
  const Rule := "\n---\n"
  const EntryHead := Rule + "\n"

  /** The entry `log_violation` appends; `date` is the day it is written. */
  function LogEntry(id: nat, date: string, severity: Severity, kind: Kind, path: string, message: string): string {
    EntryHead + IdMark + Id3(id) + EntryTail(date, severity, kind, path, message)
  }

  lemma RuleHasNoMark()
    ensures !Contains(Rule, IdMark)
  {
    assert !OccursAt(Rule, IdMark, 0) by {
      assert Rule[0..5][0] == '\n';
    }
  }

  /**
   * Text free of id marks, a line feed, an id heading, and more text free of id marks carries
   * exactly one id: the heading's.
   */
  lemma HeadedIds(before: string, id: nat, tail: string)
    requires !Contains(before, IdMark)
    requires |tail| > 0 && !IsDigit(tail[0]) && !Contains(tail, IdMark)
    ensures Ids(before + ("\n" + (IdMark + Id3(id) + tail))) == [id]
  {
    var q := "\n" + (IdMark + Id3(id) + tail);
    IdsFromNoMark(before, 0);
    IdsAppend(before, q);
    LineThenHeading(id, tail);
  }

  lemma LineThenHeading(id: nat, tail: string)
    requires |tail| > 0 && !IsDigit(tail[0]) && !Contains(tail, IdMark)
    ensures Ids("\n" + (IdMark + Id3(id) + tail)) == [id]
  {
    var h := IdMark + Id3(id);
    HeadingReadsBack(id, tail);
    IdsFromShift(h, tail, 0);
    IdsFromNoMark(tail, 0);
    assert Ids(h + tail) == [id];
    LeadingLineFeed(h + tail);
  }

  /** A line feed in front of text adds no id. */
  lemma LeadingLineFeed(x: string)
    ensures Ids("\n" + x) == Ids(x)
  {
    var q := "\n" + x;
    assert !HitAt(q, 0) by {
      if |q| >= 5 {
        assert q[0..5][0] == '\n';
      }
    }
    IdsFromShift("\n", x, 0);
  }

  lemma Regroup5(a: string, b: string, c: string, d: string, e: string)
    ensures (a + b) + c + d + e == a + (b + (c + d + e))
  {
  }

  function LogViolationEntry(log: string, date: string, v: Violation, path: string): string {
    LogEntry(NextId(log), date, v.severity, v.kind, path, v.message)
  }

  /**
   * `log_violation`: a missing log stays missing; an existing one gains one entry at the end,
   * headed by the next id and carrying the violation's message.
   */
  function LogViolation(log: Option<string>, date: string, v: Violation, path: string): (r: Option<string>)
    ensures log.None? <==> r.None?
    ensures log.Some? ==> StartsWith(r.value, log.value) && |r.value| > |log.value|
    ensures log.Some? ==> StartsWith(r.value[|log.value|..], EntryHead + IdMark + Id3(NextId(log.value)) + " - " + date)
    ensures log.Some? ==> Contains(r.value[|log.value|..], v.message)
  {
    match log
    case None => None
    case Some(text) =>
      var e := LogViolationEntry(text, date, v, path);
      EntryFacts(text, date, v, path);
      assert (text + e)[..|text|] == text;
      assert (text + e)[|text|..] == e;
      Some(text + e)
  }

  lemma EntryFacts(text: string, date: string, v: Violation, path: string)
    ensures StartsWith(LogViolationEntry(text, date, v, path), EntryHead + IdMark + Id3(NextId(text)) + " - " + date)
    ensures Contains(LogViolationEntry(text, date, v, path), v.message)
  {
    var d := Id3(NextId(text));
    var mid, post := AfterDate(v.severity, v.kind, path), AfterMessage(v.kind);
    Regroup(EntryHead, IdMark, d, " - ", date, mid, v.message, post);
    PiecesFacts(EntryHead + IdMark + d + " - " + date, mid, v.message, post);
  }

  lemma Regroup(a: string, b: string, c: string, d: string, e: string, f: string, g: string, h: string)
    ensures a + b + c + (d + e + f + g + h) == (a + b + c + d + e) + f + g + h
  {
  }

  lemma PiecesFacts(h: string, mid: string, m: string, post: string)
    ensures StartsWith(h + mid + m + post, h)
    ensures Contains(h + mid + m + post, m)
  {
    var e := h + mid + m + post;
    var pre := h + mid;
    assert e[|pre|..|pre| + |m|] == m;
    assert OccursAt(e, m, |pre|);
    assert e[..|h|] == h;
  }

  /**
   * Ids keep counting: when the new entry's text after its heading holds no "### V", the log
   * gains exactly the id `NextId(log)`, so the next id after it is one more.
   */
  lemma LogViolationNextId(text: string, date: string, v: Violation, path: string)
    requires TailFree(date, v, path)
    ensures Ids(LogViolation(Some(text), date, v, path).value) == Ids(text) + [NextId(text)]
    ensures NextId(LogViolation(Some(text), date, v, path).value) == NextId(text) + 1
  {
    var tail := EntryTail(date, v.severity, v.kind, path, v.message);
    var e := LogViolationEntry(text, date, v, path);
    var d := Id3(NextId(text));
    Regroup5(Rule, "\n", IdMark, d, tail);
    assert e[0] == '\n';
    IdsAppend(text, e);
    RuleHasNoMark();
    HeadedIds(Rule, NextId(text), tail);
    MaxOr0Append(Ids(text), NextId(text));
  }

  /** Each violation logged in turn, each reading the log the previous one left. */
  function LogAll(log: Option<string>, date: string, vs: seq<Violation>, path: string): (r: Option<string>)
    ensures log.None? <==> r.None?
    ensures log.Some? ==> StartsWith(r.value, log.value) && |r.value| >= |log.value| + |vs|
    decreases |vs|
  {
    if |vs| == 0 then log
    else
      var next := LogViolation(log, date, vs[0], path);
      var r := LogAll(next, date, vs[1..], path);
      assert log.Some? ==> StartsWith(r.value, log.value) && |r.value| >= |log.value| + |vs| by {
        if log.Some? {
          StartsWithTransitive(log.value, next.value, r.value);
          assert |r.value| >= |next.value| + |vs[1..]|;
        }
      }
      r
  }

  /** Every logged violation's message is in what the run appended. */
  lemma {:induction false} LogAllCarriesMessages(log: Option<string>, date: string, vs: seq<Violation>, path: string)
    ensures var r := LogAll(log, date, vs, path);
      log.Some? ==> forall v | v in vs :: Contains(r.value[|log.value|..], v.message)
    decreases |vs|
  {
    if |vs| > 0 {
      var next := LogViolation(log, date, vs[0], path);
      var r := LogAll(next, date, vs[1..], path);
      LogAllCarriesMessages(next, date, vs[1..], path);
      if log.Some? {
        LogAllMessages(log.value, next.value, r.value, vs[0], vs[1..]);
        assert vs == [vs[0]] + vs[1..];
      }
      LogAllCons(log, date, vs, path);
    }
  }

  /** The first violation is logged first, and the rest into the log it leaves. */
  lemma LogAllCons(log: Option<string>, date: string, vs: seq<Violation>, path: string)
    requires |vs| > 0
    ensures LogAll(log, date, vs, path) == LogAll(LogViolation(log, date, vs[0], path), date, vs[1..], path)
  {
  }

  lemma LogAllMessages(t: string, n: string, w: string, v: Violation, rest: seq<Violation>)
    requires StartsWith(n, t) && Contains(n[|t|..], v.message)
    requires StartsWith(w, n)
    requires forall u | u in rest :: Contains(w[|n|..], u.message)
    ensures forall u | u in [v] + rest :: Contains(w[|t|..], u.message)
  {
    var e := n[|t|..];
    assert w[|t|..] == e + w[|n|..] by {
      assert w[..|n|] == n;
    }
    ContainsLeft(e, w[|n|..], v.message);
    forall u | u in rest ensures Contains(w[|t|..], u.message) {
      ContainsRight(e, w[|n|..], u.message);
    }
  }

  /** The entry a violation would get holds no id heading after its own. */
  predicate TailFree(date: string, v: Violation, path: string) {
    !Contains(EntryTail(date, v.severity, v.kind, path, v.message), IdMark)
  }

  /** Logging several violations hands out consecutive ids. */
  lemma {:induction false} LogAllNextId(text: string, date: string, vs: seq<Violation>, path: string)
    requires forall v | v in vs :: TailFree(date, v, path)
    ensures NextId(LogAll(Some(text), date, vs, path).value) == NextId(text) + |vs|
    decreases |vs|
  {
    if |vs| > 0 {
      var next := LogViolation(Some(text), date, vs[0], path);
      LogViolationNextId(text, date, vs[0], path);
      LogAllNextId(next.value, date, vs[1..], path);
      assert next == Some(next.value);
      assert LogAll(Some(text), date, vs, path) == LogAll(next, date, vs[1..], path);
    }
  }

  // ---------------------------------------------------------------------------------------
  // update_session_files

  const Marker := "## Files Modified This Session"

  predicate Bullet(line: string) { StartsWith(line, "- ") }
  predicate Heading(line: string) { StartsWith(line, "## ") }

  lemma BulletNotHeading(l: string)
    ensures !(Bullet(l) && Heading(l))
  {
    if |l| >= 3 {
      assert l[..2][0] == l[0] && l[..3][0] == l[0];
    }
  }

  /**
   * The insertion loop from line `i` on, `idx` being the index after the last bullet so far:
   * it stops at the first heading after the first line.
   */
  function ScanFrom(lines: seq<string>, i: nat, idx: nat): (r: nat)
    requires idx <= i <= |lines|
    requires idx == 0 || Bullet(lines[idx - 1])
    requires forall j | idx <= j < i :: !Bullet(lines[j])
    requires forall h | 0 < h < i :: !Heading(lines[h])
    ensures idx <= r <= |lines|
    ensures r == 0 || Bullet(lines[r - 1])
    ensures forall h | 0 < h < r :: !Heading(lines[h])
    ensures forall j | r <= j < |lines| :: Bullet(lines[j]) ==> exists h | 0 < h <= j :: Heading(lines[h])
    decreases |lines| - i
  {
    if i == |lines| then idx
    else if Bullet(lines[i]) then
      BulletNotHeading(lines[i]);
      ScanFrom(lines, i + 1, i + 1)
    else if Heading(lines[i]) && i > 0 then
      assert forall j | i <= j < |lines| :: Bullet(lines[j]) ==> exists h | 0 < h <= j :: Heading(lines[h]) by {
        forall j | i <= j < |lines| ensures Bullet(lines[j]) ==> exists h | 0 < h <= j :: Heading(lines[h]) {
          assert Heading(lines[i]);
        }
      }
      idx
    else ScanFrom(lines, i + 1, idx)
  }

  /**
   * Where the new entry goes: just after the last bullet line that comes before the section's
   * next heading, or at the top when there is none.
   */
  function InsertIndex(lines: seq<string>): (r: nat)
    ensures r <= |lines|
    ensures r == 0 || Bullet(lines[r - 1])
    ensures forall h | 0 < h < r :: !Heading(lines[h])
    ensures forall j | r <= j < |lines| :: Bullet(lines[j]) ==> exists h | 0 < h <= j :: Heading(lines[h])
  {
    ScanFrom(lines, 0, 0)
  }

  /** The line `update_session_files` adds, without the surrounding whitespace `strip` removes. */
  function EntryLine(path: string, action: string, time: string): string {
    "- [" + PurePaths.Name(path) + "](" + path + "): " + action + " at " + time
  }

  /** `new_entry.strip()`. */
  function StrippedEntry(path: string, action: string, time: string): string {
    Strip(EntryLine(path, action, time) + "\n")
  }

  /** The section's lines with the new entry inserted where the loop puts it. */
  function InsertedLines(section: string, entry: string): (r: seq<string>)
    ensures var lines := Split(section, "\n"); var idx := InsertIndex(lines);
      && |r| == |lines| + 1 && r[idx] == entry && r[..idx] + r[idx + 1..] == lines
  {
    var lines := Split(section, "\n");
    var idx := InsertIndex(lines);
    var r := lines[..idx] + [entry] + lines[idx..];
    assert r[..idx] == lines[..idx];
    assert r[idx + 1..] == lines[idx..];
    assert lines[..idx] + lines[idx..] == lines;
    r
  }

  /** `content.split(marker)` has exactly two parts: the marker occurs once. */
  predicate OneMarker(content: string) {
    |Split(content, Marker)| == 2
  }

  /** `update_session_files` on the summary's text. */
  function UpdateSession(content: string, path: string, action: string, time: string): (r: string)
    ensures Contains(content, path) || !OneMarker(content) ==> r == content
  {
    if Contains(content, path) || !Contains(content, Marker) then content
    else
      var parts := Split(content, Marker);
      if |parts| != 2 then content
      else parts[0] + Marker + Join(InsertedLines(parts[1], StrippedEntry(path, action, time)), "\n")
  }

  /** `strip` keeps a line that begins and ends with a non-space and drops the newline after it. */
  lemma StripNewlineTerminated(x: string)
    requires |x| > 0 && x[0] !in Whitespace && x[|x| - 1] !in Whitespace
    ensures Strip(x + "\n") == x
  {
    var e := x + "\n";
    LStripKeeps(e, Whitespace);
    assert e[..|e| - 1] == x;
    RStripKeeps(x, Whitespace);
  }

  /** With a clock reading that ends in a non-space, stripping leaves the entry line itself. */
  lemma EntryStripped(path: string, action: string, time: string)
    requires |time| > 0 && time[|time| - 1] !in Whitespace
    ensures StrippedEntry(path, action, time) == EntryLine(path, action, time)
  {
    var x := EntryLine(path, action, time);
    assert x[0] == '-';
    assert x[|x| - 1] == time[|time| - 1];
    StripNewlineTerminated(x);
  }

  lemma EntryMentionsPath(path: string, action: string, time: string)
    ensures Contains(EntryLine(path, action, time), path)
  {
    var a := "- [" + PurePaths.Name(path) + "](";
    var b := "): " + action + " at " + time;
    assert EntryLine(path, action, time) == a + path + b;
    assert (a + path + b)[|a|..|a| + |path|] == path;
    assert OccursAt(a + path + b, path, |a|);
  }

  lemma JoinContainsPart(parts: seq<string>, k: nat, sep: string)
    requires k < |parts|
    ensures Contains(Join(parts, sep), parts[k])
    decreases k
  {
    if k == 0 {
      JoinStartsWithHead(parts[0], parts[1..], sep);
      assert parts == [parts[0]] + parts[1..];
      StartsWithContains(Join(parts, sep), parts[0]);
    } else {
      JoinContainsPart(parts[1..], k - 1, sep);
      ContainsRight(parts[0] + sep, Join(parts[1..], sep), parts[k]);
    }
  }

  lemma ContainsTransitive(s: string, t: string, u: string)
    requires Contains(s, t) && Contains(t, u)
    ensures Contains(s, u)
  {
    var i :| 0 <= i <= |s| - |t| && OccursAt(s, t, i);
    var j :| 0 <= j <= |t| - |u| && OccursAt(t, u, j);
    assert s[i..i + |t|] == t;
    OccursInSlice(s, u, i, i + |t|, j);
  }

  /** A changed summary mentions the recorded path. */
  lemma UpdatedMentionsPath(content: string, path: string, action: string, time: string)
    requires |time| > 0 && time[|time| - 1] !in Whitespace
    requires !Contains(content, path) && OneMarker(content)
    ensures Contains(UpdateSession(content, path, action, time), path)
  {
    var parts := Split(content, Marker);
    var x := EntryLine(path, action, time);
    var newLines := InsertedLines(parts[1], StrippedEntry(path, action, time));
    var idx := InsertIndex(Split(parts[1], "\n"));
    EntryStripped(path, action, time);
    assert newLines[idx] == x;
    JoinContainsPart(newLines, idx, "\n");
    ContainsRight(parts[0] + Marker, Join(newLines, "\n"), x);
    EntryMentionsPath(path, action, time);
    ContainsTransitive(UpdateSession(content, path, action, time), x, path);
  }

  /**
   * Recording a file twice records it once: after an update that changed the summary the path
   * is in it, so the next update (at any time) leaves it as it is.
   */
  lemma UpdateSessionIdempotent(content: string, path: string, action: string, time: string, later: string)
    requires |time| > 0 && time[|time| - 1] !in Whitespace
    ensures var once := UpdateSession(content, path, action, time);
      UpdateSession(once, path, action, later) == once
  {
    if !Contains(content, path) && OneMarker(content) {
      UpdatedMentionsPath(content, path, action, time);
    }
  }

  /**
   * An update with a single marker and a new path keeps everything up to and including the
   * marker and inserts exactly one line into what follows: removing that line gives back the
   * original text.
   */
  lemma UpdateSessionInserts(content: string, path: string, action: string, time: string)
    requires !Contains(content, path) && OneMarker(content)
    ensures var parts := Split(content, Marker);
      var lines := Split(parts[1], "\n");
      var idx := InsertIndex(lines);
      var newLines := InsertedLines(parts[1], StrippedEntry(path, action, time));
      && content == parts[0] + Marker + Join(lines, "\n")
      && UpdateSession(content, path, action, time) == parts[0] + Marker + Join(newLines, "\n")
      && newLines[..idx] + newLines[idx + 1..] == lines
      && newLines[idx] == StrippedEntry(path, action, time)
  {
    var parts := Split(content, Marker);
    assert parts == [parts[0]] + [parts[1]];
    assert Join(parts, Marker) == parts[0] + Marker + Join([parts[1]], Marker);
    assert Contains(content, Marker) by {
      if !Contains(content, Marker) {
        SplitNoSep(content, Marker);
      }
    }
  }

  // ---------------------------------------------------------------------------------------
  // main

  /** The tool call as the hook reads it; absent keys read as "". */
  datatype Request = Request(toolName: string, filePath: string, content: string, newString: string)

  datatype Status = Ok | ViolationsLogged(count: nat)

  /**
   * What one run does: the status printed, the session update's action when it is attempted,
   * and the violations logged.
   */
  datatype Report = Report(status: Status, sessionAction: Option<string>, logged: seq<Violation>)

  /** Only source files outside `.claude/` and `tests/` are checked for violations. */
  predicate Checked(path: string) {
    PreToolUse.IsSource(path) && !PreToolUse.Exempt(path)
  }

  /** `main` after decoding: `content`, or `new_string` when content is empty. */
  function Main(req: Request, rules: seq<LayerRule>): (rep: Report)
    ensures rep.sessionAction.Some? <==> req.toolName in PreToolUse.Guarded && req.filePath != ""
    ensures rep.sessionAction == Some("created") <==>
      req.toolName == "Write" && req.filePath != ""
    ensures rep.status.ViolationsLogged? <==> rep.sessionAction.Some? && Checked(req.filePath) && |rep.logged| > 0
    ensures rep.status.ViolationsLogged? ==> rep.status.count == |rep.logged|
    ensures |rep.logged| > 0 ==> Checked(req.filePath)
    ensures rep.logged ==
      if rep.sessionAction.Some? && Checked(req.filePath) then
        CheckForViolations(rules, req.filePath, if req.content != "" then req.content else req.newString)
      else []
  {
    if req.toolName !in PreToolUse.Guarded || req.filePath == "" then Report(Ok, None, [])
    else
      var content := if req.content != "" then req.content else req.newString;
      var action := if req.toolName == "Write" then "created" else "modified";
      if Checked(req.filePath) then
        var vs := CheckForViolations(rules, req.filePath, content);
        if |vs| > 0 then Report(ViolationsLogged(|vs|), Some(action), vs)
        else Report(Ok, Some(action), [])
      else Report(Ok, Some(action), [])
  }

  /** An undecodable request answers "ok" and does nothing. */
  function MainInput(input: Option<Request>, rules: seq<LayerRule>): (rep: Report)
    ensures input.None? ==> rep == Report(Ok, None, [])
  {
    match input
    case None => Report(Ok, None, [])
    case Some(req) => Main(req, rules)
  }

  /** Under the shipped rules, a run reports violations only for hard-coded secrets. */
  lemma ShippedMainSecretsOnly(req: Request)
    ensures forall k | 0 <= k < |Main(req, ShippedLayerRules).logged| ::
      Main(req, ShippedLayerRules).logged[k].kind == Security
  {
    var rep := Main(req, ShippedLayerRules);
    if |rep.logged| > 0 {
      var content := if req.content != "" then req.content else req.newString;
      ShippedOnlySecrets(req.filePath, content);
    }
  }
}
