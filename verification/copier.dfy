/**
 * `copy_tree` of claudex/copier.py. The recursion is split in two exact halves:
 *
 *  - `Walk` visits the source tree in sorted order and decides, without looking at the
 *    destination, which entries are skipped, what each destination name is after `.template`
 *    stripping, and whether a destination escapes the top-level root (which aborts the run);
 *    it yields the sequence of directory and file operations reached before any abort;
 *  - `Apply` performs those operations one by one against the destination, where the outcome of
 *    each (preserve, CREATE or UPDATE, write) depends on what earlier ones did.
 *
 * Destination paths are absolute `Path`s; `Resolve` (lexical) stands in for `Path.resolve()`.
 */
module Copier {
  import opened Wrappers
  import opened Strs
  import opened FileTree

  // ---------------------------------------------------------------------------------------
  // Destination names

  const TemplateSuffix := ".template"

  /** The destination name of a source entry: every ".template" removed when the name ends with it. */
  function StripName(name: string): (r: string)
    ensures !EndsWith(name, TemplateSuffix) ==> r == name
    ensures EndsWith(name, TemplateSuffix) ==> r == ReplaceAll(name, TemplateSuffix, "")
    ensures |r| <= |name|
  {
    if EndsWith(name, TemplateSuffix) then
      StripShorter(name);
      ReplaceAll(name, TemplateSuffix, "")
    else name
  }

  lemma StripShorter(name: string)
    ensures |ReplaceAll(name, TemplateSuffix, "")| <= |name|
  {
    var parts := Split(name, TemplateSuffix);
    JoinEmptyLength(parts, TemplateSuffix);
  }

  /** Joining with "" is never longer than joining with a separator. */
  lemma JoinEmptyLength(parts: seq<string>, sep: string)
    ensures |Join(parts, "")| <= |Join(parts, sep)|
  {
    if |parts| > 1 {
      JoinEmptyLength(parts[1..], sep);
    }
  }

  /** `".template"` has a single '.', at its start, so an occurrence cannot straddle the end of a
      name free of it: stripping the suffix from `n + ".template"` gives back `n`. */
  lemma {:induction false} StripTemplateRoundTrip(n: string)
    requires !Contains(n, TemplateSuffix)
    ensures StripName(n + TemplateSuffix) == n
  {
    var s := n + TemplateSuffix;
    assert EndsWith(s, TemplateSuffix) by { assert s[|s| - |TemplateSuffix|..] == TemplateSuffix; }
    forall i | 0 <= i < |n| ensures !OccursAt(s, TemplateSuffix, i) {
      if i + |TemplateSuffix| <= |n| {
        assert s[i..i + |TemplateSuffix|] == n[i..i + |TemplateSuffix|];
        if OccursAt(s, TemplateSuffix, i) {
          OccursAtContains(n, TemplateSuffix, i);
        }
      } else {
        var j := |n| - i;
        assert 0 < j < |TemplateSuffix| && s[i + j] == '.' && TemplateSuffix[j] != '.';
      }
    }
    assert s == n + TemplateSuffix + "";
    SplitOnce(n, "", TemplateSuffix);
    assert Split(s, TemplateSuffix) == [n, ""];
    assert Join([n, ""], "") == n + "" + "";
  }

  // ---------------------------------------------------------------------------------------
  // The walk

  /** One thing `copy_tree` does at a destination, given as components below the top-level root
      (`rel`) together with the source path it comes from (`source`, relative to the source root). */
  datatype Op =
    | MkDir(rel: seq<string>, source: seq<string>)
    | Copy(rel: seq<string>, source: seq<string>, content: string)

  /** How the walk ended: it covered the whole tree, or stopped at a destination outside the root
      (`sys.exit(1)`), or at a name `with_name` rejects (a `ValueError`). */
  datatype Outcome = Done | Blocked(rel: seq<string>) | BadName(name: string)

  datatype WalkResult = WalkResult(ops: seq<Op>, outcome: Outcome)

  /** `op` lies strictly below destination `rel`, coming from strictly below source `src`. */
  predicate OpUnder(op: Op, rel: seq<string>, src: seq<string>) {
    && |op.rel| == |op.source| > |rel| == |src|
    && op.rel[..|rel|] == rel && op.source[..|src|] == src
  }

  /** From component `k0` on, each destination name is its source name stripped, no source name is
      skipped, and no `__pycache__` directory was descended into or created. */
  predicate NamesFrom(op: Op, k0: nat, skip: set<string>)
    requires |op.rel| == |op.source|
  {
    forall k | k0 <= k < |op.rel| ::
      && op.rel[k] == StripName(op.source[k])
      && op.source[k] !in skip
      && ((k < |op.source| - 1 || op.MkDir?) ==> op.source[k] != "__pycache__")
  }

  /** Everything the walk promises about one operation it yields below destination `rel`, source `src`. */
  predicate GoodOp(op: Op, rel: seq<string>, src: seq<string>, root: Path, skip: set<string>) {
    && OpUnder(op, rel, src)
    && (forall k | |rel| < k <= |op.rel| :: Within(root + op.rel[..k], root))
    && NamesFrom(op, |rel|, skip)
  }

  lemma UnderOuter(op: Op, rel: seq<string>, src: seq<string>, name: string, srcName: string)
    requires OpUnder(op, rel + [name], src + [srcName])
    ensures OpUnder(op, rel, src) && op.rel[|rel|] == name && op.source[|src|] == srcName
  {
    var n := |rel|;
    assert op.rel[..n] == op.rel[..n + 1][..n];
    assert op.source[..n] == op.source[..n + 1][..n];
    assert op.rel[n] == op.rel[..n + 1][n];
    assert op.source[n] == op.source[..n + 1][n];
  }

  lemma NamesOuter(op: Op, n: nat, skip: set<string>)
    requires |op.rel| == |op.source| && n < |op.rel| - 1
    requires NamesFrom(op, n + 1, skip)
    requires op.rel[n] == StripName(op.source[n]) && op.source[n] !in skip && op.source[n] != "__pycache__"
    ensures NamesFrom(op, n, skip)
  {
  }

  lemma GoodOpOuter(op: Op, rel: seq<string>, src: seq<string>, name: string, srcName: string, root: Path, skip: set<string>)
    requires GoodOp(op, rel + [name], src + [srcName], root, skip)
    requires name == StripName(srcName) && srcName !in skip && srcName != "__pycache__"
    requires Within(root + (rel + [name]), root)
    ensures GoodOp(op, rel, src, root, skip)
  {
    UnderOuter(op, rel, src, name, srcName);
    NamesOuter(op, |rel|, skip);
    forall k | |rel| < k <= |op.rel| ensures Within(root + op.rel[..k], root) {
      if k == |rel| + 1 {
        assert op.rel[..k] == rel + [name];
      }
    }
  }

  /** The operation the walk yields for an entry it keeps directly below `rel`. */
  lemma GoodHere(here: Op, rel: seq<string>, src: seq<string>, name: string, srcName: string, root: Path, skip: set<string>)
    requires |rel| == |src| && here.rel == rel + [name] && here.source == src + [srcName]
    requires name == StripName(srcName) && srcName !in skip && (here.MkDir? ==> srcName != "__pycache__")
    requires Within(root + (rel + [name]), root)
    ensures GoodOp(here, rel, src, root, skip)
  {
    var n := |rel|;
    assert here.rel[..n] == rel && here.source[..n] == src;
    assert OpUnder(here, rel, src);
    assert here.rel[..n + 1] == here.rel;
    forall k | n < k <= |here.rel| ensures Within(root + here.rel[..k], root) {
      assert k == n + 1;
    }
    assert here.rel[n] == name && here.source[n] == srcName;
    assert NamesFrom(here, n, skip) by {
      forall k | n <= k < |here.rel| ensures here.rel[k] == StripName(here.source[k]) {
        assert k == n;
      }
    }
  }

  /** `copy_tree` over one source directory listing, visited in sorted order. */
  function Walk(nodes: seq<Node>, rel: seq<string>, src: seq<string>, root: Path, skip: set<string>): WalkResult
    requires |rel| == |src|
    decreases nodes, |nodes| + 1
  {
    var sorted := SortByName(nodes);
    assert forall x | x in sorted :: x in nodes by {
      forall x | x in sorted ensures x in nodes { SortedMembers(nodes, x); }
    }
    WalkItems(nodes, sorted, rel, src, root, skip)
  }

  /** The loop over the remaining sorted `items` of the listing `nodes`. */
  function WalkItems(nodes: seq<Node>, items: seq<Node>, rel: seq<string>, src: seq<string>, root: Path, skip: set<string>)
    : WalkResult
    requires |rel| == |src|
    requires forall x | x in items :: x in nodes
    decreases nodes, |items|
  {
    if |items| == 0 then WalkResult([], Done)
    else
      var item := items[0];
      assert item in nodes;
      if item.name in skip then WalkItems(nodes, items[1..], rel, src, root, skip)
      else
        var name := StripName(item.name);
        if name == "" || name == "." then WalkResult([], BadName(item.name))
        else if !Within(root + (rel + [name]), root) then WalkResult([], Blocked(rel + [name]))
        else if item.Dir? then
          if item.name == "__pycache__" then WalkItems(nodes, items[1..], rel, src, root, skip)
          else
            var here := MkDir(rel + [name], src + [item.name]);
            var sub := Walk(item.children, rel + [name], src + [item.name], root, skip);
            if sub.outcome != Done then WalkResult([here] + sub.ops, sub.outcome)
            else
              var tail := WalkItems(nodes, items[1..], rel, src, root, skip);
              WalkResult([here] + sub.ops + tail.ops, tail.outcome)
        else
          var here := Copy(rel + [name], src + [item.name], item.content);
          var tail := WalkItems(nodes, items[1..], rel, src, root, skip);
          WalkResult([here] + tail.ops, tail.outcome)
  }

  /**
   * Every operation the walk yields below `rel` keeps its stripped, non-skipped names and lies
   * inside the root; an abort names a destination below `rel` that lies outside the root.
   */
  lemma {:induction false} WalkGood(nodes: seq<Node>, rel: seq<string>, src: seq<string>, root: Path, skip: set<string>)
    requires |rel| == |src|
    ensures forall op | op in Walk(nodes, rel, src, root, skip).ops :: GoodOp(op, rel, src, root, skip)
    ensures var o := Walk(nodes, rel, src, root, skip).outcome;
      o.Blocked? ==> |o.rel| > |rel| && !Within(root + o.rel, root)
    decreases nodes, |nodes| + 1
  {
    var sorted := SortByName(nodes);
    assert forall x | x in sorted :: x in nodes by {
      forall x | x in sorted ensures x in nodes { SortedMembers(nodes, x); }
    }
    WalkItemsGood(nodes, sorted, rel, src, root, skip);
  }

  /** The same guarantee for the loop over the remaining sorted entries. */
  lemma {:induction false} WalkItemsGood(nodes: seq<Node>, items: seq<Node>, rel: seq<string>, src: seq<string>, root: Path, skip: set<string>)
    requires |rel| == |src|
    requires forall x | x in items :: x in nodes
    ensures forall op | op in WalkItems(nodes, items, rel, src, root, skip).ops :: GoodOp(op, rel, src, root, skip)
    ensures var o := WalkItems(nodes, items, rel, src, root, skip).outcome;
      o.Blocked? ==> |o.rel| > |rel| && !Within(root + o.rel, root)
    decreases nodes, |items|
  {
    if |items| > 0 {
      var item := items[0];
      assert item in nodes;
      var name := StripName(item.name);
      if item.name in skip || (item.Dir? && item.name == "__pycache__") {
        WalkItemsGood(nodes, items[1..], rel, src, root, skip);
      } else if name != "" && name != "." && Within(root + (rel + [name]), root) {
        var here := if item.Dir? then MkDir(rel + [name], src + [item.name]) else Copy(rel + [name], src + [item.name], item.content);
        GoodHere(here, rel, src, name, item.name, root, skip);
        if item.Dir? {
          var sub := Walk(item.children, rel + [name], src + [item.name], root, skip);
          WalkGood(item.children, rel + [name], src + [item.name], root, skip);
          forall op | op in sub.ops ensures GoodOp(op, rel, src, root, skip) {
            GoodOpOuter(op, rel, src, name, item.name, root, skip);
          }
        }
        WalkItemsGood(nodes, items[1..], rel, src, root, skip);
      }
    }
  }

  // ---------------------------------------------------------------------------------------
  // Which files the walk copies, and with what content

  /** Following `path` from entry `x` reaches a file holding `content`, without passing through a
      skipped name or into a `__pycache__` directory. */
  predicate KeptIn(x: Node, path: seq<string>, content: string, skip: set<string>)
    decreases |path|, 1
  {
    && |path| > 0 && x.name == path[0] && x.name !in skip
    && if |path| == 1 then x.File? && x.content == content
       else x.Dir? && x.name != "__pycache__" && KeptBelow(x.children, path[1..], content, skip)
  }

  /** Some entry of the listing leads along `path` to a kept file holding `content`. */
  predicate KeptBelow(nodes: seq<Node>, path: seq<string>, content: string, skip: set<string>)
    decreases |path|, 2
  {
    exists y | y in nodes :: KeptIn(y, path, content, skip)
  }

  /** The destination components of a source path: every name stripped. */
  function StripAll(path: seq<string>): (r: seq<string>)
    ensures |r| == |path|
    ensures forall k {:trigger r[k]} | 0 <= k < |r| :: r[k] == StripName(path[k])
  {
    if |path| == 0 then [] else [StripName(path[0])] + StripAll(path[1..])
  }

  /**
   * Every copy the walk yields names a kept source file below `src`, and carries that file's
   * content.
   */
  lemma {:induction false} WalkContent(nodes: seq<Node>, rel: seq<string>, src: seq<string>, root: Path, skip: set<string>)
    requires |rel| == |src|
    ensures forall op | op in Walk(nodes, rel, src, root, skip).ops && op.Copy? ::
      |op.source| > |src| && op.source[..|src|] == src && KeptBelow(nodes, op.source[|src|..], op.content, skip)
    decreases nodes, |nodes| + 1
  {
    var sorted := SortByName(nodes);
    assert forall x | x in sorted :: x in nodes by {
      forall x | x in sorted ensures x in nodes { SortedMembers(nodes, x); }
    }
    WalkItemsContent(nodes, sorted, rel, src, root, skip);
  }

  lemma {:induction false} WalkItemsContent(nodes: seq<Node>, items: seq<Node>, rel: seq<string>, src: seq<string>, root: Path, skip: set<string>)
    requires |rel| == |src|
    requires forall x | x in items :: x in nodes
    ensures forall op | op in WalkItems(nodes, items, rel, src, root, skip).ops && op.Copy? ::
      |op.source| > |src| && op.source[..|src|] == src && KeptBelow(nodes, op.source[|src|..], op.content, skip)
    decreases nodes, |items|
  {
    if |items| > 0 {
      var item := items[0];
      assert item in nodes;
      var name := StripName(item.name);
      assert forall x | x in items[1..] :: x in items;
      if item.name in skip || (item.Dir? && item.name == "__pycache__") {
        WalkItemsContent(nodes, items[1..], rel, src, root, skip);
      } else if name != "" && name != "." && Within(root + (rel + [name]), root) {
        WalkItemsContent(nodes, items[1..], rel, src, root, skip);
        if item.Dir? {
          var sub := Walk(item.children, rel + [name], src + [item.name], root, skip);
          WalkContent(item.children, rel + [name], src + [item.name], root, skip);
          SubContent(nodes, item, sub.ops, src, skip);
        } else {
          var here := Copy(rel + [name], src + [item.name], item.content);
          assert here.source[|src|..] == [item.name];
          assert KeptIn(item, [item.name], item.content, skip);
        }
      }
    }
  }

  /** The copies of a kept directory's sub-walk are kept from the listing holding the directory. */
  lemma SubContent(nodes: seq<Node>, item: Node, ops: seq<Op>, src: seq<string>, skip: set<string>)
    requires item in nodes && item.Dir? && item.name !in skip && item.name != "__pycache__"
    requires forall op | op in ops && op.Copy? ::
      |op.source| > |src + [item.name]| && op.source[..|src + [item.name]|] == src + [item.name]
      && KeptBelow(item.children, op.source[|src + [item.name]|..], op.content, skip)
    ensures forall op | op in ops && op.Copy? ::
      |op.source| > |src| && op.source[..|src|] == src && KeptBelow(nodes, op.source[|src|..], op.content, skip)
  {
    forall op | op in ops && op.Copy?
      ensures |op.source| > |src| && op.source[..|src|] == src && KeptBelow(nodes, op.source[|src|..], op.content, skip)
    {
      SubCopyKept(op, src, item, skip);
    }
  }

  /** A copy from the walk of a kept directory's children is kept from the directory itself. */
  lemma SubCopyKept(op: Op, src: seq<string>, item: Node, skip: set<string>)
    requires item.Dir? && item.name !in skip && item.name != "__pycache__"
    requires op.Copy? && |op.source| > |src| + 1 && op.source[..|src| + 1] == src + [item.name]
    requires KeptBelow(item.children, op.source[|src| + 1..], op.content, skip)
    ensures op.source[..|src|] == src && KeptIn(item, op.source[|src|..], op.content, skip)
  {
    var p := op.source[|src|..];
    assert op.source[..|src|] == op.source[..|src| + 1][..|src|];
    assert p[0] == op.source[..|src| + 1][|src|];
    assert p[1..] == op.source[|src| + 1..];
  }

  /**
   * A walk that completes copies every kept source file: the file at source path `src + path`
   * becomes a copy to `rel` followed by the stripped `path`, with the file's content.
   */
  lemma {:induction false} WalkComplete(nodes: seq<Node>, rel: seq<string>, src: seq<string>, root: Path, skip: set<string>)
    requires |rel| == |src|
    ensures var w := Walk(nodes, rel, src, root, skip);
      w.outcome == Done ==>
        forall path, c | KeptBelow(nodes, path, c, skip) :: Copy(rel + StripAll(path), src + path, c) in w.ops
    decreases nodes, |nodes| + 1
  {
    var sorted := SortByName(nodes);
    assert forall x | x in sorted :: x in nodes by {
      forall x | x in sorted ensures x in nodes { SortedMembers(nodes, x); }
    }
    WalkItemsComplete(nodes, sorted, rel, src, root, skip);
    forall path, c | KeptBelow(nodes, path, c, skip) ensures KeptBelow(sorted, path, c, skip) {
      var y :| y in nodes && KeptIn(y, path, c, skip);
      SortedMembers(nodes, y);
    }
  }

  lemma {:induction false} WalkItemsComplete(nodes: seq<Node>, items: seq<Node>, rel: seq<string>, src: seq<string>, root: Path, skip: set<string>)
    requires |rel| == |src|
    requires forall x | x in items :: x in nodes
    ensures var w := WalkItems(nodes, items, rel, src, root, skip);
      w.outcome == Done ==>
        forall path, c | KeptBelow(items, path, c, skip) :: Copy(rel + StripAll(path), src + path, c) in w.ops
    decreases nodes, |items|
  {
    if |items| > 0 {
      var item := items[0];
      assert item in nodes;
      var name := StripName(item.name);
      var w := WalkItems(nodes, items, rel, src, root, skip);
      var tail := WalkItems(nodes, items[1..], rel, src, root, skip);
      assert forall x | x in items[1..] :: x in items;
      WalkItemsComplete(nodes, items[1..], rel, src, root, skip);
      if w.outcome == Done {
        forall path, c | KeptBelow(items, path, c, skip) ensures Copy(rel + StripAll(path), src + path, c) in w.ops {
          var y :| y in items && KeptIn(y, path, c, skip);
          if y != item {
            assert y in items[1..] by { assert items == [item] + items[1..]; }
            KeptFromTail(nodes, items, rel, src, root, skip, path, c, y);
          } else {
            KeptHere(nodes, items, rel, src, root, skip, path, c);
          }
        }
      }
    }
  }

  /** A kept file of a later entry is copied by the rest of the loop, whose operations end the run's. */
  lemma KeptFromTail(nodes: seq<Node>, items: seq<Node>, rel: seq<string>, src: seq<string>, root: Path, skip: set<string>,
                     path: seq<string>, c: string, y: Node)
    requires |rel| == |src| && |items| > 0
    requires forall x | x in items :: x in nodes
    requires WalkItems(nodes, items, rel, src, root, skip).outcome == Done
    requires y in items[1..] && KeptIn(y, path, c, skip)
    requires var tail := WalkItems(nodes, items[1..], rel, src, root, skip);
      tail.outcome == Done ==>
        forall path, c | KeptBelow(items[1..], path, c, skip) :: Copy(rel + StripAll(path), src + path, c) in tail.ops
    ensures Copy(rel + StripAll(path), src + path, c) in WalkItems(nodes, items, rel, src, root, skip).ops
  {
    WalkItemsStep(nodes, items, rel, src, root, skip);
    assert KeptBelow(items[1..], path, c, skip);
  }

  /** The first entry's kept files are copied by the run itself. */
  lemma KeptHere(nodes: seq<Node>, items: seq<Node>, rel: seq<string>, src: seq<string>, root: Path, skip: set<string>,
                 path: seq<string>, c: string)
    requires |rel| == |src| && |items| > 0
    requires forall x | x in items :: x in nodes
    requires WalkItems(nodes, items, rel, src, root, skip).outcome == Done
    requires KeptIn(items[0], path, c, skip)
    ensures Copy(rel + StripAll(path), src + path, c) in WalkItems(nodes, items, rel, src, root, skip).ops
    decreases nodes, 0
  {
    var item := items[0];
    assert item in nodes;
    var name := StripName(item.name);
    WalkItemsStep(nodes, items, rel, src, root, skip);
    if item.Dir? {
      var sub := Walk(item.children, rel + [name], src + [item.name], root, skip);
      WalkComplete(item.children, rel + [name], src + [item.name], root, skip);
      assert KeptBelow(item.children, path[1..], c, skip);
      StripCons(path, rel);
      SourceCons(path, src);
    } else {
      assert path == [item.name];
      assert StripAll(path) == [name];
    }
  }

  /** A path taken apart at its first component, on the destination side of a copy. */
  lemma StripCons(path: seq<string>, rel: seq<string>)
    requires |path| > 0
    ensures rel + [StripName(path[0])] + StripAll(path[1..]) == rel + StripAll(path)
  {
    StripAllCons(path);
  }

  lemma StripAllCons(path: seq<string>)
    requires |path| > 0
    ensures StripAll(path) == [StripName(path[0])] + StripAll(path[1..])
  {
  }

  /** The same on the source side. */
  lemma SourceCons(path: seq<string>, src: seq<string>)
    requires |path| > 0
    ensures src + [path[0]] + path[1..] == src + path
  {
    assert [path[0]] + path[1..] == path;
  }

  /** One step of a loop that completes: the rest completes too and its operations are among the
      run's, and a kept first entry contributes its copy or its whole completed sub-walk. */
  lemma WalkItemsStep(nodes: seq<Node>, items: seq<Node>, rel: seq<string>, src: seq<string>, root: Path, skip: set<string>)
    requires |rel| == |src| && |items| > 0
    requires forall x | x in items :: x in nodes
    ensures var w := WalkItems(nodes, items, rel, src, root, skip);
      var tail := WalkItems(nodes, items[1..], rel, src, root, skip);
      var item, name := items[0], StripName(items[0].name);
      w.outcome == Done ==>
        && tail.outcome == Done
        && (forall op | op in tail.ops :: op in w.ops)
        && (item.File? && item.name !in skip ==> Copy(rel + [name], src + [item.name], item.content) in w.ops)
        && (item.Dir? && item.name !in skip && item.name != "__pycache__" ==>
              var sub := Walk(item.children, rel + [name], src + [item.name], root, skip);
              sub.outcome == Done && forall op | op in sub.ops :: op in w.ops)
  {
    assert items[0] in nodes;
    assert forall x | x in items[1..] :: x in items;
  }

  // ---------------------------------------------------------------------------------------
  // The destination

  /** The destination filesystem: file contents and directories, by resolved absolute path. */
  datatype FS = FS(files: map<Path, string>, dirs: set<Path>)

  /** `path.exists()`: a file or a directory is there. */
  predicate ExistsIn(fs: FS, p: Path) {
    p in fs.files || p in fs.dirs
  }

  /** PRESERVE_ON_UPDATE. */
  const PreserveOnUpdate: set<string> := {
    "session/CURRENT_TASK.md",
    "session/TASK_PROGRESS.md",
    "session/VALIDATION_STATE.md",
    "session/CONTEXT_SUMMARY.md",
    "session/BACKGROUND_QUEUE.md",
    "session/PARALLEL_SESSIONS.md",
    "session/TOKEN_LOG.md",
    "feedback/VIOLATIONS_LOG.md",
    "feedback/LESSONS_LEARNED_INDEX.md",
    "feedback/PATTERN_CORRECTIONS.md",
    "feedback/IMPROVEMENT_PROPOSALS.md",
    "knowledge/",
    "docs/"
  }

  /** `str(dest_path.relative_to(root_dst)).replace("\\", "/")`: the relative path joined by '/',
      with every backslash, including one inside a name, turned into '/' as well. */
  function RelText(rel: seq<string>): string {
    ReplaceAll(Join(rel, "/"), "\\", "/")
  }

  /** A destination below the root is preserved when its relative path text starts with some
      pattern stripped of trailing '/' (a plain string prefix, not a component match). */
  predicate PreservedRel(rel: seq<string>, patterns: set<string>) {
    exists p | p in patterns :: StartsWith(RelText(rel), RStripSet(p, {'/'}))
  }

  /** How `copy_tree` was called. `preserve` is the preserve-set after defaulting. */
  datatype Mode = Mode(dryRun: bool, updateMode: bool, preserve: set<string>)

  /** What happened at one operation; `rel` is the destination below the root. A real write
      records whether its target existed just before. */
  datatype Event =
    | Mkdir(rel: seq<string>)
    | Skip(rel: seq<string>)
    | Create(rel: seq<string>)
    | Update(rel: seq<string>)
    | Write(rel: seq<string>, existed: bool)

  datatype Run = Run(fs: FS, log: seq<Event>)

  /** The resolved destination of an operation. */
  function Target(root: Path, op: Op): Path {
    Resolve(root + op.rel)
  }

  /** The resolved directory holding a destination (`dest_path.parent`). */
  function Parent(root: Path, op: Op): Path
    requires |op.rel| > 0
  {
    Resolve(root + op.rel[..|op.rel| - 1])
  }

  /** The paths a real run of `op` may bring into existence. */
  function Touched(root: Path, op: Op): set<Path>
    requires |op.rel| > 0
  {
    match op
    case MkDir(_, _) => Prefixes(Target(root, op))
    case Copy(_, _, _) => {Target(root, op)} + Prefixes(Parent(root, op))
  }

  /** The directories a real run of `op` creates (with `parents=True`). */
  function DirsOfOp(root: Path, op: Op): set<Path>
    requires |op.rel| > 0
  {
    if op.MkDir? then Prefixes(Target(root, op)) else Prefixes(Parent(root, op))
  }

  predicate Named(ops: seq<Op>) {
    forall i | 0 <= i < |ops| :: |ops[i].rel| > 0
  }

  /** One operation against the destination, with the events it produces. */
  function StepOp(op: Op, fs: FS, root: Path, mode: Mode): (r: Run)
    requires |op.rel| > 0
    ensures |r.log| == 1 && r.log[0].rel == op.rel
    ensures r.log[0].Mkdir? <==> op.MkDir?
    ensures r.log[0].Skip? <==>
      op.Copy? && mode.updateMode && PreservedRel(op.rel, mode.preserve) && ExistsIn(fs, Target(root, op))
    ensures r.log[0].Write? <==> op.Copy? && !r.log[0].Skip? && !mode.dryRun
    ensures r.log[0].Write? ==> r.log[0].existed == ExistsIn(fs, Target(root, op))
    ensures r.log[0].Update? <==> op.Copy? && !r.log[0].Skip? && mode.dryRun && ExistsIn(fs, Target(root, op))
    ensures mode.dryRun ==> r.fs == fs
    ensures fs.files.Keys <= r.fs.files.Keys <= fs.files.Keys + (if op.Copy? then {Target(root, op)} else {})
    ensures forall p | p in fs.files && !(op.Copy? && p == Target(root, op)) :: r.fs.files[p] == fs.files[p]
    ensures fs.dirs <= r.fs.dirs <= fs.dirs + DirsOfOp(root, op)
  {
    var t := Target(root, op);
    match op
    case MkDir(_, _) =>
      if mode.dryRun then Run(fs, [Mkdir(op.rel)])
      else Run(FS(fs.files, fs.dirs + Prefixes(t)), [Mkdir(op.rel)])
    case Copy(_, _, content) =>
      if mode.updateMode && PreservedRel(op.rel, mode.preserve) && ExistsIn(fs, t) then Run(fs, [Skip(op.rel)])
      else if mode.dryRun then Run(fs, [if ExistsIn(fs, t) then Update(op.rel) else Create(op.rel)])
      else Run(FS(fs.files[t := content], fs.dirs + Prefixes(Parent(root, op))), [Write(op.rel, ExistsIn(fs, t))])
  }

  /** The targets of the file operations among `ops`. */
  function Targets(ops: seq<Op>, root: Path): set<Path> {
    set i | 0 <= i < |ops| && ops[i].Copy? :: Target(root, ops[i])
  }

  /** The directories the operations among `ops` create. */
  function DirsOf(ops: seq<Op>, root: Path): set<Path>
    requires Named(ops)
  {
    if |ops| == 0 then {} else DirsOfOp(root, ops[0]) + DirsOf(ops[1..], root)
  }

  lemma TargetsCons(ops: seq<Op>, root: Path)
    requires |ops| > 0
    ensures Targets(ops, root) == (if ops[0].Copy? then {Target(root, ops[0])} else {}) + Targets(ops[1..], root)
  {
    var head := if ops[0].Copy? then {Target(root, ops[0])} else {};
    forall p | p in Targets(ops, root) ensures p in head + Targets(ops[1..], root) {
      var i :| 0 <= i < |ops| && ops[i].Copy? && p == Target(root, ops[i]);
      if i > 0 { assert ops[1..][i - 1] == ops[i]; }
    }
    forall p | p in Targets(ops[1..], root) ensures p in Targets(ops, root) {
      var i :| 0 <= i < |ops[1..]| && ops[1..][i].Copy? && p == Target(root, ops[1..][i]);
      assert ops[i + 1] == ops[1..][i];
    }
  }

  /** The operations of a walk, performed in order against the destination. */
  function Apply(ops: seq<Op>, fs: FS, root: Path, mode: Mode): (r: Run)
    requires Named(ops)
    ensures |r.log| == |ops|
    ensures mode.dryRun ==> r.fs == fs
    decreases |ops|
  {
    if |ops| == 0 then Run(fs, [])
    else
      var s := StepOp(ops[0], fs, root, mode);
      var rest := Apply(ops[1..], s.fs, root, mode);
      Run(rest.fs, s.log + rest.log)
  }

  /** The event `e` reports `op` under `mode`: at the same destination and of the matching kind, where
      a dry run writes nothing, a real run only writes, and only update mode skips. */
  predicate EventFits(op: Op, e: Event, mode: Mode) {
    && e.rel == op.rel
    && (e.Mkdir? <==> op.MkDir?)
    && (mode.dryRun ==> !e.Write?)
    && (!mode.dryRun ==> !e.Create? && !e.Update?)
    && (!mode.updateMode ==> !e.Skip?)
  }

  lemma EventsCons(op: Op, ops: seq<Op>, e: seq<Event>, log: seq<Event>, mode: Mode)
    requires |e| == 1 && EventFits(op, e[0], mode)
    requires |log| == |ops| && forall i | 0 <= i < |ops| :: EventFits(ops[i], log[i], mode)
    ensures forall i | 0 <= i < |ops| + 1 :: EventFits(([op] + ops)[i], (e + log)[i], mode)
  {
    forall i | 1 <= i < |ops| + 1 ensures EventFits(([op] + ops)[i], (e + log)[i], mode) {
      assert ([op] + ops)[i] == ops[i - 1] && (e + log)[i] == log[i - 1];
    }
  }

  /** One event per operation, reporting it (see `EventFits`). */
  lemma {:induction false} ApplyEvents(ops: seq<Op>, fs: FS, root: Path, mode: Mode)
    requires Named(ops)
    ensures var r := Apply(ops, fs, root, mode);
      forall i | 0 <= i < |ops| :: EventFits(ops[i], r.log[i], mode)
    decreases |ops|
  {
    if |ops| > 0 {
      var s := StepOp(ops[0], fs, root, mode);
      ApplyEvents(ops[1..], s.fs, root, mode);
      EventsCons(ops[0], ops[1..], s.log, Apply(ops[1..], s.fs, root, mode).log, mode);
      assert [ops[0]] + ops[1..] == ops;
    }
  }

  /** The files a run changes are the targets of its copies, and the directories it adds are those
      its operations create; everything else is left as it was. */
  lemma {:induction false} ApplyFootprint(ops: seq<Op>, fs: FS, root: Path, mode: Mode)
    requires Named(ops)
    ensures var r := Apply(ops, fs, root, mode);
      fs.files.Keys <= r.fs.files.Keys <= fs.files.Keys + Targets(ops, root)
    ensures var r := Apply(ops, fs, root, mode);
      forall p | p in fs.files && p !in Targets(ops, root) :: r.fs.files[p] == fs.files[p]
    ensures var r := Apply(ops, fs, root, mode);
      fs.dirs <= r.fs.dirs <= fs.dirs + DirsOf(ops, root)
    decreases |ops|
  {
    if |ops| > 0 {
      var s := StepOp(ops[0], fs, root, mode);
      ApplyFootprint(ops[1..], s.fs, root, mode);
      TargetsCons(ops, root);
    }
  }

  // ---------------------------------------------------------------------------------------
  // What a real run leaves behind

  /** The file contents a plain real run writes, later operations winning. */
  function Writes(ops: seq<Op>, root: Path): map<Path, string> {
    if |ops| == 0 then map[]
    else HeadWrite(ops[0], root) + Writes(ops[1..], root)
  }

  lemma MapUnionAssoc(a: map<Path, string>, b: map<Path, string>, c: map<Path, string>)
    ensures (a + b) + c == a + (b + c)
  {
  }

  lemma MapUnionAbsorb(a: map<Path, string>, b: map<Path, string>)
    ensures (a + b) + b == a + b
  {
  }

  /** Without update mode, a real run adds exactly the writes of the walk (last one wins) and the
      directories of its operations, and changes nothing else. */
  lemma {:induction false} PlainRun(ops: seq<Op>, fs: FS, root: Path, mode: Mode)
    requires Named(ops) && !mode.dryRun && !mode.updateMode
    ensures Apply(ops, fs, root, mode).fs == FS(fs.files + Writes(ops, root), fs.dirs + DirsOf(ops, root))
    decreases |ops|
  {
    if |ops| > 0 {
      var head := HeadWrite(ops[0], root);
      var s := StepOp(ops[0], fs, root, mode);
      PlainStep(ops[0], fs, root, mode);
      PlainRun(ops[1..], s.fs, root, mode);
      MapUnionAssoc(fs.files, head, Writes(ops[1..], root));
      assert Writes(ops, root) == head + Writes(ops[1..], root);
      assert DirsOf(ops, root) == DirsOfOp(root, ops[0]) + DirsOf(ops[1..], root);
    }
  }

  /** The write one operation contributes to `Writes`. */
  function HeadWrite(op: Op, root: Path): map<Path, string> {
    if op.Copy? then map[Target(root, op) := op.content] else map[]
  }

  /** One plain real step writes the operation's file and adds its directories. */
  lemma PlainStep(op: Op, fs: FS, root: Path, mode: Mode)
    requires |op.rel| > 0 && !mode.dryRun && !mode.updateMode
    ensures StepOp(op, fs, root, mode).fs == FS(fs.files + HeadWrite(op, root), fs.dirs + DirsOfOp(root, op))
  {
    if op.Copy? {
      assert fs.files[Target(root, op) := op.content] == fs.files + HeadWrite(op, root);
    } else {
      assert fs.files + HeadWrite(op, root) == fs.files;
    }
  }

  /** A plain run writes exactly the targets of its copies. */
  lemma {:induction false} WritesKeys(ops: seq<Op>, root: Path)
    ensures Writes(ops, root).Keys == Targets(ops, root)
    decreases |ops|
  {
    if |ops| > 0 {
      WritesKeys(ops[1..], root);
      TargetsCons(ops, root);
    } else {
      assert Targets(ops, root) == {};
    }
  }

  /** When every copy reaching `t` carries `c`, whatever the plain run writes at `t` is `c`. */
  lemma {:induction false} WritesAgree(ops: seq<Op>, root: Path, t: Path, c: string)
    requires forall j | 0 <= j < |ops| && ops[j].Copy? && Target(root, ops[j]) == t :: ops[j].content == c
    ensures t in Writes(ops, root) ==> Writes(ops, root)[t] == c
    decreases |ops|
  {
    if |ops| > 0 {
      forall j | 0 <= j < |ops[1..]| && ops[1..][j].Copy? && Target(root, ops[1..][j]) == t
        ensures ops[1..][j].content == c
      {
        assert ops[1..][j] == ops[j + 1];
      }
      WritesAgree(ops[1..], root, t, c);
    }
  }

  /**
   * The headline of a plain `copy_tree` that completes: every kept source file's content is at
   * its stripped destination, provided no other entry of the tree reaches that destination with
   * different content (when two do, the later one in walk order wins; see `CollidingOverwrite`).
   */
  lemma CopyTreeCopiesKept(listing: seq<Node>, root: Path, fs: FS, skipPatterns: Option<set<string>>,
                           preserveOnUpdate: Option<set<string>>, path: seq<string>, c: string)
    requires KeptBelow(listing, path, c, skipPatterns.GetOr({}))
    requires CopyTree(listing, root, fs, false, false, skipPatterns, preserveOnUpdate).outcome == Done
    requires forall op | op in Walk(listing, [], [], root, skipPatterns.GetOr({})).ops && op.Copy?
      && Target(root, op) == Resolve(root + StripAll(path)) :: op.content == c
    ensures var t := Resolve(root + StripAll(path));
      var r := CopyTree(listing, root, fs, false, false, skipPatterns, preserveOnUpdate);
      t in r.fs.files && r.fs.files[t] == c
  {
    var skip := skipPatterns.GetOr({});
    var preserve := if preserveOnUpdate.None? || preserveOnUpdate.value == {} then PreserveOnUpdate
                    else preserveOnUpdate.value;
    var w := Walk(listing, [], [], root, skip);
    var t := Resolve(root + StripAll(path));
    WalkComplete(listing, [], [], root, skip);
    var op := Copy([] + StripAll(path), [] + path, c);
    assert op in w.ops;
    assert Target(root, op) == t by { assert [] + StripAll(path) == StripAll(path); }
    WalkGood(listing, [], [], root, skip);
    assert Named(w.ops) by {
      forall i | 0 <= i < |w.ops| ensures |w.ops[i].rel| > 0 {
        assert w.ops[i] in w.ops;
      }
    }
    PlainRun(w.ops, fs, root, Mode(false, false, preserve));
    WritesKeys(w.ops, root);
    var i :| 0 <= i < |w.ops| && w.ops[i] == op;
    assert t in Targets(w.ops, root);
    forall j | 0 <= j < |w.ops| && w.ops[j].Copy? && Target(root, w.ops[j]) == t ensures w.ops[j].content == c {
      assert w.ops[j] in w.ops;
    }
    WritesAgree(w.ops, root, t, c);
  }

  /** Running the same plain copy twice leaves the destination as one run left it. */
  lemma {:induction false} PlainRunIdempotent(ops: seq<Op>, fs: FS, root: Path, mode: Mode)
    requires Named(ops) && !mode.dryRun && !mode.updateMode
    ensures Apply(ops, Apply(ops, fs, root, mode).fs, root, mode).fs == Apply(ops, fs, root, mode).fs
  {
    var once := Apply(ops, fs, root, mode).fs;
    PlainRun(ops, fs, root, mode);
    PlainRun(ops, once, root, mode);
    MapUnionAbsorb(fs.files, Writes(ops, root));
  }

  /** In update mode an existing file that every operation reaching it treats as preserved keeps
      its content, whatever the template now holds. */
  lemma {:induction false} PreservedUntouched(ops: seq<Op>, fs: FS, root: Path, mode: Mode, p: Path)
    requires Named(ops) && mode.updateMode && p in fs.files
    requires forall i | 0 <= i < |ops| && ops[i].Copy? && Target(root, ops[i]) == p ::
      PreservedRel(ops[i].rel, mode.preserve)
    ensures p in Apply(ops, fs, root, mode).fs.files && Apply(ops, fs, root, mode).fs.files[p] == fs.files[p]
    decreases |ops|
  {
    if |ops| > 0 {
      var s := StepOp(ops[0], fs, root, mode);
      if ops[0].Copy? && Target(root, ops[0]) == p {
        assert s.log[0].Skip?;
      }
      assert p in s.fs.files && s.fs.files[p] == fs.files[p];
      forall i | 0 <= i < |ops[1..]| && ops[1..][i].Copy? && Target(root, ops[1..][i]) == p
        ensures PreservedRel(ops[1..][i].rel, mode.preserve)
      {
        assert ops[1..][i] == ops[i + 1];
      }
      PreservedUntouched(ops[1..], s.fs, root, mode, p);
    }
  }

  /** Update mode differs from a plain run only through preserved destinations. */
  lemma {:induction false} UpdateWithoutPreserved(ops: seq<Op>, fs: FS, root: Path, mode: Mode)
    requires Named(ops)
    requires forall i | 0 <= i < |ops| && ops[i].Copy? :: !PreservedRel(ops[i].rel, mode.preserve)
    ensures Apply(ops, fs, root, mode) == Apply(ops, fs, root, mode.(updateMode := false))
    decreases |ops|
  {
    if |ops| > 0 {
      var plain := mode.(updateMode := false);
      assert StepOp(ops[0], fs, root, mode) == StepOp(ops[0], fs, root, plain);
      forall i | 0 <= i < |ops[1..]| && ops[1..][i].Copy? ensures !PreservedRel(ops[1..][i].rel, mode.preserve) {
        assert ops[1..][i] == ops[i + 1];
      }
      UpdateWithoutPreserved(ops[1..], StepOp(ops[0], fs, root, mode).fs, root, mode);
    }
  }

  // ---------------------------------------------------------------------------------------
  // The dry-run preview

  /** The real event a dry-run event announces. */
  function Plan(e: Event): (r: Event)
    ensures r.rel == e.rel
  {
    match e
    case Create(rel) => Write(rel, false)
    case Update(rel) => Write(rel, true)
    case _ => e
  }

  function PlanLog(log: seq<Event>): (r: seq<Event>)
    ensures |r| == |log|
  {
    if |log| == 0 then [] else [Plan(log[0])] + PlanLog(log[1..])
  }

  /** No operation's destination file is something an earlier operation creates: the template tree
      has no two entries reaching the same destination. */
  predicate Fresh(ops: seq<Op>, root: Path)
    requires Named(ops)
  {
    forall i, j | 0 <= i < j < |ops| && ops[j].Copy? :: Target(root, ops[j]) !in Touched(root, ops[i])
  }

  lemma StepUntouched(op: Op, fs: FS, root: Path, mode: Mode, p: Path)
    requires |op.rel| > 0 && p !in Touched(root, op)
    ensures ExistsIn(StepOp(op, fs, root, mode).fs, p) == ExistsIn(fs, p)
  {
  }

  lemma {:induction false} FidelityFrom(ops: seq<Op>, dryFs: FS, realFs: FS, root: Path, mode: Mode)
    requires Named(ops) && Fresh(ops, root)
    requires forall i | 0 <= i < |ops| && ops[i].Copy? ::
      ExistsIn(dryFs, Target(root, ops[i])) == ExistsIn(realFs, Target(root, ops[i]))
    ensures PlanLog(Apply(ops, dryFs, root, mode.(dryRun := true)).log)
         == Apply(ops, realFs, root, mode.(dryRun := false)).log
    decreases |ops|
  {
    if |ops| > 0 {
      var dm := mode.(dryRun := true);
      var rm := mode.(dryRun := false);
      var d := StepOp(ops[0], dryFs, root, dm);
      var w := StepOp(ops[0], realFs, root, rm);
      assert Plan(d.log[0]) == w.log[0];
      var rest := ops[1..];
      forall i | 0 <= i < |rest| && rest[i].Copy?
        ensures ExistsIn(d.fs, Target(root, rest[i])) == ExistsIn(w.fs, Target(root, rest[i]))
      {
        assert rest[i] == ops[i + 1];
        StepUntouched(ops[0], realFs, root, rm, Target(root, rest[i]));
      }
      assert Fresh(rest, root) by {
        forall i, j | 0 <= i < j < |rest| && rest[j].Copy? ensures Target(root, rest[j]) !in Touched(root, rest[i]) {
          assert rest[i] == ops[i + 1] && rest[j] == ops[j + 1];
        }
      }
      FidelityFrom(rest, d.fs, w.fs, root, mode);
      var dl := Apply(ops, dryFs, root, dm).log;
      assert dl == d.log + Apply(rest, d.fs, root, dm).log;
      assert dl[1..] == Apply(rest, d.fs, root, dm).log;
    }
  }

  /** When no two template entries reach the same destination, the dry run announces exactly the
      real run: the same directories, the same preserved skips, and CREATE or UPDATE exactly where
      the real run writes a new or an existing file. */
  lemma DryRunFidelity(ops: seq<Op>, fs: FS, root: Path, mode: Mode)
    requires Named(ops) && Fresh(ops, root)
    ensures PlanLog(Apply(ops, fs, root, mode.(dryRun := true)).log) == Apply(ops, fs, root, mode.(dryRun := false)).log
  {
    FidelityFrom(ops, fs, fs, root, mode);
  }

  /** Kinds of action regardless of CREATE/UPDATE labelling. */
  datatype Action = DirAction(rel: seq<string>) | SkipAction(rel: seq<string>) | FileAction(rel: seq<string>)

  function ActionOf(e: Event): Action {
    match e
    case Mkdir(rel) => DirAction(rel)
    case Skip(rel) => SkipAction(rel)
    case _ => FileAction(e.rel)
  }

  /** Two logs list the same actions, position by position. */
  predicate SameActions(x: seq<Event>, y: seq<Event>) {
    |x| == |y| && forall i | 0 <= i < |x| :: ActionOf(x[i]) == ActionOf(y[i])
  }

  lemma SameActionsCons(a: seq<Event>, b: seq<Event>, c: seq<Event>, d: seq<Event>)
    requires |a| == |b| == 1 && ActionOf(a[0]) == ActionOf(b[0]) && SameActions(c, d)
    ensures SameActions(a + c, b + d)
  {
    forall i | 1 <= i < |a + c| ensures ActionOf((a + c)[i]) == ActionOf((b + d)[i]) {
      assert (a + c)[i] == c[i - 1] && (b + d)[i] == d[i - 1];
    }
  }

  /** Outside update mode one operation yields the same kind of action dry or real, whatever the trees. */
  lemma StepAction(op: Op, dryFs: FS, realFs: FS, root: Path, mode: Mode)
    requires |op.rel| > 0 && !mode.updateMode
    ensures ActionOf(StepOp(op, dryFs, root, mode.(dryRun := true)).log[0])
         == ActionOf(StepOp(op, realFs, root, mode.(dryRun := false)).log[0])
  {
  }

  /** Outside update mode the dry run lists the real run's directories and file writes, one for one,
      whatever the tree. */
  lemma PlainPreviewActions(ops: seq<Op>, fs: FS, root: Path, mode: Mode)
    requires Named(ops) && !mode.updateMode
    ensures var dry := Apply(ops, fs, root, mode.(dryRun := true)).log;
            var live := Apply(ops, fs, root, mode.(dryRun := false)).log;
            |dry| == |live| && forall i | 0 <= i < |dry| :: ActionOf(dry[i]) == ActionOf(live[i])
  {
    PlainPreviewOnward(ops, fs, fs, root, mode);
  }

  /** Outside update mode the kind of each event depends only on the operation, not on the tree. */
  lemma {:induction false} PlainPreviewOnward(ops: seq<Op>, dryFs: FS, realFs: FS, root: Path, mode: Mode)
    requires Named(ops) && !mode.updateMode
    ensures SameActions(Apply(ops, dryFs, root, mode.(dryRun := true)).log, Apply(ops, realFs, root, mode.(dryRun := false)).log)
    decreases |ops|
  {
    if |ops| > 0 {
      var dm := mode.(dryRun := true);
      var rm := mode.(dryRun := false);
      var d := StepOp(ops[0], dryFs, root, dm);
      var w := StepOp(ops[0], realFs, root, rm);
      StepAction(ops[0], dryFs, realFs, root, mode);
      PlainPreviewOnward(ops[1..], d.fs, w.fs, root, mode);
      SameActionsCons(d.log, w.log, Apply(ops[1..], d.fs, root, dm).log, Apply(ops[1..], w.fs, root, rm).log);
    }
  }

  /** The operations of a listing holding `a.md` (content `x`) and `a.md.template` (content `y`). */
  function CollidingOps(x: string, y: string): seq<Op> {
    [Copy(["a.md"], ["a.md"], x), Copy(["a.md"], ["a.md.template"], y)]
  }

  lemma CollidingNames()
    ensures StripName("a.md.template") == StripName("a.md") == "a.md"
  {
    assert "a.md.template" == "a.md" + TemplateSuffix;
    StripTemplateRoundTrip("a.md");
    assert !EndsWith("a.md", TemplateSuffix) by { assert |"a.md"| < |TemplateSuffix|; }
  }

  /** Two entries reaching one destination: the dry run announces two creations ... */
  lemma CollidingPreview(root: Path, x: string, y: string)
    ensures Apply(CollidingOps(x, y), FS(map[], {}), root, Mode(true, false, {})).log
         == [Create(["a.md"]), Create(["a.md"])]
  {
    var ops := CollidingOps(x, y);
    var b := ops[1];
    var empty := FS(map[], {});
    var dry := Mode(true, false, {});
    assert ops[1..] == [b] && [b][1..] == [];
    var d1 := StepOp(ops[0], empty, root, dry);
    assert d1 == Run(empty, [Create(["a.md"])]);
    var d2 := StepOp(b, empty, root, dry);
    assert d2 == Run(empty, [Create(["a.md"])]);
    assert Apply([b], empty, root, dry) == Run(empty, d2.log + []);
  }

  /** ... while the real run creates the file and then overwrites it with the second entry's content. */
  lemma CollidingOverwrite(root: Path, x: string, y: string)
    ensures Apply(CollidingOps(x, y), FS(map[], {}), root, Mode(false, false, {})).log
         == [Write(["a.md"], false), Write(["a.md"], true)]
    ensures var files := Apply(CollidingOps(x, y), FS(map[], {}), root, Mode(false, false, {})).fs.files;
      Resolve(root + ["a.md"]) in files && files[Resolve(root + ["a.md"])] == y
  {
    var ops := CollidingOps(x, y);
    var b := ops[1];
    var t := Resolve(root + ["a.md"]);
    var plain := Mode(false, false, {});
    assert ops[1..] == [b] && [b][1..] == [];
    var w1 := StepOp(ops[0], FS(map[], {}), root, plain);
    assert w1.log == [Write(["a.md"], false)] && t in w1.fs.files;
    var w2 := StepOp(b, w1.fs, root, plain);
    assert w2.log == [Write(["a.md"], true)] && w2.fs.files[t] == y;
    assert Apply([b], w1.fs, root, plain) == Run(w2.fs, w2.log + []);
  }

  // ---------------------------------------------------------------------------------------
  // copy_tree as a whole

  datatype CopyResult = CopyResult(fs: FS, log: seq<Event>, outcome: Outcome)

  /** `a` and `b` lie on one line of descent. */
  predicate Comparable(a: Path, b: Path) {
    IsPrefixPath(a, b) || IsPrefixPath(b, a)
  }

  lemma PrefixesComparable(q: Path, r: Path, x: Path)
    requires IsPrefixPath(q, x) && IsPrefixPath(r, x)
    ensures Comparable(q, r)
  {
    if |q| <= |r| {
      assert r[..|q|] == x[..|r|][..|q|];
    } else {
      assert q[..|r|] == x[..|q|][..|r|];
    }
  }

  /** Every file the walk's operations write lies inside the resolved root, and every directory they
      create is inside it or one of its ancestors. */
  lemma {:induction false} OpsContained(ops: seq<Op>, root: Path, skip: set<string>)
    requires forall op | op in ops :: GoodOp(op, [], [], root, skip)
    ensures Named(ops)
    ensures forall p | p in Targets(ops, root) :: IsPrefixPath(Resolve(root), p)
    ensures forall d | d in DirsOf(ops, root) :: Comparable(d, Resolve(root))
    decreases |ops|
  {
    assert Named(ops) by {
      forall i | 0 <= i < |ops| ensures |ops[i].rel| > 0 { assert ops[i] in ops; }
    }
    forall p | p in Targets(ops, root) ensures IsPrefixPath(Resolve(root), p) {
      var i :| 0 <= i < |ops| && ops[i].Copy? && p == Target(root, ops[i]);
      assert ops[i] in ops;
      assert ops[i].rel[..|ops[i].rel|] == ops[i].rel;
    }
    if |ops| > 0 {
      var op := ops[0];
      assert op in ops;
      var n := |op.rel|;
      assert op.rel[..n] == op.rel;
      assert IsPrefixPath(Resolve(root), Target(root, op));
      assert IsPrefixPath(Resolve(root), Parent(root, op)) by {
        if n > 1 {
          assert Within(root + op.rel[..n - 1], root);
        } else {
          assert root + op.rel[..n - 1] == root;
        }
      }
      forall d | d in DirsOfOp(root, op) ensures Comparable(d, Resolve(root)) {
        if op.MkDir? {
          PrefixesComparable(d, Resolve(root), Target(root, op));
        } else {
          PrefixesComparable(d, Resolve(root), Parent(root, op));
        }
      }
      assert forall op' | op' in ops[1..] :: op' in ops;
      OpsContained(ops[1..], root, skip);
    }
  }

  /** `copy_tree(src, dst, dry_run, update_mode, skip_patterns, preserve_on_update)` from the top:
      the walk of the source listing, performed against the destination. On `Blocked` the
      operations before the escaping entry have already been performed. */
  function CopyTree(listing: seq<Node>, root: Path, fs: FS, dryRun: bool, updateMode: bool,
                    skipPatterns: Option<set<string>>, preserveOnUpdate: Option<set<string>>): (r: CopyResult)
    ensures dryRun ==> r.fs == fs
    ensures fs.files.Keys <= r.fs.files.Keys && fs.dirs <= r.fs.dirs
    ensures forall p | p in r.fs.files && (p !in fs.files || r.fs.files[p] != fs.files[p]) ::
      IsPrefixPath(Resolve(root), p)
    ensures forall d | d in r.fs.dirs && d !in fs.dirs :: Comparable(d, Resolve(root))
    ensures r.outcome.Blocked? ==> !Within(root + r.outcome.rel, root)
  {
    var skip := skipPatterns.GetOr({});
    var preserve := if preserveOnUpdate.None? || preserveOnUpdate.value == {} then PreserveOnUpdate
                    else preserveOnUpdate.value;
    var w := Walk(listing, [], [], root, skip);
    WalkGood(listing, [], [], root, skip);
    OpsContained(w.ops, root, skip);
    var run := Apply(w.ops, fs, root, Mode(dryRun, updateMode, preserve));
    ApplyFootprint(w.ops, fs, root, Mode(dryRun, updateMode, preserve));
    CopyResult(run.fs, run.log, w.outcome)
  }

  /** A pattern is matched by every path whose text begins with it, trailing '/' aside. */
  lemma PreservedBy(rel: seq<string>, text: string, p: string, patterns: set<string>)
    requires p in patterns && RelText(rel) == text && StartsWith(text, RStripSet(p, {'/'}))
    ensures PreservedRel(rel, patterns)
  {
  }

  /** Without a backslash the relative path text is the '/'-joined path itself. */
  lemma RelTextPlain(rel: seq<string>, joined: string)
    requires Join(rel, "/") == joined
    requires forall i | 0 <= i < |joined| :: joined[i] != '\\'
    ensures RelText(rel) == joined
  {
    CharAbsent(joined, '\\');
    assert [('\\')] == "\\";
    ReplaceAbsent(joined, "\\", "/");
  }

  /** A backslash inside one name counts as a separator: `x\y` has the text `x/y`. */
  lemma RelTextBackslash(x: string, y: string)
    requires forall i | 0 <= i < |x| :: x[i] != '\\'
    requires forall i | 0 <= i < |y| :: y[i] != '\\'
    ensures RelText([x + "\\" + y]) == x + "/" + y
  {
    var s := x + "\\" + y;
    CharAbsent(x, '\\');
    CharAbsent(y, '\\');
    assert [('\\')] == "\\";
    forall j | 0 <= j < |x| + 1 ensures !OccursAt(s, "\\", j) || j == |x| {
      if j < |x| {
        assert s[j] == x[j];
        assert s[j..j + 1][0] == s[j];
      }
    }
    SplitOnce(x, y, "\\");
    assert Join([s], "/") == s;
    assert Join([x, y], "/") == x + "/" + y;
  }

  lemma BackslashText()
    ensures RelText(["session\\CURRENT_TASK.md"]) == "session/CURRENT_TASK.md"
  {
    RelTextBackslash("session", "CURRENT_TASK.md");
    SessionNames();
  }

  lemma SessionNames()
    ensures "session" + "\\" + "CURRENT_TASK.md" == "session\\CURRENT_TASK.md"
    ensures "session" + "/" + "CURRENT_TASK.md" == "session/CURRENT_TASK.md"
  {
  }

  /** A template named `session\CURRENT_TASK.md` is preserved like `session/CURRENT_TASK.md`. */
  lemma BackslashNamePreserved()
    ensures PreservedRel(["session\\CURRENT_TASK.md"], PreserveOnUpdate)
  {
    var p := "session/CURRENT_TASK.md";
    assert p in PreserveOnUpdate;
    assert RStripSet(p, {'/'}) == p;
    BackslashText();
    PreservedBy(["session\\CURRENT_TASK.md"], p, p, PreserveOnUpdate);
  }

  /** The default preserve-set keeps the session logs and everything under `knowledge` and `docs`,
      by plain string prefix, so `docs-old/x.md` is kept too. */
  lemma DefaultPreserveSet()
    ensures PreservedRel(["session", "CURRENT_TASK.md"], PreserveOnUpdate)
    ensures PreservedRel(["knowledge", "api.md"], PreserveOnUpdate)
    ensures PreservedRel(["docs-old", "x.md"], PreserveOnUpdate)
  {
    PreservedSession();
    PreservedKnowledge();
    PreservedDocsOld();
  }

  lemma PreservedSession()
    ensures PreservedRel(["session", "CURRENT_TASK.md"], PreserveOnUpdate)
  {
    var p := "session/CURRENT_TASK.md";
    assert p in PreserveOnUpdate;
    assert RStripSet(p, {'/'}) == p;
    JoinPair("session", "CURRENT_TASK.md", "/");
    RelTextPlain(["session", "CURRENT_TASK.md"], p);
    PreservedBy(["session", "CURRENT_TASK.md"], p, p, PreserveOnUpdate);
  }

  lemma PreservedKnowledge()
    ensures PreservedRel(["knowledge", "api.md"], PreserveOnUpdate)
  {
    var p := "knowledge/";
    assert p in PreserveOnUpdate;
    assert RStripSet(p, {'/'}) == "knowledge" by { assert p[..9] == "knowledge"; }
    JoinPair("knowledge", "api.md", "/");
    RelTextPlain(["knowledge", "api.md"], "knowledge/api.md");
    assert StartsWith("knowledge/api.md", "knowledge");
    PreservedBy(["knowledge", "api.md"], "knowledge/api.md", p, PreserveOnUpdate);
  }

  lemma PreservedDocsOld()
    ensures PreservedRel(["docs-old", "x.md"], PreserveOnUpdate)
  {
    var p := "docs/";
    assert p in PreserveOnUpdate;
    assert RStripSet(p, {'/'}) == "docs" by { assert p[..4] == "docs"; }
    JoinPair("docs-old", "x.md", "/");
    RelTextPlain(["docs-old", "x.md"], "docs-old/x.md");
    assert StartsWith("docs-old/x.md", "docs");
    PreservedBy(["docs-old", "x.md"], "docs-old/x.md", p, PreserveOnUpdate);
  }

  lemma ClaudeMdText()
    ensures RelText(["CLAUDE.md"]) == "CLAUDE.md"
  {
    assert Join(["CLAUDE.md"], "/") == "CLAUDE.md";
    RelTextPlain(["CLAUDE.md"], "CLAUDE.md");
  }

  lemma ClaudeMdNotPreserved()
    ensures !PreservedRel(["CLAUDE.md"], PreserveOnUpdate)
  {
    ClaudeMdText();
    assert forall p | p in PreserveOnUpdate :: |p| > 0 && p[0] != 'C' && p[0] != '/';
    NotPreservedByHead(["CLAUDE.md"], "CLAUDE.md", PreserveOnUpdate);
  }

  /** A path is not preserved when no pattern begins with its first character. */
  lemma NotPreservedByHead(rel: seq<string>, text: string, patterns: set<string>)
    requires RelText(rel) == text && |text| > 0
    requires forall p | p in patterns :: |p| > 0 && p[0] != text[0] && p[0] != '/'
    ensures !PreservedRel(rel, patterns)
  {
    forall p | p in patterns ensures !StartsWith(text, RStripSet(p, {'/'})) {
      var r := RStripSet(p, {'/'});
      RStripRemoved(p, {'/'});
      assert |r| > 0 && r[0] == p[0];
    }
  }

  // ---------------------------------------------------------------------------------------
  // The walk over a plain listing

  /** A file entry the walk copies under its own name. */
  predicate PlainFile(x: Node, skip: set<string>) {
    x.File? && x.name !in skip && !Contains(x.name, TemplateSuffix) && x.name != ".."
  }

  /** One copy to the entry's own name per file entry, in order. */
  function FlatCopies(items: seq<Node>): seq<Op> {
    if |items| == 0 then []
    else
      var x := items[0];
      (if x.File? then [Copy([x.name], [x.name], x.content)] else []) + FlatCopies(items[1..])
  }

  lemma {:induction false} WalkItemsFlat(nodes: seq<Node>, items: seq<Node>, root: Path, skip: set<string>)
    requires forall x | x in items :: x in nodes && PlainFile(x, skip)
    ensures WalkItems(nodes, items, [], [], root, skip) == WalkResult(FlatCopies(items), Done)
    decreases |items|
  {
    if |items| > 0 {
      var x := items[0];
      assert x in items;
      assert !EndsWith(x.name, TemplateSuffix) by {
        if EndsWith(x.name, TemplateSuffix) {
          OccursAtContains(x.name, TemplateSuffix, |x.name| - |TemplateSuffix|);
        }
      }
      assert Within(root + ([] + [x.name]), root) by {
        assert root + ([] + [x.name]) == root + [x.name];
        WithinDescend(root, root, x.name);
      }
      assert forall y | y in items[1..] :: y in items;
      WalkItemsFlat(nodes, items[1..], root, skip);
    }
  }

  /** A listing of plain files (none skipped, none a template) is copied file by file, in sorted
      order, to the same names, and the walk completes. */
  lemma WalkFlat(nodes: seq<Node>, root: Path, skip: set<string>)
    requires forall x | x in nodes :: PlainFile(x, skip)
    ensures Walk(nodes, [], [], root, skip) == WalkResult(FlatCopies(SortByName(nodes)), Done)
  {
    forall x | x in SortByName(nodes) ensures x in nodes && PlainFile(x, skip) {
      SortedMembers(nodes, x);
    }
    WalkItemsFlat(nodes, SortByName(nodes), root, skip);
  }
}
