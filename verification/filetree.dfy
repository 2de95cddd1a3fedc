/**
 * An abstract directory tree, as `Path.iterdir()` would list it, with path lookup,
 * ordering of a listing by name (Python's `sorted` over sibling paths), and lexical
 * path resolution standing in for `Path.resolve()`.
 */
module FileTree {
  import opened Wrappers
  import opened Strs

  /** One path component: non-empty, free of '/', and not ".". The component ".." is allowed
      and plays the part of an entry (a symlink, in a real tree) that leads out of its directory. */
  predicate IsName(s: string) {
    |s| > 0 && '/' !in s && s != "."
  }

  type Name = s: string | IsName(s) witness "a"

  datatype Node = File(name: Name, content: string) | Dir(name: Name, children: seq<Node>)

  /** The first entry of a listing with the given name. */
  function FindChild(nodes: seq<Node>, name: string): (r: Option<Node>)
    ensures r.Some? ==> r.value in nodes && r.value.name == name
    ensures r.None? ==> forall k | 0 <= k < |nodes| :: nodes[k].name != name
  {
    if |nodes| == 0 then None
    else if nodes[0].name == name then Some(nodes[0])
    else FindChild(nodes[1..], name)
  }

  /** The entry reached by following `path` (a sequence of components) from a listing. */
  function Lookup(nodes: seq<Node>, path: seq<string>): Option<Node>
    requires |path| > 0
    decreases |path|
  {
    match FindChild(nodes, path[0])
    case None => None
    case Some(n) =>
      if |path| == 1 then Some(n)
      else if n.Dir? then Lookup(n.children, path[1..])
      else None
  }

  /** `(root / path).exists()` for a relative path, a file or a directory alike. */
  predicate Exists(nodes: seq<Node>, path: seq<string>)
    requires |path| > 0
  {
    Lookup(nodes, path).Some?
  }

  // ---------------------------------------------------------------------------------------
  // Ordering a listing by name

  predicate SortedByName(nodes: seq<Node>) {
    forall k | 0 <= k < |nodes| - 1 :: LexLe(nodes[k].name, nodes[k + 1].name)
  }

  function InsertByName(x: Node, nodes: seq<Node>): (r: seq<Node>)
    requires SortedByName(nodes)
    ensures SortedByName(r)
    ensures multiset(r) == multiset(nodes) + multiset{x}
    ensures |r| > 0 && (r[0] == x || (|nodes| > 0 && r[0] == nodes[0]))
  {
    if |nodes| == 0 then [x]
    else if LexLe(x.name, nodes[0].name) then [x] + nodes
    else
      LexTotal(x.name, nodes[0].name);
      var rest := InsertByName(x, nodes[1..]);
      assert nodes == [nodes[0]] + nodes[1..];
      [nodes[0]] + rest
  }

  /** Python's `sorted(items, key=name)`: the same entries, ordered by name. */
  function SortByName(nodes: seq<Node>): (r: seq<Node>)
    ensures SortedByName(r)
    ensures multiset(r) == multiset(nodes)
    ensures |r| == |nodes|
  {
    if |nodes| == 0 then []
    else
      assert nodes == [nodes[0]] + nodes[1..];
      InsertByName(nodes[0], SortByName(nodes[1..]))
  }

  lemma SortedMembers(nodes: seq<Node>, n: Node)
    ensures n in SortByName(nodes) <==> n in nodes
  {
    var r := SortByName(nodes);
    assert n in r <==> n in multiset(r);
    assert n in nodes <==> n in multiset(nodes);
  }

  // ---------------------------------------------------------------------------------------
  // Absolute paths and their lexical resolution

  /** An absolute path as its sequence of components below the filesystem root. */
  type Path = seq<string>

  /** One step of resolution: ".." climbs (and stays put at the filesystem root), anything else descends. */
  function Step(acc: Path, c: string): Path {
    if c == ".." then (if |acc| > 0 then acc[..|acc| - 1] else []) else acc + [c]
  }

  /** Lexical stand-in for `Path.resolve()`: every ".." cancels the component before it. */
  function Resolve(p: Path): (r: Path)
    ensures ".." !in r
    ensures |r| <= |p|
  {
    if |p| == 0 then [] else Step(Resolve(p[..|p| - 1]), p[|p| - 1])
  }

  lemma ResolveAppend(p: Path, c: string)
    ensures Resolve(p + [c]) == Step(Resolve(p), c)
  {
    assert (p + [c])[..|p + [c]| - 1] == p;
  }

  /** `a` is `b` or one of its ancestors. */
  predicate IsPrefixPath(a: Path, b: Path) {
    |a| <= |b| && b[..|a|] == a
  }

  /** `path.resolve().is_relative_to(root.resolve())`. */
  predicate Within(path: Path, root: Path) {
    IsPrefixPath(Resolve(root), Resolve(path))
  }

  /** Descending by an ordinary component keeps a contained path contained. */
  lemma WithinDescend(path: Path, root: Path, c: string)
    requires Within(path, root) && c != ".."
    ensures Within(path + [c], root)
  {
    ResolveAppend(path, c);
  }

  /** Climbing with ".." keeps a path contained exactly when it was strictly below the root
      (or the root is the filesystem root, which ".." cannot leave). */
  lemma WithinClimb(path: Path, root: Path)
    requires Within(path, root)
    ensures Within(path + [".."], root) <==> Resolve(path) != Resolve(root) || Resolve(root) == []
  {
    ResolveAppend(path, "..");
    var rp := Resolve(path);
    var rr := Resolve(root);
    if rp == rr {
      if |rp| > 0 {
        assert |rp[..|rp| - 1]| < |rr|;
      }
    } else {
      assert |rr| < |rp|;
      assert rp[..|rp| - 1][..|rr|] == rr;
    }
  }

  /** Every non-empty ancestor of `p`, and `p` itself: what `mkdir(parents=True)` brings into existence. */
  function Prefixes(p: Path): (r: set<Path>)
    ensures forall q | q in r :: IsPrefixPath(q, p) && |q| > 0
    ensures forall k | 1 <= k <= |p| :: p[..k] in r
    ensures |p| > 0 ==> p in r
  {
    assert |p| > 0 ==> p[..|p|] == p;
    set k | 1 <= k <= |p| :: p[..k]
  }
}
