/**
 * The part of `pathlib.PurePosixPath` the hooks use: parsing a path string into its anchor and
 * parts, `str(Path(p))` and `Path(p).name`. Parsing drops empty parts (repeated or trailing
 * slashes) and "." parts; exactly two leading slashes are kept as a distinct anchor.
 */
module PurePaths {
  import opened Wrappers
  import opened Strs

  /** One part of a parsed path: non-empty, free of '/', and not ".". */
  predicate IsPart(x: string) {
    x != "" && x != "." && !Contains(x, "/")
  }

  /** The pieces that survive parsing, in order: all but the empty ones and ".". */
  function Keep(pieces: seq<string>): (r: seq<string>)
    ensures forall k | 0 <= k < |r| :: r[k] in pieces && r[k] != "" && r[k] != "."
    ensures |r| <= |pieces|
  {
    if |pieces| == 0 then []
    else
      var rest := Keep(pieces[1..]);
      if pieces[0] == "" || pieces[0] == "." then rest else [pieces[0]] + rest
  }

  /** The parts of `PurePosixPath(path)` after its anchor. */
  function Parts(path: string): (r: seq<string>)
    ensures forall k | 0 <= k < |r| :: IsPart(r[k])
  {
    var pieces := Split(path, "/");
    var r := Keep(pieces);
    assert forall k | 0 <= k < |r| :: r[k] in pieces;
    r
  }

  /** The anchor: "//" for exactly two leading slashes, "/" for one or three and more, else "". */
  function Anchor(path: string): string {
    if StartsWith(path, "//") && !StartsWith(path, "///") then "//"
    else if StartsWith(path, "/") then "/"
    else ""
  }

  /** `str(PurePosixPath(path))`: the anchor and the parts joined by "/", or "." when both are empty. */
  function PathString(path: string): string {
    if Anchor(path) == "" && Parts(path) == [] then "." else Anchor(path) + Join(Parts(path), "/")
  }

  /** `PurePosixPath(path).name`: the last part, or "" when there is none. */
  function Name(path: string): (b: string)
    ensures b == "" <==> Parts(path) == []
    ensures b != "" ==> IsPart(b)
  {
    var ps := Parts(path);
    if ps == [] then "" else ps[|ps| - 1]
  }

  // ---------------------------------------------------------------------------------------
  // Splitting on a separator that does not occur in a piece

  /** Splitting at a first separator: the piece before it, then the pieces of the rest. */
  lemma SplitFront(a: string, b: string)
    requires !Contains(a, "/")
    ensures Split(a + "/" + b, "/") == [a] + Split(b, "/")
  {
    var s := a + "/" + b;
    assert OccursAt(s, "/", |a|);
    forall j | 0 <= j < |a| ensures !OccursAt(s, "/", j) {
      if OccursAt(s, "/", j) {
        assert s[j..j + 1] == a[j..j + 1];
        OccursAtContains(a, "/", j);
      }
    }
    assert IndexOf(s, "/") == Some(|a|);
    assert s[..|a|] == a;
    assert s[|a| + 1..] == b;
  }

  /** A join of pieces free of "/" splits back into the pieces. */
  lemma {:induction false} SplitJoin(ps: seq<string>)
    requires |ps| > 0
    requires forall k | 0 <= k < |ps| :: !Contains(ps[k], "/")
    ensures Split(Join(ps, "/"), "/") == ps
    decreases |ps|
  {
    if |ps| == 1 {
      SplitNoSep(ps[0], "/");
    } else {
      SplitJoin(ps[1..]);
      SplitFront(ps[0], Join(ps[1..], "/"));
    }
  }

  /** Splitting before a last piece free of "/". */
  lemma SplitBack(a: string, b: string)
    requires !Contains(b, "/")
    ensures Split(a + "/" + b, "/") == Split(a, "/") + [b]
  {
    var ps := Split(a, "/");
    JoinAppend(ps, b, "/");
    SplitJoin(ps + [b]);
  }

  lemma {:induction false} KeepAppend(xs: seq<string>, ys: seq<string>)
    ensures Keep(xs + ys) == Keep(xs) + Keep(ys)
    decreases |xs|
  {
    if |xs| > 0 {
      assert (xs + ys)[1..] == xs[1..] + ys;
      KeepAppend(xs[1..], ys);
    } else {
      assert xs + ys == ys;
    }
  }

  lemma {:induction false} KeepParts(ps: seq<string>)
    requires forall k | 0 <= k < |ps| :: IsPart(ps[k])
    ensures Keep(ps) == ps
    decreases |ps|
  {
    if |ps| > 0 {
      assert IsPart(ps[0]);
      KeepParts(ps[1..]);
      assert ps == [ps[0]] + ps[1..];
    }
  }

  // ---------------------------------------------------------------------------------------
  // Properties

  /** The name of a path that ends in a part is that part, whatever comes before it. */
  lemma NameOfAppended(dir: string, n: string)
    requires IsPart(n)
    ensures Name(dir + "/" + n) == n
  {
    PartsOfAppended(dir, n);
  }

  /** A trailing slash does not change the name. */
  lemma NameOfAppendedSlash(dir: string, n: string)
    requires IsPart(n)
    ensures Name(dir + "/" + n + "/") == n
  {
    var p := dir + "/" + n;
    SplitBack(p, "");
    KeepAppend(Split(p, "/"), [""]);
    assert Keep([""]) == [];
    assert Parts(p + "/" + "") == Parts(p);
    assert p + "/" + "" == p + "/";
    PartsOfAppended(dir, n);
  }

  lemma PartsOfAppended(dir: string, n: string)
    requires IsPart(n)
    ensures Parts(dir + "/" + n) == Parts(dir) + [n]
  {
    SplitBack(dir, n);
    KeepAppend(Split(dir, "/"), [n]);
    assert Keep([n]) == [n];
  }

  /** A string with no '/' character does not contain "/". */
  lemma NoSlash(x: string)
    requires forall k | 0 <= k < |x| :: x[k] != '/'
    ensures !Contains(x, "/")
  {
    forall i | 0 <= i <= |x| - 1 ensures !OccursAt(x, "/", i) {
      assert x[i..i + 1][0] == x[i];
    }
  }

  /** A bare part is its own name. */
  lemma NameOfPart(n: string)
    requires IsPart(n)
    ensures Name(n) == n
  {
    SplitNoSep(n, "/");
    assert Keep([n]) == [n];
  }

  /** Parsing the string form of a path gives back the same anchor and parts: `str(Path(str(Path(p))))`
      is `str(Path(p))`, and the name does not change. */
  lemma PathStringRoundTrip(path: string)
    ensures Parts(PathString(path)) == Parts(path)
    ensures Anchor(PathString(path)) == Anchor(path)
    ensures PathString(PathString(path)) == PathString(path)
    ensures Name(PathString(path)) == Name(path)
  {
    var ps, a := Parts(path), Anchor(path);
    var s := PathString(path);
    if a == "" && ps == [] {
      DotOnly();
    } else if ps == [] {
      assert s == a;
      RootOnly(a);
    } else {
      var j := Join(ps, "/");
      assert s == a + j;
      PartsOfJoin(ps);
      AnchoredParts(a, j);
    }
  }

  /** "." parses to no anchor and no parts. */
  lemma DotOnly()
    ensures Parts(".") == [] && Anchor(".") == ""
  {
    NoSlash(".");
    SplitNoSep(".", "/");
    assert Keep(["."]) == [];
  }

  /** Parts joined by "/" parse back to themselves, and the join does not start with "/". */
  lemma PartsOfJoin(ps: seq<string>)
    requires |ps| > 0 && forall k | 0 <= k < |ps| :: IsPart(ps[k])
    ensures Parts(Join(ps, "/")) == ps
    ensures |Join(ps, "/")| > 0 && Join(ps, "/")[0] != '/'
  {
    var j := Join(ps, "/");
    SplitJoin(ps);
    KeepParts(ps);
    JoinStartsWithHead(ps[0], ps[1..], "/");
    assert ps == [ps[0]] + ps[1..];
    PartHead(ps[0]);
    assert j[..|ps[0]|] == ps[0];
    assert j[0] == ps[0][0];
  }

  /** A part does not start with '/'. */
  lemma PartHead(x: string)
    requires IsPart(x)
    ensures x[0] != '/'
  {
    assert !OccursAt(x, "/", 0);
    assert x[0..1] == [x[0]];
  }

  /** The string of an anchor alone parses back to that anchor and no parts. */
  lemma RootOnly(a: string)
    requires a == "/" || a == "//"
    ensures Parts(a) == [] && Anchor(a) == a
  {
    EmptyParts();
    SlashThen("");
    assert "/" + "" == "/";
    if a == "//" {
      SlashThen("/");
      assert "/" + "/" == a;
      assert a[..2] == "//";
    } else {
      assert a[..1] == "/";
    }
  }

  /** The empty string parses to no parts. */
  lemma EmptyParts()
    ensures Parts("") == []
  {
    NoSlash("");
    SplitNoSep("", "/");
    assert Keep([""]) == [];
  }

  /** An anchor in front of text that does not start with "/" parses to that anchor and the
      parts of the text. */
  lemma AnchoredParts(a: string, j: string)
    requires a == "" || a == "/" || a == "//"
    requires |j| > 0 && j[0] != '/'
    ensures Parts(a + j) == Parts(j)
    ensures Anchor(a + j) == a
  {
    if a == "" {
      assert a + j == j;
    } else if a == "/" {
      SlashThen(j);
    } else {
      SlashThen("/" + j);
      SlashThen(j);
      assert a + j == "/" + ("/" + j);
    }
    AnchorOf(a, j);
  }

  /** A leading slash adds one empty piece, which parsing drops. */
  lemma SlashThen(x: string)
    ensures Parts("/" + x) == Parts(x)
  {
    NoSlash("");
    SplitFront("", x);
    assert "" + "/" + x == "/" + x;
    var qs := Split(x, "/");
    assert ([""] + qs)[1..] == qs;
  }

  lemma AnchorOf(a: string, j: string)
    requires a == "" || a == "/" || a == "//"
    requires |j| > 0 && j[0] != '/'
    ensures Anchor(a + j) == a
  {
    var s := a + j;
    assert s[|a|] == j[0];
    if a == "//" {
      assert s[..2] == "//";
    } else if a == "/" {
      assert s[..1] == "/";
    }
  }

}
