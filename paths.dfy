/**
 * The path handling of `save_files`: POSIX `os.path.normpath` and
 * `os.path.join`, and the traversal guard of the docker, kubernetes,
 * ansible and terraform agents, which skips a file whose normalised name
 * starts with the separator or contains "..".
 *
 * `normpath` is the library's, not the agents'; it is stated here as the
 * standard library defines it for POSIX paths, without touching the file
 * system.
 */
module Paths {
  import opened Text

  /**
   * The kept components of a path: empty and "." components are dropped, and
   * ".." removes the previous kept component unless there is none (kept only
   * in a relative path) or it is itself "..".
   */
  function NormComps(comps: seq<string>, absolute: bool, acc: seq<string>): seq<string>
    decreases |comps|
  {
    if comps == [] then acc
    else
      var c := comps[0];
      if c == "" || c == "." then NormComps(comps[1..], absolute, acc)
      else if c != ".." || (!absolute && acc == []) || (acc != [] && acc[|acc| - 1] == "..") then
        NormComps(comps[1..], absolute, acc + [c])
      else if acc != [] then NormComps(comps[1..], absolute, acc[..|acc| - 1])
      else NormComps(comps[1..], absolute, acc)
  }

  /** The leading separators `normpath` keeps: two exactly when the path starts with two but not three. */
  function LeadingSlashes(path: string): string {
    if !StartsWith(path, "/") then ""
    else if StartsWith(path, "//") && !StartsWith(path, "///") then "//"
    else "/"
  }

  /** `os.path.normpath(path)` on POSIX. */
  function NormPath(path: string): string {
    if path == "" then "."
    else
      var head := LeadingSlashes(path);
      var r := head + Join(NormComps(SplitOn(path, '/'), head != "", []), "/");
      if r == "" then "." else r
  }

  /** `os.path.join(a, b)` on POSIX, for two arguments. */
  function PathJoin(a: string, b: string): string {
    if StartsWith(b, "/") then b
    else if a == "" || EndsWith(a, "/") then a + b
    else a + "/" + b
  }

  /** The guard of `save_files`: the normalised name is relative and has no ".." in it. */
  predicate PassesGuard(name: string) {
    var p := NormPath(name);
    !StartsWith(p, "/") && !Contains(p, "..")
  }

  // ---------------------------------------------------------------------
  // What normalisation keeps

  /** A component that survives normalisation: non-empty, without separator, not ".". */
  predicate KeptComp(c: string) {
    c != "" && c != "." && '/' !in c
  }

  lemma {:induction false} NormCompsKept(comps: seq<string>, absolute: bool, acc: seq<string>)
    requires forall k :: 0 <= k < |comps| ==> '/' !in comps[k]
    requires forall k :: 0 <= k < |acc| ==> KeptComp(acc[k])
    ensures forall k :: 0 <= k < |NormComps(comps, absolute, acc)| ==> KeptComp(NormComps(comps, absolute, acc)[k])
    decreases |comps|
  {
    if comps != [] {
      var c := comps[0];
      assert forall k :: 0 <= k < |comps[1..]| ==> comps[1..][k] == comps[k + 1];
      if c == "" || c == "." {
        NormCompsKept(comps[1..], absolute, acc);
      } else if c != ".." || (!absolute && acc == []) || (acc != [] && acc[|acc| - 1] == "..") {
        NormCompsKept(comps[1..], absolute, acc + [c]);
      } else if acc != [] {
        NormCompsKept(comps[1..], absolute, acc[..|acc| - 1]);
      } else {
        NormCompsKept(comps[1..], absolute, acc);
      }
    }
  }

  /** A join of non-empty parts starts with the first part's first character. */
  lemma JoinHead(parts: seq<string>, sep: string)
    requires parts != [] && parts[0] != ""
    ensures Join(parts, sep) != "" && Join(parts, sep)[0] == parts[0][0]
  {
    if |parts| > 1 {
      JoinCons(parts[0], parts[1..], sep);
      assert [parts[0]] + parts[1..] == parts;
    }
  }

  /** Normalisation keeps a path absolute exactly when it was absolute. */
  lemma AbsoluteKept(path: string)
    ensures StartsWith(NormPath(path), "/") <==> StartsWith(path, "/")
  {
    if path == "" {
      assert NormPath(path) == ".";
      assert "."[..1] != "/";
    } else if StartsWith(path, "/") {
      var head := LeadingSlashes(path);
      assert head == "/" || head == "//";
      var r := head + Join(NormComps(SplitOn(path, '/'), true, []), "/");
      assert NormPath(path) == r;
      assert r[0] == '/';
      assert r[..1] == "/";
    } else {
      var comps := SplitOn(path, '/');
      SplitOnPieces(path, '/');
      NormCompsKept(comps, false, []);
      var kept := NormComps(comps, false, []);
      assert LeadingSlashes(path) == "";
      if kept != [] {
        JoinHead(kept, "/");
        assert kept[0][0] != '/';
        var r := Join(kept, "/");
        assert NormPath(path) == r;
        assert r[..1] != "/" by {
          assert r[..1][0] == r[0];
        }
      } else {
        assert NormPath(path) == ".";
        assert "."[..1] != "/";
      }
    }
  }

  /** A single component other than "." is its own normal form, ".." included. */
  lemma SingleComponent(name: string)
    requires KeptComp(name)
    ensures NormPath(name) == name
  {
    SplitNoSep(name, '/');
    assert !StartsWith(name, "/") by {
      assert name[0] in name;
    }
    assert [name][1..] == [];
    assert NormComps([name], false, []) == [name];
  }

  /** The components of `a/../b`. */
  lemma ParentSplit(a: string, b: string)
    requires '/' !in a && '/' !in b
    ensures SplitOn(a + "/../" + b, '/') == [a, "..", b]
  {
    assert a + "/../" + b == a + ['/'] + (".." + ['/'] + b);
    SplitPrefix(a, ".." + ['/'] + b, '/');
    SplitPrefix("..", b, '/');
    SplitNoSep(b, '/');
  }

  /** `a/../b` normalises to `b` when `a` and `b` are ordinary components. */
  lemma ParentResolved(a: string, b: string)
    requires KeptComp(a) && a != ".."
    requires KeptComp(b) && b != ".."
    ensures NormPath(a + "/../" + b) == b
  {
    var path := a + "/../" + b;
    ParentSplit(a, b);
    assert path[0] == a[0];
    assert LeadingSlashes(path) == "";
    var comps := [a, "..", b];
    assert comps[1..] == ["..", b] && comps[1..][1..] == [b] && [b][1..] == [];
    assert NormComps(comps, false, []) == NormComps(["..", b], false, [a]);
    assert NormComps(["..", b], false, [a]) == NormComps([b], false, []);
    assert NormComps([b], false, []) == [b];
  }

  /** `../b` stays as it is: a relative path may start by going up. */
  lemma LeadingParentKept(b: string)
    requires KeptComp(b) && b != ".."
    ensures NormPath("../" + b) == "../" + b
  {
    var path := "../" + b;
    assert path == ".." + ['/'] + b;
    SplitPrefix("..", b, '/');
    SplitNoSep(b, '/');
    var comps := ["..", b];
    assert SplitOn(path, '/') == comps;
    assert LeadingSlashes(path) == "";
    assert comps[1..] == [b] && [b][1..] == [];
    assert [] + [".."] == [".."];
    assert NormComps(comps, false, []) == NormComps([b], false, [".."]);
    assert NormComps([b], false, [".."]) == ["..", b];
    JoinCons("..", [b], "/");
  }

  // ---------------------------------------------------------------------
  // The guard

  /** A name is skipped exactly when it is absolute or its normal form contains "..". */
  lemma GuardIff(name: string)
    ensures PassesGuard(name) <==> !StartsWith(name, "/") && !Contains(NormPath(name), "..")
  {
    AbsoluteKept(name);
  }

  /**
   * A plain file name containing ".." anywhere, such as "a..b.txt", is
   * skipped, although it cannot leave the output directory.
   */
  lemma DotsInNameRejected(name: string)
    requires '/' !in name && Contains(name, "..")
    ensures !PassesGuard(name)
  {
    ContainsIff(name, "..");
    var j: nat :| MatchAt(name, "..", j);
    assert name[j] == '.' && name[j + 1] == '.';
    assert |name| >= 2;
    SingleComponent(name);
  }

  /** A name that goes up and comes back down is accepted and written at its normal form. */
  lemma ParentResolvedAccepted(a: string, b: string)
    requires KeptComp(a) && a != ".."
    requires KeptComp(b) && !Contains(b, "..")
    ensures PassesGuard(a + "/../" + b) && NormPath(a + "/../" + b) == b
  {
    ContainsIff(b, "..");
    var start: nat := 0;
    assert b == ".." ==> MatchAt(b, "..", start);
    ParentResolved(a, b);
    assert b[0] in b;
  }

  /** A name that starts by going up is skipped. */
  lemma EscapeRejected(b: string)
    requires KeptComp(b) && b != ".."
    ensures !PassesGuard("../" + b)
  {
    LeadingParentKept(b);
    ContainsAt("../" + b, "..", 0);
  }

  /**
   * An accepted name is written inside the output directory: the path is
   * the directory, a separator where it lacks one, and the relative normal
   * form.
   */
  lemma GuardedJoin(base: string, name: string)
    requires PassesGuard(name)
    ensures var p := PathJoin(base, NormPath(name));
      StartsWith(p, base) && p[|base|..] == (if base == "" || EndsWith(base, "/") then "" else "/") + NormPath(name)
  {
  }
}
