/**
 * `save_files` of every agent: each artifact is written under the output
 * directory, and the list of written paths is returned in input order.
 *
 * The docker, kubernetes, ansible and terraform agents normalise each name
 * and skip it when the guard refuses it; the infra and code agents join the
 * raw name to the directory, and the infra agent also marks ".sh" files
 * executable. The disk is a map from path text to content; creating the
 * directories is left out.
 */
module SaveFiles {
  import opened Text
  import opened Artifacts
  import opened Paths

  /** The files written so far, and the paths marked executable. */
  class Disk {
    var files: map<string, string>
    var executable: set<string>

    constructor ()
      ensures files == map[] && executable == {}
    {
      files := map[];
      executable := {};
    }

    /** `open(path, "w").write(content)` */
    method Write(path: string, content: string)
      modifies this
      ensures files == old(files)[path := content]
      ensures executable == old(executable)
    {
      files := files[path := content];
    }

    /** `os.chmod(path, 0o755)` */
    method MarkExecutable(path: string)
      modifies this
      ensures executable == old(executable) + {path}
      ensures files == old(files)
    {
      executable := executable + {path};
    }
  }

  /** The disk after `writes`, in order, each write replacing what the path held. */
  function Apply(m: map<string, string>, writes: seq<Artifact>): map<string, string>
    decreases |writes|
  {
    if writes == [] then m
    else
      var w := writes[|writes| - 1];
      Apply(m, writes[..|writes| - 1])[w.filename := w.content]
  }

  lemma ApplySnoc(m: map<string, string>, writes: seq<Artifact>, w: Artifact)
    ensures Apply(m, writes + [w]) == Apply(m, writes)[w.filename := w.content]
  {
    assert (writes + [w])[..|writes|] == writes;
  }

  lemma FilenamesSnoc(writes: seq<Artifact>, w: Artifact)
    ensures Filenames(writes + [w]) == Filenames(writes) + [w.filename]
  {
  }

  // ---------------------------------------------------------------------
  // The guarded save of the docker, kubernetes, ansible and terraform agents

  /** `f` written at its normal form under `base`. */
  function Placed(f: Artifact, base: string): Artifact {
    Artifact(PathJoin(base, NormPath(f.filename)), f.content)
  }

  /** The guard accepts the name of `f`. */
  predicate Accepted(f: Artifact) {
    PassesGuard(f.filename)
  }

  /** The write a guarded save makes for `f`, if any. */
  function GuardedWrite(f: Artifact, base: string): seq<Artifact> {
    if Accepted(f) then [Placed(f, base)] else []
  }

  /** The writes of a guarded save, in order. */
  function GuardedWrites(files: seq<Artifact>, base: string): seq<Artifact>
    decreases |files|
  {
    if files == [] then []
    else GuardedWrites(files[..|files| - 1], base) + GuardedWrite(files[|files| - 1], base)
  }

  /** One file of a guarded save: written at its normal form under `base` when the guard accepts its name. */
  method SaveGuardedFile(disk: Disk, f: Artifact, base: string) returns (path: string, ok: bool)
    modifies disk
    ensures ok <==> Accepted(f)
    ensures ok ==> path == Placed(f, base).filename
    ensures disk.files == (if ok then old(disk.files)[path := f.content] else old(disk.files))
    ensures disk.executable == old(disk.executable)
  {
    var safe := NormPath(f.filename);
    if !PassesGuard(f.filename) {
      return "", false;
    }
    path, ok := PathJoin(base, safe), true;
    disk.Write(path, f.content);
  }

  method SaveGuarded(disk: Disk, files: seq<Artifact>, base: string) returns (saved: seq<string>)
    modifies disk
    ensures saved == Filenames(GuardedWrites(files, base))
    ensures disk.files == Apply(old(disk.files), GuardedWrites(files, base))
    ensures disk.executable == old(disk.executable)
  {
    saved := [];
    ghost var writes: seq<Artifact> := [];
    var i := 0;
    while i < |files|
      invariant 0 <= i <= |files|
      invariant writes == GuardedWrites(files[..i], base)
      invariant saved == Filenames(writes)
      invariant disk.files == Apply(old(disk.files), writes)
      invariant disk.executable == old(disk.executable)
    {
      GuardedWritesSnoc(files, i, base);
      var path, ok := SaveGuardedFile(disk, files[i], base);
      if ok {
        ghost var w := Placed(files[i], base);
        assert GuardedWrite(files[i], base) == [w];
        ApplySnoc(old(disk.files), writes, w);
        FilenamesSnoc(writes, w);
        saved := saved + [path];
        writes := writes + [w];
      } else {
        assert GuardedWrite(files[i], base) == [];
        assert writes + [] == writes;
      }
      i := i + 1;
    }
    assert files[..|files|] == files;
  }

  lemma GuardedWritesSnoc(files: seq<Artifact>, i: nat, base: string)
    requires i < |files|
    ensures GuardedWrites(files[..i + 1], base) == GuardedWrites(files[..i], base) + GuardedWrite(files[i], base)
  {
    assert files[..i + 1][..i] == files[..i];
  }

  /** The writes for a single file. */
  lemma GuardedWritesOne(f: Artifact, base: string)
    ensures GuardedWrites([f], base) == GuardedWrite(f, base)
  {
    assert [f][..0] == [];
  }

  lemma {:induction false} GuardedWritesAppend(a: seq<Artifact>, b: seq<Artifact>, base: string)
    ensures GuardedWrites(a + b, base) == GuardedWrites(a, base) + GuardedWrites(b, base)
    decreases |b|
  {
    if b == [] {
      assert a + b == a;
    } else {
      var b', last := b[..|b| - 1], b[|b| - 1];
      assert (a + b)[..|a + b| - 1] == a + b';
      assert (a + b)[|a + b| - 1] == last;
      GuardedWritesAppend(a, b', base);
      assert GuardedWrites(a + b, base) == GuardedWrites(a + b', base) + GuardedWrite(last, base);
    }
  }

  /** A refused name is skipped and the files after it are still saved, in order. */
  lemma RefusedSkipped(a: seq<Artifact>, f: Artifact, b: seq<Artifact>, base: string)
    requires !PassesGuard(f.filename)
    ensures GuardedWrites(a + [f] + b, base) == GuardedWrites(a, base) + GuardedWrites(b, base)
  {
    GuardedWritesAppend(a + [f], b, base);
    GuardedWritesAppend(a, [f], base);
    GuardedWritesOne(f, base);
    assert GuardedWrite(f, base) == [];
    assert GuardedWrites(a, base) + [] == GuardedWrites(a, base);
  }

  /** Every write of a guarded save is an accepted file placed at its normal form. */
  lemma {:induction false} GuardedWritesFrom(files: seq<Artifact>, base: string)
    ensures forall k :: 0 <= k < |GuardedWrites(files, base)| ==>
      exists j :: 0 <= j < |files| && Accepted(files[j]) && GuardedWrites(files, base)[k] == Placed(files[j], base)
    decreases |files|
  {
    if files == [] {
      assert GuardedWrites(files, base) == [];
    } else {
      var n := |files| - 1;
      var init := files[..n];
      var f := files[n];
      GuardedWritesFrom(init, base);
      assert GuardedWrites(files, base) == GuardedWrites(init, base) + GuardedWrite(f, base);
      forall k | 0 <= k < |GuardedWrites(files, base)|
        ensures exists j :: 0 <= j < |files| && Accepted(files[j]) && GuardedWrites(files, base)[k] == Placed(files[j], base)
      {
        if k < |GuardedWrites(init, base)| {
          assert GuardedWrites(files, base)[k] == GuardedWrites(init, base)[k];
          var j :| 0 <= j < |init| && Accepted(init[j]) && GuardedWrites(init, base)[k] == Placed(init[j], base);
          assert init[j] == files[j];
        } else {
          assert Accepted(f) && GuardedWrites(files, base)[k] == Placed(f, base);
        }
      }
    }
  }

  /** Every write of a guarded save lands inside the output directory. */
  lemma GuardedWritesInside(files: seq<Artifact>, base: string)
    ensures forall k :: 0 <= k < |GuardedWrites(files, base)| ==> StartsWith(GuardedWrites(files, base)[k].filename, base)
  {
    GuardedWritesFrom(files, base);
    var ws := GuardedWrites(files, base);
    forall k | 0 <= k < |ws| ensures StartsWith(ws[k].filename, base) {
      var j :| 0 <= j < |files| && Accepted(files[j]) && ws[k] == Placed(files[j], base);
      GuardedJoin(base, files[j].filename);
    }
  }

  // ---------------------------------------------------------------------
  // The unguarded saves of the infra and code agents

  /** The writes of an unguarded save: every file, at the raw join. */
  function PlainWrites(files: seq<Artifact>, base: string): (r: seq<Artifact>)
    ensures |r| == |files|
    ensures forall k :: 0 <= k < |files| ==> r[k] == Artifact(PathJoin(base, files[k].filename), files[k].content)
  {
    seq(|files|, k requires 0 <= k < |files| => Artifact(PathJoin(base, files[k].filename), files[k].content))
  }

  /** The paths the infra agent marks executable: those of the ".sh" files. */
  function ShellScripts(files: seq<Artifact>, base: string): set<string>
    decreases |files|
  {
    if files == [] then {}
    else
      var f := files[|files| - 1];
      ShellScripts(files[..|files| - 1], base) + (if EndsWith(f.filename, ".sh") then {PathJoin(base, f.filename)} else {})
  }

  lemma PlainWritesSnoc(files: seq<Artifact>, i: nat, base: string)
    requires i < |files|
    ensures PlainWrites(files[..i + 1], base)
      == PlainWrites(files[..i], base) + [Artifact(PathJoin(base, files[i].filename), files[i].content)]
  {
  }

  /** Every ".sh" file's path is marked executable. */
  lemma {:induction false} ShellScriptsHas(files: seq<Artifact>, base: string, k: nat)
    requires k < |files| && EndsWith(files[k].filename, ".sh")
    ensures PathJoin(base, files[k].filename) in ShellScripts(files, base)
    decreases |files|
  {
    var n := |files| - 1;
    if k < n {
      ShellScriptsHas(files[..n], base, k);
    }
  }

  /** Every path marked executable is that of a ".sh" file. */
  lemma {:induction false} ShellScriptsFrom(files: seq<Artifact>, base: string, p: string)
    requires p in ShellScripts(files, base)
    ensures exists k :: 0 <= k < |files| && EndsWith(files[k].filename, ".sh") && p == PathJoin(base, files[k].filename)
    decreases |files|
  {
    var n := |files| - 1;
    var init := files[..n];
    if p in ShellScripts(init, base) {
      ShellScriptsFrom(init, base, p);
      var k :| 0 <= k < |init| && EndsWith(init[k].filename, ".sh") && p == PathJoin(base, init[k].filename);
      assert files[k] == init[k];
    } else {
      assert EndsWith(files[n].filename, ".sh") && p == PathJoin(base, files[n].filename);
    }
  }

  /** The code agent's `save_files`. */
  method SaveCode(disk: Disk, files: seq<Artifact>, base: string) returns (saved: seq<string>)
    modifies disk
    ensures saved == Filenames(PlainWrites(files, base))
    ensures disk.files == Apply(old(disk.files), PlainWrites(files, base))
    ensures disk.executable == old(disk.executable)
  {
    saved := [];
    var i := 0;
    while i < |files|
      invariant 0 <= i <= |files|
      invariant saved == Filenames(PlainWrites(files[..i], base))
      invariant disk.files == Apply(old(disk.files), PlainWrites(files[..i], base))
      invariant disk.executable == old(disk.executable)
    {
      var filename := files[i].filename;
      var content := files[i].content;
      var fullPath := PathJoin(base, filename);
      disk.Write(fullPath, content);
      PlainWritesSnoc(files, i, base);
      ApplySnoc(old(disk.files), PlainWrites(files[..i], base), Artifact(fullPath, content));
      FilenamesSnoc(PlainWrites(files[..i], base), Artifact(fullPath, content));
      saved := saved + [fullPath];
      i := i + 1;
    }
    assert files[..|files|] == files;
  }

  /** One iteration of the infra agent's loop: the file is written, and made executable when it is a ".sh" file. */
  method SaveInfraFile(disk: Disk, f: Artifact, base: string) returns (fullPath: string)
    modifies disk
    ensures fullPath == PathJoin(base, f.filename)
    ensures disk.files == old(disk.files)[fullPath := f.content]
    ensures disk.executable == old(disk.executable) + (if EndsWith(f.filename, ".sh") then {fullPath} else {})
  {
    fullPath := PathJoin(base, f.filename);
    disk.Write(fullPath, f.content);
    if EndsWith(f.filename, ".sh") {
      disk.MarkExecutable(fullPath);
    }
  }

  /** The infra agent's `save_files`: the same writes, and ".sh" files made executable. */
  method SaveInfra(disk: Disk, files: seq<Artifact>, base: string) returns (saved: seq<string>)
    modifies disk
    ensures saved == Filenames(PlainWrites(files, base))
    ensures disk.files == Apply(old(disk.files), PlainWrites(files, base))
    ensures disk.executable == old(disk.executable) + ShellScripts(files, base)
  {
    saved := [];
    ghost var writes: seq<Artifact> := [];
    ghost var scripts: set<string> := {};
    var i := 0;
    while i < |files|
      invariant 0 <= i <= |files|
      invariant writes == PlainWrites(files[..i], base)
      invariant saved == Filenames(writes)
      invariant disk.files == Apply(old(disk.files), writes)
      invariant scripts == ShellScripts(files[..i], base)
      invariant disk.executable == old(disk.executable) + scripts
    {
      ghost var w := Artifact(PathJoin(base, files[i].filename), files[i].content);
      PlainWritesSnoc(files, i, base);
      assert files[..i + 1][..i] == files[..i];
      ApplySnoc(old(disk.files), writes, w);
      FilenamesSnoc(writes, w);
      var fullPath := SaveInfraFile(disk, files[i], base);
      scripts := scripts + (if EndsWith(files[i].filename, ".sh") then {fullPath} else {});
      saved := saved + [fullPath];
      writes := writes + [w];
      i := i + 1;
    }
    assert files[..|files|] == files;
  }

  // ---------------------------------------------------------------------
  // What ends up on disk

  /** The last write to a path decides its content. */
  lemma {:induction false} LastWriteWins(m: map<string, string>, writes: seq<Artifact>, i: nat)
    requires i < |writes|
    requires forall j :: i < j < |writes| ==> writes[j].filename != writes[i].filename
    ensures writes[i].filename in Apply(m, writes)
    ensures Apply(m, writes)[writes[i].filename] == writes[i].content
    decreases |writes|
  {
    var init := writes[..|writes| - 1];
    if i < |writes| - 1 {
      forall j | i < j < |init| ensures init[j].filename != init[i].filename {
        assert init[j] == writes[j];
      }
      LastWriteWins(m, init, i);
      assert init[i] == writes[i];
    }
  }

  /** A path no write touches keeps what it held. */
  lemma {:induction false} Untouched(m: map<string, string>, writes: seq<Artifact>, p: string)
    requires forall j :: 0 <= j < |writes| ==> writes[j].filename != p
    ensures p in Apply(m, writes) <==> p in m
    ensures p in m ==> Apply(m, writes)[p] == m[p]
    decreases |writes|
  {
    if writes != [] {
      var init := writes[..|writes| - 1];
      forall j | 0 <= j < |init| ensures init[j].filename != p {
        assert init[j] == writes[j];
      }
      Untouched(m, init, p);
    }
  }

  /**
   * With two files of the same name, the unguarded saves keep the later
   * content, and both paths are still reported.
   */
  lemma DuplicateLastWins(m: map<string, string>, base: string, a: Artifact, b: Artifact)
    requires a.filename == b.filename
    ensures var ws := PlainWrites([a, b], base);
      Apply(m, ws)[PathJoin(base, a.filename)] == b.content
      && Filenames(ws) == [PathJoin(base, a.filename), PathJoin(base, a.filename)]
  {
    var ws := PlainWrites([a, b], base);
    LastWriteWins(m, ws, 1);
  }

  /** Without the guard, an absolute name is written where it points, not under the directory. */
  lemma AbsoluteNameEscapes(base: string, f: Artifact)
    requires StartsWith(f.filename, "/")
    ensures PlainWrites([f], base)[0].filename == f.filename
  {
  }

  /** With the guard, the same name is skipped. */
  lemma AbsoluteNameSkipped(base: string, f: Artifact)
    requires StartsWith(f.filename, "/")
    ensures GuardedWrites([f], base) == []
  {
    AbsoluteKept(f.filename);
    assert [f][..0] == [];
  }
}
