/**
 * The documentation agent's helpers around the provider call: which project
 * files are read, the excerpt of each sent as context, the previews shown
 * and returned, and the name the documentation is saved under. Reading the
 * directory, the clock and the prompts are inputs.
 */
module Doc {
  import opened Text

  // ---------------------------------------------------------------------
  // Lines of a text

  /** `s.count(c)` for one character. */
  function CountChar(s: string, c: char): (r: nat)
    ensures r <= |s|
    decreases |s|
  {
    if |s| == 0 then 0 else (if s[0] == c then 1 else 0) + CountChar(s[1..], c)
  }

  /** `s.split(d)` has one piece more than `s` has separators. */
  lemma {:induction false} SplitCount(s: string, d: char)
    ensures |SplitOn(s, d)| == CountChar(s, d) + 1
    decreases |s|
  {
    if |s| > 0 {
      SplitCount(s[1..], d);
    }
  }

  /** A join splits at any inner position into the join of the parts before and after. */
  lemma {:induction false} JoinAt(parts: seq<string>, sep: string, n: nat)
    requires 1 <= n < |parts|
    ensures Join(parts, sep) == Join(parts[..n], sep) + sep + Join(parts[n..], sep)
    decreases n
  {
    if n > 1 {
      JoinAt(parts[1..], sep, n - 1);
      assert parts[1..][..n - 1] == parts[..n][1..];
      assert parts[1..][n - 1..] == parts[n..];
    }
  }

  /** `s.split('\n')[:n]`: the first `n` lines. */
  function FirstLines(s: string, n: nat): seq<string> {
    Take(SplitOn(s, '\n'), n)
  }

  /**
   * The first `n` lines, joined back with newlines, are a prefix of the text;
   * they are all of it exactly when the text has fewer than `n` newlines; and
   * splitting the joined prefix gives back the same lines.
   */
  lemma FirstLinesSpec(s: string, n: nat)
    requires n >= 1
    ensures |FirstLines(s, n)| == if CountChar(s, '\n') < n then CountChar(s, '\n') + 1 else n
    ensures StartsWith(s, Join(FirstLines(s, n), "\n"))
    ensures CountChar(s, '\n') < n ==> Join(FirstLines(s, n), "\n") == s
    ensures SplitOn(Join(FirstLines(s, n), "\n"), '\n') == FirstLines(s, n)
  {
    var lines := SplitOn(s, '\n');
    SplitCount(s, '\n');
    JoinSplit(s, '\n');
    SplitOnPieces(s, '\n');
    var first := FirstLines(s, n);
    if n < |lines| {
      JoinAt(lines, "\n", n);
      assert first == lines[..n];
    } else {
      assert first == lines;
    }
    SplitJoin(first, '\n');
  }

  // ---------------------------------------------------------------------
  // `read_project_files`: which files are read

  /** Files under a path holding any of these names are skipped. */
  const ExcludeDirs: seq<string> := ["node_modules", "venv", ".git", "__pycache__", "build", "dist"]

  /** Files of this many bytes or more are skipped. */
  const MaxSize: nat := 100 * 1024

  /** `any(exclude_dir in file_path for exclude_dir in exclude_dirs)`: a substring test, not a path component test. */
  predicate InExcludedDir(path: string) {
    exists k :: 0 <= k < |ExcludeDirs| && Contains(path, ExcludeDirs[k])
  }

  predicate IsRead(path: string, size: nat) {
    !InExcludedDir(path) && size < MaxSize
  }

  /** A file the extension globs found: its path, its path relative to the directory, its size and its text. */
  datatype Candidate = Candidate(path: string, rel: string, size: nat, content: string)

  /** The found file is read: it lies outside the excluded names and under the size bound. */
  predicate Keeps(c: Candidate) {
    IsRead(c.path, c.size)
  }

  /** What a read file adds to `files_content`. */
  function Entry(c: Candidate): (string, string) {
    (c.rel, c.content)
  }

  /** The files read, as (relative path, text) pairs in the order found. */
  function Selected(found: seq<Candidate>): seq<(string, string)>
    decreases |found|
  {
    if found == [] then []
    else
      var c := found[|found| - 1];
      Selected(found[..|found| - 1]) + (if Keeps(c) then [Entry(c)] else [])
  }

  /** The loop over the found files, skipping the excluded and the large ones. */
  method ReadProjectFiles(found: seq<Candidate>) returns (files: seq<(string, string)>)
    ensures files == Selected(found)
  {
    files := [];
    for i := 0 to |found|
      invariant files == Selected(found[..i])
    {
      assert found[..i + 1][..i] == found[..i];
      var c := found[i];
      if exists k :: 0 <= k < |ExcludeDirs| && Contains(c.path, ExcludeDirs[k]) {
        continue;
      }
      if c.size < 100 * 1024 {
        files := files + [(c.rel, c.content)];
      }
    }
    assert found[..|found|] == found;
  }

  /** Exactly the files outside the excluded names and under the size bound are read, in order. */
  lemma {:induction false} SelectedSpec(found: seq<Candidate>)
    ensures |Selected(found)| <= |found|
    ensures forall k :: 0 <= k < |Selected(found)| ==>
      exists j :: 0 <= j < |found| && Keeps(found[j]) && Selected(found)[k] == Entry(found[j])
    ensures forall j :: 0 <= j < |found| && Keeps(found[j]) ==> Entry(found[j]) in Selected(found)
    decreases |found|
  {
    if found != [] {
      var n := |found| - 1;
      var init := found[..n];
      SelectedSpec(init);
      var r := Selected(found);
      assert r == Selected(init) + (if Keeps(found[n]) then [Entry(found[n])] else []);
      forall k | 0 <= k < |r|
        ensures exists j :: 0 <= j < |found| && Keeps(found[j]) && r[k] == Entry(found[j])
      {
        if k < |Selected(init)| {
          assert r[k] == Selected(init)[k];
          var j :| 0 <= j < |init| && Keeps(init[j]) && Selected(init)[k] == Entry(init[j]);
          assert init[j] == found[j];
        } else {
          assert r[k] == Entry(found[n]);
        }
      }
      forall j | 0 <= j < |found| && Keeps(found[j]) ensures Entry(found[j]) in r {
        if j < n {
          assert init[j] == found[j];
        }
      }
    }
  }

  /** Because the test is on substrings, everything under ".github" is skipped as if it were ".git". */
  lemma DotGithubSkipped(rest: string, size: nat)
    ensures !IsRead(".github" + rest, size)
  {
    var p := ".github" + rest;
    assert p[0..4] == ".git";
    ContainsAt(p, ".git", 0);
    assert Contains(p, ExcludeDirs[2]);
  }

  /** A file of exactly 100 KiB is skipped. */
  lemma SizeBoundSkipped(path: string)
    ensures !IsRead(path, 100 * 1024)
  {
  }

  /** At most the first 100 lines of a file. */
  function Excerpt(content: string): string {
    Join(FirstLines(content, 100), "\n")
  }

  /** One file's part of the context: its path, then its excerpt in a fence. */
  function FileBlock(path: string, content: string): string {
    "## File: " + path + "\n```\n" + Excerpt(content) + "\n```\n\n"
  }

  function Blocks(files: seq<(string, string)>): string
    decreases |files|
  {
    if files == [] then ""
    else Blocks(files[..|files| - 1]) + FileBlock(files[|files| - 1].0, files[|files| - 1].1)
  }

  /** The context: nothing when no file was read, else a header and one block per file. */
  function Context(files: seq<(string, string)>): string {
    if files == [] then "" else "Project files:\n\n" + Blocks(files)
  }

  /** The loop that appends one block per file. */
  method BuildContext(files: seq<(string, string)>) returns (context: string)
    ensures context == Context(files)
  {
    context := "";
    if files != [] {
      context := "Project files:\n\n";
      for i := 0 to |files|
        invariant context == "Project files:\n\n" + Blocks(files[..i])
      {
        assert files[..i + 1][..i] == files[..i];
        context := context + FileBlock(files[i].0, files[i].1);
      }
      assert files[..|files|] == files;
    }
  }

  /**
   * The excerpt is a prefix of the file, all of it when the file has fewer
   * than 100 newlines, and its lines are the file's first lines, at most 100.
   */
  lemma ExcerptSpec(content: string)
    ensures StartsWith(content, Excerpt(content))
    ensures CountChar(content, '\n') < 100 ==> Excerpt(content) == content
    ensures SplitOn(Excerpt(content), '\n') == FirstLines(content, 100)
    ensures |SplitOn(Excerpt(content), '\n')| <= 100
  {
    FirstLinesSpec(content, 100);
  }

  lemma {:induction false} BlocksAppend(a: seq<(string, string)>, b: seq<(string, string)>)
    ensures Blocks(a + b) == Blocks(a) + Blocks(b)
    decreases |b|
  {
    if b == [] {
      assert a + b == a;
    } else {
      var init, last := b[..|b| - 1], b[|b| - 1];
      assert (a + b)[..|a + b| - 1] == a + init;
      assert (a + b)[|a + b| - 1] == last;
      BlocksAppend(a, init);
      assert Blocks(a + b) == Blocks(a + init) + FileBlock(last.0, last.1);
    }
  }

  /** Every file read has its block in the context, after the blocks of the files before it and before those after it. */
  lemma ContextSpec(files: seq<(string, string)>, k: nat)
    requires k < |files|
    ensures Context(files) == "Project files:\n\n" + Blocks(files[..k]) + FileBlock(files[k].0, files[k].1) + Blocks(files[k + 1..])
  {
    assert files == files[..k] + [files[k]] + files[k + 1..];
    BlocksAppend(files[..k] + [files[k]], files[k + 1..]);
    BlocksAppend(files[..k], [files[k]]);
    assert Blocks([files[k]]) == FileBlock(files[k].0, files[k].1) by {
      assert [files[k]][..0] == [];
    }
  }

  // ---------------------------------------------------------------------
  // `run`: the previews

  /** The lines printed as the interactive preview. */
  function PreviewLines(doc: string): seq<string> {
    FirstLines(doc, 20)
  }

  /** The notice "...(content truncated for preview)..." is printed. */
  predicate PreviewTruncated(doc: string) {
    |SplitOn(doc, '\n')| > 20
  }

  /**
   * The notice appears exactly when the text has 20 newlines or more; the
   * preview then shows 20 lines that begin the text, and otherwise the
   * whole text.
   */
  lemma PreviewSpec(doc: string)
    ensures PreviewTruncated(doc) <==> CountChar(doc, '\n') >= 20
    ensures PreviewTruncated(doc) ==> |PreviewLines(doc)| == 20
    ensures StartsWith(doc, Join(PreviewLines(doc), "\n"))
    ensures !PreviewTruncated(doc) ==> Join(PreviewLines(doc), "\n") == doc
  {
    SplitCount(doc, '\n');
    FirstLinesSpec(doc, 20);
  }

  /** The "content" returned: the first 500 characters and "..." when the text is longer, else the text. */
  function ContentPreview(doc: string): (r: string)
    ensures |r| <= 503
    ensures |doc| <= 500 ==> r == doc
    ensures |doc| > 500 ==> |r| == 503 && StartsWith(doc, r[..500]) && EndsWith(r, "...")
  {
    if |doc| > 500 then doc[..500] + "..." else doc
  }

  /** The returned preview keeps every character the text has among its first 500. */
  lemma ContentPreviewPrefix(doc: string, i: nat)
    requires i < |doc| && i < 500
    ensures i < |ContentPreview(doc)| && ContentPreview(doc)[i] == doc[i]
  {
  }

  // ---------------------------------------------------------------------
  // The name the documentation is saved under

  function DefaultName(ts: string): string {
    "documentation_" + ts + ".md"
  }

  /** `save_documentation`: an empty or missing name becomes the default name; ".md" is appended unless already there. */
  function DocFilename(filename: string, ts: string): (r: string)
    ensures EndsWith(r, ".md")
  {
    var base := if filename == "" then DefaultName(ts) else filename;
    var named := if EndsWith(base, ".md") then base else base + ".md";
    assert EndsWith(named, ".md") by {
      if !EndsWith(base, ".md") {
        assert named[|named| - 3..] == ".md";
      } else if filename == "" {
        assert base == "documentation_" + ts + ".md";
      }
    }
    named
  }

  /**
   * A given name is kept as the start of the saved name and gains at most
   * ".md", gaining nothing exactly when it already ends with ".md"; without
   * a name the default name is used.
   */
  lemma DocFilenameSpec(filename: string, ts: string)
    ensures filename == "" ==> DocFilename(filename, ts) == DefaultName(ts)
    ensures filename != "" ==> (StartsWith(DocFilename(filename, ts), filename)
      && |DocFilename(filename, ts)| <= |filename| + 3
      && (DocFilename(filename, ts) == filename <==> EndsWith(filename, ".md")))
  {
    if filename == "" {
      var d := DefaultName(ts);
      assert d[|d| - 3..] == ".md";
    } else if !EndsWith(filename, ".md") {
      assert (filename + ".md")[..|filename|] == filename;
    }
  }

  /** Saving under a name already produced changes nothing. */
  lemma DocFilenameIdempotent(filename: string, ts: string, ts2: string)
    ensures DocFilename(DocFilename(filename, ts), ts2) == DocFilename(filename, ts)
  {
  }

  /** The words kept for the non-interactive name: the alphanumeric ones, lowercased, in order. */
  function KeptWords(words: seq<string>): seq<string>
    decreases |words|
  {
    if words == [] then []
    else
      var last := words[|words| - 1];
      KeptWords(words[..|words| - 1]) + (if IsAlnum(last) then [Lower(last)] else [])
  }

  /** Each kept word is a lowercased alphanumeric word of the input, and every such word is kept. */
  lemma {:induction false} KeptWordsSpec(words: seq<string>)
    ensures |KeptWords(words)| <= |words|
    ensures forall k :: 0 <= k < |KeptWords(words)| ==>
      IsAlnum(KeptWords(words)[k]) && exists j :: 0 <= j < |words| && IsAlnum(words[j]) && KeptWords(words)[k] == Lower(words[j])
    ensures forall j :: 0 <= j < |words| && IsAlnum(words[j]) ==> Lower(words[j]) in KeptWords(words)
    decreases |words|
  {
    if words != [] {
      var n := |words| - 1;
      var init := words[..n];
      KeptWordsSpec(init);
      var r := KeptWords(words);
      assert r == KeptWords(init) + (if IsAlnum(words[n]) then [Lower(words[n])] else []);
      forall k | 0 <= k < |r|
        ensures IsAlnum(r[k]) && exists j :: 0 <= j < |words| && IsAlnum(words[j]) && r[k] == Lower(words[j])
      {
        if k < |KeptWords(init)| {
          var j :| 0 <= j < |init| && IsAlnum(init[j]) && KeptWords(init)[k] == Lower(init[j]);
          assert init[j] == words[j];
        } else {
          assert r[k] == Lower(words[n]);
        }
      }
      forall j | 0 <= j < |words| && IsAlnum(words[j]) ensures Lower(words[j]) in r {
        if j < n {
          assert init[j] == words[j];
        }
      }
    }
  }

  /** `"_".join(word.lower() for word in prompt.split()[:3] if word.isalnum())` */
  function PromptPart(prompt: string): string {
    Join(KeptWords(Take(Words(prompt), 3)), "_")
  }

  /** The name used when saving without asking. */
  function NonInteractiveName(prompt: string, ts: string): string {
    PromptPart(prompt) + "_" + ts + ".md"
  }

  /**
   * The prompt part splits at '_' back into the kept words, at most three,
   * each a lowercased alphanumeric word among the prompt's first three; with
   * no such word it is empty and the name starts with '_'.
   */
  lemma PromptPartSpec(prompt: string)
    ensures var kept := KeptWords(Take(Words(prompt), 3));
      |kept| <= 3
      && (kept == [] ==> PromptPart(prompt) == "")
      && (kept != [] ==> SplitOn(PromptPart(prompt), '_') == kept)
  {
    var kept := KeptWords(Take(Words(prompt), 3));
    KeptWordsSpec(Take(Words(prompt), 3));
    if kept != [] {
      forall k | 0 <= k < |kept| ensures '_' !in kept[k] {
        assert IsAlnum(kept[k]);
      }
      SplitJoin(kept, '_');
    }
  }

  /** `save_documentation` keeps the non-interactive name as it is. */
  lemma NonInteractiveNameKept(prompt: string, ts: string, ts2: string)
    ensures DocFilename(NonInteractiveName(prompt, ts), ts2) == NonInteractiveName(prompt, ts)
  {
    var n := NonInteractiveName(prompt, ts);
    assert n[|n| - 3..] == ".md";
  }
}
