/**
 * The file extractor of the infra and code agents (`extract_files`). It
 * reads the same marker and fence lines as the other agents but keeps only
 * what is inside a code block:
 *
 *  - a marker line closes the current file, if any, and names the next one;
 *  - every fence line toggles the block: closing a block emits the current
 *    file, even when it is empty, and forgets its name; opening a block
 *    without a current file names it after the fence's tag, when there is
 *    one, through the agent's table of extensions;
 *  - other lines are kept only inside a block with a current file;
 *  - at the end the current file is emitted only when it kept some line.
 *
 * The two agents differ in the default stem, the extension table, and what
 * happens to an empty result: the infra agent returns the whole reply as
 * README.md, the code agent returns the empty list and its `run` substitutes
 * generated_code.txt.
 */
module FlushExtract {
  import opened Text
  import opened Artifacts

  datatype Dialect = Infra | Code

  /** The stem of a default file name. */
  function Stem(d: Dialect): string {
    match d
    case Infra => "infra"
    case Code => "generated_code"
  }

  /** The infra agent's `extensions` table. */
  const InfraExtensions: map<string, string> := map[
    "bash" := "sh", "sh" := "sh",
    "yaml" := "yaml", "yml" := "yml",
    "terraform" := "tf", "tf" := "tf", "hcl" := "tf",
    "dockerfile" := "Dockerfile", "docker" := "Dockerfile",
    "json" := "json", "python" := "py", "py" := "py"
  ]

  /** The code agent's `extensions` table. */
  const CodeExtensions: map<string, string> := map[
    "python" := "py", "py" := "py",
    "javascript" := "js", "js" := "js",
    "html" := "html", "css" := "css",
    "java" := "java", "c" := "c", "cpp" := "cpp",
    "go" := "go", "rust" := "rs", "typescript" := "ts"
  ]

  function Extensions(d: Dialect): map<string, string> {
    match d
    case Infra => InfraExtensions
    case Code => CodeExtensions
  }

  /** `extensions.get(lang.lower(), "txt")` */
  function Extension(d: Dialect, lang: string): string {
    var key := Lower(lang);
    if key in Extensions(d) then Extensions(d)[key] else "txt"
  }

  /** The name an unnamed block with tag `lang` gets: `infra.<ext>` or `generated_code.<ext>`. */
  function DefaultName(d: Dialect, lang: string): string {
    Stem(d) + "." + Extension(d, lang)
  }

  /** The sections that exist if the input ends now: the current file counts only if it kept a line. */
  function Final(st: Scan): seq<Section> {
    if st.current != "" && st.content != [] then st.done + [Section(st.current, st.content)] else st.done
  }

  /** One iteration of the loop. */
  function Step(d: Dialect, st: Scan, l: Line): Scan {
    match l.kind
    case Marker(name) =>
      Scan(Closed(st), name, if st.current != "" then [] else st.content, false)
    case Fence(lang) =>
      if st.inCode then
        if st.current != "" then Scan(st.done + [Section(st.current, st.content)], "", [], false)
        else st.(inCode := false)
      else if st.current == "" && lang != "" then
        st.(current := DefaultName(d, lang), inCode := true)
      else
        st.(inCode := true)
    case Text =>
      if st.inCode && st.current != "" then st.(content := st.content + [l.text]) else st
  }

  function Run(d: Dialect, st: Scan, ls: seq<Line>): Scan
    decreases |ls|
  {
    if ls == [] then st else Run(d, Step(d, st, ls[0]), ls[1..])
  }

  /** The sections the loop and the final check produce. */
  function Sections(d: Dialect, response: string): seq<Section> {
    Final(Run(d, Start, Classified(SplitOn(response, '\n'))))
  }

  /** The artifacts found in `response`, before any fallback. */
  function Scanned(d: Dialect, response: string): seq<Artifact> {
    Render(Sections(d, response))
  }

  /** `files`, or the single file `name` holding the whole reply when `files` is empty. */
  function OrWhole(files: seq<Artifact>, name: string, response: string): seq<Artifact> {
    if files == [] then [Artifact(name, response)] else files
  }

  /** What `extract_files` returns: the infra agent falls back to README.md, the code agent does not. */
  function Extracted(d: Dialect, response: string): seq<Artifact> {
    match d
    case Infra => OrWhole(Scanned(Infra, response), "README.md", response)
    case Code => Scanned(Code, response)
  }

  /** The files the code agent's `run` goes on with. */
  function CodeRunFiles(response: string): seq<Artifact> {
    OrWhole(Extracted(Code, response), "generated_code.txt", response)
  }

  /** Running from position `i` is one step on the line there, then running from `i + 1`. */
  lemma RunAt(d: Dialect, st: Scan, ls: seq<Line>, i: nat)
    requires i < |ls|
    ensures Run(d, st, ls[i..]) == Run(d, Step(d, st, ls[i]), ls[i + 1..])
  {
    assert ls[i..][0] == ls[i] && ls[i..][1..] == ls[i + 1..];
  }

  /** `extract_files` of the infra (`d == Infra`) or code (`d == Code`) agent, as the loop it runs. */
  method ExtractFiles(d: Dialect, response: string) returns (files: seq<Artifact>)
    ensures files == Extracted(d, response)
  {
    var lines := SplitOn(response, '\n');
    ghost var ls := Classified(lines);
    files := [];
    var currentFile := "";
    var currentContent: seq<string> := [];
    var inCodeBlock := false;
    ghost var done: seq<Section> := [];
    var i := 0;
    while i < |lines|
      invariant 0 <= i <= |lines|
      invariant files == Render(done)
      invariant Run(d, Scan(done, currentFile, currentContent, inCodeBlock), ls[i..]) == Run(d, Start, ls)
    {
      RunAt(d, Scan(done, currentFile, currentContent, inCodeBlock), ls, i);
      files, currentFile, currentContent, inCodeBlock, done :=
        ScanLine(d, lines[i], files, currentFile, currentContent, inCodeBlock, done);
      i := i + 1;
    }
    if currentFile != "" && currentContent != [] {
      RenderAppend(done, Section(currentFile, currentContent));
      files := files + [Artifact(currentFile, Join(currentContent, "\n"))];
      done := done + [Section(currentFile, currentContent)];
    }
    assert ls[|lines|..] == [];
    if d == Infra && files == [] {
      files := [Artifact("README.md", response)];
    }
  }

  /** One iteration of the loop of `extract_files`: the state after `line`, and the files flushed so far. */
  method ScanLine(d: Dialect, line: string, files: seq<Artifact>, currentFile: string,
                  currentContent: seq<string>, inCodeBlock: bool, ghost done: seq<Section>)
    returns (files': seq<Artifact>, currentFile': string, currentContent': seq<string>,
             inCodeBlock': bool, ghost done': seq<Section>)
    requires files == Render(done)
    ensures var st := Step(d, Scan(done, currentFile, currentContent, inCodeBlock), Line(Classify(line), line));
      files' == Render(st.done) && currentFile' == st.current && currentContent' == st.content
      && inCodeBlock' == st.inCode
    ensures files' == Render(done')
    ensures Scan(done', currentFile', currentContent', inCodeBlock')
         == Step(d, Scan(done, currentFile, currentContent, inCodeBlock), Line(Classify(line), line))
  {
    files', currentFile', currentContent', inCodeBlock', done' := files, currentFile, currentContent, inCodeBlock, done;
    if IsMarker(line) {
      assert Classify(line) == Marker(Strip(line[8..]));
      if currentFile != "" {
        RenderAppend(done, Section(currentFile, currentContent));
        files' := files + [Artifact(currentFile, Join(currentContent, "\n"))];
        done' := done + [Section(currentFile, currentContent)];
        currentContent' := [];
      }
      currentFile' := Strip(line[8..]);
      inCodeBlock' := false;
    } else if IsFence(line) {
      assert Classify(line) == Fence(Strip(Strip(line)[3..]));
      if inCodeBlock {
        inCodeBlock' := false;
        if currentFile != "" {
          RenderAppend(done, Section(currentFile, currentContent));
          files' := files + [Artifact(currentFile, Join(currentContent, "\n"))];
          done' := done + [Section(currentFile, currentContent)];
          currentFile' := "";
          currentContent' := [];
        }
      } else {
        inCodeBlock' := true;
        if currentFile == "" {
          var lang := Strip(Strip(line)[3..]);
          if lang != "" {
            currentFile' := Stem(d) + "." + Extension(d, lang);
          }
        }
      }
    } else {
      assert Classify(line) == Text;
      if inCodeBlock && currentFile != "" {
        currentContent' := currentContent + [line];
      }
    }
  }

  // ---------------------------------------------------------------------
  // Running over a concatenation

  lemma {:induction false} RunAppend(d: Dialect, st: Scan, a: seq<Line>, b: seq<Line>)
    ensures Run(d, st, a + b) == Run(d, Run(d, st, a), b)
    decreases |a|
  {
    if a == [] {
      assert a + b == b;
    } else {
      assert (a + b)[0] == a[0] && (a + b)[1..] == a[1..] + b;
      RunAppend(d, Step(d, st, a[0]), a[1..], b);
    }
  }

  // ---------------------------------------------------------------------
  // The fallbacks

  /** The infra agent never returns an empty list; when nothing was found it returns the reply as README.md. */
  lemma InfraNeverEmpty(response: string)
    ensures Extracted(Infra, response) != []
    ensures Scanned(Infra, response) == [] ==> Extracted(Infra, response) == [Artifact("README.md", response)]
    ensures Scanned(Infra, response) != [] ==> Extracted(Infra, response) == Scanned(Infra, response)
  {
  }

  /** The code agent's `run` never goes on with an empty list either. */
  lemma CodeRunNeverEmpty(response: string)
    ensures CodeRunFiles(response) != []
    ensures Scanned(Code, response) == [] ==> CodeRunFiles(response) == [Artifact("generated_code.txt", response)]
    ensures Scanned(Code, response) != [] ==> CodeRunFiles(response) == Scanned(Code, response)
  {
  }

  // ---------------------------------------------------------------------
  // What the files hold

  predicate PlainLines(lines: seq<string>) {
    forall k :: 0 <= k < |lines| ==> PlainLine(lines[k])
  }

  /**
   * The scan's invariant: every emitted section has a name and only plain
   * lines, the current lines are plain, and without a current file there
   * are no current lines.
   */
  predicate Good(st: Scan) {
    PlainLines(st.content)
    && (st.current == "" ==> st.content == [])
    && forall k :: 0 <= k < |st.done| ==> st.done[k].filename != "" && PlainLines(st.done[k].lines)
  }

  lemma StepGood(d: Dialect, st: Scan, l: Line)
    requires Good(st) && l.kind == Classify(l.text)
    ensures Good(Step(d, st, l))
  {
  }

  lemma {:induction false} RunGood(d: Dialect, st: Scan, ls: seq<Line>)
    requires Good(st)
    requires forall k :: 0 <= k < |ls| ==> ls[k].kind == Classify(ls[k].text)
    ensures Good(Run(d, st, ls))
    decreases |ls|
  {
    if ls != [] {
      StepGood(d, st, ls[0]);
      assert forall k :: 0 <= k < |ls[1..]| ==> ls[1..][k] == ls[k + 1];
      RunGood(d, Step(d, st, ls[0]), ls[1..]);
    }
  }

  /**
   * Every file found has a name, and none of its lines is a marker or a
   * fence line: inside a block any fence line closes it.
   */
  lemma SectionsPlain(d: Dialect, response: string)
    ensures forall k :: 0 <= k < |Sections(d, response)| ==>
      Sections(d, response)[k].filename != "" && PlainLines(Sections(d, response)[k].lines)
  {
    RunGood(d, Start, Classified(SplitOn(response, '\n')));
  }

  // ---------------------------------------------------------------------
  // Text outside a block is ignored

  lemma {:induction false} RunProse(d: Dialect, st: Scan, lines: seq<string>)
    requires !st.inCode
    ensures Run(d, st, AsText(lines)) == st
    decreases |lines|
  {
    if lines != [] {
      assert AsText(lines)[1..] == AsText(lines[1..]);
      RunProse(d, st, lines[1..]);
    }
  }

  /**
   * Plain lines inserted at a point where no block is open change nothing:
   * prose between a marker and its block, or between blocks, is dropped.
   */
  lemma ProseIgnored(d: Dialect, st: Scan, a: seq<string>, prose: seq<string>, b: seq<string>)
    requires !Run(d, st, Classified(a)).inCode
    requires PlainLines(prose)
    ensures Run(d, st, Classified(a + prose + b)) == Run(d, st, Classified(a + b))
  {
    ClassifiedAppend(a, prose);
    ClassifiedAppend(a + prose, b);
    ClassifiedAppend(a, b);
    ClassifiedPlain(prose);
    RunAppend(d, st, Classified(a), AsText(prose));
    RunProse(d, Run(d, st, Classified(a)), prose);
    RunAppend(d, st, Classified(a) + AsText(prose), Classified(b));
    RunAppend(d, st, Classified(a), Classified(b));
  }

  // ---------------------------------------------------------------------
  // Lines inside a block

  lemma {:induction false} RunInBlock(d: Dialect, st: Scan, lines: seq<string>)
    requires st.inCode && st.current != ""
    ensures Run(d, st, AsText(lines)) == st.(content := st.content + lines)
    decreases |lines|
  {
    if lines != [] {
      assert AsText(lines)[1..] == AsText(lines[1..]);
      RunInBlock(d, Step(d, st, AsText(lines)[0]), lines[1..]);
      assert st.content + [lines[0]] + lines[1..] == st.content + lines;
    }
  }

  lemma {:induction false} RunNoFile(d: Dialect, st: Scan, lines: seq<string>)
    requires st.inCode && st.current == ""
    ensures Run(d, st, AsText(lines)) == st
    decreases |lines|
  {
    if lines != [] {
      assert AsText(lines)[1..] == AsText(lines[1..]);
      RunNoFile(d, st, lines[1..]);
    }
  }

  /** A bare fence is a fence line with no tag. */
  lemma BareFenceLine()
    ensures Classify("```") == Fence("")
  {
    assert "```"[..3] == "```";
    assert StartsWith(Strip("```"), "```") by {
      StripTrimmed("```");
    }
    assert Strip("```"[3..]) == "" by {
      assert "```"[3..] == "";
      StripEmpty("");
    }
  }

  /** A fence with a valid tag is classified with exactly that tag. */
  lemma TaggedFenceLine(tag: string)
    requires ValidName(tag)
    ensures Classify("```" + tag) == Fence(tag)
    ensures '\n' !in "```" + tag
  {
    var line := "```" + tag;
    assert line[0] == '`' && line[|line| - 1] == tag[|tag| - 1];
    StripTrimmed(line);
    assert line[..3] == "```";
    assert line[3..] == tag;
    StripTrimmed(tag);
  }

  /** The bare fence as a classified line. */
  const BareLine: Line := Line(Fence(""), "```")

  /** The marker line for `name` as a classified line. */
  function MarkerLine(name: string): Line {
    Line(Marker(name), Header(name))
  }

  /** A line without a newline, then a newline, then the rest. */
  lemma SplitFirst(a: string, rest: string)
    requires '\n' !in a
    ensures SplitOn(a + "\n" + rest, '\n') == [a] + SplitOn(rest, '\n')
  {
    SplitPrefix(a, rest, '\n');
  }

  lemma ClassifiedCons(x: string, xs: seq<string>)
    ensures Classified([x] + xs) == [Line(Classify(x), x)] + Classified(xs)
  {
    ClassifiedAppend([x], xs);
  }

  /** The classified lines of a block: its opening line, a plain body, a bare fence. */
  lemma ClassifiedBlock(open: string, body: seq<string>)
    requires PlainLines(body)
    ensures Classified([open] + body + ["```"]) == [Line(Classify(open), open)] + AsText(body) + [BareLine]
  {
    BareFenceLine();
    ClassifiedAppend([open] + body, ["```"]);
    ClassifiedCons(open, body);
    ClassifiedPlain(body);
  }

  /** The text of a code block: an opening line, the body, a bare closing fence. */
  function Block(open: string, body: string): string {
    open + "\n" + body + "\n```"
  }

  /** The lines of a block. */
  lemma BlockLines(open: string, body: string)
    requires '\n' !in open
    ensures SplitOn(Block(open, body), '\n') == [open] + SplitOn(body, '\n') + ["```"]
  {
    assert open + "\n" + body + "\n```" == open + ['\n'] + (body + ['\n'] + "```");
    SplitPrefix(open, body + ['\n'] + "```", '\n');
    SplitConcat(body, "```", '\n');
    SplitNoSep("```", '\n');
  }

  /** The state after a block's opening line, its plain body and its bare closing fence. */
  lemma RunBlock(d: Dialect, st: Scan, open: Line, body: seq<string>)
    requires !st.inCode
    requires open.kind.Fence?
    requires st.current == "" ==> st.content == []
    ensures var st1 := Step(d, st, open);
      Run(d, st, [open] + AsText(body) + [BareLine])
      == if st1.current != "" then Scan(st.done + [Section(st1.current, st.content + body)], "", [], false)
         else st.(inCode := false)
  {
    var st1 := Step(d, st, open);
    RunAppend(d, st, [open] + AsText(body), [BareLine]);
    RunAppend(d, st, [open], AsText(body));
    assert Run(d, st, [open]) == st1 by {
      assert [open][1..] == [];
    }
    if st1.current != "" {
      RunInBlock(d, st1, body);
    } else {
      RunNoFile(d, st1, body);
    }
    assert [BareLine][1..] == [];
  }

  /** A block with no tag and no current file is discarded. */
  lemma UntaggedBlockDropped(d: Dialect, body: string)
    requires PlainBody(body)
    ensures Scanned(d, Block("```", body)) == []
  {
    var lines := SplitOn(body, '\n');
    BlockLines("```", body);
    ClassifiedBlock("```", lines);
    BareFenceLine();
    assert Classified(SplitOn(Block("```", body), '\n')) == [BareLine] + AsText(lines) + [BareLine];
    RunBlock(d, Start, BareLine, lines);
    assert Run(d, Start, [BareLine] + AsText(lines) + [BareLine]) == Start;
  }

  /** So a reply that is only such a block makes the infra agent return it whole as README.md. */
  lemma UntaggedBlockFallback(body: string)
    requires PlainBody(body)
    ensures Extracted(Infra, Block("```", body)) == [Artifact("README.md", Block("```", body))]
  {
    UntaggedBlockDropped(Infra, body);
  }

  /** A tagged block run from a state with no file and no open block. */
  lemma TaggedBlockRun(d: Dialect, st: Scan, tag: string, lines: seq<string>)
    requires ValidName(tag) && PlainLines(lines)
    requires st.current == "" && st.content == [] && !st.inCode
    ensures Run(d, st, Classified(["```" + tag] + lines + ["```"]))
         == Scan(st.done + [Section(DefaultName(d, tag), lines)], "", [], false)
  {
    var open := Line(Fence(tag), "```" + tag);
    TaggedFenceLine(tag);
    ClassifiedBlock("```" + tag, lines);
    assert Step(d, st, open) == st.(current := DefaultName(d, tag), inCode := true);
    RunBlock(d, st, open, lines);
    assert st.content + lines == lines;
  }

  /** An unnamed block with a tag becomes one file named after the tag. */
  lemma TaggedBlockNamed(d: Dialect, tag: string, body: string)
    requires ValidName(tag)
    requires PlainBody(body)
    ensures Scanned(d, Block("```" + tag, body)) == [Artifact(DefaultName(d, tag), body)]
  {
    var lines := SplitOn(body, '\n');
    TaggedFenceLine(tag);
    BlockLines("```" + tag, body);
    TaggedBlockRun(d, Start, tag, lines);
    JoinSplit(body, '\n');
  }

  /** The lines of two tagged blocks, one after the other. */
  lemma TwoBlocksLines(tag: string, body1: string, body2: string)
    requires ValidName(tag)
    ensures SplitOn(Block("```" + tag, body1) + "\n" + Block("```" + tag, body2), '\n')
         == (["```" + tag] + SplitOn(body1, '\n') + ["```"]) + (["```" + tag] + SplitOn(body2, '\n') + ["```"])
  {
    TaggedFenceLine(tag);
    BlockLines("```" + tag, body1);
    BlockLines("```" + tag, body2);
    SplitConcat(Block("```" + tag, body1), Block("```" + tag, body2), '\n');
  }

  /** The state after two tagged blocks, one after the other, from the start. */
  lemma TwoBlocksRun(d: Dialect, tag: string, lines1: seq<string>, lines2: seq<string>)
    requires ValidName(tag) && PlainLines(lines1) && PlainLines(lines2)
    ensures Run(d, Start, Classified((["```" + tag] + lines1 + ["```"]) + (["```" + tag] + lines2 + ["```"])))
         == Scan([Section(DefaultName(d, tag), lines1), Section(DefaultName(d, tag), lines2)], "", [], false)
  {
    var l1 := ["```" + tag] + lines1 + ["```"];
    var l2 := ["```" + tag] + lines2 + ["```"];
    ClassifiedAppend(l1, l2);
    TaggedBlockRun(d, Start, tag, lines1);
    var st1 := Run(d, Start, Classified(l1));
    TaggedBlockRun(d, st1, tag, lines2);
    RunAppend(d, Start, Classified(l1), Classified(l2));
  }

  /** Two blocks with the same tag, one after the other, give two files of the same name. */
  lemma DuplicateDefaultNames(d: Dialect, tag: string, body1: string, body2: string)
    requires ValidName(tag)
    requires PlainBody(body1) && PlainBody(body2)
    ensures Scanned(d, Block("```" + tag, body1) + "\n" + Block("```" + tag, body2))
         == [Artifact(DefaultName(d, tag), body1), Artifact(DefaultName(d, tag), body2)]
  {
    TwoBlocksLines(tag, body1, body2);
    TwoBlocksRun(d, tag, SplitOn(body1, '\n'), SplitOn(body2, '\n'));
    JoinSplit(body1, '\n');
    JoinSplit(body2, '\n');
  }

  /** The infra agent's table, whatever the case of the tag. */
  lemma InfraDefaultNames()
    ensures DefaultName(Infra, "bash") == "infra.sh"
    ensures DefaultName(Infra, "HCL") == "infra.tf"
    ensures DefaultName(Infra, "ruby") == "infra.txt"
  {
    assert Lower("bash") == "bash";
    assert Lower("HCL") == "hcl";
    assert Lower("ruby") == "ruby";
  }

  /** The code agent's table, whatever the case of the tag. */
  lemma CodeDefaultNames()
    ensures DefaultName(Code, "Rust") == "generated_code.rs"
    ensures DefaultName(Code, "yaml") == "generated_code.txt"
  {
    assert Lower("Rust") == "rust";
    assert Lower("yaml") == "yaml";
  }

  // ---------------------------------------------------------------------
  // The end of the input

  /** A marker followed by an opening bare fence: the named file with an open block and no lines. */
  lemma RunOpened(d: Dialect, name: string, rest: seq<Line>)
    requires name != ""
    ensures Run(d, Start, [MarkerLine(name), BareLine] + rest) == Run(d, Scan([], name, [], true), rest)
  {
    var ls := [MarkerLine(name), BareLine] + rest;
    assert ls[0] == MarkerLine(name) && ls[1..][0] == BareLine && ls[1..][1..] == rest;
  }

  /** The lines of a marker, a bare fence and more. */
  lemma OpenedSplit(name: string, rest: string)
    requires ValidName(name)
    ensures SplitOn(Header(name) + "\n```\n" + rest, '\n') == [Header(name), "```"] + SplitOn(rest, '\n')
  {
    HeaderName(name);
    assert Header(name) + "\n```\n" + rest == Header(name) + "\n" + ("```" + "\n" + rest);
    SplitFirst(Header(name), "```" + "\n" + rest);
    SplitFirst("```", rest);
  }

  /** A marker and a bare fence, classified. */
  lemma OpenedClassified(name: string, xs: seq<string>)
    requires ValidName(name)
    ensures Classified([Header(name), "```"] + xs) == [MarkerLine(name), BareLine] + Classified(xs)
  {
    HeaderName(name);
    BareFenceLine();
    ClassifiedAppend([Header(name), "```"], xs);
    assert Classified([Header(name), "```"]) == [MarkerLine(name), BareLine];
  }

  lemma OpenedLines(name: string, rest: string)
    requires ValidName(name)
    ensures Classified(SplitOn(Header(name) + "\n```\n" + rest, '\n'))
         == [MarkerLine(name), BareLine] + Classified(SplitOn(rest, '\n'))
  {
    OpenedSplit(name, rest);
    OpenedClassified(name, SplitOn(rest, '\n'));
  }

  /** A block still open at the end is emitted when it kept a line, even an empty one. */
  lemma UnclosedBlockKept(d: Dialect, name: string, body: string)
    requires ValidName(name) && PlainBody(body)
    ensures Scanned(d, Header(name) + "\n```\n" + body) == [Artifact(name, body)]
  {
    var lines := SplitOn(body, '\n');
    var ls := Classified(SplitOn(Header(name) + "\n```\n" + body, '\n'));
    assert ls == [MarkerLine(name), BareLine] + AsText(lines) by {
      OpenedLines(name, body);
      ClassifiedPlain(lines);
    }
    assert Run(d, Start, ls) == Scan([], name, lines, true) by {
      RunOpened(d, name, AsText(lines));
      RunInBlock(d, Scan([], name, [], true), lines);
      assert [] + lines == lines;
    }
    JoinSplit(body, '\n');
  }

  /** The lines of a marker followed by a bare fence and nothing else. */
  lemma OpenedOnly(name: string)
    requires ValidName(name)
    ensures Classified(SplitOn(Header(name) + "\n```", '\n')) == [MarkerLine(name), BareLine] + []
  {
    HeaderName(name);
    assert Header(name) + "\n```" == Header(name) + "\n" + "```";
    SplitFirst(Header(name), "```");
    SplitNoSep("```", '\n');
    OpenedClassified(name, []);
    assert [Header(name)] + ["```"] == [Header(name), "```"] + [];
  }

  /** An open block that kept nothing is dropped at the end. */
  lemma UnclosedEmptyDropped(d: Dialect, name: string)
    requires ValidName(name)
    ensures Scanned(d, Header(name) + "\n```") == []
  {
    OpenedOnly(name);
    RunOpened(d, name, []);
  }

  /** The lines of a marker followed by two bare fences. */
  lemma ClosedOnly(name: string)
    requires ValidName(name)
    ensures Classified(SplitOn(Header(name) + "\n```\n" + "```", '\n')) == [MarkerLine(name), BareLine] + [BareLine]
  {
    OpenedLines(name, "```");
    assert Classified(SplitOn("```", '\n')) == [BareLine] by {
      SplitNoSep("```", '\n');
      BareFenceLine();
    }
  }

  /** A closed block is emitted even when it is empty. */
  lemma ClosedEmptyKept(d: Dialect, name: string)
    requires ValidName(name)
    ensures Scanned(d, Header(name) + "\n```\n" + "```") == [Artifact(name, "")]
  {
    ClosedOnly(name);
    RunOpened(d, name, [BareLine]);
    assert [BareLine][1..] == [];
  }

  // ---------------------------------------------------------------------
  // Round trip: named files, each in a block

  /** A section the fenced format carries unchanged: a valid name and plain lines without newlines. */
  predicate FenceableSection(sec: Section) {
    ValidName(sec.filename) && PlainLines(sec.lines)
    && forall k :: 0 <= k < |sec.lines| ==> '\n' !in sec.lines[k]
  }

  predicate Fenceable(secs: seq<Section>)
    decreases |secs|
  {
    secs == [] || (FenceableSection(secs[0]) && Fenceable(secs[1..]))
  }

  /** The lines of `## file: NAME`, a bare fence, the lines and a bare fence, section after section. */
  function FencedLines(secs: seq<Section>): seq<string>
    decreases |secs|
  {
    if secs == [] then []
    else [Header(secs[0].filename), "```"] + secs[0].lines + ["```"] + FencedLines(secs[1..])
  }

  /** The reply an LLM would write for `fs`, each file under its marker in a code block. */
  function Fenced(fs: seq<Artifact>): string {
    Join(FencedLines(Unjoined(fs)), "\n")
  }

  lemma {:induction false} FenceableUnjoined(fs: seq<Artifact>)
    requires AllValid(fs)
    ensures Fenceable(Unjoined(fs))
    decreases |fs|
  {
    if fs != [] {
      UnjoinedCons(fs);
      SplitOnPieces(fs[0].content, '\n');
      FenceableUnjoined(fs[1..]);
      assert Unjoined(fs)[1..] == Unjoined(fs[1..]);
    }
  }

  lemma {:induction false} FencedLinesNoNewline(secs: seq<Section>)
    requires Fenceable(secs)
    ensures |FencedLines(secs)| >= |secs|
    ensures forall k :: 0 <= k < |FencedLines(secs)| ==> '\n' !in FencedLines(secs)[k]
    decreases |secs|
  {
    if secs != [] {
      var h := [Header(secs[0].filename), "```"];
      var body := secs[0].lines;
      var rest := FencedLines(secs[1..]);
      HeaderName(secs[0].filename);
      FencedLinesNoNewline(secs[1..]);
      var all := FencedLines(secs);
      assert all == h + body + ["```"] + rest;
      forall k | 0 <= k < |all| ensures '\n' !in all[k] {
        if k < 2 {
        } else if k < 2 + |body| {
          assert all[k] == body[k - 2];
        } else if k > 2 + |body| {
          assert all[k] == rest[k - 3 - |body|];
        }
      }
    }
  }

  /** One file of the fenced format, from a state with no file and no open block. */
  lemma RunFencedFile(d: Dialect, done: seq<Section>, name: string, body: seq<string>)
    requires ValidName(name) && PlainLines(body)
    ensures Run(d, Scan(done, "", [], false), Classified([Header(name), "```"] + body + ["```"]))
         == Scan(done + [Section(name, body)], "", [], false)
  {
    var st := Scan(done, "", [], false);
    var st1 := Scan(done, name, [], false);
    var rest := [BareLine] + AsText(body) + [BareLine];
    assert Classified([Header(name), "```"] + body + ["```"]) == [MarkerLine(name)] + rest by {
      assert [Header(name), "```"] + body + ["```"] == [Header(name), "```"] + (body + ["```"]);
      OpenedClassified(name, body + ["```"]);
      ClassifiedAppend(body, ["```"]);
      ClassifiedPlain(body);
      BareFenceLine();
    }
    RunAppend(d, st, [MarkerLine(name)], rest);
    assert Run(d, st, [MarkerLine(name)]) == st1 by {
      assert [MarkerLine(name)][1..] == [];
    }
    RunBlock(d, st1, BareLine, body);
    assert [] + body == body;
  }

  /** The first section of the fenced format, followed by the rest. */
  lemma RunFencedFirst(d: Dialect, done: seq<Section>, secs: seq<Section>)
    requires secs != [] && FenceableSection(secs[0])
    ensures Run(d, Scan(done, "", [], false), Classified(FencedLines(secs)))
         == Run(d, Scan(done + [secs[0]], "", [], false), Classified(FencedLines(secs[1..])))
  {
    var sec := secs[0];
    var chunk := [Header(sec.filename), "```"] + sec.lines + ["```"];
    var st := Scan(done, "", [], false);
    var rest := Classified(FencedLines(secs[1..]));
    assert FencedLines(secs) == chunk + FencedLines(secs[1..]);
    ClassifiedAppend(chunk, FencedLines(secs[1..]));
    RunAppend(d, st, Classified(chunk), rest);
    RunFencedFile(d, done, sec.filename, sec.lines);
  }

  lemma {:induction false} RunFenced(d: Dialect, done: seq<Section>, secs: seq<Section>)
    requires Fenceable(secs)
    ensures Run(d, Scan(done, "", [], false), Classified(FencedLines(secs))) == Scan(done + secs, "", [], false)
    decreases |secs|
  {
    if secs == [] {
      assert done + secs == done;
    } else {
      RunFencedFirst(d, done, secs);
      RunFenced(d, done + [secs[0]], secs[1..]);
      assert done + [secs[0]] + secs[1..] == done + secs;
    }
  }

  /** An empty reply is one empty line, which is never kept. */
  lemma EmptyReply(d: Dialect)
    ensures Scanned(d, "") == []
  {
    assert SplitOn("", '\n') == [""];
    assert Classify("") == Text by {
      ShortPlain("");
    }
    assert Classified([""]) == [Line(Text, "")];
  }

  /**
   * Files written each as a marker followed by a block holding the body are
   * extracted back exactly, when names are valid and no body line is a
   * marker or a fence line.
   */
  lemma RoundTrip(d: Dialect, fs: seq<Artifact>)
    requires forall k :: 0 <= k < |fs| ==> ValidFile(fs[k])
    ensures Scanned(d, Fenced(fs)) == fs
    ensures fs != [] ==> Extracted(d, Fenced(fs)) == fs
  {
    AllValidIff(fs);
    if fs == [] {
      assert Fenced(fs) == "";
      EmptyReply(d);
    } else {
      var secs := Unjoined(fs);
      FenceableUnjoined(fs);
      FencedLinesNoNewline(secs);
      SplitJoin(FencedLines(secs), '\n');
      RunFenced(d, [], secs);
      assert [] + secs == secs;
      RenderUnjoined(fs);
    }
  }
}
