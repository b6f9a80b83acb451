/**
 * The file extractor shared by the docker, kubernetes, ansible and terraform
 * agents (`extract_files`). The reply is read line by line:
 *
 *  - a marker line `## file: NAME` (or `## File: NAME`) closes the file
 *    being collected, if any, and starts collecting NAME;
 *  - a line whose stripped form opens a code fence while no fence is open,
 *    and a bare closing fence while one is open, are dropped;
 *  - every other line is appended to the current file, if there is one;
 *  - at the end the current file is emitted, even when it collected nothing.
 *
 * A file is "current" exactly when its name is non-empty: a marker with an
 * empty name switches collection off. Fences only toggle a flag that decides
 * which backtick lines are dropped; they never end a file.
 */
module CarryExtract {
  import opened Text
  import opened Artifacts

  /** Appends a line to the current file, if there is one. */
  function Collect(st: Scan, text: string): Scan {
    if st.current != "" then st.(content := st.content + [text]) else st
  }

  /**
   * One iteration of the loop. The source tests, in order: marker; fence
   * while no block is open; bare fence while a block is open. A fence with
   * a tag inside an open block therefore falls through and is collected.
   */
  function Step(st: Scan, l: Line): Scan {
    match l.kind
    case Marker(name) =>
      Scan(Closed(st), name, if st.current != "" then [] else st.content, false)
    case Fence(lang) =>
      if !st.inCode then st.(inCode := true)
      else if lang == "" then st.(inCode := false)
      else Collect(st, l.text)
    case Text =>
      Collect(st, l.text)
  }

  function Run(st: Scan, ls: seq<Line>): Scan
    decreases |ls|
  {
    if ls == [] then st else Run(Step(st, ls[0]), ls[1..])
  }

  /** The sections of a reply, before their lines are joined. */
  function Sections(response: string): seq<Section> {
    Closed(Run(Start, Classified(SplitOn(response, '\n'))))
  }

  /** The artifacts `extract_files` returns for `response`. */
  function Extracted(response: string): seq<Artifact> {
    Render(Sections(response))
  }

  /** `extract_files`, as the loop the agents run. */
  method ExtractFiles(response: string) returns (files: seq<Artifact>)
    ensures files == Extracted(response)
  {
    var lines := SplitOn(response, '\n');
    ghost var ls := Classified(lines);
    files := [];
    var currentFile := "";
    var currentContent: seq<string> := [];
    var inCodeBlock := false;
    ghost var done: seq<Section> := [];
    var i := 0;
    while i < |lines|
      invariant 0 <= i <= |lines|
      invariant files == Render(done)
      invariant Run(Scan(done, currentFile, currentContent, inCodeBlock), ls[i..]) == Run(Start, ls)
    {
      var line := lines[i];
      ghost var st := Scan(done, currentFile, currentContent, inCodeBlock);
      assert ls[i..][0] == Line(Classify(line), line) && ls[i..][1..] == ls[i + 1..];
      if IsMarker(line) {
        if currentFile != "" {
          RenderAppend(done, Section(currentFile, currentContent));
          files := files + [Artifact(currentFile, Join(currentContent, "\n"))];
          done := done + [Section(currentFile, currentContent)];
          currentContent := [];
        }
        currentFile := Strip(line[8..]);
        inCodeBlock := false;
      } else if IsFence(line) && !inCodeBlock {
        inCodeBlock := true;
      } else if Strip(line) == "```" && inCodeBlock {
        inCodeBlock := false;
      } else if currentFile != "" {
        currentContent := currentContent + [line];
      }
      assert Scan(done, currentFile, currentContent, inCodeBlock) == Step(st, Line(Classify(line), line));
      i := i + 1;
    }
    if currentFile != "" {
      RenderAppend(done, Section(currentFile, currentContent));
      files := files + [Artifact(currentFile, Join(currentContent, "\n"))];
      done := done + [Section(currentFile, currentContent)];
    }
    assert ls[|lines|..] == [];
  }

  // ---------------------------------------------------------------------
  // Running over a concatenation

  lemma {:induction false} RunAppend(st: Scan, a: seq<Line>, b: seq<Line>)
    ensures Run(st, a + b) == Run(Run(st, a), b)
    decreases |a|
  {
    if a == [] {
      assert a + b == b;
    } else {
      assert (a + b)[0] == a[0] && (a + b)[1..] == a[1..] + b;
      RunAppend(Step(st, a[0]), a[1..], b);
    }
  }

  // ---------------------------------------------------------------------
  // Which names come out, and in which order

  /** The non-empty names carried by the marker lines, in order. */
  function MarkerNames(ls: seq<Line>): seq<string>
    decreases |ls|
  {
    if ls == [] then []
    else
      (if ls[0].kind.Marker? && ls[0].kind.name != "" then [ls[0].kind.name] else [])
      + MarkerNames(ls[1..])
  }

  /** One line adds to the names exactly the non-empty name of its marker. */
  lemma StepNames(st: Scan, l: Line)
    ensures Filenames(Render(Closed(Step(st, l)))) == Filenames(Render(Closed(st))) + MarkerNames([l])
  {
    assert [l][1..] == [];
    assert MarkerNames([l]) == if l.kind.Marker? && l.kind.name != "" then [l.kind.name] else [];
    if l.kind.Marker? {
      var st' := Step(st, l);
      assert st'.done == Closed(st) && st'.current == l.kind.name;
      if l.kind.name != "" {
        assert Closed(st') == Closed(st) + [Section(l.kind.name, st'.content)];
        RenderAppend(Closed(st), Section(l.kind.name, st'.content));
        FilenamesAppend(Render(Closed(st)), Emit(Section(l.kind.name, st'.content)));
      } else {
        assert Closed(st') == Closed(st);
      }
    }
  }

  lemma {:induction false} RunNames(st: Scan, ls: seq<Line>)
    ensures Filenames(Render(Closed(Run(st, ls)))) == Filenames(Render(Closed(st))) + MarkerNames(ls)
    decreases |ls|
  {
    if ls != [] {
      var st' := Step(st, ls[0]);
      StepNames(st, ls[0]);
      RunNames(st', ls[1..]);
      assert MarkerNames(ls) == MarkerNames([ls[0]]) + MarkerNames(ls[1..]);
    }
  }

  /**
   * Every marker line with a non-empty name yields exactly one file, in the
   * order of the markers, and nothing else yields a file.
   */
  lemma ExtractedNames(response: string)
    ensures Filenames(Extracted(response)) == MarkerNames(Classified(SplitOn(response, '\n')))
  {
    RunNames(Start, Classified(SplitOn(response, '\n')));
  }

  // ---------------------------------------------------------------------
  // What never becomes content

  /** A content line: not a marker and not a bare fence. */
  predicate ContentLine(line: string) {
    !IsMarker(line) && Strip(line) != "```"
  }

  predicate CleanLines(lines: seq<string>) {
    forall k :: 0 <= k < |lines| ==> ContentLine(lines[k])
  }

  predicate Clean(st: Scan) {
    CleanLines(st.content) && forall k :: 0 <= k < |st.done| ==> CleanLines(st.done[k].lines)
  }

  /** The line's kind is the one its text gets. */
  predicate Honest(l: Line) {
    l.kind == Classify(l.text)
  }

  lemma StepClean(st: Scan, l: Line)
    requires Clean(st) && Honest(l)
    ensures Clean(Step(st, l))
  {
    if !l.kind.Marker? {
      assert Strip(l.text) == "```" ==> IsFence(l.text);
    }
  }

  lemma {:induction false} RunClean(st: Scan, ls: seq<Line>)
    requires Clean(st)
    requires forall k :: 0 <= k < |ls| ==> Honest(ls[k])
    ensures Clean(Run(st, ls))
    decreases |ls|
  {
    if ls != [] {
      StepClean(st, ls[0]);
      assert forall k :: 0 <= k < |ls[1..]| ==> ls[1..][k] == ls[k + 1];
      RunClean(Step(st, ls[0]), ls[1..]);
    }
  }

  /**
   * No extracted file holds a marker line or a bare fence: markers always
   * start a new file, and a bare fence either opens or closes a block.
   */
  lemma ExtractedContentClean(response: string)
    ensures forall k :: 0 <= k < |Sections(response)| ==> CleanLines(Sections(response)[k].lines)
  {
    RunClean(Start, Classified(SplitOn(response, '\n')));
  }

  /**
   * Inside an open block, a line that opens another block (```python, say)
   * is collected: only a bare fence closes a block.
   */
  lemma NestedFenceKept(st: Scan, line: string)
    requires st.inCode && st.current != ""
    requires IsFence(line) && Strip(line) != "```" && !IsMarker(line)
    ensures Step(st, Line(Classify(line), line)) == st.(content := st.content + [line])
  {
  }

  // ---------------------------------------------------------------------
  // Text before the first marker

  lemma {:induction false} RunNoMarkers(b: bool, ls: seq<Line>)
    requires forall k :: 0 <= k < |ls| ==> !ls[k].kind.Marker?
    ensures exists b' :: Run(Scan([], "", [], b), ls) == Scan([], "", [], b')
    decreases |ls|
  {
    if ls != [] {
      var st' := Step(Scan([], "", [], b), ls[0]);
      assert forall k :: 0 <= k < |ls[1..]| ==> ls[1..][k] == ls[k + 1];
      RunNoMarkers(st'.inCode, ls[1..]);
    }
  }

  /** Lines before the first marker are discarded, whatever they contain. */
  lemma PreambleDropped(pre: seq<string>, rest: seq<string>)
    requires forall k :: 0 <= k < |pre| ==> !IsMarker(pre[k])
    requires rest != [] && IsMarker(rest[0])
    ensures Closed(Run(Start, Classified(pre + rest))) == Closed(Run(Start, Classified(rest)))
  {
    var a := Classified(pre);
    var b := Classified(rest);
    ClassifiedAppend(pre, rest);
    RunAppend(Start, a, b);
    RunNoMarkers(false, a);
    var b' :| Run(Start, a) == Scan([], "", [], b');
    assert Step(Scan([], "", [], b'), b[0]) == Step(Start, b[0]);
    LinesCons(b);
  }

  lemma LinesCons(b: seq<Line>)
    requires b != []
    ensures b == [b[0]] + b[1..]
  {
  }

  // ---------------------------------------------------------------------
  // Round trip: writing files in the marker format and extracting them

  /** The lines of `## file: NAME` followed by the body, file after file. */
  function EncodeLines(fs: seq<Artifact>): seq<string>
    decreases |fs|
  {
    if fs == [] then []
    else [Header(fs[0].filename)] + SplitOn(fs[0].content, '\n') + EncodeLines(fs[1..])
  }

  /** The reply an LLM would write for `fs` in the requested format. */
  function Encode(fs: seq<Artifact>): string {
    Join(EncodeLines(fs), "\n")
  }

  /** The same reply as classified lines. */
  function EncodeClassified(fs: seq<Artifact>): seq<Line>
    decreases |fs|
  {
    if fs == [] then []
    else
      [Line(Marker(fs[0].filename), Header(fs[0].filename))]
      + AsText(SplitOn(fs[0].content, '\n'))
      + EncodeClassified(fs[1..])
  }

  lemma {:induction false} ClassifyEncoded(fs: seq<Artifact>)
    requires AllValid(fs)
    ensures Classified(EncodeLines(fs)) == EncodeClassified(fs)
    decreases |fs|
  {
    if fs != [] {
      var f := fs[0];
      var body := SplitOn(f.content, '\n');
      var rest := EncodeLines(fs[1..]);
      assert EncodeLines(fs) == [Header(f.filename)] + body + rest;
      HeaderName(f.filename);
      assert Classified([Header(f.filename)]) == [Line(Marker(f.filename), Header(f.filename))];
      ClassifiedPlain(body);
      ClassifyEncoded(fs[1..]);
      ClassifiedAppend([Header(f.filename)] + body, rest);
      ClassifiedAppend([Header(f.filename)], body);
      assert EncodeClassified(fs) == [Line(Marker(f.filename), Header(f.filename))] + AsText(body) + EncodeClassified(fs[1..]);
    }
  }

  lemma {:induction false} RunText(st: Scan, lines: seq<string>)
    requires st.current != "" && !st.inCode
    ensures Run(st, AsText(lines)) == st.(content := st.content + lines)
    decreases |lines|
  {
    if lines != [] {
      assert AsText(lines)[1..] == AsText(lines[1..]);
      RunText(Step(st, AsText(lines)[0]), lines[1..]);
      assert st.content + [lines[0]] + lines[1..] == st.content + lines;
    }
  }

  /** The marker and body of one file leave that file current with its body lines. */
  lemma RunFile(st: Scan, name: string, body: seq<string>)
    requires name != ""
    requires st.current == "" ==> st.content == []
    ensures Run(st, [Line(Marker(name), Header(name))] + AsText(body))
         == Scan(Closed(st), name, body, false)
  {
    var first := [Line(Marker(name), Header(name))] + AsText(body);
    assert first[0] == Line(Marker(name), Header(name));
    assert first[1..] == AsText(body);
    RunText(Scan(Closed(st), name, [], false), body);
  }

  lemma {:induction false} RunEncoded(st: Scan, fs: seq<Artifact>)
    requires st.current == "" ==> st.content == []
    requires AllValid(fs)
    ensures Closed(Run(st, EncodeClassified(fs))) == Closed(st) + Unjoined(fs)
    decreases |fs|
  {
    if fs != [] {
      var f := fs[0];
      var body := SplitOn(f.content, '\n');
      var first := [Line(Marker(f.filename), Header(f.filename))] + AsText(body);
      var rest := EncodeClassified(fs[1..]);
      var st2 := Scan(Closed(st), f.filename, body, false);
      assert EncodeClassified(fs) == first + rest;
      RunFile(st, f.filename, body);
      RunAppend(st, first, rest);
      RunEncoded(st2, fs[1..]);
      UnjoinedCons(fs);
      assert Closed(st2) == Closed(st) + [Section(f.filename, body)];
      assert Closed(st) + [Section(f.filename, body)] + Unjoined(fs[1..]) == Closed(st) + Unjoined(fs);
    }
  }

  lemma {:induction false} EncodeLinesNoNewline(fs: seq<Artifact>)
    requires forall k :: 0 <= k < |fs| ==> ValidName(fs[k].filename)
    ensures |EncodeLines(fs)| >= |fs|
    ensures forall k :: 0 <= k < |EncodeLines(fs)| ==> '\n' !in EncodeLines(fs)[k]
    decreases |fs|
  {
    if fs != [] {
      var h := Header(fs[0].filename);
      var body := SplitOn(fs[0].content, '\n');
      var rest := EncodeLines(fs[1..]);
      assert ValidName(fs[0].filename);
      HeaderName(fs[0].filename);
      SplitOnPieces(fs[0].content, '\n');
      EncodeLinesNoNewline(fs[1..]);
      var all := EncodeLines(fs);
      assert all == [h] + body + rest;
      forall k | 0 <= k < |all| ensures '\n' !in all[k] {
        if k == 0 {
        } else if k < 1 + |body| {
          assert all[k] == body[k - 1];
        } else {
          assert all[k] == rest[k - 1 - |body|];
        }
      }
    }
  }

  /**
   * Files written as `## file: NAME` followed by their body are extracted
   * back exactly, names and contents, when each name is non-empty, already
   * stripped and on one line, and no body line is a marker or a fence line.
   */
  lemma RoundTrip(fs: seq<Artifact>)
    requires forall k :: 0 <= k < |fs| ==> ValidFile(fs[k])
    ensures Extracted(Encode(fs)) == fs
  {
    if fs == [] {
      RoundTripEmpty();
    } else {
      AllValidIff(fs);
      SectionsEncoded(fs);
      RenderUnjoined(fs);
    }
  }

  /** The reply written for valid files splits into one section per file, its body unjoined. */
  lemma SectionsEncoded(fs: seq<Artifact>)
    requires fs != [] && AllValid(fs)
    requires forall k :: 0 <= k < |fs| ==> ValidName(fs[k].filename)
    ensures Sections(Encode(fs)) == Unjoined(fs)
  {
    var lines := EncodeLines(fs);
    EncodeLinesNoNewline(fs);
    SplitJoin(lines, '\n');
    assert SplitOn(Encode(fs), '\n') == lines;
    ClassifyEncoded(fs);
    RunEncoded(Start, fs);
  }

  /** The empty reply written for no files extracts no files. */
  lemma RoundTripEmpty()
    ensures Extracted(Encode([])) == []
  {
    assert SplitOn(Encode([]), '\n') == [""];
    assert Classify("") == Text by {
      ShortPlain("");
    }
    assert Classified([""]) == [Line(Text, "")];
    assert Run(Start, [Line(Text, "")]) == Start;
  }

  /**
   * A reply consisting of one marker and a body yields that single file,
   * also when the body is empty.
   */
  lemma SingleFile(name: string, body: string)
    requires ValidName(name)
    requires PlainBody(body)
    ensures Extracted(Header(name) + "\n" + body) == [Artifact(name, body)]
  {
    var fs := [Artifact(name, body)];
    assert ValidFile(fs[0]);
    RoundTrip(fs);
    var b := SplitOn(body, '\n');
    assert EncodeLines(fs) == [Header(name)] + b;
    JoinCons(Header(name), b, "\n");
    JoinSplit(body, '\n');
  }

  /**
   * A reply that ends with a newline, such as
   * "## file: a.txt\nhello\n## file: b.txt\nworld\n", gives its last file
   * the trailing newline ("world\n"): the empty string after the final
   * newline is a line of that file, and joining puts the newline back.
   */
  lemma TrailingNewlineKept(a: string, x: string, b: string, y: string)
    requires ValidName(a) && ValidName(b)
    requires PlainLine(x) && PlainLine(y) && '\n' !in x && '\n' !in y
    ensures Extracted(Header(a) + "\n" + x + "\n" + Header(b) + "\n" + y + "\n")
         == [Artifact(a, x), Artifact(b, y + "\n")]
  {
    var fs := [Artifact(a, x), Artifact(b, y + "\n")];
    TwoLines(x, y);
    assert ValidFile(fs[0]) && ValidFile(fs[1]);
    RoundTrip(fs);
    TwoEncoded(a, x, b, y);
  }

  lemma TwoLines(x: string, y: string)
    requires PlainLine(x) && PlainLine(y) && '\n' !in x && '\n' !in y
    ensures SplitOn(x, '\n') == [x]
    ensures SplitOn(y + "\n", '\n') == [y, ""]
    ensures PlainBody(x) && PlainBody(y + "\n")
  {
    SplitNoSep(x, '\n');
    SplitNoSep("", '\n');
    SplitPrefix(y, "", '\n');
    assert y + "\n" == y + ['\n'] + "";
    ShortPlain("");
  }

  lemma TwoEncodedLines(a: string, x: string, b: string, y: string)
    requires '\n' !in x && '\n' !in y
    ensures EncodeLines([Artifact(a, x), Artifact(b, y + "\n")]) == [Header(a), x, Header(b), y, ""]
  {
    var fa := Artifact(a, x);
    var fb := Artifact(b, y + "\n");
    SplitNoSep(x, '\n');
    SplitNoSep("", '\n');
    SplitPrefix(y, "", '\n');
    assert y + "\n" == y + ['\n'] + "";
    assert [fb][1..] == [];
    assert EncodeLines([fb]) == [Header(b), y, ""];
    assert [fa, fb][1..] == [fb];
  }

  /** Four lines and a final empty one, joined with newlines. */
  lemma JoinFourLines(p: string, q: string, r: string, t: string)
    ensures Join([p, q, r, t, ""], "\n") == p + "\n" + q + "\n" + r + "\n" + t + "\n"
  {
    JoinCons(t, [""], "\n");
    JoinCons(r, [t, ""], "\n");
    JoinCons(q, [r, t, ""], "\n");
    JoinCons(p, [q, r, t, ""], "\n");
  }

  lemma TwoEncoded(a: string, x: string, b: string, y: string)
    requires '\n' !in x && '\n' !in y
    ensures Encode([Artifact(a, x), Artifact(b, y + "\n")])
         == Header(a) + "\n" + x + "\n" + Header(b) + "\n" + y + "\n"
  {
    TwoEncodedLines(a, x, b, y);
    JoinFourLines(Header(a), x, Header(b), y);
  }
}
