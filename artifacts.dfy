/**
 * What every extractor produces, and how it sees the reply's lines.
 *
 * The result is an ordered list of (filename, content) pairs, the
 * dictionaries `{"filename": ..., "content": ...}` of the agents. While
 * scanning, an artifact's content is kept as its list of lines and joined
 * with "\n" when it is emitted; `Section` is that unjoined form.
 *
 * Every extractor tests each line the same way: is it a file marker, and
 * does its stripped form start a code fence. `Classify` makes those tests
 * once per line, so the scanners only look at the outcome.
 */
module Artifacts {
  import opened Text

  datatype Artifact = Artifact(filename: string, content: string)

  datatype Section = Section(filename: string, lines: seq<string>)

  /**
   * The variables of an extractor's loop: the sections emitted so far,
   * `current_file` (the empty string standing for `None`, since only its
   * truth value matters), `current_content` and `in_code_block`.
   */
  datatype Scan = Scan(done: seq<Section>, current: string, content: seq<string>, inCode: bool)

  const Start: Scan := Scan([], "", [], false)

  /** The sections emitted so far, followed by the current file if there is one. */
  function Closed(st: Scan): seq<Section> {
    if st.current != "" then st.done + [Section(st.current, st.content)] else st.done
  }

  /** The emitted artifact of a section: its lines joined with "\n". */
  function Emit(s: Section): Artifact {
    Artifact(s.filename, Join(s.lines, "\n"))
  }

  function Render(secs: seq<Section>): (r: seq<Artifact>)
    ensures |r| == |secs|
    ensures forall k :: 0 <= k < |secs| ==> r[k] == Emit(secs[k])
  {
    seq(|secs|, k requires 0 <= k < |secs| => Emit(secs[k]))
  }

  lemma RenderAppend(secs: seq<Section>, s: Section)
    ensures Render(secs + [s]) == Render(secs) + [Emit(s)]
  {
  }

  function Filenames(fs: seq<Artifact>): (r: seq<string>)
    ensures |r| == |fs|
    ensures forall k :: 0 <= k < |fs| ==> r[k] == fs[k].filename
  {
    seq(|fs|, k requires 0 <= k < |fs| => fs[k].filename)
  }

  lemma FilenamesAppend(fs: seq<Artifact>, f: Artifact)
    ensures Filenames(fs + [f]) == Filenames(fs) + [f.filename]
  {
  }

  /**
   * A file marker: the line starts, at column 0, with "## file:" or "## File:"
   * (only those two spellings; "## FILE:" is not one).
   */
  predicate IsMarker(line: string) {
    StartsWith(line, "## file:") || StartsWith(line, "## File:")
  }

  /** A fence line: its stripped form starts with three backticks. */
  predicate IsFence(line: string) {
    StartsWith(Strip(line), "```")
  }

  /** What the extractors' tests say about one line. */
  datatype Kind =
    | Marker(name: string)   // a file marker and the name after its colon, stripped
    | Fence(lang: string)    // a fence line and the stripped tag after the backticks
    | Text                   // anything else

  /**
   * The outcome of the tests on `line`. A marker's name is
   * `line.split(":", 1)[1].strip()`; both marker prefixes have their first
   * colon at index 7, so that is the stripped text after index 7. A fence's
   * tag is `line.strip()[3:].strip()`, empty exactly for a bare fence.
   */
  function Classify(line: string): (k: Kind)
    ensures k.Marker? <==> IsMarker(line)
    ensures k.Fence? <==> !IsMarker(line) && IsFence(line)
    ensures k.Marker? ==> ':' !in line[..7] && k.name == Strip(line[8..])
    ensures k.Fence? ==> (k.lang == "" <==> Strip(line) == "```")
  {
    if IsMarker(line) then
      MarkerPrefix(line);
      Marker(Strip(line[8..]))
    else if IsFence(line) then
      BareFence(line);
      Fence(Strip(Strip(line)[3..]))
    else
      Text
  }

  /** A marker line is at least eight characters long, and its first seven hold no colon. */
  lemma MarkerPrefix(line: string)
    requires IsMarker(line)
    ensures |line| >= 8 && ':' !in line[..7]
  {
    var h := line[..8];
    assert h == "## file:" || h == "## File:";
    assert line[..7] == h[..7];
    assert forall j :: 0 <= j < 7 ==> h[j] != ':';
  }

  /** A fence line has an empty tag exactly when it is three backticks alone. */
  lemma BareFence(line: string)
    requires IsFence(line)
    ensures Strip(Strip(line)[3..]) == "" <==> Strip(line) == "```"
  {
    var t := Strip(line);
    StripEmpty(t[3..]);
    if |t| > 3 {
      assert t[3..][|t| - 4] == t[|t| - 1];
    }
    assert t[..3] == "```";
    if |t| == 3 {
      assert t == t[..3];
    }
  }

  /** A reply line together with the outcome of its tests. */
  datatype Line = Line(kind: Kind, text: string)

  /** The reply's lines, each with its tests made. */
  function Classified(lines: seq<string>): (r: seq<Line>)
    ensures |r| == |lines|
    ensures forall k :: 0 <= k < |lines| ==> r[k] == Line(Classify(lines[k]), lines[k])
  {
    seq(|lines|, k requires 0 <= k < |lines| => Line(Classify(lines[k]), lines[k]))
  }

  lemma ClassifiedAppend(a: seq<string>, b: seq<string>)
    ensures Classified(a + b) == Classified(a) + Classified(b)
  {
  }

  /** The marker line that names `name`. */
  function Header(name: string): string {
    "## file: " + name
  }

  /** A name the marker grammar can carry: non-empty, already stripped, on one line. */
  predicate ValidName(name: string) {
    name != "" && !IsSpace(name[0]) && !IsSpace(name[|name| - 1]) && '\n' !in name
  }

  lemma HeaderParts(name: string)
    ensures IsMarker(Header(name))
    ensures Header(name)[8..] == " " + name
  {
    assert Header(name)[..8] == "## file:";
  }

  /** A marker line for a valid name is recognised and yields exactly that name. */
  lemma HeaderName(name: string)
    requires ValidName(name)
    ensures Classify(Header(name)) == Marker(name)
    ensures '\n' !in Header(name)
  {
    HeaderParts(name);
    assert Strip(" " + name) == name by {
      StripTrimmed(name);
      StripSpaces(" ", name);
    }
  }

  /** A body line the marker format can carry: neither a marker nor a fence line. */
  predicate PlainLine(line: string) {
    !IsMarker(line) && !IsFence(line)
  }

  /** Every line of the body is plain. */
  predicate PlainBody(body: string) {
    var lines := SplitOn(body, '\n');
    forall k :: 0 <= k < |lines| ==> PlainLine(lines[k])
  }

  /** A file the marker format can carry unchanged. */
  predicate ValidFile(f: Artifact) {
    ValidName(f.filename) && PlainBody(f.content)
  }

  /** The sections that emit `fs`, before their contents are joined. */
  function Unjoined(fs: seq<Artifact>): (r: seq<Section>)
    ensures |r| == |fs|
    ensures forall k :: 0 <= k < |fs| ==> r[k] == Section(fs[k].filename, SplitOn(fs[k].content, '\n'))
  {
    seq(|fs|, k requires 0 <= k < |fs| => Section(fs[k].filename, SplitOn(fs[k].content, '\n')))
  }

  lemma UnjoinedCons(fs: seq<Artifact>)
    requires fs != []
    ensures Unjoined(fs) == [Section(fs[0].filename, SplitOn(fs[0].content, '\n'))] + Unjoined(fs[1..])
  {
  }

  /** Joining the split contents gives the files back. */
  lemma RenderUnjoined(fs: seq<Artifact>)
    ensures Render(Unjoined(fs)) == fs
  {
    var secs := Unjoined(fs);
    forall k | 0 <= k < |fs| ensures Emit(secs[k]) == fs[k] {
      JoinSplit(fs[k].content, '\n');
    }
  }

  /** Every file is valid; stated recursively so that only the first is unfolded. */
  predicate AllValid(fs: seq<Artifact>)
    decreases |fs|
  {
    fs == [] || (ValidFile(fs[0]) && AllValid(fs[1..]))
  }

  lemma {:induction false} AllValidIff(fs: seq<Artifact>)
    ensures AllValid(fs) <==> forall k :: 0 <= k < |fs| ==> ValidFile(fs[k])
    decreases |fs|
  {
    if fs != [] {
      AllValidIff(fs[1..]);
      assert forall k :: 1 <= k < |fs| ==> fs[k] == fs[1..][k - 1];
    }
  }

  /** Lines that are all plain are classified as text. */
  function AsText(lines: seq<string>): (r: seq<Line>)
    ensures |r| == |lines|
    ensures forall k :: 0 <= k < |lines| ==> r[k] == Line(Text, lines[k])
  {
    seq(|lines|, k requires 0 <= k < |lines| => Line(Text, lines[k]))
  }

  lemma ClassifiedPlain(lines: seq<string>)
    requires forall k :: 0 <= k < |lines| ==> PlainLine(lines[k])
    ensures Classified(lines) == AsText(lines)
  {
  }

  /** A short line without backticks is neither a marker nor a fence line. */
  lemma ShortPlain(s: string)
    requires |s| < 8 && '`' !in s
    ensures PlainLine(s)
  {
    var i := SkipSpaces(s, 0);
    var j := TrimSpaces(s, i, |s|);
    assert Strip(s) == s[i..j];
    if i < j {
      assert Strip(s)[0] == s[i];
    }
  }
}
