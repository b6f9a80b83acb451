/**
 * The ansible agent's `run` after the files are generated: the choice of
 * the playbook and of the inventory among the generated file names, the
 * `ansible-playbook` command built from them, and the scan of the command's
 * output for the `ok=`, `failed=` and `changed=` counts of the play recap.
 */
module Ansible {
  import opened Wrappers
  import opened Text
  import opened Naming
  import opened Paths
  import opened Gate

  // ---------------------------------------------------------------------
  // Playbook and inventory

  predicate IsYamlName(name: string) {
    EndsWith(name, ".yml") || EndsWith(name, ".yaml")
  }

  /** A YAML name whose lowercase mentions "playbook", "main" or "site". */
  predicate IsMainPlaybook(name: string) {
    IsYamlName(name)
    && (Contains(Lower(name), "playbook") || Contains(Lower(name), "main") || Contains(Lower(name), "site"))
  }

  /** A name whose lowercase mentions "inventory" or "hosts". */
  predicate IsInventory(name: string) {
    Contains(Lower(name), "inventory") || Contains(Lower(name), "hosts")
  }

  /** The playbook: the first main-looking YAML name, else the first YAML name, else none. */
  function ChoosePlaybook(files: seq<string>): (r: Option<string>)
    ensures r.None? <==> forall j :: 0 <= j < |files| ==> !IsYamlName(files[j])
    ensures r.Some? ==> IsYamlName(r.value) && r.value in files
    ensures (exists j :: 0 <= j < |files| && IsMainPlaybook(files[j])) ==>
      exists i :: (0 <= i < |files| && files[i] == r.value && IsMainPlaybook(r.value)
        && forall j :: 0 <= j < i ==> !IsMainPlaybook(files[j]))
    ensures (forall j :: 0 <= j < |files| ==> !IsMainPlaybook(files[j])) && r.Some? ==>
      exists i :: (0 <= i < |files| && files[i] == r.value
        && forall j :: 0 <= j < i ==> !IsYamlName(files[j]))
  {
    match Find(files, IsMainPlaybook)
    case Some(p) => Some(p)
    case None => Find(files, IsYamlName)
  }

  /** The inventory: the first name that looks like one. */
  function ChooseInventory(files: seq<string>): (r: Option<string>)
    ensures r.Some? <==> exists j :: 0 <= j < |files| && IsInventory(files[j])
    ensures r.Some? ==> exists i :: (0 <= i < |files| && files[i] == r.value && IsInventory(r.value)
      && forall j :: 0 <= j < i ==> !IsInventory(files[j]))
  {
    Find(files, IsInventory)
  }

  /** The command `run` builds: the playbook's path, then `-i` and the inventory's path when there is one. */
  function PlaybookCommand(taskDir: string, playbook: string, inventory: Option<string>): string {
    "ansible-playbook " + PathJoin(taskDir, playbook)
      + (if inventory.Some? then " -i " + PathJoin(taskDir, inventory.value) else "")
  }

  lemma PlaybookWord()
    ensures "ansible-playbook" != "" && NoSpace("ansible-playbook")
    ensures "ansible-playbook" in AnsibleCommands
    ensures "ansible-playbook " == "ansible-playbook" + " "
  {
    var w := "ansible-playbook";
    assert w[0] == 'a' && w[1] == 'n' && w[2] == 's' && w[3] == 'i' && w[4] == 'b' && w[5] == 'l';
    assert w[6] == 'e' && w[7] == '-' && w[8] == 'p' && w[9] == 'l' && w[10] == 'a' && w[11] == 'y';
    assert w[12] == 'b' && w[13] == 'o' && w[14] == 'o' && w[15] == 'k';
    assert AnsibleCommands[0] == w;
  }

  /**
   * The built command is led by `ansible-playbook`, so the gate refuses it
   * only for a denied substring somewhere in its paths.
   */
  lemma PlaybookCommandGate(taskDir: string, playbook: string, inventory: Option<string>)
    ensures var c := PlaybookCommand(taskDir, playbook, inventory);
      CheckSafety(c, Denylist, AnsibleCommands).safe <==> forall k :: 0 <= k < |Denylist| ==> !Contains(c, Denylist[k])
  {
    var c := PlaybookCommand(taskDir, playbook, inventory);
    var rest := " " + PathJoin(taskDir, playbook)
      + (if inventory.Some? then " -i " + PathJoin(taskDir, inventory.value) else "");
    PlaybookWord();
    assert c == "ansible-playbook" + rest;
    FirstWord("ansible-playbook", rest);
    SafetyIff(c, Denylist, AnsibleCommands);
  }

  /**
   * A task directory holding "su" (as the slug of a prompt that starts with
   * "ensure" does) makes every playbook of that ansible task refused.
   */
  lemma TaskDirWithSu(taskDir: string, playbook: string, inventory: Option<string>)
    requires Contains(taskDir, "su") && !StartsWith(playbook, "/")
    ensures !CheckSafety(PlaybookCommand(taskDir, playbook, inventory), Denylist, AnsibleCommands).safe
  {
    var joined := PathJoin(taskDir, playbook);
    var tail := if taskDir == "" || EndsWith(taskDir, "/") then playbook else "/" + playbook;
    assert joined == taskDir + tail;
    ContainsInfix("", taskDir, tail, "su");
    assert "" + taskDir + tail == joined;
    var after := if inventory.Some? then " -i " + PathJoin(taskDir, inventory.value) else "";
    ContainsInfix("ansible-playbook ", joined, after, "su");
    SuRejected(PlaybookCommand(taskDir, playbook, inventory), AnsibleCommands);
  }

  // ---------------------------------------------------------------------
  // The play recap

  lemma {:induction false} SplitHasTwo(s: string, d: char)
    requires d in s
    ensures |SplitOn(s, d)| >= 2
    decreases |s|
  {
    if s[0] != d {
      SplitHasTwo(s[1..], d);
    }
  }

  /** `part.split("=")[1]`: the text between the first '=' and the next one. */
  function Field1(part: string): string
    requires '=' in part
  {
    SplitHasTwo(part, '=');
    SplitOn(part, '=')[1]
  }

  /** After `key=`, the count's text runs to the next '=' or to the end of the token. */
  lemma Field1After(key: string, rest: string)
    requires '=' !in key
    ensures '=' in key + "=" + rest
    ensures Field1(key + "=" + rest) == SplitOn(rest, '=')[0]
    ensures '=' !in rest ==> Field1(key + "=" + rest) == rest
  {
    var t := key + "=" + rest;
    assert t[|key|] == '=';
    assert t == key + ['='] + rest;
    SplitPrefix(key, rest, '=');
    if '=' !in rest {
      SplitNoSep(rest, '=');
    }
  }

  /** The three counts of the summary. */
  datatype Counts = Counts(ok: int, failed: int, changed: int)

  const OkKey := "ok="
  const FailedKey := "failed="
  const ChangedKey := "changed="

  lemma KeyPrefix(part: string, key: string)
    requires |key| >= 1 && key[|key| - 1] == '=' && StartsWith(part, key)
    ensures '=' in part
  {
    assert part[|key| - 1] == key[|key| - 1];
  }

  /** One token of a recap line: a keyed token sets its count; a count that does not parse raises. */
  function TokenStep(c: Counts, part: string): Option<Counts> {
    if StartsWith(part, OkKey) then
      KeyPrefix(part, OkKey);
      match ParseInt(Field1(part))
      case Some(n) => Some(c.(ok := n))
      case None => None
    else if StartsWith(part, FailedKey) then
      KeyPrefix(part, FailedKey);
      match ParseInt(Field1(part))
      case Some(n) => Some(c.(failed := n))
      case None => None
    else if StartsWith(part, ChangedKey) then
      KeyPrefix(part, ChangedKey);
      match ParseInt(Field1(part))
      case Some(n) => Some(c.(changed := n))
      case None => None
    else Some(c)
  }

  /** The tokens in order, from `c`; `None` once a count fails to parse. */
  function ScanTokens(c: Counts, parts: seq<string>): Option<Counts>
    decreases |parts|
  {
    if parts == [] then Some(c)
    else match ScanTokens(c, parts[..|parts| - 1])
      case None => None
      case Some(c1) => TokenStep(c1, parts[|parts| - 1])
  }

  /** The output lines in order: only a line containing "ok=" has its tokens scanned. */
  function ScanLines(c: Counts, lines: seq<string>): Option<Counts>
    decreases |lines|
  {
    if lines == [] then Some(c)
    else match ScanLines(c, lines[..|lines| - 1])
      case None => None
      case Some(c1) =>
        var line := lines[|lines| - 1];
        if Contains(line, OkKey) then ScanTokens(c1, Words(line)) else Some(c1)
  }

  /** The summary is printed when some count is positive. */
  predicate ShowsSummary(c: Counts) {
    c.ok > 0 || c.failed > 0 || c.changed > 0
  }

  /** The counts the recap scan of an output ends with, from zero. */
  function Recap(output: string): Option<Counts> {
    ScanLines(Counts(0, 0, 0), SplitOn(output, '\n'))
  }

  /**
   * The loop over `result["output"].split("\n")`; `None` stands for the
   * `ValueError` of an unparsable count.
   */
  method ParseRecap(output: string) returns (counts: Option<Counts>)
    ensures counts == Recap(output)
  {
    var lines := SplitOn(output, '\n');
    var c := Counts(0, 0, 0);
    for i := 0 to |lines|
      invariant ScanLines(Counts(0, 0, 0), lines[..i]) == Some(c)
    {
      assert lines[..i + 1][..i] == lines[..i];
      if Contains(lines[i], OkKey) {
        var r := ScanLine(c, Words(lines[i]));
        if r.None? {
          LinesNone(Counts(0, 0, 0), lines[..i + 1], lines[i + 1..]);
          assert lines[..i + 1] + lines[i + 1..] == lines;
          return None;
        }
        c := r.value;
      }
    }
    assert lines[..|lines|] == lines;
    return Some(c);
  }

  /** The inner loop over the tokens of one recap line, from the counts so far. */
  method ScanLine(c0: Counts, parts: seq<string>) returns (r: Option<Counts>)
    ensures r == ScanTokens(c0, parts)
  {
    var c := c0;
    for j := 0 to |parts|
      invariant ScanTokens(c0, parts[..j]) == Some(c)
    {
      assert parts[..j + 1][..j] == parts[..j];
      var step := TokenStep(c, parts[j]);
      if step.None? {
        TokensNone(c0, parts[..j + 1], parts[j + 1..]);
        assert parts[..j + 1] + parts[j + 1..] == parts;
        return None;
      }
      c := step.value;
    }
    assert parts[..|parts|] == parts;
    return Some(c);
  }

  lemma {:induction false} TokensNone(c: Counts, a: seq<string>, b: seq<string>)
    requires ScanTokens(c, a) == None
    ensures ScanTokens(c, a + b) == None
    decreases |b|
  {
    if b == [] {
      assert a + b == a;
    } else {
      assert (a + b)[..|a + b| - 1] == a + b[..|b| - 1];
      TokensNone(c, a, b[..|b| - 1]);
    }
  }

  lemma {:induction false} LinesNone(c: Counts, a: seq<string>, b: seq<string>)
    requires ScanLines(c, a) == None
    ensures ScanLines(c, a + b) == None
    decreases |b|
  {
    if b == [] {
      assert a + b == a;
    } else {
      assert (a + b)[..|a + b| - 1] == a + b[..|b| - 1];
      LinesNone(c, a, b[..|b| - 1]);
    }
  }

  // ---------------------------------------------------------------------
  // What the recap scan computes

  /** The token keys never overlap: each token sets at most one count. */
  lemma KeysDisjoint(part: string)
    ensures !(StartsWith(part, OkKey) && StartsWith(part, FailedKey))
    ensures !(StartsWith(part, OkKey) && StartsWith(part, ChangedKey))
    ensures !(StartsWith(part, FailedKey) && StartsWith(part, ChangedKey))
  {
    if StartsWith(part, OkKey) {
      assert part[0] == OkKey[0] == 'o';
    }
    if StartsWith(part, FailedKey) {
      assert part[0] == FailedKey[0] == 'f';
    }
    if StartsWith(part, ChangedKey) {
      assert part[0] == ChangedKey[0] == 'c';
    }
  }

  /** The text of the last token that starts with `key`, if any. */
  function LastValue(parts: seq<string>, key: string): Option<string>
    requires |key| >= 1 && key[|key| - 1] == '='
    decreases |parts|
  {
    if parts == [] then None
    else
      var last := parts[|parts| - 1];
      if StartsWith(last, key) then KeyPrefix(last, key); Some(Field1(last))
      else LastValue(parts[..|parts| - 1], key)
  }

  /** A count as the scan leaves it: the last keyed token's value, or the starting value. */
  function Final(start: int, parts: seq<string>, key: string): int
    requires |key| >= 1 && key[|key| - 1] == '='
  {
    match LastValue(parts, key)
    case None => start
    case Some(v) => if ParseInt(v).Some? then ParseInt(v).value else start
  }

  /** Some keyed token's count does not parse. */
  predicate Malformed(parts: seq<string>) {
    exists j :: (0 <= j < |parts|
      && (StartsWith(parts[j], OkKey) || StartsWith(parts[j], FailedKey) || StartsWith(parts[j], ChangedKey))
      && '=' in parts[j] && ParseInt(Field1(parts[j])).None?)
  }

  /**
   * The scan raises exactly when some keyed token is malformed; otherwise
   * each count is the value of the last token with its key, later tokens
   * overwriting earlier ones.
   */
  lemma {:induction false} ScanTokensMeaning(c: Counts, parts: seq<string>)
    ensures ScanTokens(c, parts).None? <==> Malformed(parts)
    ensures ScanTokens(c, parts).Some? ==> (ScanTokens(c, parts).value
      == Counts(Final(c.ok, parts, OkKey), Final(c.failed, parts, FailedKey), Final(c.changed, parts, ChangedKey)))
    decreases |parts|
  {
    if parts != [] {
      var init := parts[..|parts| - 1];
      var last := parts[|parts| - 1];
      ScanTokensMeaning(c, init);
      KeysDisjoint(last);
      if StartsWith(last, OkKey) { KeyPrefix(last, OkKey); }
      if StartsWith(last, FailedKey) { KeyPrefix(last, FailedKey); }
      if StartsWith(last, ChangedKey) { KeyPrefix(last, ChangedKey); }
      MalformedSnoc(init, last);
    }
  }

  lemma MalformedSnoc(init: seq<string>, last: string)
    ensures Malformed(init + [last]) <==> (Malformed(init) || (
      (StartsWith(last, OkKey) || StartsWith(last, FailedKey) || StartsWith(last, ChangedKey))
      && '=' in last && ParseInt(Field1(last)).None?))
  {
    var s := init + [last];
    if Malformed(s) && !Malformed(init) {
      var j :| 0 <= j < |s| && (StartsWith(s[j], OkKey) || StartsWith(s[j], FailedKey) || StartsWith(s[j], ChangedKey))
        && '=' in s[j] && ParseInt(Field1(s[j])).None?;
    }
    if Malformed(init) {
      var j :| 0 <= j < |init| && (StartsWith(init[j], OkKey) || StartsWith(init[j], FailedKey) || StartsWith(init[j], ChangedKey))
        && '=' in init[j] && ParseInt(Field1(init[j])).None?;
      assert s[j] == init[j];
    }
    if (StartsWith(last, OkKey) || StartsWith(last, FailedKey) || StartsWith(last, ChangedKey))
      && '=' in last && ParseInt(Field1(last)).None? {
      assert s[|init|] == last;
    }
  }

  /** The tokens the scan reads: those of the lines containing "ok=", in order. */
  function RecapTokens(lines: seq<string>): seq<string>
    decreases |lines|
  {
    if lines == [] then []
    else
      var line := lines[|lines| - 1];
      RecapTokens(lines[..|lines| - 1]) + (if Contains(line, OkKey) then Words(line) else [])
  }

  lemma {:induction false} ScanTokensAppend(c: Counts, a: seq<string>, b: seq<string>)
    ensures ScanTokens(c, a + b) == match ScanTokens(c, a)
      case None => None
      case Some(c1) => ScanTokens(c1, b)
    decreases |b|
  {
    if b == [] {
      assert a + b == a;
    } else {
      assert (a + b)[..|a + b| - 1] == a + b[..|b| - 1];
      ScanTokensAppend(c, a, b[..|b| - 1]);
    }
  }

  /** Scanning the lines is scanning the tokens of the lines that contain "ok=": other lines are ignored. */
  lemma {:induction false} ScanLinesTokens(c: Counts, lines: seq<string>)
    ensures ScanLines(c, lines) == ScanTokens(c, RecapTokens(lines))
    decreases |lines|
  {
    if lines != [] {
      var init := lines[..|lines| - 1];
      var line := lines[|lines| - 1];
      ScanLinesTokens(c, init);
      ScanTokensAppend(c, RecapTokens(init), if Contains(line, OkKey) then Words(line) else []);
      if !Contains(line, OkKey) {
        assert RecapTokens(init) + [] == RecapTokens(init);
      }
    }
  }

  /**
   * The recap of an output raises exactly when a keyed token of a line
   * containing "ok=" is malformed, and otherwise holds, for each key, the
   * value of the last such token (0 when there is none).
   */
  lemma RecapMeaning(output: string)
    ensures var toks := RecapTokens(SplitOn(output, '\n'));
      (Recap(output).None? <==> Malformed(toks))
      && (Recap(output).Some? ==> (Recap(output).value
        == Counts(Final(0, toks, OkKey), Final(0, toks, FailedKey), Final(0, toks, ChangedKey))))
  {
    ScanLinesTokens(Counts(0, 0, 0), SplitOn(output, '\n'));
    ScanTokensMeaning(Counts(0, 0, 0), RecapTokens(SplitOn(output, '\n')));
  }

  // ---------------------------------------------------------------------
  // `run` after generation

  /**
   * `run` once the files are generated: no playbook aborts the run; an
   * answer other than "yes"/"y" cancels it; otherwise the built command goes
   * through `execute_command`, and a successful run has its recap scanned.
   * `command` is the command handed to `execute_command`; `summary` holds
   * the counts when the summary is printed; `raised` is true when a count
   * did not parse.
   */
  method Run(files: seq<string>, taskDir: string, answer: string, shell: Outcome)
    returns (command: Option<string>, summary: Option<Counts>, raised: bool)
    ensures command.Some? <==> ChoosePlaybook(files).Some? && Confirmed(answer)
    ensures command.Some? ==>
      command.value == PlaybookCommand(taskDir, ChoosePlaybook(files).value, ChooseInventory(files))
    ensures command.None? ==> summary.None? && !raised
    ensures command.Some? ==> (var r := Execute(command.value, AnsibleCommands, shell);
      (raised <==> r.success && Recap(r.output).None?)
      && (summary.Some? <==> r.success && Recap(r.output).Some? && ShowsSummary(Recap(r.output).value))
      && (summary.Some? ==> summary == Recap(r.output)))
  {
    command, summary, raised := None, None, false;
    var playbook := FirstMatching(files, IsMainPlaybook);
    if playbook.None? {
      playbook := FirstMatching(files, IsYamlName);
    }
    if playbook.None? {
      return;
    }
    if !(Lower(answer) == "yes" || Lower(answer) == "y") {
      return;
    }
    var inventory := FirstMatching(files, IsInventory);
    var cmd := PlaybookCommand(taskDir, playbook.value, inventory);
    command := Some(cmd);
    var result := Execute(cmd, AnsibleCommands, shell);
    if result.success {
      var counts := ParseRecap(result.output);
      if counts.None? {
        raised := true;
      } else if ShowsSummary(counts.value) {
        summary := counts;
      }
    }
  }
}
