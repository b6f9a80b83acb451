/**
 * `check_command_safety` and `execute_command`.
 *
 * The docker, kubernetes, ansible and terraform agents share one denylist,
 * matched first as case-sensitive substrings in list order, and then accept
 * a command only when its first whitespace-separated token is on the agent's
 * allow-list. The infra agent has a longer denylist and no allow-list.
 * `execute_command` consults the gate before anything else; the outcome of
 * the shell (and, for the infra agent, the user's answer to the
 * confirmation prompt) is an input here.
 */
module Gate {
  import opened Wrappers
  import opened Text

  /** The `(is_safe, reason)` pair. */
  datatype Verdict = Verdict(safe: bool, reason: string)

  /** The shared denylist of the docker, kubernetes, ansible and terraform agents. */
  const Denylist: seq<string> :=
    ["rm -rf", "rmdir", "mkfs", "> /dev", "dd if", ":(){:|:&};:", "wget", "curl -o", "sudo", "su"]

  /** The infra agent's denylist ("mkfs" appears twice, as in the agent). */
  const InfraDenylist: seq<string> :=
    ["rm -rf", "rmdir", "mkfs", "dd if=", "dd of=", "> /dev", "format", "fdisk", "mkfs", "wget",
     "curl -o", "sudo", "su -", "chmod 777", "> /etc/passwd"]

  const DockerCommands: seq<string> := ["docker", "docker-compose"]
  const KubernetesCommands: seq<string> := ["kubectl", "helm", "kustomize"]
  const AnsibleCommands: seq<string> := ["ansible-playbook", "ansible"]
  const TerraformCommands: seq<string> := ["terraform"]

  /** The first pattern, in list order, that occurs in `command`. */
  function FirstMatch(command: string, patterns: seq<string>): (r: Option<string>)
    ensures r.None? <==> forall k :: 0 <= k < |patterns| ==> !Contains(command, patterns[k])
    ensures r.Some? ==> exists i :: (0 <= i < |patterns| && patterns[i] == r.value
      && Contains(command, r.value) && forall j :: 0 <= j < i ==> !Contains(command, patterns[j]))
    decreases |patterns|
  {
    if patterns == [] then None
    else if Contains(command, patterns[0]) then Some(patterns[0])
    else
      var r := FirstMatch(command, patterns[1..]);
      assert forall k :: 1 <= k < |patterns| ==> patterns[k] == patterns[1..][k - 1];
      if r.Some? then
        var i :| 0 <= i < |patterns[1..]| && patterns[1..][i] == r.value
          && Contains(command, r.value) && forall j :: 0 <= j < i ==> !Contains(command, patterns[1..][j]);
        assert patterns[i + 1] == r.value;
        r
      else r
  }

  /**
   * `check_command_safety` of the docker, kubernetes, ansible and terraform
   * agents, for a denylist and an allow-list (`Denylist` and the agent's list).
   */
  function CheckSafety(command: string, denylist: seq<string>, allowed: seq<string>): Verdict {
    match FirstMatch(command, denylist)
    case Some(p) => Verdict(false, "Command contains potentially dangerous pattern: " + p)
    case None =>
      var parts := Words(Strip(command));
      if parts == [] then Verdict(false, "Empty command")
      else if parts[0] !in allowed then Verdict(false, "Only the following commands are allowed: " + Join(allowed, ", "))
      else Verdict(true, "Command appears safe")
  }

  /** `check_command_safety` of the infra agent: a denylist alone (`InfraDenylist`). */
  function CheckDenyOnly(command: string, denylist: seq<string>): Verdict {
    match FirstMatch(command, denylist)
    case Some(p) => Verdict(false, "Command contains potentially dangerous operation: " + p)
    case None => Verdict(true, "Command appears safe")
  }

  /** A command passes exactly when no denied substring occurs and its first word is allowed. */
  lemma SafetyIff(command: string, denylist: seq<string>, allowed: seq<string>)
    ensures CheckSafety(command, denylist, allowed).safe <==>
      (forall k :: 0 <= k < |denylist| ==> !Contains(command, denylist[k]))
      && Words(command) != [] && Words(command)[0] in allowed
  {
    WordsOfStrip(command);
  }

  /** A command containing a denied substring is refused, naming the first denied substring in list order. */
  lemma DeniedFirst(command: string, denylist: seq<string>, allowed: seq<string>, i: nat)
    requires i < |denylist| && Contains(command, denylist[i])
    ensures exists j :: (0 <= j <= i && Contains(command, denylist[j])
      && (forall k :: 0 <= k < j ==> !Contains(command, denylist[k]))
      && CheckSafety(command, denylist, allowed)
        == Verdict(false, "Command contains potentially dangerous pattern: " + denylist[j]))
  {
    var m := FirstMatch(command, denylist);
    var j :| 0 <= j < |denylist| && denylist[j] == m.value
      && Contains(command, m.value) && forall k :: 0 <= k < j ==> !Contains(command, denylist[k]);
    assert j <= i;
  }

  /** Past the denylist, a blank command is refused as empty, and a command led by another word names the allow-list. */
  lemma AllowListReason(command: string, denylist: seq<string>, allowed: seq<string>)
    requires forall k :: 0 <= k < |denylist| ==> !Contains(command, denylist[k])
    ensures Words(command) == [] ==> CheckSafety(command, denylist, allowed) == Verdict(false, "Empty command")
    ensures Words(command) != [] && Words(command)[0] !in allowed ==>
      CheckSafety(command, denylist, allowed)
        == Verdict(false, "Only the following commands are allowed: " + Join(allowed, ", "))
  {
    WordsOfStrip(command);
  }

  /** Any command containing "su", such as one naming a "consumer", is refused by every allow-list. */
  lemma SuRejected(command: string, allowed: seq<string>)
    requires Contains(command, "su")
    ensures !CheckSafety(command, Denylist, allowed).safe
  {
    assert Denylist[9] == "su";
  }

  /** Any command containing "wget" is refused. */
  lemma WgetRejected(command: string, allowed: seq<string>)
    requires Contains(command, "wget")
    ensures !CheckSafety(command, Denylist, allowed).safe
  {
    assert Denylist[6] == "wget";
  }

  lemma ConsumerExample()
    ensures !CheckSafety("kubectl delete deployment consumer", Denylist, KubernetesCommands).safe
  {
    var c := "kubectl delete deployment consumer";
    assert c[29..31] == "su";
    ContainsAt(c, "su", 29);
    SuRejected(c, KubernetesCommands);
  }

  /** A command without any of the characters '-', 'd', 'k', '>', ':', 'w', 'c', 'u' has no denied substring. */
  lemma DenyFreeByChars(c: string)
    requires forall j :: 0 <= j < |c| ==>
      c[j] != '-' && c[j] != 'd' && c[j] != 'k' && c[j] != '>' && c[j] != ':' && c[j] != 'w' && c[j] != 'c' && c[j] != 'u'
    ensures forall k :: 0 <= k < |Denylist| ==> !Contains(c, Denylist[k])
  {
    NotContainsByChar(c, "rm -rf", 3);
    NotContainsByChar(c, "rmdir", 2);
    NotContainsByChar(c, "mkfs", 1);
    NotContainsByChar(c, "> /dev", 0);
    NotContainsByChar(c, "dd if", 0);
    NotContainsByChar(c, ":(){:|:&};:", 0);
    NotContainsByChar(c, "wget", 0);
    NotContainsByChar(c, "curl -o", 0);
    NotContainsByChar(c, "sudo", 1);
    NotContainsByChar(c, "su", 1);
  }

  /** The deny-only gate accepts exactly the commands free of the denied substrings. */
  lemma DenyOnlyIff(command: string, denylist: seq<string>)
    ensures CheckDenyOnly(command, denylist).safe <==> forall k :: 0 <= k < |denylist| ==> !Contains(command, denylist[k])
    ensures !CheckDenyOnly(command, denylist).safe ==>
      exists i :: (0 <= i < |denylist| && Contains(command, denylist[i])
        && CheckDenyOnly(command, denylist).reason == "Command contains potentially dangerous operation: " + denylist[i])
  {
  }

  /** With no allow-list, the empty command passes the deny-only gate. */
  lemma DenyOnlyEmptyAccepted(denylist: seq<string>)
    requires "" !in denylist
    ensures CheckDenyOnly("", denylist).safe
  {
    forall k | 0 <= k < |denylist| ensures !Contains("", denylist[k]) {
      assert denylist[k] in denylist;
      assert |denylist[k]| > 0;
    }
  }

  // ---------------------------------------------------------------------
  // execute_command

  /** What the shell did: exited with a code and its two streams, or raised. */
  datatype Outcome = Exited(code: int, stdout: string, stderr: string) | Raised(message: string)

  /** The dictionary `execute_command` returns. */
  datatype Executed = Executed(success: bool, output: string, warnings: Option<string>, command: string)

  /** `execute_command` of the docker, kubernetes, ansible and terraform agents. */
  function Execute(command: string, allowed: seq<string>, shell: Outcome): Executed {
    var v := CheckSafety(command, Denylist, allowed);
    if !v.safe then Executed(false, "Error: Command rejected for safety reasons: " + v.reason, None, command)
    else match shell
      case Exited(code, out, err) =>
        if code == 0 then Executed(true, out, if err != "" then Some(err) else None, command)
        else Executed(false, "Error: " + err, None, command)
      case Raised(msg) => Executed(false, "Error: " + msg, None, command)
  }

  /**
   * A refused command never reaches the shell: the result does not depend on
   * the shell's outcome, fails, and carries the gate's reason.
   */
  lemma RefusedNotRun(command: string, allowed: seq<string>, s1: Outcome, s2: Outcome)
    requires !CheckSafety(command, Denylist, allowed).safe
    ensures Execute(command, allowed, s1) == Execute(command, allowed, s2)
    ensures !Execute(command, allowed, s1).success
    ensures Execute(command, allowed, s1).output
      == "Error: Command rejected for safety reasons: " + CheckSafety(command, Denylist, allowed).reason
  {
  }

  /** A command succeeds exactly when the gate passes it and the shell exits with 0. */
  lemma ExecuteSuccess(command: string, allowed: seq<string>, shell: Outcome)
    ensures Execute(command, allowed, shell).success <==>
      CheckSafety(command, Denylist, allowed).safe && shell.Exited? && shell.code == 0
  {
  }

  /** The `(yes/no)` prompts of the ansible and terraform agents: the lowercased answer is "yes" or "y". */
  predicate Confirmed(answer: string) {
    Lower(answer) == "yes" || Lower(answer) == "y"
  }

  /** The infra agent's result: it also carries the return code. */
  datatype InfraExecuted = InfraExecuted(success: bool, output: string, command: string, returncode: Option<int>)

  /**
   * `execute_command` of the infra agent: the gate, then the confirmation
   * prompt (proceeding when the lowercased answer starts with "y"), then the
   * shell.
   */
  function ExecuteInfra(command: string, answer: string, shell: Outcome): (r: InfraExecuted)
    ensures r.command == command
  {
    var v := CheckDenyOnly(command, InfraDenylist);
    if !v.safe then InfraExecuted(false, "Command rejected for safety reasons: " + v.reason, command, None)
    else if !StartsWith(Lower(answer), "y") then InfraExecuted(false, "Command execution cancelled by user", command, None)
    else match shell
      case Exited(code, out, err) =>
        InfraExecuted(code == 0, if code == 0 then out else out + "\n" + err, command, Some(code))
      case Raised(msg) => InfraExecuted(false, "Error: " + msg, command, None)
  }

  /** A refused command is refused before the prompt: neither the answer nor the shell matter. */
  lemma InfraRefusedBeforePrompt(command: string, a1: string, a2: string, s1: Outcome, s2: Outcome)
    requires !CheckDenyOnly(command, InfraDenylist).safe
    ensures ExecuteInfra(command, a1, s1) == ExecuteInfra(command, a2, s2)
    ensures !ExecuteInfra(command, a1, s1).success
  {
  }

  /** Without a "y" answer the shell is not run. */
  lemma InfraCancelled(command: string, answer: string, s1: Outcome, s2: Outcome)
    requires !StartsWith(Lower(answer), "y")
    ensures ExecuteInfra(command, answer, s1) == ExecuteInfra(command, answer, s2)
    ensures !ExecuteInfra(command, answer, s1).success
  {
  }

  /** The infra agent succeeds exactly when the gate passes, the answer starts with "y" and the shell exits with 0. */
  lemma InfraSuccess(command: string, answer: string, shell: Outcome)
    ensures ExecuteInfra(command, answer, shell).success <==>
      CheckDenyOnly(command, InfraDenylist).safe && StartsWith(Lower(answer), "y") && shell.Exited? && shell.code == 0
  {
  }

  /** The infra agent accepts the empty command. */
  lemma InfraEmptyAccepted()
    ensures CheckDenyOnly("", InfraDenylist).safe
  {
    DenyOnlyEmptyAccepted(InfraDenylist);
  }
}
