/**
 * The terraform agent's `run` after the files are generated: `terraform
 * init`, then `terraform plan`, then the confirmation prompt, then
 * `terraform apply -auto-approve`, each step stopping the run when it fails.
 * The three commands are fixed, and each passes the terraform gate, so a
 * step succeeds exactly when the shell exits with 0.
 */
module Terraform {
  import opened Wrappers
  import opened Text
  import opened Gate

  const InitCommand: string := "terraform init"
  const PlanCommand: string := "terraform plan"
  const ApplyCommand: string := "terraform apply -auto-approve"

  lemma TerraformWord()
    ensures "terraform" != "" && NoSpace("terraform")
    ensures "terraform" in TerraformCommands
  {
    var w := "terraform";
    assert w[0] == 't' && w[1] == 'e' && w[2] == 'r' && w[3] == 'r' && w[4] == 'a';
    assert w[5] == 'f' && w[6] == 'o' && w[7] == 'r' && w[8] == 'm';
    assert TerraformCommands[0] == w;
  }

  /** A deny-free command led by the word "terraform" passes the terraform gate. */
  lemma LedByTerraform(rest: string)
    requires rest != "" && IsSpace(rest[0])
    requires forall k :: 0 <= k < |Denylist| ==> !Contains("terraform" + rest, Denylist[k])
    ensures CheckSafety("terraform" + rest, Denylist, TerraformCommands).safe
  {
    TerraformWord();
    FirstWord("terraform", rest);
    SafetyIff("terraform" + rest, Denylist, TerraformCommands);
  }

  /** `terraform init` passes the gate. */
  lemma InitAllowed()
    ensures CheckSafety(InitCommand, Denylist, TerraformCommands).safe
  {
    var c := InitCommand;
    assert c == "terraform" + " init";
    DenyFreeByChars(c);
    LedByTerraform(" init");
  }

  /** `terraform plan` passes the gate. */
  lemma PlanAllowed()
    ensures CheckSafety(PlanCommand, Denylist, TerraformCommands).safe
  {
    var c := PlanCommand;
    assert c == "terraform" + " plan";
    DenyFreeByChars(c);
    LedByTerraform(" plan");
  }

  /** `terraform apply -auto-approve` passes the gate, although it holds "rm " and a '-'. */
  lemma ApplyAllowed()
    ensures CheckSafety(ApplyCommand, Denylist, TerraformCommands).safe
  {
    var c := ApplyCommand;
    assert c == "terraform" + " apply -auto-approve";
    ApplyDenyFree();
    LedByTerraform(" apply -auto-approve");
  }

  lemma ApplyDenyFree()
    ensures forall k :: 0 <= k < |Denylist| ==> !Contains(ApplyCommand, Denylist[k])
  {
    var c := ApplyCommand;
    DenyFreeByPairs(c);
  }

  /**
   * A command without the characters 'd', 'k', '>', ':', 'w', 'c' and
   * without the pairs "-r" and "su" has no denied substring.
   */
  lemma DenyFreeByPairs(c: string)
    requires forall j :: 0 <= j < |c| ==> c[j] != 'd' && c[j] != 'k' && c[j] != '>' && c[j] != ':' && c[j] != 'w' && c[j] != 'c'
    requires forall j :: 0 <= j < |c| - 1 ==> c[j] != '-' || c[j + 1] != 'r'
    requires forall j :: 0 <= j < |c| - 1 ==> c[j] != 's' || c[j + 1] != 'u'
    ensures forall k :: 0 <= k < |Denylist| ==> !Contains(c, Denylist[k])
  {
    NotContainsByPair(c, "rm -rf", 3);
    NotContainsByChar(c, "rmdir", 2);
    NotContainsByChar(c, "mkfs", 1);
    NotContainsByChar(c, "> /dev", 0);
    NotContainsByChar(c, "dd if", 0);
    NotContainsByChar(c, ":(){:|:&};:", 0);
    NotContainsByChar(c, "wget", 0);
    NotContainsByChar(c, "curl -o", 0);
    NotContainsByChar(c, "sudo", 2);
    NotContainsByPair(c, "su", 0);
  }

  // ---------------------------------------------------------------------
  // The init -> plan -> apply sequence of `run`

  /** A step of the sequence, in the order the agent runs them. */
  datatype Step = Init | Plan | Apply

  function StepCommand(s: Step): string {
    match s
    case Init => InitCommand
    case Plan => PlanCommand
    case Apply => ApplyCommand
  }

  /** The shell ran the command and it exited with 0. */
  predicate Succeeds(o: Outcome) {
    o.Exited? && o.code == 0
  }

  lemma StepSucceeds(s: Step, o: Outcome)
    ensures Execute(StepCommand(s), TerraformCommands, o).success <==> Succeeds(o)
  {
    match s
    case Init => InitAllowed();
    case Plan => PlanAllowed();
    case Apply => ApplyAllowed();
    ExecuteSuccess(StepCommand(s), TerraformCommands, o);
  }

  /** `execute_command` on a step's command: it succeeds exactly when the shell exits with 0. */
  method RunStep(s: Step, o: Outcome) returns (success: bool)
    ensures success <==> Succeeds(o)
  {
    success := Execute(StepCommand(s), TerraformCommands, o).success;
    StepSucceeds(s, o);
  }

  /**
   * `run` once the generation step has answered: `generated` is false when it
   * returned an error. `ran` lists the steps whose commands reached the
   * shell; `prompted` says whether the confirmation prompt was shown;
   * `applied` is the returned dictionary's "applied" entry, `None` when the
   * run stopped early and returned nothing.
   */
  method Run(generated: bool, init: Outcome, plan: Outcome, answer: string, apply: Outcome)
    returns (ran: seq<Step>, prompted: bool, applied: Option<bool>)
    ensures ran == [] || ran == [Init] || ran == [Init, Plan] || ran == [Init, Plan, Apply]
    ensures Init in ran <==> generated
    ensures Plan in ran <==> generated && Succeeds(init)
    ensures prompted <==> generated && Succeeds(init) && Succeeds(plan)
    ensures Apply in ran <==> prompted && Confirmed(answer)
    ensures applied.Some? <==> prompted && (!Confirmed(answer) || Succeeds(apply))
    ensures applied.Some? ==> applied.value == Confirmed(answer)
  {
    ran, prompted, applied := [], false, None;
    if !generated {
      return;
    }
    ran := ran + [Init];
    var ok := RunStep(Init, init);
    if !ok {
      return;
    }
    ran := ran + [Plan];
    ok := RunStep(Plan, plan);
    if !ok {
      return;
    }
    prompted := true;
    var confirmed := Lower(answer) == "yes" || Lower(answer) == "y";
    if confirmed {
      ran := ran + [Apply];
      ok := RunStep(Apply, apply);
      if !ok {
        return;
      }
    }
    applied := Some(confirmed);
  }
}
