/**
 * The infra agent's offer to run a saved shell script: the scripts are the
 * saved paths ending in ".sh", the user answers whether to run one and which
 * number (counted from 1), and only a number in range reaches
 * `execute_command`, which consults the gate and asks once more.
 */
module InfraRun {
  import opened Wrappers
  import opened Text
  import opened Gate

  /** `[f for f in saved_files if f.endswith(".sh")]` */
  function ExecutableScripts(saved: seq<string>): (r: seq<string>)
    decreases |saved|
  {
    if saved == [] then []
    else
      var last := saved[|saved| - 1];
      ExecutableScripts(saved[..|saved| - 1]) + (if EndsWith(last, ".sh") then [last] else [])
  }

  /** The scripts are exactly the saved ".sh" paths, each once per occurrence, in order. */
  lemma {:induction false} ExecutableScriptsSpec(saved: seq<string>)
    ensures |ExecutableScripts(saved)| <= |saved|
    ensures forall k :: 0 <= k < |ExecutableScripts(saved)| ==>
      EndsWith(ExecutableScripts(saved)[k], ".sh") && ExecutableScripts(saved)[k] in saved
    ensures forall f :: f in saved && EndsWith(f, ".sh") ==> f in ExecutableScripts(saved)
    decreases |saved|
  {
    if saved != [] {
      var init := saved[..|saved| - 1];
      var last := saved[|saved| - 1];
      ExecutableScriptsSpec(init);
      var r := ExecutableScripts(saved);
      assert r == ExecutableScripts(init) + (if EndsWith(last, ".sh") then [last] else []);
      forall k | 0 <= k < |r| ensures EndsWith(r[k], ".sh") && r[k] in saved {
        if k < |ExecutableScripts(init)| {
          assert r[k] == ExecutableScripts(init)[k];
          assert r[k] in init;
        }
      }
      forall f | f in saved && EndsWith(f, ".sh") ensures f in r {
        if f != last {
          var j :| 0 <= j < |saved| && saved[j] == f;
          assert j < |init| && init[j] == f;
        }
      }
    }
  }

  /** What the prompts lead to. */
  datatype ScriptChoice = NoScripts | Declined | NotANumber | OutOfRange | Chosen(path: string)

  /**
   * The prompts: with scripts listed, a lowercased answer starting with "y"
   * asks for a number; `int()` of it, minus one, must index the list.
   */
  function ChooseScript(scripts: seq<string>, execute: string, number: string): ScriptChoice {
    if scripts == [] then NoScripts
    else if !StartsWith(Lower(execute), "y") then Declined
    else match ParseInt(Strip(number))
      case None => NotANumber
      case Some(n) => if 0 <= n - 1 < |scripts| then Chosen(scripts[n - 1]) else OutOfRange
  }

  /**
   * A script is chosen exactly when there are scripts, the answer starts
   * with "y" and the number lies in 1..|scripts|; it is then the script at
   * that position. Zero and negative numbers are refused, never counted
   * from the end.
   */
  lemma ChooseScriptSpec(scripts: seq<string>, execute: string, number: string)
    ensures ChooseScript(scripts, execute, number).Chosen? <==>
      scripts != [] && StartsWith(Lower(execute), "y") && ParseInt(Strip(number)).Some?
      && 1 <= ParseInt(Strip(number)).value <= |scripts|
    ensures ChooseScript(scripts, execute, number).Chosen? ==>
      ChooseScript(scripts, execute, number).path == scripts[ParseInt(Strip(number)).value - 1]
  {
  }

  /** Typing the number a script is listed under, with any surrounding whitespace, picks that script. */
  lemma ListedNumberPicks(scripts: seq<string>, execute: string, k: nat, w1: string, w2: string)
    requires k < |scripts| && StartsWith(Lower(execute), "y")
    requires AllSpace(w1) && AllSpace(w2)
    ensures ChooseScript(scripts, execute, w1 + Decimal(k + 1) + w2) == Chosen(scripts[k])
  {
    var d := Decimal(k + 1);
    StripPadded(w1, d, w2);
    ParseDecimal(k + 1);
  }

  /**
   * The step as a whole: the chosen script, and nothing else, goes to the
   * infra agent's `execute_command` with the confirmation answer and the
   * shell's outcome.
   */
  function RunScript(saved: seq<string>, execute: string, number: string, confirm: string, shell: Outcome)
    : Option<InfraExecuted>
  {
    match ChooseScript(ExecutableScripts(saved), execute, number)
    case Chosen(p) => Some(ExecuteInfra(p, confirm, shell))
    case _ => None
  }

  /** Whatever runs is a saved ".sh" path. */
  lemma RunScriptSaved(saved: seq<string>, execute: string, number: string, confirm: string, shell: Outcome)
    ensures var r := RunScript(saved, execute, number, confirm, shell);
      r.Some? ==> EndsWith(r.value.command, ".sh") && r.value.command in saved
  {
    ExecutableScriptsSpec(saved);
    var scripts := ExecutableScripts(saved);
    var c := ChooseScript(scripts, execute, number);
    if c.Chosen? {
      ChooseScriptSpec(scripts, execute, number);
      var k := ParseInt(Strip(number)).value - 1;
      assert c.path == scripts[k];
    }
  }
}
