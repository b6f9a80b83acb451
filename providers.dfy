/**
 * Which model an agent asks, and how the kubernetes agent retries OpenAI
 * when it is rate-limited.
 *
 * The environment variables are inputs (`None` when unset); the HTTP
 * exchanges are inputs too, one per attempt: the agent's request is not
 * modelled, only what it does with each answer.
 */
module Providers {
  import opened Wrappers
  import opened Text

  /** `OPENAI_API_KEY`, `ANTHROPIC_API_KEY` and `DEEPSEEK_API_KEY`. */
  datatype Keys = Keys(openai: Option<string>, anthropic: Option<string>, deepseek: Option<string>)

  datatype Provider = Local | OpenAI | Claude | DeepSeek

  /** The provider asked, or the "No AI provider available" error. */
  datatype Choice = Use(provider: Provider) | NoProvider

  /** A key counts in an `if key:` test when it is set and non-empty. */
  predicate Truthy(key: Option<string>) {
    key.Some? && key.value != ""
  }

  /** `NATIVE_OS_LOCAL_MODEL` (default "0") is "1", or no key is set at all; an empty key is set. */
  predicate LocalMode(localFlag: Option<string>, keys: Keys) {
    localFlag == Some("1") || (keys.openai.None? && keys.anthropic.None? && keys.deepseek.None?)
  }

  /** `NATIVE_OS_DEFAULT_PROVIDER`, default "openai", lowercased. */
  function Preferred(preferredEnv: Option<string>): string {
    Lower(if preferredEnv.Some? then preferredEnv.value else "openai")
  }

  /** The provider of the docker, kubernetes, ansible and terraform agents. */
  function Choose(localFlag: Option<string>, preferredEnv: Option<string>, keys: Keys): Choice {
    var p := Preferred(preferredEnv);
    if LocalMode(localFlag, keys) then Use(Local)
    else if p == "openai" && Truthy(keys.openai) then Use(OpenAI)
    else if p == "claude" && Truthy(keys.anthropic) then Use(Claude)
    else if p == "deepseek" && Truthy(keys.deepseek) then Use(DeepSeek)
    else if Truthy(keys.openai) then Use(OpenAI)
    else if Truthy(keys.anthropic) then Use(Claude)
    else if Truthy(keys.deepseek) then Use(DeepSeek)
    else NoProvider
  }

  /** The key a remote provider needs. */
  function KeyOf(keys: Keys, p: Provider): Option<string>
    requires p != Local
  {
    match p
    case OpenAI => keys.openai
    case Claude => keys.anthropic
    case DeepSeek => keys.deepseek
  }

  /** The first provider, in the order OpenAI, Claude, DeepSeek, whose key is truthy. */
  function Fallback(keys: Keys): Choice {
    if Truthy(keys.openai) then Use(OpenAI)
    else if Truthy(keys.anthropic) then Use(Claude)
    else if Truthy(keys.deepseek) then Use(DeepSeek)
    else NoProvider
  }

  /**
   * Local mode exactly as the flag or the absence of every key says;
   * otherwise the preferred provider when its key is truthy, else the
   * fallback order. A remote provider is only ever asked with a truthy key.
   */
  lemma ChooseSpec(localFlag: Option<string>, preferredEnv: Option<string>, keys: Keys)
    ensures var c := Choose(localFlag, preferredEnv, keys);
      (c == Use(Local) <==> LocalMode(localFlag, keys))
      && (c.Use? && c.provider != Local ==> Truthy(KeyOf(keys, c.provider)))
      && (!LocalMode(localFlag, keys) ==>
        var p := Preferred(preferredEnv);
        if p == "openai" && Truthy(keys.openai) then c == Use(OpenAI)
        else if p == "claude" && Truthy(keys.anthropic) then c == Use(Claude)
        else if p == "deepseek" && Truthy(keys.deepseek) then c == Use(DeepSeek)
        else c == Fallback(keys))
  {
  }

  /** With no provider available the agent gives up exactly when no key is truthy and local mode is off. */
  lemma NoProviderIff(localFlag: Option<string>, preferredEnv: Option<string>, keys: Keys)
    ensures Choose(localFlag, preferredEnv, keys) == NoProvider <==>
      !LocalMode(localFlag, keys) && !Truthy(keys.openai) && !Truthy(keys.anthropic) && !Truthy(keys.deepseek)
  {
  }

  /** Keys that are set but empty turn local mode off and leave no provider. */
  lemma EmptyKeysNoProvider(localFlag: Option<string>, preferredEnv: Option<string>)
    requires localFlag != Some("1")
    ensures Choose(localFlag, preferredEnv, Keys(Some(""), None, None)) == NoProvider
  {
  }

  /** `parse_request` of the infra DSL: the same choice, but without a DeepSeek branch. */
  function ChooseDsl(localFlag: Option<string>, preferredEnv: Option<string>, keys: Keys): Choice {
    var p := Preferred(preferredEnv);
    if LocalMode(localFlag, keys) then Use(Local)
    else if p == "openai" && Truthy(keys.openai) then Use(OpenAI)
    else if p == "claude" && Truthy(keys.anthropic) then Use(Claude)
    else if Truthy(keys.openai) then Use(OpenAI)
    else if Truthy(keys.anthropic) then Use(Claude)
    else NoProvider
  }

  /** The DSL never asks DeepSeek: with only a DeepSeek key it has no provider. */
  lemma DslNeverDeepSeek(localFlag: Option<string>, preferredEnv: Option<string>, keys: Keys)
    ensures ChooseDsl(localFlag, preferredEnv, keys) != Use(DeepSeek)
    ensures localFlag != Some("1") && keys.openai.None? && keys.anthropic.None? && keys.deepseek.Some? ==>
      ChooseDsl(localFlag, preferredEnv, keys) == NoProvider
  {
  }

  /** Where both ask a remote provider, the DSL asks the same one as the agents unless the agents would ask DeepSeek. */
  lemma DslAgrees(localFlag: Option<string>, preferredEnv: Option<string>, keys: Keys)
    ensures Choose(localFlag, preferredEnv, keys) != Use(DeepSeek) ==>
      ChooseDsl(localFlag, preferredEnv, keys) == Choose(localFlag, preferredEnv, keys)
  {
  }

  /** The code agent has only the OpenAI key: local mode when the flag says so or the key is unset. */
  function ChooseCode(localFlag: Option<string>, openaiKey: Option<string>): Provider {
    if localFlag == Some("1") || openaiKey.None? then Local else OpenAI
  }

  /** The code agent asks OpenAI even with an empty key. */
  lemma CodeEmptyKeyRemote(localFlag: Option<string>)
    requires localFlag != Some("1")
    ensures ChooseCode(localFlag, Some("")) == OpenAI
  {
  }

  // ---------------------------------------------------------------------
  // The kubernetes agent's OpenAI request, retried on status 429

  const MaxRetries: nat := 3
  const RetryDelay: nat := 2

  /** What one attempt got back: a status with its body (and, for 200, the message content), or an exception. */
  datatype Answer = Status(code: nat, text: string, content: string) | Raised(message: string)

  function Pow2(n: nat): (r: nat)
    ensures r >= 1
  {
    if n == 0 then 1 else 2 * Pow2(n - 1)
  }

  /** The prefix by which callers recognise an error string. */
  const ErrorPrefix := "Error: "

  /** The value a non-429 answer makes the request return. */
  function Returned(a: Answer): string {
    match a
    case Status(code, text, content) =>
      if code == 200 then content
      else ErrorPrefix + "Failed to get response from OpenAI. Status code: " + Decimal(code) + ". Details: " + text
    case Raised(msg) => ErrorPrefix + msg
  }

  predicate RateLimited(a: Answer) {
    a.Status? && a.code == 429
  }

  /** How many of the first `MaxRetries` answers, from the start, are 429s. */
  function Leading429(answers: nat -> Answer, from: nat): (r: nat)
    requires from <= MaxRetries
    ensures from <= r <= MaxRetries
    ensures forall a :: from <= a < r ==> RateLimited(answers(a))
    ensures r < MaxRetries ==> !RateLimited(answers(r))
    decreases MaxRetries - from
  {
    if from == MaxRetries || !RateLimited(answers(from)) then from else Leading429(answers, from + 1)
  }

  /** The sleeps before the attempts after the first `n`: 2 s, 4 s, ... */
  function Backoff(n: nat): (r: seq<nat>)
    ensures |r| == n
    ensures forall k :: 0 <= k < n ==> r[k] == RetryDelay * Pow2(k)
  {
    seq(n, k requires 0 <= k < n => RetryDelay * Pow2(k))
  }

  /**
   * `_get_openai_response`: attempt `a` gets `answers(a)`. Returns what the
   * request returns, the sleeps it made and the number of requests sent.
   * The agent's last line, "Maximum retries exceeded", is never reached:
   * the loop always returns from inside.
   */
  method RequestOpenAI(answers: nat -> Answer) returns (result: string, sleeps: seq<nat>, requests: nat)
    ensures var n := Leading429(answers, 0);
      (n < MaxRetries ==> result == Returned(answers(n)) && sleeps == Backoff(n) && requests == n + 1)
      && (n == MaxRetries ==>
        result == "Error: OpenAI rate limit exceeded. Please try again later."
        && sleeps == Backoff(MaxRetries - 1) && requests == MaxRetries)
  {
    sleeps := [];
    requests := 0;
    var attempt := 0;
    while attempt < MaxRetries
      invariant 0 <= attempt < MaxRetries
      invariant requests == attempt
      invariant sleeps == Backoff(attempt)
      invariant Leading429(answers, 0) == Leading429(answers, attempt)
      decreases MaxRetries - attempt
    {
      var answer := answers(attempt);
      requests := requests + 1;
      match answer {
        case Status(code, text, content) =>
          if code == 200 {
            return content, sleeps, requests;
          } else if code == 429 {
            if attempt < MaxRetries - 1 {
              var sleepTime := RetryDelay * Pow2(attempt);
              sleeps := sleeps + [sleepTime];
              attempt := attempt + 1;
              continue;
            } else {
              return "Error: OpenAI rate limit exceeded. Please try again later.", sleeps, requests;
            }
          } else {
            return ErrorPrefix + "Failed to get response from OpenAI. Status code: " + Decimal(code) + ". Details: " + text,
              sleeps, requests;
          }
        case Raised(msg) =>
          return ErrorPrefix + msg, sleeps, requests;
      }
    }
    assert false;
  }

  /** At most three requests; the sleeps are 2 s and then 4 s, and only after a 429 on the first two attempts. */
  lemma RetryBounds(answers: nat -> Answer)
    ensures Leading429(answers, 0) <= MaxRetries
    ensures Backoff(MaxRetries - 1) == [2, 4]
    ensures forall k :: 0 <= k < |Backoff(Leading429(answers, 0))| && k < MaxRetries - 1 ==> RateLimited(answers(k))
  {
    assert Pow2(1) == 2;
  }

  /** A 200 on the first attempt returns its content with no sleep; any other first answer that is not a 429 returns at once. */
  lemma FirstAnswerDecides(answers: nat -> Answer)
    requires !RateLimited(answers(0))
    ensures Leading429(answers, 0) == 0
    ensures answers(0).Status? && answers(0).code == 200 ==> Returned(answers(0)) == answers(0).content
    ensures (answers(0).Raised? || answers(0).code != 200) ==> StartsWith(Returned(answers(0)), ErrorPrefix)
  {
    match answers(0)
    case Raised(msg) =>
    case Status(code, text, content) =>
      if code != 200 {
        var rest := "Failed to get response from OpenAI. Status code: " + Decimal(code) + ". Details: " + text;
        assert Returned(answers(0)) == ErrorPrefix + rest;
      }
  }
}
