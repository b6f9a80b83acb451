/**
 * The infra DSL's `parse_request`: the provider's reply is searched for a
 * JSON object, taken greedily from the first '{' to the last '}', and kept
 * only when it parses. JSON parsing is a predicate given as a parameter,
 * and the provider's reply is an input.
 */
module InfraDsl {
  import opened Wrappers
  import opened Text
  import opened Providers

  /** The index of the first `c` in `s`. */
  function FirstIndex(s: string, c: char): (r: Option<nat>)
    ensures r.None? <==> c !in s
    ensures r.Some? ==> r.value < |s| && s[r.value] == c && c !in s[..r.value]
    decreases |s|
  {
    if |s| == 0 then None
    else if s[0] == c then Some(0)
    else match FirstIndex(s[1..], c)
      case None => None
      case Some(i) =>
        assert s[..i + 1] == [s[0]] + s[1..][..i];
        Some(i + 1)
  }

  /** The index of the last `c` in `s`. */
  function LastIndex(s: string, c: char): (r: Option<nat>)
    ensures r.None? <==> c !in s
    ensures r.Some? ==> r.value < |s| && s[r.value] == c && c !in s[r.value + 1..]
    decreases |s|
  {
    if |s| == 0 then None
    else if s[|s| - 1] == c then Some(|s| - 1)
    else match LastIndex(s[..|s| - 1], c)
      case None => None
      case Some(i) =>
        assert s[i + 1..] == s[..|s| - 1][i + 1..] + [s[|s| - 1]];
        Some(i)
  }

  /**
   * What `re.search(r'({[\s\S]*})', response)` captures: the text from the
   * first '{' to the last '}', when a '}' follows the first '{'.
   */
  function JsonSpan(response: string): Option<string> {
    match FirstIndex(response, '{')
    case None => None
    case Some(i) =>
      match LastIndex(response, '}')
      case None => None
      case Some(j) => if i < j then Some(response[i..j + 1]) else None
  }

  /** `_clean_json_response`: an empty or missing reply, no span, or a span that does not parse gives `None`. */
  function CleanJson(response: Option<string>, parses: string -> bool): Option<string> {
    if response.None? || response.value == "" then None
    else match JsonSpan(response.value)
      case None => None
      case Some(span) => if parses(span) then Some(span) else None
  }

  /** An index holding `c` with no `c` before it is the first index. */
  lemma FirstIndexAt(s: string, c: char, i: nat)
    requires i < |s| && s[i] == c && c !in s[..i]
    ensures FirstIndex(s, c) == Some(i)
  {
  }

  /** An index holding `c` with no `c` after it is the last index. */
  lemma LastIndexAt(s: string, c: char, j: nat)
    requires j < |s| && s[j] == c && c !in s[j + 1..]
    ensures LastIndex(s, c) == Some(j)
  {
  }

  /** A span exists exactly when some '}' follows some '{'. */
  lemma JsonSpanExists(response: string)
    ensures JsonSpan(response).Some? <==>
      exists i, j :: 0 <= i < j < |response| && response[i] == '{' && response[j] == '}'
  {
    if exists i, j :: 0 <= i < j < |response| && response[i] == '{' && response[j] == '}' {
      var i, j :| 0 <= i < j < |response| && response[i] == '{' && response[j] == '}';
      assert response[i] == response[..j][i];
    }
  }

  /** A span starts at the first '{' and ends with a '}' after which none follows. */
  lemma JsonSpanShape(response: string)
    ensures JsonSpan(response).Some? ==> (var v := JsonSpan(response).value; var i := FirstIndex(response, '{').value;
      |v| >= 2 && v[0] == '{' && v[|v| - 1] == '}'
      && i + |v| <= |response| && v == response[i..i + |v|]
      && '{' !in response[..i] && '}' !in response[i + |v|..])
  {
    if JsonSpan(response).Some? {
      var i := FirstIndex(response, '{').value;
      var j := LastIndex(response, '}').value;
      var v := response[i..j + 1];
      assert JsonSpan(response) == Some(v);
      assert |v| == j + 1 - i && v[0] == response[i] && v[|v| - 1] == response[j];
      assert i + |v| == j + 1;
    }
  }

  /**
   * The reply "prose, object, prose", where the leading prose has no '{'
   * and the trailing prose has no '}', gives back the object when it parses.
   */
  lemma CleanJsonFinds(before: string, obj: string, after: string, parses: string -> bool)
    requires '{' !in before && '}' !in after
    requires |obj| >= 2 && obj[0] == '{' && obj[|obj| - 1] == '}'
    requires parses(obj)
    ensures CleanJson(Some(before + obj + after), parses) == Some(obj)
  {
    var r := before + obj + after;
    var i, j := |before|, |before| + |obj| - 1;
    assert r[i] == '{' && r[j] == '}';
    assert r[..i] == before;
    assert r[j + 1..] == after;
    FirstIndexAt(r, '{', i);
    LastIndexAt(r, '}', j);
    assert r[i..j + 1] == obj;
  }

  /** An empty reply, or a reply without a '{' followed by a '}', gives `None`. */
  lemma CleanJsonNone(response: Option<string>, parses: string -> bool)
    requires response.Some? ==> forall i, j :: 0 <= i < j < |response.value| ==> !(response.value[i] == '{' && response.value[j] == '}')
    ensures CleanJson(response, parses) == None
  {
    if response.Some? {
      JsonSpanExists(response.value);
    }
  }

  /** The prompt sent to the local model. */
  function OllamaPrompt(system: string, prompt: string): (r: string)
  {
    system + "\n\nUser request: " + prompt + "\n\nJSON output:"
  }

  /** The user's request sits between the system prompt and the fixed tail, and can be read back. */
  lemma OllamaPromptParts(system: string, prompt: string)
    ensures var r := OllamaPrompt(system, prompt);
      |r| == |system| + |prompt| + 30
      && r[..|system|] == system
      && r[|system| + 16..|system| + 16 + |prompt|] == prompt
      && r[|system| + 16 + |prompt|..] == "\n\nJSON output:"
  {
    var r := OllamaPrompt(system, prompt);
    assert |"\n\nUser request: "| == 16;
    assert |"\n\nJSON output:"| == 14;
    assert r == system + "\n\nUser request: " + prompt + "\n\nJSON output:";
  }

  /**
   * `parse_request`: the provider `ChooseDsl` picks is asked (`answer` is
   * its reply, `None` when the request failed), and the reply is cleaned;
   * with no provider available the result is `None`.
   */
  function ParseRequest(localFlag: Option<string>, preferredEnv: Option<string>, keys: Keys,
                        answer: Provider -> Option<string>, parses: string -> bool): Option<string>
  {
    match ChooseDsl(localFlag, preferredEnv, keys)
    case NoProvider => None
    case Use(p) => CleanJson(answer(p), parses)
  }

  /** With only a DeepSeek key and the local flag off, nothing is parsed, whatever any provider would say. */
  lemma DeepSeekOnlyNothing(localFlag: Option<string>, preferredEnv: Option<string>, deepseekKey: string,
                            answer: Provider -> Option<string>, parses: string -> bool)
    requires localFlag != Some("1")
    ensures ParseRequest(localFlag, preferredEnv, Keys(None, None, Some(deepseekKey)), answer, parses) == None
  {
    DslNeverDeepSeek(localFlag, preferredEnv, Keys(None, None, Some(deepseekKey)));
  }

  /** Whatever is returned is a parsing span of the chosen provider's reply. */
  lemma ParseRequestFromReply(localFlag: Option<string>, preferredEnv: Option<string>, keys: Keys,
                              answer: Provider -> Option<string>, parses: string -> bool)
    ensures var r := ParseRequest(localFlag, preferredEnv, keys, answer, parses);
      r.Some? ==> (ChooseDsl(localFlag, preferredEnv, keys).Use?
        && var reply := answer(ChooseDsl(localFlag, preferredEnv, keys).provider);
        reply.Some? && reply.value != "" && parses(r.value) && JsonSpan(reply.value) == r)
  {
  }
}
