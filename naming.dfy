/**
 * Names the agents derive from the prompt or pick from the generated files:
 * the project and task slugs of the docker and ansible agents, and the
 * first-match searches over generated file names.
 */
module Naming {
  import opened Wrappers
  import opened Text

  /** The characters the slug removes with `replace(c, "")`. */
  const Punctuation: set<char> := {':', ',', '.'}

  /** The first three words of the lowercased prompt, punctuation removed. */
  function SlugWords(prompt: string): seq<string> {
    Take(Words(RemoveChars(Lower(prompt), Punctuation)), 3)
  }

  /**
   * The default project name of the docker agent and task name of the
   * ansible agent: those words joined by "-", then "-" and the timestamp.
   */
  function Slug(prompt: string, timestamp: string): string {
    Join(SlugWords(prompt), "-") + "-" + timestamp
  }

  /**
   * At most three words, each a non-empty run of characters of the prompt
   * that are neither whitespace, nor upper case, nor removed punctuation.
   */
  lemma SlugWordsShape(prompt: string)
    ensures |SlugWords(prompt)| <= 3
    ensures forall k :: 0 <= k < |SlugWords(prompt)| ==> SlugWords(prompt)[k] != ""
    ensures forall k, c :: 0 <= k < |SlugWords(prompt)| && c in SlugWords(prompt)[k] ==>
      !IsSpace(c) && !('A' <= c <= 'Z') && c !in Punctuation
  {
    var t := RemoveChars(Lower(prompt), Punctuation);
    var ws := Words(t);
    WordsChars(t);
    var r := SlugWords(prompt);
    forall k, c | 0 <= k < |r| && c in r[k]
      ensures !IsSpace(c) && !('A' <= c <= 'Z') && c !in Punctuation
    {
      assert r[k] == ws[k];
      var j :| 0 <= j < |r[k]| && r[k][j] == c;
      assert !IsSpace(ws[k][j]);
      RemovedFromLower(prompt, c);
    }
  }

  /** A character left after removing punctuation from the lowered prompt is neither upper case nor punctuation. */
  lemma RemovedFromLower(prompt: string, c: char)
    requires c in RemoveChars(Lower(prompt), Punctuation)
    ensures !('A' <= c <= 'Z') && c !in Punctuation
  {
    RemoveCharsFrom(Lower(prompt), Punctuation, c);
  }

  lemma {:induction false} RemoveCharsFrom(s: string, cs: set<char>, c: char)
    requires c in RemoveChars(s, cs)
    ensures c in s && c !in cs
    decreases |s|
  {
    if |s| > 0 {
      if s[0] in cs || c != s[0] {
        if c in RemoveChars(s[1..], cs) {
          RemoveCharsFrom(s[1..], cs, c);
          assert c in s[1..];
        }
      }
    }
  }

  /**
   * A prompt of lower-case words without the removed punctuation, separated
   * by single spaces, names the project by its first three words joined by
   * "-", then "-" and the timestamp.
   */
  lemma SlugOfPlainPrompt(ws: seq<string>, timestamp: string)
    requires forall k :: 0 <= k < |ws| ==> ws[k] != "" && NoSpace(ws[k])
    requires forall k :: 0 <= k < |Join(ws, " ")| ==>
      !('A' <= Join(ws, " ")[k] <= 'Z') && Join(ws, " ")[k] !in Punctuation
    ensures Slug(Join(ws, " "), timestamp) == Join(Take(ws, 3), "-") + "-" + timestamp
  {
    var prompt := Join(ws, " ");
    assert Lower(prompt) == prompt;
    RemoveCharsNone(prompt, Punctuation);
    WordsJoin(ws);
  }

  /**
   * A removed punctuation character vanishes without separating anything:
   * "web,app" gives the slug words of "webapp".
   */
  lemma SlugPunctuationDropped(a: string, c: char, b: string)
    requires c in Punctuation
    ensures SlugWords(a + [c] + b) == SlugWords(a + b)
  {
    LowerAppend(a + [c], b);
    LowerAppend(a, [c]);
    LowerAppend(a, b);
    assert Lower([c]) == [c];
    var la, lb := Lower(a), Lower(b);
    RemoveCharsAppend(la + [c], lb, Punctuation);
    RemoveCharsAppend(la, [c], Punctuation);
    RemoveCharsOne(c, Punctuation);
    RemoveCharsAppend(la, lb, Punctuation);
    var ra, rb := RemoveChars(la, Punctuation), RemoveChars(lb, Punctuation);
    assert Lower(a + [c] + b) == la + [c] + lb;
    assert RemoveChars(la + [c] + lb, Punctuation) == ra + rb by {
      assert ra + "" + rb == ra + rb;
    }
  }

  /** The slug does not depend on the case of the prompt. */
  lemma SlugIgnoresCase(prompt: string, timestamp: string)
    ensures Slug(Lower(prompt), timestamp) == Slug(prompt, timestamp)
  {
    LowerIdempotent(prompt);
  }

  /** When no slug word holds a "-", splitting the name before the timestamp on "-" gives the words back. */
  lemma SlugSplits(prompt: string)
    requires SlugWords(prompt) != []
    requires forall k :: 0 <= k < |SlugWords(prompt)| ==> '-' !in SlugWords(prompt)[k]
    ensures SplitOn(Join(SlugWords(prompt), "-"), '-') == SlugWords(prompt)
  {
    SplitJoin(SlugWords(prompt), '-');
  }

  // ---------------------------------------------------------------------
  // First-match searches

  /** The index of the first name at or after `i` that satisfies `p`. */
  function FindFrom(names: seq<string>, p: string -> bool, i: nat): (r: Option<nat>)
    requires i <= |names|
    ensures r.Some? ==> (i <= r.value < |names| && p(names[r.value])
      && forall j :: i <= j < r.value ==> !p(names[j]))
    ensures r.None? ==> forall j :: i <= j < |names| ==> !p(names[j])
    decreases |names| - i
  {
    if i == |names| then None
    else if p(names[i]) then Some(i)
    else FindFrom(names, p, i + 1)
  }

  /** The first name that satisfies `p`, as the agents' `for ... break` loops find it. */
  function Find(names: seq<string>, p: string -> bool): (r: Option<string>)
    ensures r.Some? <==> exists j :: 0 <= j < |names| && p(names[j])
    ensures r.Some? ==> exists i :: (0 <= i < |names| && names[i] == r.value && p(r.value)
      && forall j :: 0 <= j < i ==> !p(names[j]))
  {
    match FindFrom(names, p, 0)
    case Some(i) => Some(names[i])
    case None => None
  }

  /** The agents' `for ... if ...: found = name; break` loops, which compute `Find`. */
  method FirstMatching(names: seq<string>, p: string -> bool) returns (found: Option<string>)
    ensures found == Find(names, p)
  {
    var i := 0;
    while i < |names|
      invariant 0 <= i <= |names|
      invariant FindFrom(names, p, i) == FindFrom(names, p, 0)
    {
      if p(names[i]) {
        return Some(names[i]);
      }
      i := i + 1;
    }
    return None;
  }
}
