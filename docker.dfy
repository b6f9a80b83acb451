/**
 * The docker agent's helpers around the generated files: reading registry
 * details from the prompt, finding the Dockerfile and the compose file among
 * the generated names, and the commands the agent builds for the gate.
 */
module Docker {
  import opened Wrappers
  import opened Text
  import opened Naming
  import opened Gate

  /** The `registry` dictionary; `None` where the agent stores `None`. */
  datatype Registry = Registry(
    username: Option<string>,
    password: Option<string>,
    url: Option<string>,
    imageName: Option<string>,
    tag: string)

  const TagKeywords: seq<string> := ["tag", "tags", "tagged", "tagging"]
  const NameKeywords: seq<string> := ["call", "name", "called", "named"]

  /** The characters `strip(",.;:")` removes from a candidate word. */
  const Trimmed: set<char> := {',', '.', ';', ':'}

  /**
   * The registry the prompt mentions: three tests in sequence, each
   * overwriting the last, on the lowercased prompt.
   */
  function RegistryUrl(prompt: string): Option<string> {
    var p := Lower(prompt);
    var hub := if Contains(p, "docker hub") || Contains(p, "dockerhub") then Some("docker.io") else None;
    var ecr := if Contains(p, "ecr") || Contains(p, "elastic container registry") then Some("aws_ecr") else hub;
    if Contains(p, "ghcr") || Contains(p, "github container registry") then Some("ghcr.io") else ecr
  }

  /** The word after position `i`, with the punctuation around it stripped. */
  function Candidate(words: seq<string>, i: nat): string
    requires i + 1 < |words|
  {
    StripChars(words[i + 1], Trimmed)
  }

  /**
   * The candidate is the word with only its surrounding punctuation removed:
   * `"v1.2",` gives `v1.2`, keeping the inner '.'.
   */
  lemma CandidateStripped(words: seq<string>, i: nat, w1: string, t: string, w2: string)
    requires i + 1 < |words| && words[i + 1] == w1 + t + w2
    requires forall k :: 0 <= k < |w1| ==> w1[k] in Trimmed
    requires forall k :: 0 <= k < |w2| ==> w2[k] in Trimmed
    requires t == "" || (t[0] !in Trimmed && t[|t| - 1] !in Trimmed)
    ensures Candidate(words, i) == t
  {
    StripCharsPadded(w1, t, w2, Trimmed);
  }

  predicate TagAccepted(t: string) {
    IsAlnum(t) || '-' in t || '.' in t
  }

  predicate NameAccepted(n: string) {
    '/' !in n && ':' !in n
  }

  /** Word `i` is a tag keyword followed by an acceptable tag. */
  predicate TagAt(words: seq<string>, i: nat) {
    i + 1 < |words| && words[i] in TagKeywords && TagAccepted(Candidate(words, i))
  }

  /** Word `i` is a name keyword followed by an acceptable name. */
  predicate NameAt(words: seq<string>, i: nat) {
    i + 1 < |words| && words[i] in NameKeywords && NameAccepted(Candidate(words, i))
  }

  /** The tag after scanning the first `n` words. */
  function TagAfter(words: seq<string>, n: nat): string
    requires n <= |words|
  {
    if n == 0 then "latest"
    else if TagAt(words, n - 1) then Candidate(words, n - 1)
    else TagAfter(words, n - 1)
  }

  /** The image name after scanning the first `n` words. */
  function NameAfter(words: seq<string>, n: nat): Option<string>
    requires n <= |words|
  {
    if n == 0 then None
    else if NameAt(words, n - 1) then Some(Candidate(words, n - 1))
    else NameAfter(words, n - 1)
  }

  /** `parse_registry_info`, with the two environment variables as inputs. */
  method ParseRegistry(prompt: string, envUsername: Option<string>, envPassword: Option<string>)
    returns (r: Registry)
    ensures r.url == RegistryUrl(prompt)
    ensures r.username == envUsername && r.password == envPassword
    ensures r.tag == TagAfter(Words(Lower(prompt)), |Words(Lower(prompt))|)
    ensures r.imageName == NameAfter(Words(Lower(prompt)), |Words(Lower(prompt))|)
  {
    r := Registry(None, None, None, None, "latest");
    var lowered := Lower(prompt);
    if Contains(lowered, "docker hub") || Contains(lowered, "dockerhub") {
      r := r.(url := Some("docker.io"));
    }
    if Contains(lowered, "ecr") || Contains(lowered, "elastic container registry") {
      r := r.(url := Some("aws_ecr"));
    }
    if Contains(lowered, "ghcr") || Contains(lowered, "github container registry") {
      r := r.(url := Some("ghcr.io"));
    }
    r := r.(username := envUsername, password := envPassword);
    r := ScanWords(Words(lowered), r);
  }

  /** The loop of `parse_registry_info` over the lowercased words; it sets only the tag and the name. */
  method ScanWords(words: seq<string>, r0: Registry) returns (r: Registry)
    requires r0.tag == "latest" && r0.imageName == None
    ensures r == r0.(tag := TagAfter(words, |words|), imageName := NameAfter(words, |words|))
  {
    r := r0;
    for i := 0 to |words|
      invariant r == r0.(tag := TagAfter(words, i), imageName := NameAfter(words, i))
    {
      var word := words[i];
      if word in TagKeywords {
        if i + 1 < |words| {
          var potentialTag := StripChars(words[i + 1], Trimmed);
          if IsAlnum(potentialTag) || '-' in potentialTag || '.' in potentialTag {
            r := r.(tag := potentialTag);
          }
        }
      }
      if word in NameKeywords {
        if i + 1 < |words| {
          var potentialName := StripChars(words[i + 1], Trimmed);
          if '/' !in potentialName && ':' !in potentialName {
            r := r.(imageName := Some(potentialName));
          }
        }
      }
    }
  }

  /** GitHub's registry wins over ECR, and ECR over Docker Hub; none of them leaves the URL unset. */
  lemma UrlPrecedence(prompt: string)
    ensures var p := Lower(prompt);
      (Contains(p, "ghcr") || Contains(p, "github container registry") ==> RegistryUrl(prompt) == Some("ghcr.io"))
      && ((!(Contains(p, "ghcr") || Contains(p, "github container registry"))
          && (Contains(p, "ecr") || Contains(p, "elastic container registry"))) ==> RegistryUrl(prompt) == Some("aws_ecr"))
      && (RegistryUrl(prompt) == Some("docker.io") <==>
          !(Contains(p, "ghcr") || Contains(p, "github container registry"))
          && !(Contains(p, "ecr") || Contains(p, "elastic container registry"))
          && (Contains(p, "docker hub") || Contains(p, "dockerhub")))
      && (RegistryUrl(prompt) == None <==>
          !Contains(p, "ghcr") && !Contains(p, "github container registry") && !Contains(p, "ecr")
          && !Contains(p, "elastic container registry") && !Contains(p, "docker hub") && !Contains(p, "dockerhub"))
  {
  }

  /** "ecr" is a substring test: a prompt mentioning a secret selects ECR unless it names GitHub's registry. */
  lemma SecretSelectsEcr(prompt: string)
    requires Contains(Lower(prompt), "secret")
    requires !Contains(Lower(prompt), "ghcr") && !Contains(Lower(prompt), "github container registry")
    ensures RegistryUrl(prompt) == Some("aws_ecr")
  {
    var p := Lower(prompt);
    ContainsIff(p, "secret");
    var j: nat :| MatchAt(p, "secret", j);
    var w := p[j..j + 6];
    assert w == "secret";
    assert w[1] == 'e' && w[2] == 'c' && w[3] == 'r';
    assert p[j + 1..j + 4] == w[1..4] == "ecr";
    ContainsAt(p, "ecr", j + 1);
  }

  /** Without an accepted tag the tag stays "latest". */
  lemma {:induction false} NoTagLatest(words: seq<string>, n: nat)
    requires n <= |words|
    requires forall i :: 0 <= i < n ==> !TagAt(words, i)
    ensures TagAfter(words, n) == "latest"
    decreases n
  {
    if n > 0 {
      NoTagLatest(words, n - 1);
    }
  }

  /** The last accepted tag wins. */
  lemma {:induction false} LastTagWins(words: seq<string>, n: nat, i: nat)
    requires i < n <= |words| && TagAt(words, i)
    requires forall j :: i < j < n ==> !TagAt(words, j)
    ensures TagAfter(words, n) == Candidate(words, i)
    decreases n
  {
    if n - 1 > i {
      LastTagWins(words, n - 1, i);
    }
  }

  /** Without an accepted name there is no image name. */
  lemma {:induction false} NoNameNone(words: seq<string>, n: nat)
    requires n <= |words|
    requires forall i :: 0 <= i < n ==> !NameAt(words, i)
    ensures NameAfter(words, n) == None
    decreases n
  {
    if n > 0 {
      NoNameNone(words, n - 1);
    }
  }

  /** The last accepted name wins. */
  lemma {:induction false} LastNameWins(words: seq<string>, n: nat, i: nat)
    requires i < n <= |words| && NameAt(words, i)
    requires forall j :: i < j < n ==> !NameAt(words, j)
    ensures NameAfter(words, n) == Some(Candidate(words, i))
    decreases n
  {
    if n - 1 > i {
      LastNameWins(words, n - 1, i);
    }
  }

  /** A tag is non-empty, and a name never holds "/" or ":". */
  lemma {:induction false} ParsedShape(words: seq<string>, n: nat)
    requires n <= |words|
    ensures TagAfter(words, n) != ""
    ensures NameAfter(words, n).Some? ==> NameAccepted(NameAfter(words, n).value)
    decreases n
  {
    if n > 0 {
      ParsedShape(words, n - 1);
    }
  }

  // ---------------------------------------------------------------------
  // The generated files `run` looks for

  predicate IsDockerfile(name: string) {
    Lower(name) == "dockerfile"
  }

  predicate IsComposeFile(name: string) {
    Lower(name) == "docker-compose.yml" || Lower(name) == "docker-compose.yaml"
  }

  /** The Dockerfile `run` builds from: the first name that lowercases to "dockerfile"; without one the run stops. */
  function Dockerfile(names: seq<string>): (r: Option<string>)
    ensures r.Some? <==> exists j :: 0 <= j < |names| && IsDockerfile(names[j])
    ensures r.Some? ==> exists i :: (0 <= i < |names| && names[i] == r.value && IsDockerfile(r.value)
      && forall j :: 0 <= j < i ==> !IsDockerfile(names[j]))
  {
    Find(names, IsDockerfile)
  }

  /** The compose file `run` copies: the first name that lowercases to a compose file name. */
  function ComposeFile(names: seq<string>): (r: Option<string>)
    ensures r.Some? <==> exists j :: 0 <= j < |names| && IsComposeFile(names[j])
    ensures r.Some? ==> exists i :: (0 <= i < |names| && names[i] == r.value && IsComposeFile(r.value)
      && forall j :: 0 <= j < i ==> !IsComposeFile(names[j]))
  {
    Find(names, IsComposeFile)
  }

  // ---------------------------------------------------------------------
  // The commands `run` sends through the gate

  function BuildCommand(image: string, tag: string, context: string): string {
    "docker build -t " + image + ":" + tag + " " + context
  }

  function EcrLogin(region: string, ecrUrl: string): string {
    "aws" + " ecr get-login-password --region " + region + " | docker login --username AWS --password-stdin " + ecrUrl
  }

  function RegistryLogin(password: string, url: string, username: string): string {
    "echo" + " " + password + " | docker login " + url + " --username " + username + " --password-stdin"
  }

  /** A command whose first word is `w` passes the docker gate only when `w` is "docker" or "docker-compose". */
  lemma LedBy(w: string, rest: string, shell: Outcome)
    requires w != "" && NoSpace(w) && rest != "" && IsSpace(rest[0])
    requires w !in DockerCommands
    ensures !CheckSafety(w + rest, Denylist, DockerCommands).safe
    ensures !Execute(w + rest, DockerCommands, shell).success
  {
    FirstWord(w, rest);
    SafetyIff(w + rest, Denylist, DockerCommands);
  }

  /** The ECR login is refused whatever the region and account: a push to ECR always stops at the login. */
  lemma EcrLoginRefused(region: string, ecrUrl: string, shell: Outcome)
    ensures !CheckSafety(EcrLogin(region, ecrUrl), Denylist, DockerCommands).safe
    ensures !Execute(EcrLogin(region, ecrUrl), DockerCommands, shell).success
  {
    var rest := " ecr get-login-password --region " + region + " | docker login --username AWS --password-stdin " + ecrUrl;
    assert EcrLogin(region, ecrUrl) == "aws" + rest;
    LedBy("aws", rest, shell);
  }

  /** The registry login is refused whatever the credentials: a push to any other registry stops at the login. */
  lemma RegistryLoginRefused(password: string, url: string, username: string, shell: Outcome)
    ensures !CheckSafety(RegistryLogin(password, url, username), Denylist, DockerCommands).safe
    ensures !Execute(RegistryLogin(password, url, username), DockerCommands, shell).success
  {
    var rest := " " + password + " | docker login " + url + " --username " + username + " --password-stdin";
    assert RegistryLogin(password, url, username) == "echo" + rest;
    LedBy("echo", rest, shell);
  }

  /** The build command passes exactly when none of its parts brings in a denied substring. */
  lemma BuildGate(image: string, tag: string, context: string)
    ensures var c := BuildCommand(image, tag, context);
      CheckSafety(c, Denylist, DockerCommands).safe <==> forall k :: 0 <= k < |Denylist| ==> !Contains(c, Denylist[k])
  {
    var c := BuildCommand(image, tag, context);
    var rest := " build -t " + image + ":" + tag + " " + context;
    assert c == "docker" + rest;
    FirstWord("docker", rest);
    SafetyIff(c, Denylist, DockerCommands);
  }

  /** An image named after a prompt with "su" in it, such as "consumer-api", is never built. */
  lemma SuImageNotBuilt(image: string, tag: string, context: string)
    requires Contains(image, "su")
    ensures !CheckSafety(BuildCommand(image, tag, context), Denylist, DockerCommands).safe
  {
    var pre := "docker build -t ";
    var post := ":" + tag + " " + context;
    ContainsInfix(pre, image, post, "su");
    assert BuildCommand(image, tag, context) == pre + image + post;
    SuRejected(BuildCommand(image, tag, context), DockerCommands);
  }
}
