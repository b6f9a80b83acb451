# Agent reply post-processing of native-os, in Dafny

native-os ships a family of Python "agents" (docker, kubernetes, ansible,
terraform, infra, code, documentation and the infra DSL). Each one asks a
language model for files and then runs the same pipeline on the reply:

- it chooses which provider to ask, from environment flags and API keys;
- it retries OpenAI with exponential backoff when it is rate-limited: the same three-attempt loop appears in every agent (the model follows the kubernetes agent's copy);
- it extracts `(filename, content)` artifacts from the reply, reading `## file: NAME` markers and code fences;
- it writes them under an output directory, behind a path-traversal guard in four of the agents;
- it passes the shell commands each agent's `run` builds through a safety gate (a denylist of substrings and, for four agents, an allow-list of first words);
- it runs the agent-specific steps after generation: registry parsing and login commands, Helm or `kubectl apply`, the playbook and its recap, init/plan/apply, and script selection.

This project models those steps and proves what they promise. Pure steps are
datatypes and functions with lemmas. Loops that accumulate a list are methods
proved equal to a specification function. The file system is a `Disk` class
whose methods change it in place. Each module follows one concern of the
agents:

| module | file | what it holds |
|---|---|---|
| `Wrappers`, `Text` | text.dfy | `Option`; Python's `strip`, `split`, `"sep".join`, `lower`, `isalnum`, `int()` on strings |
| `Artifacts` | artifacts.dfy | artifacts, the per-line marker/fence tests, the marker grammar |
| `CarryExtract` | carry_extract.dfy | `extract_files` of the docker, kubernetes, ansible and terraform agents |
| `FlushExtract` | flush_extract.dfy | `extract_files` of the infra and code agents |
| `Paths` | paths.dfy | POSIX `normpath`, `join`, and the traversal guard |
| `SaveFiles` | save_files.dfy | `save_files` of every agent, over a `Disk` class |
| `Gate` | gate.dfy | `check_command_safety` and `execute_command` |
| `Providers` | providers.dfy | provider choice and the OpenAI retry loop |
| `InfraDsl` | infra_dsl.dfy | `parse_request` and `_clean_json_response` |
| `InfraRun` | infra_run.dfy | the infra agent's offer to run a saved script |
| `Naming` | naming.dfy | prompt slugs and first-match searches over file names |
| `Docker` | docker.dfy | `parse_registry_info`, Dockerfile/compose lookup, build and login commands |
| `Kubernetes` | kubernetes.dfy | Helm detection, the YAML list for `kubectl apply`, chart name |
| `Ansible` | ansible.dfy | playbook and inventory choice, the command, the play-recap scan |
| `Terraform` | terraform.dfy | the init, plan, confirm, apply sequence |
| `Doc` | doc.dfy | files read as context, excerpts, previews, documentation file names |

Inputs that come from outside are parameters:

- the model's reply;
- HTTP answers, one per attempt;
- the shell's outcome of a command;
- the user's answers to prompts;
- environment variables (`None` when unset);
- timestamps;
- the files a glob found.

JSON validity is a predicate passed as a parameter.

## Model

| member | source | states |
|---|---|---|
| Text.Strip | agents/docker-agent.py:477 | the stripped text is no longer than the input and neither starts nor ends with whitespace |
| Text.StripEmpty | agents/docker-agent.py:477 | stripping gives the empty string exactly when the text is all whitespace |
| Text.StripTrimmed | agents/docker-agent.py:477 | stripping a text that neither starts nor ends with whitespace leaves it unchanged |
| Text.StripPadded | agents/infra-agent.py:567 | whitespace around a stripped text is removed and the text itself kept |
| Text.StripChars | agents/docker-agent.py:646 | `strip(chars)` neither lengthens the text nor leaves a stripped character at either end |
| Text.StripCharsPadded | agents/docker-agent.py:646 | only the runs of stripped characters at either end go: the text between them is kept whole, inner stripped characters included |
| Text.SplitOn | agents/docker-agent.py:460 | `split` always yields at least one piece |
| Text.SplitOnPieces | agents/docker-agent.py:460 | no piece of a split contains the separator |
| Text.JoinSplit | agents/docker-agent.py:472 | joining the pieces of a split with the separator gives the text back |
| Text.SplitJoin | agents/docker-agent.py:472 | splitting a join of separator-free parts gives the parts back |
| Text.Words | agents/docker-agent.py:642 | `split()` yields non-empty words without whitespace |
| Text.WordsCons | agents/docker-agent.py:642 | a maximal run of non-whitespace characters at the start is the first word, and the rest splits on its own |
| Text.WordsLeadingSpace | agents/docker-agent.py:642 | leading whitespace adds no word |
| Text.WordsAllSpace | agents/docker-agent.py:642 | a text of whitespace has no words |
| Text.WordsSplitAt | agents/docker-agent.py:642 | a whitespace character separates: the words of `a + [c] + b` are those of `a` followed by those of `b` |
| Text.WordsJoin | agents/docker-agent.py:642 | splitting words joined by single spaces gives every word back, in order |
| Text.WordsOfStrip | agents/docker-agent.py:642 | the words of a text and of its stripped form are the same |
| Text.WordsChars | agents/docker-agent.py:642 | every character of a word comes from the text |
| Text.LowerIdempotent | agents/docker-agent.py:642 | lowering twice is lowering once |
| Text.Lower | agents/docker-agent.py:642 | same length, each character lowered, no upper-case letter left |
| Text.RemoveChars | agents/docker-agent.py:664 | `replace(c, "")` for each removed character leaves none of them and never lengthens the text |
| Text.RemoveCharsOne | agents/docker-agent.py:664 | one character is dropped exactly when it is a removed one |
| Text.RemoveCharsAppend | agents/docker-agent.py:664 | removal works piece by piece, so the kept characters stay, in order |
| Text.RemoveCharsNone | agents/docker-agent.py:664 | a text without removed characters is unchanged |
| Text.LowerAppend | agents/docker-agent.py:664 | lowering works piece by piece |
| Text.ParseInt | agents/ansible-agent.py:603 | `int()` succeeds exactly on digits with an optional sign |
| Text.ParseDecimal | agents/ansible-agent.py:603 | the decimal digits of a count, with or without a sign, read back as that count |
| Text.ContainsIff | agents/docker-agent.py:544 | `pattern in command` holds exactly when the pattern matches at some position |
| Artifacts.Classify | agents/docker-agent.py:467-484 | the line's kind reflects the marker test, the fence test on its stripped form and the fence's tag |
| Artifacts.BareFence | agents/docker-agent.py:484 | a fence line has an empty tag exactly when its stripped form is three backticks alone |
| Artifacts.HeaderName | agents/docker-agent.py:477 | a marker line for a valid name is recognised and yields exactly that name |
| Artifacts.Render | agents/docker-agent.py:494-497 | each artifact's content is its lines joined with newlines, one artifact per section, in order |
| Artifacts.RenderUnjoined | agents/docker-agent.py:494-497 | joining the split contents of files gives the files back |
| Artifacts.AllValidIff | agents/docker-agent.py:467-490 | the recursive validity test agrees with validity of every file |
| Artifacts.ClassifiedPlain | agents/docker-agent.py:489-490 | lines that are neither markers nor fences are classified as text |
| CarryExtract.ExtractFiles | agents/docker-agent.py:455-499 | the loop returns the artifacts of the specification `Extracted` |
| CarryExtract.RunAppend | agents/docker-agent.py:465-490 | scanning two runs of lines is scanning the first, then the second from where it stopped |
| CarryExtract.ExtractedNames | agents/docker-agent.py:467-478 | the extracted names are exactly the non-empty names of the marker lines, in order |
| CarryExtract.ExtractedContentClean | agents/docker-agent.py:479-490 | no extracted line is a marker or a bare fence |
| CarryExtract.NestedFenceKept | agents/docker-agent.py:479-490 | inside an open fence, a tagged fence line is content, not a closing fence |
| CarryExtract.PreambleDropped | agents/docker-agent.py:489 | lines before the first marker are discarded, whatever they contain |
| CarryExtract.RoundTrip | agents/docker-agent.py:455-499 | files written as marker plus body are extracted back exactly, names and contents |
| CarryExtract.SingleFile | agents/docker-agent.py:493-497 | one marker and a body give that single file, even with an empty body |
| CarryExtract.TrailingNewlineKept | agents/docker-agent.py:460 | a reply ending in a newline gives its last file a trailing newline |
| FlushExtract.ExtractFiles | agents/infra-agent.py:342-413 | the loop returns the artifacts of the specification `Extracted`, for either agent |
| FlushExtract.ScanLine | agents/infra-agent.py:354-399 | one iteration yields the current file, content, fence flag and rendered files of one step of the line scan |
| FlushExtract.RunAppend | agents/infra-agent.py:354-399 | scanning two runs of lines is scanning the first, then the second from where it stopped |
| FlushExtract.InfraNeverEmpty | agents/infra-agent.py:409-413 | the infra agent never returns an empty list; with nothing found it returns the reply as README.md |
| FlushExtract.CodeRunNeverEmpty | agents/code-agent.py:285-291 | the code agent's run goes on with the found files, or with the whole reply as generated_code.txt |
| FlushExtract.SectionsPlain | agents/infra-agent.py:354-406 | every emitted file has a name, and no kept line is a marker or a fence |
| FlushExtract.ProseIgnored | agents/infra-agent.py:368-399 | plain lines outside a code block change nothing |
| FlushExtract.UntaggedBlockDropped | agents/infra-agent.py:379-399 | a code block with no tag and no current file produces no file |
| FlushExtract.UntaggedBlockFallback | agents/infra-agent.py:409-413 | so a reply holding only such a block is returned whole as README.md |
| FlushExtract.TaggedBlockNamed | agents/infra-agent.py:383-395 | an unnamed tagged block becomes one file named after the tag's extension |
| FlushExtract.DuplicateDefaultNames | agents/infra-agent.py:383-395 | two blocks with the same tag give two files of the same name |
| FlushExtract.InfraDefaultNames | agents/infra-agent.py:387-395 | the infra table maps bash to infra.sh and HCL to infra.tf, and unknown tags to infra.txt |
| FlushExtract.CodeDefaultNames | agents/code-agent.py:223-234 | the code table maps Rust to generated_code.rs and unlisted yaml to generated_code.txt |
| FlushExtract.UnclosedBlockKept | agents/infra-agent.py:402-406 | a block still open at the end is emitted when it kept a line |
| FlushExtract.UnclosedEmptyDropped | agents/infra-agent.py:402-406 | an open block that kept nothing is dropped at the end |
| FlushExtract.ClosedEmptyKept | agents/infra-agent.py:369-378 | a closed block is emitted even when it is empty |
| FlushExtract.EmptyReply | agents/infra-agent.py:347-406 | the empty reply yields no scanned file |
| FlushExtract.RoundTrip | agents/infra-agent.py:342-413 | files written as marker plus fenced body are extracted back exactly |
| Paths.AbsoluteKept | agents/docker-agent.py:512-513 | normalisation keeps a path absolute exactly when it was absolute |
| Paths.NormCompsKept | agents/docker-agent.py:512 | normalised components are non-empty, separator-free and never "." |
| Paths.SingleComponent | agents/docker-agent.py:512 | a single component other than "." is its own normal form |
| Paths.ParentResolved | agents/docker-agent.py:512 | `a/../b` normalises to `b` |
| Paths.LeadingParentKept | agents/docker-agent.py:512 | `../b` stays as it is |
| Paths.GuardIff | agents/docker-agent.py:512-515 | a name is skipped exactly when it is absolute or its normal form contains ".." |
| Paths.DotsInNameRejected | agents/docker-agent.py:513 | a file name containing ".." anywhere, such as "a..b.txt", is skipped |
| Paths.ParentResolvedAccepted | agents/docker-agent.py:512-518 | a name that goes up and comes back down is accepted and written at its normal form |
| Paths.EscapeRejected | agents/docker-agent.py:513-515 | a name that starts by going up is skipped |
| Paths.GuardedJoin | agents/docker-agent.py:518 | an accepted name joined to the directory lies under it |
| SaveFiles.Disk.constructor | agents/docker-agent.py:505 | a new disk holds no files and no executable marks |
| SaveFiles.Disk.Write | agents/docker-agent.py:524-525 | a write replaces the path's content and changes nothing else |
| SaveFiles.Disk.MarkExecutable | agents/infra-agent.py:443 | chmod adds the path to the executable set and changes no content |
| SaveFiles.ApplySnoc | agents/docker-agent.py:507-527 | one more write updates the disk at its path |
| SaveFiles.SaveGuardedFile | agents/docker-agent.py:508-527 | one file is written at its normal form under the directory exactly when the guard accepts it |
| SaveFiles.SaveGuarded | agents/docker-agent.py:501-530 | the returned paths and the new disk are those of the guarded writes, in order; nothing is made executable |
| SaveFiles.GuardedWritesAppend | agents/docker-agent.py:507-527 | a guarded save of two lists is the save of the first followed by the save of the second |
| SaveFiles.RefusedSkipped | agents/docker-agent.py:513-515 | a refused name is skipped and the files after it are still saved, in order |
| SaveFiles.GuardedWritesFrom | agents/docker-agent.py:512-527 | every write is an accepted file placed at its normal form |
| SaveFiles.GuardedWritesInside | agents/docker-agent.py:518 | every guarded write lands inside the output directory |
| SaveFiles.PlainWrites | agents/code-agent.py:258-274 | the unguarded save writes every file at the raw join, in order |
| SaveFiles.SaveCode | agents/code-agent.py:249-276 | the returned paths and new disk are those of the raw joins, in order |
| SaveFiles.SaveInfraFile | agents/infra-agent.py:428-446 | one file is written at the raw join and made executable when it ends in ".sh" |
| SaveFiles.SaveInfra | agents/infra-agent.py:417-448 | the same writes as the code agent, and exactly the ".sh" paths made executable |
| SaveFiles.ShellScriptsHas | agents/infra-agent.py:442-443 | every ".sh" file's path is marked executable |
| SaveFiles.ShellScriptsFrom | agents/infra-agent.py:442-443 | every path marked executable is that of a ".sh" file |
| SaveFiles.LastWriteWins | agents/infra-agent.py:438-439 | the last write to a path decides its content |
| SaveFiles.Untouched | agents/infra-agent.py:438-439 | a path no write touches keeps what it held |
| SaveFiles.DuplicateLastWins | agents/infra-agent.py:428-446 | two files of the same name: the path is listed twice and holds the second content |
| SaveFiles.AbsoluteNameEscapes | agents/code-agent.py:264 | without the guard an absolute name is written where it points |
| SaveFiles.AbsoluteNameSkipped | agents/docker-agent.py:513-515 | with the guard the same name is skipped |
| Gate.FirstMatch | agents/docker-agent.py:543-545 | the first denied pattern in list order that occurs, or none exactly when none occurs |
| Gate.SafetyIff | agents/docker-agent.py:532-557 | a command passes exactly when no denied substring occurs and its first word is allowed |
| Gate.DeniedFirst | agents/docker-agent.py:543-545 | a denied command is refused naming the first denied substring in list order |
| Gate.AllowListReason | agents/docker-agent.py:547-555 | past the denylist, a blank command is "Empty command" and another first word names the allow-list |
| Gate.SuRejected | agents/docker-agent.py:535-545 | any command containing "su", such as one naming a "consumer", is refused |
| Gate.WgetRejected | agents/docker-agent.py:535-545 | any command containing "wget" is refused |
| Gate.ConsumerExample | agents/k8s-agent.py:457-482 | `kubectl delete deployment consumer` is refused |
| Gate.DenyFreeByChars | agents/docker-agent.py:535-540 | a command without certain characters has no denied substring |
| Gate.DenyOnlyIff | agents/infra-agent.py:450-462 | the infra gate passes exactly the commands free of its denied substrings, naming one otherwise |
| Gate.DenyOnlyEmptyAccepted | agents/infra-agent.py:457-462 | with no allow-list, the empty command passes |
| Gate.InfraEmptyAccepted | agents/infra-agent.py:450-462 | the infra agent accepts the empty command |
| Gate.RefusedNotRun | agents/docker-agent.py:559-570 | a refused command never reaches the shell and fails with the gate's reason |
| Gate.ExecuteSuccess | agents/docker-agent.py:559-613 | a command succeeds exactly when the gate passes it and the shell exits with 0 |
| Gate.ExecuteInfra | agents/infra-agent.py:464-513 | the result carries the command it was given |
| Gate.InfraRefusedBeforePrompt | agents/infra-agent.py:466-475 | a refused command is refused before the prompt; neither answer nor shell matter |
| Gate.InfraCancelled | agents/infra-agent.py:477-486 | without a "y" answer the shell is not run |
| Gate.InfraSuccess | agents/infra-agent.py:464-513 | success exactly when the gate passes, the answer starts with "y" and the shell exits with 0 |
| Providers.ChooseSpec | agents/k8s-agent.py:319-347 | local mode exactly as flag or missing keys say; else the preferred provider with a truthy key, else the fallback order |
| Providers.NoProviderIff | agents/k8s-agent.py:319-347 | the agent gives up exactly when no key is truthy and local mode is off |
| Providers.EmptyKeysNoProvider | agents/k8s-agent.py:35-38 | keys set but empty turn local mode off and leave no provider |
| Providers.DslNeverDeepSeek | agents/infra_dsl.py:199-230 | the DSL never asks DeepSeek; with only a DeepSeek key it has no provider |
| Providers.DslAgrees | agents/infra_dsl.py:199-230 | where both ask a remote provider, the DSL asks the agents' choice unless that is DeepSeek |
| Providers.CodeEmptyKeyRemote | agents/code-agent.py:26 | the code agent asks OpenAI even with an empty key |
| Providers.Leading429 | agents/k8s-agent.py:154-160 | counts the leading rate-limited answers among the first three |
| Providers.Backoff | agents/k8s-agent.py:156-159 | the k-th sleep is 2 * 2^k seconds |
| Providers.RequestOpenAI | agents/k8s-agent.py:125-175 | returns the first non-429 answer's value after sleeping 2, 4, ... seconds, or the rate-limit error after three 429s |
| Providers.RetryBounds | agents/k8s-agent.py:127-160 | at most three requests; the sleeps are 2 s and then 4 s, each after a 429 |
| Providers.FirstAnswerDecides | agents/k8s-agent.py:152-172 | a first answer that is not a 429 decides at once: 200 gives its content, anything else an error string |
| InfraDsl.FirstIndex | agents/infra_dsl.py:184 | the first occurrence of a character, or none exactly when it is absent |
| InfraDsl.LastIndex | agents/infra_dsl.py:184 | the last occurrence of a character, or none exactly when it is absent |
| InfraDsl.JsonSpanExists | agents/infra_dsl.py:184-186 | a JSON span exists exactly when some '}' follows some '{' |
| InfraDsl.JsonSpanShape | agents/infra_dsl.py:184-186 | the span runs from the first '{' to a '}' after which none follows |
| InfraDsl.CleanJsonFinds | agents/infra_dsl.py:178-197 | an object between brace-free prose is returned when it parses |
| InfraDsl.CleanJsonNone | agents/infra_dsl.py:178-197 | an empty reply, or one without '{' before '}', gives none |
| InfraDsl.OllamaPromptParts | agents/infra_dsl.py:164 | the request sits between the system prompt and the fixed tail, and can be read back |
| InfraDsl.DeepSeekOnlyNothing | agents/infra_dsl.py:199-233 | with only a DeepSeek key and the local flag off, nothing is parsed |
| InfraDsl.ParseRequestFromReply | agents/infra_dsl.py:199-233 | whatever is returned is a parsing span of the chosen provider's non-empty reply |
| InfraRun.ExecutableScriptsSpec | agents/infra-agent.py:556 | the scripts are exactly the saved ".sh" paths, in order |
| InfraRun.ChooseScriptSpec | agents/infra-agent.py:562-578 | a script is chosen exactly when the answer starts with "y" and the number is in 1..n; zero and negatives are refused |
| InfraRun.ListedNumberPicks | agents/infra-agent.py:565-570 | typing the listed number, with any surrounding whitespace, picks that script |
| InfraRun.RunScriptSaved | agents/infra-agent.py:556-572 | whatever runs is a saved ".sh" path |
| Naming.SlugWordsShape | agents/docker-agent.py:664-665 | at most three non-empty words, without whitespace, upper case or removed punctuation |
| Naming.RemoveCharsFrom | agents/docker-agent.py:664 | removing characters leaves only characters of the text that are not removed |
| Naming.SlugIgnoresCase | agents/docker-agent.py:664-668 | the slug does not depend on the prompt's case |
| Naming.SlugOfPlainPrompt | agents/docker-agent.py:664-665 | a prompt of lower-case words without punctuation, separated by single spaces, gives its first three words joined by "-", then "-" and the timestamp |
| Naming.SlugPunctuationDropped | agents/docker-agent.py:664 | a removed punctuation character separates nothing: "web,app" gives the slug words of "webapp" |
| Naming.SlugSplits | agents/docker-agent.py:665 | splitting the slug at "-" gives its words back when none holds a "-" |
| Naming.FindFrom | agents/docker-agent.py:724-727 | the index of the first name at or after a position that satisfies the test |
| Naming.Find | agents/docker-agent.py:724-727 | the first satisfying name, present exactly when some name satisfies the test |
| Naming.FirstMatching | agents/ansible-agent.py:547-552 | the `for ... break` loop computes the first satisfying name |
| Docker.CandidateStripped | agents/docker-agent.py:646 | a candidate word loses only its surrounding punctuation, with what lies between kept |
| Docker.ParseRegistry | agents/docker-agent.py:615-656 | URL by precedence, credentials from the environment, tag and name from the word scan |
| Docker.ScanWords | agents/docker-agent.py:642-654 | the loop sets only the tag and the image name, to the values after the last word |
| Docker.UrlPrecedence | agents/docker-agent.py:625-635 | GitHub's registry wins over ECR and ECR over Docker Hub; the URL is unset exactly when none is mentioned |
| Docker.SecretSelectsEcr | agents/docker-agent.py:630-631 | "ecr" is a substring test: a prompt mentioning a secret selects ECR |
| Docker.NoTagLatest | agents/docker-agent.py:622-648 | without an accepted tag the tag stays "latest" |
| Docker.LastTagWins | agents/docker-agent.py:644-648 | the last accepted tag wins |
| Docker.NoNameNone | agents/docker-agent.py:650-654 | without an accepted name there is no image name |
| Docker.LastNameWins | agents/docker-agent.py:650-654 | the last accepted name wins |
| Docker.ParsedShape | agents/docker-agent.py:644-654 | the tag is never empty and a name never holds "/" or ":" |
| Docker.Dockerfile | agents/docker-agent.py:723-731 | the first name lowering to "dockerfile", present exactly when one exists |
| Docker.ComposeFile | agents/docker-agent.py:740-744 | the first compose file name, present exactly when one exists |
| Docker.LedBy | agents/docker-agent.py:547-555 | a command led by a word other than docker or docker-compose is refused |
| Docker.EcrLoginRefused | agents/docker-agent.py:792-802 | the ECR login, led by "aws", is refused whatever the region and account |
| Docker.RegistryLoginRefused | agents/docker-agent.py:830-836 | the registry login, led by "echo", is refused whatever the credentials |
| Docker.BuildGate | agents/docker-agent.py:760-761 | the build command passes exactly when none of its parts brings in a denied substring |
| Docker.SuImageNotBuilt | agents/docker-agent.py:760-761 | an image whose name holds "su", such as "consumer-api", is never built |
| Kubernetes.HelmIff | agents/k8s-agent.py:595-598 | Helm is used exactly when some name contains "Chart.yaml" or "values.yaml" |
| Kubernetes.LowercaseChartNotHelm | agents/k8s-agent.py:597 | the test is case-sensitive: "chart.yaml" alone is applied with kubectl |
| Kubernetes.CollectYaml | agents/k8s-agent.py:655-658 | the loop returns the specification list of joined YAML paths |
| Kubernetes.YamlPathsAppend | agents/k8s-agent.py:655-658 | the list for two runs of names is the concatenation |
| Kubernetes.YamlPathsFrom | agents/k8s-agent.py:655-658 | every applied path is a YAML name joined to the directory |
| Kubernetes.YamlPathsHas | agents/k8s-agent.py:655-658 | every YAML name's path is applied |
| Kubernetes.ChartName | agents/k8s-agent.py:611 | same length; each '_' becomes '-' and letters are lowered |
| Kubernetes.HelmVersionAllowed | agents/k8s-agent.py:606 | `helm version` passes the kubernetes gate |
| Ansible.ChoosePlaybook | agents/ansible-agent.py:547-563 | the first main-looking YAML name, else the first YAML name, none exactly when there is no YAML name |
| Ansible.ChooseInventory | agents/ansible-agent.py:574-578 | the first name mentioning "inventory" or "hosts" |
| Ansible.PlaybookCommandGate | agents/ansible-agent.py:580-586 | the built command is refused only for a denied substring in its paths |
| Ansible.TaskDirWithSu | agents/ansible-agent.py:519-523 | a task directory holding "su", as the slug of "ensure ...", makes every playbook refused |
| Ansible.Field1After | agents/ansible-agent.py:603 | after `key=` the count's text runs to the next '=' |
| Ansible.KeysDisjoint | agents/ansible-agent.py:601-607 | each token sets at most one count |
| Ansible.ParseRecap | agents/ansible-agent.py:598-607 | the loop returns the specification `Recap`; none stands for the `ValueError` |
| Ansible.ScanLine | agents/ansible-agent.py:600-607 | the inner loop returns the token scan of one line |
| Ansible.ScanTokensMeaning | agents/ansible-agent.py:601-607 | the scan raises exactly when a keyed token is malformed, else each count is its last token's value |
| Ansible.ScanTokensAppend | agents/ansible-agent.py:601-607 | scanning two runs of tokens is scanning the first, then the second |
| Ansible.TokensNone | agents/ansible-agent.py:601-607 | once a count fails to parse, later tokens change nothing: the error ends the scan |
| Ansible.LinesNone | agents/ansible-agent.py:598-607 | once a count fails to parse, later lines change nothing |
| Ansible.ScanLinesTokens | agents/ansible-agent.py:598-600 | scanning the lines is scanning the tokens of the lines containing "ok=" |
| Ansible.RecapMeaning | agents/ansible-agent.py:594-607 | the recap raises exactly on a malformed keyed token and otherwise holds each key's last value, 0 by default |
| Ansible.Run | agents/ansible-agent.py:547-615 | no playbook or no "yes"/"y" sends no command; else the built command runs and a success has its recap scanned |
| Terraform.InitAllowed | agents/terraform-agent.py:539 | `terraform init` passes the gate |
| Terraform.PlanAllowed | agents/terraform-agent.py:550 | `terraform plan` passes the gate |
| Terraform.ApplyAllowed | agents/terraform-agent.py:566 | `terraform apply -auto-approve` passes the gate |
| Terraform.LedByTerraform | agents/terraform-agent.py:421-446 | a deny-free command led by the word "terraform" passes the terraform gate |
| Terraform.StepSucceeds | agents/terraform-agent.py:539-571 | each step succeeds exactly when the shell exits with 0 |
| Terraform.RunStep | agents/terraform-agent.py:539-571 | a step's result is the shell's success |
| Terraform.Run | agents/terraform-agent.py:539-584 | init, plan and apply run in order, each only after the previous succeeded; apply only after "yes"/"y"; "applied" is the answer |
| Doc.SplitCount | agents/doc-agent.py:406 | a split has one piece more than the text has separators |
| Doc.JoinAt | agents/doc-agent.py:301 | a join splits at any inner position into the joins before and after |
| Doc.FirstLinesSpec | agents/doc-agent.py:300 | the first n lines joined back are a prefix, all of the text below n newlines, and split back to the same lines |
| Doc.ReadProjectFiles | agents/doc-agent.py:137-152 | the loop returns the specification `Selected` |
| Doc.SelectedSpec | agents/doc-agent.py:137-152 | exactly the found files outside the excluded names and under 100 KiB are read, in order |
| Doc.DotGithubSkipped | agents/doc-agent.py:142 | the substring test skips everything under ".github" as ".git" |
| Doc.SizeBoundSkipped | agents/doc-agent.py:147 | a file of exactly 100 KiB is skipped |
| Doc.BuildContext | agents/doc-agent.py:296-301 | the loop returns the specification `Context` |
| Doc.ExcerptSpec | agents/doc-agent.py:300-301 | the excerpt is a prefix of the file, all of it below 100 newlines, and its first 100 lines at most |
| Doc.BlocksAppend | agents/doc-agent.py:298-301 | the blocks of two file lists are concatenated |
| Doc.ContextSpec | agents/doc-agent.py:296-301 | every file read has its block in the context, in order |
| Doc.PreviewSpec | agents/doc-agent.py:406-410 | the truncation notice appears exactly at 20 newlines or more; the preview begins the text |
| Doc.ContentPreview | agents/doc-agent.py:440 | at most 503 characters: the text itself up to 500, else its first 500 and "..." |
| Doc.ContentPreviewPrefix | agents/doc-agent.py:440 | the returned preview keeps every character among the first 500 |
| Doc.DocFilename | agents/doc-agent.py:355-362 | the saved name always ends with ".md" |
| Doc.DocFilenameSpec | agents/doc-agent.py:355-362 | a given name is kept as a prefix and gains ".md" exactly when missing; no name gives the default |
| Doc.DocFilenameIdempotent | agents/doc-agent.py:360-362 | saving under a name already produced changes nothing |
| Doc.KeptWordsSpec | agents/doc-agent.py:430 | the kept words are exactly the lowered alphanumeric words, in order |
| Doc.PromptPartSpec | agents/doc-agent.py:429-431 | the prompt part splits at '_' back into at most three kept words |
| Doc.NonInteractiveNameKept | agents/doc-agent.py:429-431 | `save_documentation` keeps the non-interactive name as it is |

## Left out

- Network I/O is not modelled. HTTP requests to OpenAI, Claude, DeepSeek and Ollama appear only as their answers, one per attempt.
- Subprocesses are not modelled. The shell's outcome is an input.
- Prompts (`input()`) are inputs too.
- Logging and printing are not modelled.
- `os.makedirs`, `shutil.copy2` and `glob.glob` are not modelled.
- The file system is a map from path text to content. Two different texts naming the same file are different keys, and directories are not represented.
- SaveFiles.SaveCode, SaveFiles.SaveInfra: the `base_dir=None` default is not modelled. When the directory is empty or missing, the source writes under a timestamped `generated_<ts>` or `infra_<ts>` directory inside the output directory (agents/code-agent.py:249-254, agents/infra-agent.py:417-422); the model joins the names to the directory as given, "" included. Every caller passes a non-empty directory: the output directory, a typed one, or a timestamped one (agents/code-agent.py:303-328, agents/infra-agent.py:544-549). As in the guarded save, a write that fails in the source (the name "." opened for writing, agents/code-agent.py:270, agents/infra-agent.py:438) raises and ends the batch, while the model records it and goes on.
- SaveFiles.SaveGuarded: a write that fails in the source raises and ends the whole batch; here every write succeeds. For instance the guard accepts the name ".", and `open(os.path.join(base_dir, "."), "w")` raises `IsADirectoryError` (agents/docker-agent.py:524), while the model records a write to that path and goes on with the next file.
- The OpenAI retry loop is modelled once, from the kubernetes agent (agents/k8s-agent.py:125-175). The docker, ansible, terraform and infra agents carry the same three-attempt loop on a 429 answer, and the code and documentation agents carry it with different log messages (agents/code-agent.py:54-140, agents/doc-agent.py:67-118).
- The retry loops of the Claude and DeepSeek providers are not modelled. They are copies of the OpenAI loop that differ only in their messages.
- The kubernetes agent's `get_current_k8s_context` (agents/k8s-agent.py:361-378) runs `kubectl config current-context` through `subprocess.run` without the safety gate. It only feeds the prompt and is not modelled, so the gate lemmas cover only the commands built in `run`.
- The model requests of every provider are not modelled: their headers, JSON bodies and system prompts.
- JSON parsing is a predicate passed as a parameter. The `parsed_json` value itself is not modelled; the span that parsed is returned instead.
- Text: Python's Unicode whitespace, `lower` and `isalnum` are approximated on ASCII, with the ASCII separators \x1c-\x1f counted as whitespace.
- Text.ParseInt: does not accept the underscores between digits, the surrounding whitespace or the non-ASCII digits that `int()` accepts. Callers strip first, as `ChooseScript` does.
- Paths: `os.path.normpath` and `os.path.join` are stated for POSIX separators only.
- Doc.ReadProjectFiles: the glob results are an input list of found files. Glob's handling of hidden files and the dictionary's merging of a path found twice are not modelled, and neither are read errors.
- The docker agent's `detect_app_info` and its discovery of the context path are not modelled, nor are the tag and push commands after login. No login can pass the gate, as `EcrLoginRefused` and `RegistryLoginRefused` show.
- The kubernetes agent's `kubectl apply` loop over the YAML list, the namespace prompt and the Helm install commands are not modelled. The loop that collects the list is modelled.
- The documentation agent's interactive/non-interactive switch on `EOFError` is not modelled. Its pieces are: the preview, the file name in each mode and the returned preview.
- The last file of a reply that ends in a newline keeps a trailing "\n": for `"## file: a.txt\nhello\n## file: b.txt\nworld\n"`, b.txt holds "world\n", because `split("\n")` keeps the empty piece after the final newline (`CarryExtract.TrailingNewlineKept`).
- memory/ and evolver/ are not part of this model.
