# AtlasAI agent core, modelled in Dafny

AtlasAI is a coding-assistant backend. A pipeline of agents asks a language model for
text and turns the replies into a software project. The planner writes a plan; the
system designer lists the project's files in `systemdesign/systemdesign.txt`; the coder,
the patcher and the feature agent write "File: `name`:" code blocks; the incremental
developer asks for git-style diffs file by file; the reviewer flags files that need a
patch ("LBTM"); and the runner executes shell commands and repairs failing ones with the
model's help. Each agent pushes agent-state snapshots onto a per-project stack and
broadcasts them to the web UI, whose editor keeps a map from file path to editor model.

This project models that core and proves properties of it:

- **Agent-state store** (`state.dfy`, `snapshot.dfy`, `socket.dfy`). The store is a
  class whose per-project snapshot stacks are a map. Every write is proved to push onto
  or edit only the top of one stack, and each write is followed by the broadcast the
  source sends.
- **Command runner** (`runner_model.dfy`, `runner.dfy`, `runner_facts.dfy`,
  `processes.dfy`, `utils.dfy`).
  - The runner is a class over the store, the process registry, the model's replies and
    the process outcomes. Each method is proved equal to a functional specification.
  - The lemmas cover the rest: the success flag, the shared `retries` counter of the
    repair loop, the order in which commands run, a world that only grows, and the bound
    of five attempts.
- **Reply parsers and validators** of every agent:
  - `fences.dfy`, `formatter.dfy`, `svgmaker.dfy`, `chemistry.dfy`, `drawuml.dfy`,
    `iaedit.dfy`, `researcher.dfy`;
  - `fileblocks.dfy`, `codewriting.dfy`, `planner.dfy`, `sysdesign.dfy`, `incdev.dfy`,
    `reviewer.dfy`.

  Each line loop is a method proved equal to a reference function. The lemmas give
  round trips, such as laid-out replies parsing back to their parts, and state what is
  accepted and what is refused.
- **Helpers**: path shortening, the design-file reader, order-keeping de-duplication
  (`lists.dfy`), the project-code reader (`readcode.dfy`) and the feature agent's web
  search (`search.dfy`).
- **Editor panel** (`monaco.dfy`):
  - its language map;
  - the rename, delete and create edits of the `models` map;
  - the folder tree that `populateSidebar` builds.

## Model conventions

- **Strings** are Python `str` values (`text.dfy`), with CPython's white-space set for
  `strip`. `json.loads` is a decoder passed in as a partial function (`json.dfy`).
- **Model replies** are a finite list. Each reply is either a text or an exception.
  - An agent that asks again without bound, through `while not valid: return self.execute(...)`, ends in one of three ways: with an accepted value, with an exception, or "stalled" once the list is used up.
  - "Stalled" stands for the source's unbounded retrying (`Oracles.Retry`).
- **Process starts** are a finite list of outcomes: a started process's output chunks and exit status, or the exception raised while starting it.
- **File contents and existence tests** are parameters, as are `os.path.normpath`, the web search and the page summariser.

A started process is never reported as failed: line 139 of `src/agents/runner/runner.py`
queues `False` with the output whatever the exit status, so a command that exits with
status 1 is neither repaired nor rerun. Only a start that raises (lines 140-141) counts
as a failure; `RunnerFacts.ExecuteSpawned` proves this. An agent's retries on a reply
that does not validate have no bound (lines 172-177 of `src/agents/patcher/patcher.py`,
for one); the finite reply list stands for them.

## Model

| member | source | states |
|---|---|---|
| Text.Strip | src/agents/planner/planner.py:60 | `str.strip()` never lengthens and leaves no white space at either end |
| Text.StripStrip | src/agents/reviewer/codereviewfile.py:87-93 | stripping twice is stripping once |
| Text.Split | src/agents/planner/planner.py:59 | `str.split(sep)` always gives at least one piece |
| Text.Find | src/agents/formatter/formatter.py:25-26 | `find` gives the first occurrence, or -1 when there is none |
| Text.RFind | src/agents/formatter/formatter.py:27 | `rfind` gives the last occurrence, or -1 when there is none |
| Text.Lower | src/agents/incdev/incdev.py:203 | `lower()` changes each character on its own and keeps the length |
| Text.SplitLines | src/agents/reviewer/codereviewfile.py:109 | no line of `splitlines()` holds a line break |
| Text.SplitLinesJoin | src/agents/reviewer/codereviewfile.py:109 | text whose only line boundaries are "\n", not ending with one, is its `splitlines()` joined again by "\n" |
| Text.JoinSplitLines | src/agents/reviewer/codereviewfile.py:109 | boundary-free lines, the last non-empty, joined by "\n" split back into the same lines |
| Text.ParseIntDecimal | src/experts/chemistry/chemistry.py:125 | `int` of a number written in decimal gives the number back |
| Oracles.Retry | src/agents/formatter/formatter.py:37-44 | the `while not valid: return self.execute(...)` retry ends with an accepted value, an exception, or stalls with every reply consumed; an accepted value is one `accept` returns for some reply |
| Oracles.RetryStalled | src/agents/svgmaker/svgmaker.py:31-41 | the retry stalls only after every reply was answered and refused |
| Oracles.RetryDecided | src/agents/hyperparametre/hyperparametre.py:27-37 | otherwise it ends at the first reply that raises or is accepted; all replies before it were refused and exactly the replies after it are left |
| Formatter.Validate | src/agents/formatter/formatter.py:17-35 | a reply with no "```" comes back stripped |
| Formatter.ValidateFenced | src/agents/formatter/formatter.py:22-29 | a fenced block with no backtick around it comes back as its stripped inner text |
| Formatter.ValidateSingleFence | src/agents/formatter/formatter.py:25-27 | with a single "```", `rfind` gives -1 and the slice drops the last character of what follows the fence |
| Formatter.Accept | src/agents/formatter/formatter.py:40-41 | a reply is kept only when its validated text is non-empty |
| Formatter.Execute | src/agents/formatter/formatter.py:37-44 | a successful run returns the non-empty validation of some reply |
| SvgMaker.ValidateFenced | src/agents/svgmaker/svgmaker.py:19-29 | a "```" block comes back as its stripped inner text |
| SvgMaker.ValidateJsonFenced | src/agents/svgmaker/svgmaker.py:22-25 | a block opened by "```json" also comes back as its stripped inner text |
| SvgMaker.ValidateUnfenced | src/agents/hyperparametre/hyperparametre.py:19-25 | text not fenced at both ends is returned stripped and otherwise unchanged |
| SvgMaker.Accept | src/agents/svgmaker/svgmaker.py:35-37 | a reply is kept only when its validated text is non-empty |
| SvgMaker.Execute | src/agents/svgmaker/svgmaker.py:31-41 | a successful run returns the non-empty validation of some reply (the hyperparametre agent's `execute` is the same loop) |
| Chemistry.ValidateQuoted | src/experts/chemistry/chemistry.py:22-30 | a block between "'''" quotes comes back as its stripped inner text |
| Chemistry.ValidateKeepsBackticks | src/experts/chemistry/chemistry.py:23-26 | a "```json" block keeps its fences: only the opening is rewritten to "```" |
| Chemistry.Accept | src/experts/chemistry/chemistry.py:150-152 | a reply is kept only when its validated text is non-empty |
| Chemistry.Execute | src/experts/chemistry/chemistry.py:146-161 | a successful run returns the non-empty validation of some reply |
| Chemistry.Step | src/experts/chemistry/chemistry.py:110-139 | one loop iteration keeps the current step a key of the plan |
| Chemistry.PlanStep | src/experts/chemistry/chemistry.py:122-137 | the plan-section branch keeps the current step a key of the plan |
| Chemistry.ParseFrom | src/experts/chemistry/chemistry.py:109-139 | the loop over the lines keeps the current step a key of the plan |
| Chemistry.ParseResponse | src/experts/chemistry/chemistry.py:97-144 | the loop computes the section parse: the string values are stripped at the end and the plan is not |
| Chemistry.ParseLine | src/experts/chemistry/chemistry.py:110-139 | one loop iteration updates the parse exactly as one step of the reference parse |
| Chemistry.ParsePlanLine | src/experts/chemistry/chemistry.py:123-137 | the plan-section branch updates the plan, the SMILES list and the current step as one step of the reference parse |
| Chemistry.SmilesOnlyGrow | src/experts/chemistry/chemistry.py:128-131 | the SMILES annotations only grow: earlier entries are never changed |
| Chemistry.StepKeys | src/experts/chemistry/chemistry.py:110-139 | one iteration adds to the plan only the number of a "- Step N" line |
| Chemistry.PlanStepKeys | src/experts/chemistry/chemistry.py:123-137 | the plan branch adds only the number of the step line it reads |
| Chemistry.StepLineStores | src/experts/chemistry/chemistry.py:123-133 | in the plan section a "- Step N: text" line makes N the current step and stores under N the text after its first ':', stripped |
| Chemistry.PlanKeysFromSteps | src/experts/chemistry/chemistry.py:122-137 | every step number in the parsed plan comes from some "- Step N" line |
| Chemistry.NoStepIgnoresLines | src/experts/chemistry/chemistry.py:136-137 | with no current step, plain plan lines change nothing |
| Chemistry.MalformedStepClears | src/experts/chemistry/chemistry.py:133-135 | a step line whose number does not parse only clears the current step |
| Chemistry.LabelHasNoUnderscore | src/experts/chemistry/chemistry.py:57 | a property label holds no underscore |
| Chemistry.PrintMoleculeProperties | src/experts/chemistry/chemistry.py:53-60 | the loop builds the labelled dictionary, each assignment overwriting earlier ones |
| Chemistry.LabelledKeys | src/experts/chemistry/chemistry.py:55-58 | the keys are exactly the labels of the properties |
| Chemistry.LabelledValue | src/experts/chemistry/chemistry.py:56-57 | a label holds the value of the last property carrying it |
| DrawUml.Validate | src/agents/drawuml/drawuml.py:28-36 | a reply is accepted exactly when, stripped, it starts and ends with "~~~"; the accepted value is a non-empty list of lines |
| DrawUml.ValidateFenced | src/agents/drawuml/drawuml.py:29-36 | a "~~~" block is accepted, and its lines joined by newlines give the stripped inner text |
| DrawUml.Written | src/agents/drawuml/drawuml.py:55-66 | one reply writes at most one ".puml" file |
| DrawUml.Draw | src/agents/drawuml/drawuml.py:51-66 | the loop writes, type by type, what the reference loop writes, and stops where a request raises |
| DrawUml.Execute | src/agents/drawuml/drawuml.py:43-85 | the nine diagram types are asked for in their fixed order |
| DrawUml.DrawFromAnswered | src/agents/drawuml/drawuml.py:51-66 | when every request is answered, the files written are those of the accepted replies, in diagram-type order |
| DrawUml.WrittenFenced | src/agents/drawuml/drawuml.py:61-66 | a fenced reply writes "{type}.puml" holding its stripped inner text |
| DrawUml.DrawFromRaised | src/agents/drawuml/drawuml.py:53 | a request that raises stops the loop, keeping the files written before it |
| DrawUml.DrawFenced | src/agents/drawuml/drawuml.py:51-66 | with every reply fenced, one file per diagram type is written, in order, each holding its stripped inner text |
| IaEdit.Validate | src/agents/iaedit/iaedit.py:39-49 | a reply is refused exactly when, after rewriting "```json" and "```python", it holds no "```" |
| IaEdit.ValidateNoBacktick | src/agents/iaedit/iaedit.py:42-43 | a reply without any backtick is refused |
| IaEdit.ValidateFenced | src/agents/iaedit/iaedit.py:44-47 | a plain "```" block comes back with backticks stripped from its ends |
| IaEdit.ValidatePythonFenced | src/agents/iaedit/iaedit.py:41-47 | a "```python" block comes back the same way |
| IaEdit.ValidateOfFenced | src/agents/iaedit/iaedit.py:44-47 | any reply that normalises to one "```" block gives its inner text, backticks stripped |
| IaEdit.NormalisedPython | src/agents/iaedit/iaedit.py:40-41 | the "```python" opening is rewritten to "```" |
| IaEdit.ValidateSingleFence | src/agents/iaedit/iaedit.py:45 | with a single "```", `rfind` gives -1 and the last character is lost |
| IaEdit.ValidateSuggestions | src/agents/iaedit/iaedit.py:51-83 | suggestions are returned exactly when the reply is non-empty and its fenced part decodes to a list of objects with a "text" key |
| IaEdit.AcceptCode | src/agents/iaedit/iaedit.py:87-89 | code is kept only when validation gives non-empty text |
| IaEdit.RectifyCode | src/agents/iaedit/iaedit.py:84-93 | a successful run returns the non-empty validation of some reply (`execute`, lines 113-123, is the same loop) |
| IaEdit.Autocompletion | src/agents/iaedit/iaedit.py:95-111 | a successful run returns a non-empty list of suggestions, each an object with a "text" key |
| Researcher.Truncate | src/agents/researcher/researcher.py:19-23 | a "queries" value of length above three is cut to its first three when it is a list or a string; a dict that long raises; the result's length is the smaller of its length and three |
| Researcher.Validate | src/agents/researcher/researcher.py:18-25 | an answer passes exactly when it is an object with a "queries" key that truncates; only "queries" changes, and it has at most three items |
| Researcher.ValidateIdempotent | src/agents/researcher/researcher.py:18-25 | validating twice is validating once |
| Researcher.Execute | src/agents/researcher/researcher.py:27-54 | a successful run returns the validation of some parsed reply, an object holding "queries" |
| Researcher.KeywordsLower | src/agents/researcher/researcher.py:30-32 | up to case, the prompt's keywords are the keywords themselves in order, separated by ", " |
| Researcher.LowerCapitalize | src/agents/researcher/researcher.py:31 | capitalising changes only the case of letters |
| Utils.TerminateProcess | src/utils.py:7-23 | exactly one "kill_process_response" is emitted: success for a registered pid whose signal succeeds, the signal's error otherwise, "not found" for an unknown pid; the table is unchanged |
| Utils.ShortenPath | src/utils.py:25-40 | the loop computes the shortened path |
| Utils.ShortenedParts | src/utils.py:35-40 | the parts of the shortened path are the distinct parts of the input, in first-occurrence order |
| Utils.ShortenedIdempotent | src/utils.py:25-40 | shortening twice is shortening once |
| Utils.ShortenedNoLonger | src/utils.py:25-40 | shortening never lengthens a path |
| Utils.CleanFromClean | src/utils.py:55-60 | the read loop only appends, and each line it appends is non-blank and stripped |
| Utils.CleanFromAppend | src/utils.py:55-60 | lines read in two parts are cleaned part by part, so file order is kept |
| Utils.CleanFromKeepsClean | src/utils.py:57-60 | lines already clean are all kept as they are |
| Utils.CleanLinesIdempotent | src/utils.py:55-60 | cleaning twice is cleaning once |
| Utils.ReadSysdesign | src/utils.py:43-67 | a missing file gives no names; otherwise the non-blank lines, stripped, in file order |
| Lists.DedupIsFirstOccurrences | src/agents/incdev/incdev.py:169 | `list(dict.fromkeys(xs))` and the append-if-absent loop agree with the reading "keep an item exactly when it did not occur before" |
| Lists.DedupFacts | src/agents/sysdesign/sysdesigner.py:105 | the de-duplicated list has no repeats, exactly the input's items, and is no longer than the input |
| Lists.DedupIdempotent | src/agents/incdev/incdev.py:251 | a list without repeats is unchanged, so de-duplication is idempotent |
| Paths.Suffix | src/agents/reviewer/codereviewfile.py:183 | `Path(name).suffix` is empty or starts with '.' |
| Paths.SuffixOf | src/agents/incdev/incdev.py:203 | the suffix of "stem.ext" is ".ext" |
| Paths.DotFirst | src/agents/incdev/incdev.py:227 | a name whose only dot is its first character, such as ".env", has no suffix |
| Json.HasKey | src/agents/runner/runner.py:78 | `key in value` tests keys on objects, items on lists, substrings on strings, and raises on null, booleans and numbers |
| Snapshots.NewState | src/state.py:25-45 | a fresh snapshot: every field null except completed = false, active = true, token usage 0 and the time stamp |
| Search.SearchQueries | src/agents/feature/feature.py:224-277 | the loop computes the reference search over the queries in order |
| Search.SearchedResults | src/agents/feature/feature.py:239-274 | the results hold exactly the normalised queries with a link; each holds its summary once per occurrence of the query, concatenated |
| Search.SearchedMessages | src/agents/feature/feature.py:255-260 | one message per link found, numbered from 1 in order |
| Search.SameQuery | src/agents/feature/feature.py:240 | a query typed with white space around it is the same query |
| RunnerModel.TerminalState | src/agents/runner/runner.py:217-226 | the snapshot is a fresh one with only the monologue and a "Terminal" session holding the command and output changed |
| RunnerModel.UpdateState | src/agents/runner/runner.py:217-227 | pushing a snapshot keeps every project's stack well formed and leaves the replies, processes and command log alone |
| RunnerModel.ValidateCommands | src/agents/runner/runner.py:56-73 | a reply that does not decode, or an object without "commands", gives no commands; an object whose "commands" is a list of strings gives exactly those strings, in order (none for an empty list); a decoded value that is not an object is refused; a non-empty command list comes only from an object holding "commands" |
| RunnerModel.ValidateRerunner | src/agents/runner/runner.py:75-80 | a decision is returned exactly when the reply decodes to an object holding both "action" and "response", and its fields are that decoded object; a reply that does not decode gives none |
| RunnerModel.ReadOutput | src/agents/runner/runner.py:105-125 | the reader loop only pushes snapshots and broadcasts; replies, processes and the command log are unchanged |
| RunnerModel.ExecuteSubprocess | src/agents/runner/runner.py:81-151 | running a command never raises to its caller, does not consult the model, and stalls only when no process outcome is left |
| RunnerModel.Patch | src/agents/runner/runner.py:243-246 | the patcher call is the patcher agent's run (`CodeWriting.Outcome` as Patcher): the same status, leftover replies, snapshots pushed and broadcasts; the process registry, the process outcomes and the shell log are unchanged |
| RunnerModel.HandleRerun | src/agents/runner/runner.py:229-249 | a decision consumes at least one reply |
| RunnerModel.Rerun | src/agents/runner/runner.py:261-272 | one repair turn consumes at least one reply when it completes |
| RunnerModel.Repair | src/agents/runner/runner.py:260-273 | the repair loop keeps the stacks well formed and never adds replies |
| RunnerModel.RunFrom | src/agents/runner/runner.py:254-278 | the command loop keeps the stacks well formed and never adds replies |
| RunnerModel.RunCode | src/agents/runner/runner.py:251-278 | `run_code` keeps every project's stack well formed |
| RunnerModel.Attempt | src/agents/runner/runner.py:284-299 | an attempt swallows every exception, and a completed one consumes a reply |
| RunnerModel.ExecuteFrom | src/agents/runner/runner.py:283-300 | the attempt loop keeps every project's stack well formed |
| RunnerModel.Execute | src/agents/runner/runner.py:280-306 | `execute` keeps every project's stack well formed |
| Runner.Runner.constructor | src/agents/runner/runner.py:37-43 | the runner starts on the given stores with no command run |
| Runner.Runner.UpdateState | src/agents/runner/runner.py:217-227 | the stores change exactly as `RunnerModel.UpdateState` says |
| Runner.Runner.ExecuteSubprocess | src/agents/runner/runner.py:81-151 | the reader loop, the registration and removal of the pid and their broadcasts change the stores exactly as `RunnerModel.ExecuteSubprocess` says |
| Runner.Runner.HandleRerun | src/agents/runner/runner.py:229-249 | the stores and the result are those of `RunnerModel.HandleRerun` |
| Runner.Runner.Rerun | src/agents/runner/runner.py:261-272 | one turn of the repair loop, as `RunnerModel.Rerun` |
| Runner.Runner.RunCode | src/agents/runner/runner.py:251-278 | the command loop, as `RunnerModel.RunCode` |
| Runner.Runner.RepairCommand | src/agents/runner/runner.py:260-273 | the `while command_failed and retries < 2` loop, as `RunnerModel.Repair` |
| Runner.Runner.Attempt | src/agents/runner/runner.py:284-299 | one attempt, as `RunnerModel.Attempt` |
| Runner.Runner.Execute | src/agents/runner/runner.py:280-306 | the five-attempt loop, as `RunnerModel.Execute` |
| RunnerFacts.RunningStates | src/agents/runner/runner.py:116-123 | the reader pushes at most one snapshot per chunk |
| RunnerFacts.ReadOutputPushes | src/agents/runner/runner.py:105-125 | the reader pushes its snapshots in order, broadcasting the stack after each, and returns the output up to the first empty chunk |
| RunnerFacts.ReadOutputStops | src/agents/runner/runner.py:118-120 | at the end of the output the reader pushes nothing |
| RunnerFacts.RunningStatesShowOutput | src/agents/runner/runner.py:121-123 | each pushed snapshot shows the command and everything read up to it |
| RunnerFacts.ExecuteSpawned | src/agents/runner/runner.py:93-139 | a started process is reported as not failed whatever its exit status; its output is all it printed; its pid is registered, announced, then removed and announced |
| RunnerFacts.ExecuteSpawnFailed | src/agents/runner/runner.py:140-141 | a start that raises is reported as failed with the exception text, and nothing is registered |
| RunnerFacts.RepairOutcome | src/agents/runner/runner.py:260-272 | the repair loop leaves `retries` at most 2 when it starts there; once entered it clears `success` and consumes a reply; not entered, it changes nothing |
| RunnerFacts.RunOutcome | src/agents/runner/runner.py:251-278 | `run_code` succeeds exactly when no repair turn was taken (it consumed no reply); one failure makes it false even when a rerun succeeds |
| RunnerFacts.RunAllStarted | src/agents/runner/runner.py:254-276 | with every process starting, each command runs once, in order, no reply is consumed and the result is the starting flag |
| RunnerFacts.RunFromClean | src/agents/runner/runner.py:275-276 | a command that does not fail goes straight on to the next |
| RunnerFacts.RunRunsAll | src/agents/runner/runner.py:254-276 | a completed `run_code` runs every command of its list, in order, with the reruns in between |
| RunnerFacts.UpdateStateGrows | src/agents/runner/runner.py:217-227 | `update_state` only adds to the stacks and the broadcasts |
| RunnerFacts.ExecGrows | src/agents/runner/runner.py:81-151 | running a command only adds to the logs, consumes one process outcome and logs the command |
| RunnerFacts.PatchGrows | src/agents/runner/runner.py:243-246 | the patcher call only adds to the stacks and broadcasts and consumes replies |
| RunnerFacts.HandleRerunGrows | src/agents/runner/runner.py:229-249 | `handle_rerun` never undoes a snapshot, a broadcast or a logged command |
| RunnerFacts.CommandDecisionReruns | src/agents/runner/runner.py:237-242 | on a "command" decision, `handle_rerun` uses one reply and returns the command the decision names with its explanation; a missing or non-string "command" raises |
| RunnerFacts.PatchRerunsFirst | src/agents/runner/runner.py:243-249 | on a "patch" decision, `handle_rerun` returns the first command of the list (not the failed one) with the model's explanation, exactly when the patcher produced files |
| RunnerFacts.RerunGrows | src/agents/runner/runner.py:261-272 | one repair turn never undoes anything |
| RunnerFacts.RepairGrows | src/agents/runner/runner.py:260-273 | the repair loop never undoes anything |
| RunnerFacts.RunFromGrows | src/agents/runner/runner.py:254-278 | `run_code` never undoes anything |
| RunnerFacts.AttemptGrows | src/agents/runner/runner.py:284-299 | an attempt never undoes anything |
| RunnerFacts.ExecuteGrows | src/agents/runner/runner.py:280-306 | `execute` never undoes anything |
| RunnerFacts.ExecuteGivesUp | src/agents/runner/runner.py:283-304 | when every remaining attempt gets a useless reply, `execute` returns `None` after exactly those attempts and runs nothing |
| RunnerFacts.ExecuteUseless | src/agents/runner/runner.py:286-299 | a useless reply ends its attempt at once and the next attempt follows |
| RunnerFacts.AttemptFound | src/agents/runner/runner.py:287-294 | a successful attempt returns a non-empty list whose commands were all run, in order |
| RunnerFacts.ExecuteFound | src/agents/runner/runner.py:280-306 | the commands `execute` returns are non-empty and were all run, in order, during the call |
| AgentStateStore.Pushed | src/state.py:55-67 | the snapshot goes on top; earlier elements are kept and the length grows by one; an unknown project gets `[state]`; every other project is untouched |
| AgentStateStore.Replaced | src/state.py:78-90 | only the top changes and the length is kept; an unknown project gets `[state]`; every other project is untouched |
| AgentStateStore.SetActive | src/state.py:103-117 | only the top's `agent_is_active` changes; an unknown project gets one default snapshot carrying the flag |
| AgentStateStore.SetCompleted | src/state.py:126-141 | on an existing stack only the top's `completed` flag and monologue (the completion message) change; on the create path the monologue stays null |
| AgentStateStore.AddTokens | src/state.py:150-163 | only the top's token count changes, by `n`; an unknown project starts at `n` |
| AgentStateStore.LatestOf | src/state.py:93-101 | nothing for an empty name or an unknown project, otherwise the top |
| AgentStateStore.ActiveOf | src/state.py:119-124 | nothing for an unknown project (no empty-name test), otherwise the top's flag |
| AgentStateStore.CompletedOf | src/state.py:143-148 | nothing for an unknown project, otherwise the top's flag |
| AgentStateStore.TokensOf | src/state.py:165-170 | 0 for an unknown project, otherwise the top's count |
| AgentStateStore.PushedAll | src/state.py:55-67 | pushing a run of snapshots keeps every stack non-empty |
| AgentStateStore.PushedAllAppends | src/state.py:55-67 | pushing a run appends exactly that run to the project's stack and leaves other projects alone |
| AgentStateStore.PushEventsShape | src/state.py:69 | one "agent-state" broadcast per push, each carrying the stack right after it |
| AgentStateStore.PushedAllTop | src/state.py:55-67 | after a non-empty run the top is the last snapshot pushed |
| AgentStateStore.TokensAdd | src/state.py:150-170 | `get_latest_token_usage` grows by exactly `n` on each `update_token_usage(n)`, known project or not |
| AgentStateStore.TokensAccumulate | src/state.py:150-170 | after a series of updates the reported usage is the sum of the amounts |
| AgentStateStore.AgentState.constructor | src/state.py:19-23 | the store starts with no project |
| AgentStateStore.AgentState.DeleteState | src/state.py:47-53 | the project's row is dropped; an unknown project changes nothing; nothing is broadcast |
| AgentStateStore.AgentState.AddToCurrentState | src/state.py:55-69 | the stacks become `Pushed(...)` and the new stack is broadcast once |
| AgentStateStore.AgentState.GetCurrentState | src/state.py:71-76 | the whole stack, ending with the top, or nothing for an unknown project |
| AgentStateStore.AgentState.UpdateLatestState | src/state.py:78-91 | the stacks become `Replaced(...)` and the new stack is broadcast once |
| AgentStateStore.AgentState.GetLatestState | src/state.py:93-101 | agrees with `LatestOf` |
| AgentStateStore.AgentState.SetAgentActive | src/state.py:103-117 | the in-place edit of `state_stack[-1]` gives `SetActive(...)`, broadcast once |
| AgentStateStore.AgentState.IsAgentActive | src/state.py:119-124 | agrees with `ActiveOf` |
| AgentStateStore.AgentState.SetAgentCompleted | src/state.py:126-141 | the in-place edits give `SetCompleted(...)`, broadcast once |
| AgentStateStore.AgentState.IsAgentCompleted | src/state.py:143-148 | agrees with `CompletedOf` |
| AgentStateStore.AgentState.UpdateTokenUsage | src/state.py:150-163 | the in-place edit gives `AddTokens(...)`, with no broadcast |
| AgentStateStore.AgentState.GetLatestTokenUsage | src/state.py:165-170 | agrees with `TokensOf` |
| Socket.EventSink.constructor | src/state.py:69 | the broadcast log starts empty |
| Socket.EventSink.Emit | src/state.py:69 | a broadcast is appended to the log |
| Processes.ProcessTable.constructor | src/agents/runner/runner.py:28 | `process_dict` starts empty |
| Fences.Unfence | src/agents/coder/coder.py:41-49 | removing the "~~~" markers never lengthens the reply |
| Fences.UnfenceFenced | src/agents/coder/coder.py:41-49 | a block wrapped in "~~~" comes back as its stripped inner text |
| Fences.UnfenceBare | src/agents/planner/planner.py:30-45 | a reply with the fence at neither end is only stripped |
| Fences.BetweenFences | src/agents/formatter/formatter.py:25-29 | between an opening and a closing delimiter lies exactly the fenced text, whatever it contains |
| Fences.BetweenSingle | src/agents/iaedit/iaedit.py:44-45 | with a single delimiter `rfind` gives -1 and the last character is lost |
| Fences.UnwrapFenced | src/agents/svgmaker/svgmaker.py:22-25 | a block wrapped in the fence comes back as its stripped inner text |
| Fences.UnwrapJsonFenced | src/agents/hyperparametre/hyperparametre.py:20-23 | a block opened by "```json" and closed by "```" comes back as its stripped inner text |
| Fences.UnwrapBare | src/agents/hyperparametre/hyperparametre.py:20-25 | without "```json" and without the fence at both ends, the reply is only stripped |
| FileBlocks.HeaderName | src/agents/coder/coder.py:63-69 | a "File:" line is malformed exactly when it has no backtick and does not end in ':'; otherwise the name is stripped and, from the backtick form, holds no backtick |
| FileBlocks.Flush | src/agents/coder/coder.py:61-62 | the current file is emitted, normalised and with its lines joined by "\n", exactly when it is named and has code |
| FileBlocks.ValidateResponse | src/agents/coder/coder.py:40-80 | the line loop gives the reference parse (the patcher's lines 64-104 and the feature agent's lines 75-115 are the same code) |
| FileBlocks.ParseLine | src/agents/patcher/patcher.py:84-99 | one turn of the loop either gives up, as the reference parse does, or moves it one line on |
| FileBlocks.ParseFailsIffBadHeader | src/agents/coder/coder.py:67-69 | the parse returns `False` exactly when some line is a malformed "File:" header |
| FileBlocks.ParseEntriesNamed | src/agents/feature/feature.py:96-97 | every entry comes from a named header with at least one code line |
| FileBlocks.ParseCodeLines | src/agents/feature/feature.py:107-110 | plain lines join the current file's code, in order |
| FileBlocks.ParseHeader | src/agents/patcher/patcher.py:84-95 | a header line closes the current file and opens its own |
| FileBlocks.ParseFence | src/agents/patcher/patcher.py:96-97 | a "```" line is dropped |
| FileBlocks.Slug | src/agents/coder/coder.py:108 | the directory name is the project name lower-cased with every space turned into '-' |
| FileBlocks.GetProjectPath | src/agents/coder/coder.py:107-109 | the path is the projects directory, '/', then the directory name (also patcher.py:131-133 and feature.py:143-145) |
| FileBlocks.Blocks | src/agents/coder/coder.py:112 | one block per entry, in order |
| FileBlocks.ToMarkdown | src/agents/coder/coder.py:111-113 | the serialised text opens with "~~~\n" and closes with "\n~~~" |
| FileBlocks.HeaderLineName | src/agents/coder/coder.py:64 | the header written for a name is read back as that name |
| FileBlocks.ParseBlock | src/agents/coder/coder.py:59-75 | one written block opens its file, gathers its code and skips its fences |
| FileBlocks.FlushBlock | src/agents/coder/coder.py:77-78 | closing a written block emits the entry that was written |
| FileBlocks.ParseBlocks | src/agents/coder/coder.py:59-78 | parsing the lines of written blocks emits exactly their entries, in order |
| FileBlocks.UnfenceMarkdown | src/agents/coder/coder.py:41-49 | the "~~~" fences of the serialised text come off exactly |
| FileBlocks.RoundTrip | src/agents/patcher/patcher.py:64-137 | parsing what `response_to_markdown_prompt` writes gives the entries back when names are normalised, non-empty, hold no backtick or newline or surrounding space, and no code line starts with "File:" or "```" |
| CodeWriting.WritingState | src/agents/coder/coder.py:121-126 | the snapshot for a file is a fresh one with monologue "Writing code...", the browser session given, and a terminal session "vim {file}" / code / "Editing {file}" |
| CodeWriting.WritingStates | src/agents/patcher/patcher.py:141-154 | one snapshot per file, in order |
| CodeWriting.BrowserFor | src/agents/coder/coder.py:120-122 | the coder copies the latest snapshot's browser session and raises when there is none (empty or unknown project); the patcher and feature agent leave it null |
| CodeWriting.EmulateCodeWriting | src/agents/coder/coder.py:115-137 | one snapshot per file is pushed, in order, each broadcast, then one "code" event tagged with the agent; when the coder's lookup raises nothing is written (also patcher.py:139-159, feature.py:151-170) |
| CodeWriting.WriteOne | src/agents/coder/coder.py:117-131 | one turn of the loop pushes the next file's snapshot, or raises before the first push |
| CodeWriting.LatestAfterWrites | src/agents/coder/coder.py:120 | after a push, the latest snapshot is the one just pushed |
| CodeWriting.Generate | src/agents/patcher/patcher.py:206-215 | the retry loop consumes at least one reply, or stalls with none left |
| CodeWriting.GenerateSkipsRejected | src/agents/feature/feature.py:191-194 | rejected replies (unparsable or without files) are skipped, however many |
| CodeWriting.GenerateOk | src/agents/coder/coder.py:150-157 | a successful run returns the non-empty parse of the first accepted reply and consumes exactly the replies up to it |
| CodeWriting.Execute | src/agents/patcher/patcher.py:206-219 | `execute`: the replies consumed are those of the retry loop; on success the files are written and returned; otherwise nothing changes; the outcome, stacks and log equal `CodeWriting.Outcome` (also coder.py:139-163, feature.py:172-198, patcher.py:161-204) |
| CodeWriting.Outcome | src/agents/feature/feature.py:172-198 | an agent run started from another loop: the replies used are those of the retry; a raise or stall leaves stacks and log as they were; a success returns a non-empty file list, appends one snapshot per file to the project's stack and adds one broadcast per file followed by the "code" event (also patcher.py:161-180) |
| IncDev.Unfenced | src/agents/incdev/incdev.py:60-65 | removing one leading and one trailing "~~~" and stripping never lengthens the reply |
| IncDev.Stripped | src/agents/incdev/incdev.py:83 | every diff line is looked at stripped, one for one |
| IncDev.RunEnd | src/agents/incdev/incdev.py:91-98 | an inner loop stops at the first line, from its start, that does not carry its mark; every line before it does |
| IncDev.HunksWellFormed | src/agents/incdev/incdev.py:82-120 | every hunk is non-empty, its old lines start with '-' and its new lines with '+' |
| IncDev.ExtractHunks | src/agents/incdev/incdev.py:76-120 | the outer scan over the diff lines builds exactly the reference list of hunks |
| IncDev.ScanLine | src/agents/incdev/incdev.py:83-120 | one turn of the outer loop moves on by at least one line and keeps the hunks still to come unchanged |
| IncDev.Unsigned | src/agents/incdev/incdev.py:119-120 | a line starting with neither '-' nor '+' opens no hunk |
| IncDev.NextHunk | src/agents/incdev/incdev.py:85-117 | a '-' (or '+') line opens one hunk, followed by the hunks after its two runs |
| IncDev.TakeHunk | src/agents/incdev/incdev.py:85-100 | the hunk is the run of lines with the opening mark, then the run with the other mark |
| IncDev.TakeRun | src/agents/incdev/incdev.py:91-93 | an inner loop collects exactly the stripped lines up to the run's end |
| IncDev.HunksCover | src/agents/incdev/incdev.py:82-120 | every '-' or '+' line lands in exactly one hunk and no other line does |
| IncDev.DigitEnd | src/agents/incdev/incdev.py:127 | `\d+` takes the longest run of digits |
| IncDev.ScoreLeading | src/agents/incdev/incdev.py:127-134 | "Score: n" followed by a non-digit gives the score n |
| IncDev.ScoreMissing | src/agents/incdev/incdev.py:130-134 | with no "Score:" followed by digits the search finds nothing, so the score stays 0 |
| IncDev.ExtractDiff | src/agents/incdev/incdev.py:52-139 | a result exists exactly when the unfenced reply holds all three labels, and every hunk in it is well formed |
| IncDev.ExtractGitDiffInfo | src/agents/incdev/incdev.py:52-139 | the method gives the reference extraction |
| IncDev.ExtractLaidOut | src/agents/incdev/incdev.py:52-139 | a reply laid out as "Gitdiff:", diff, "Summary:", summary, "Score:" n gives back that summary, that score and the hunks of that diff |
| IncDev.DiffLaidOut | src/agents/incdev/incdev.py:75 | the diff section of such a reply is the diff |
| IncDev.SummaryLaidOut | src/agents/incdev/incdev.py:123 | the summary section of such a reply is the summary |
| IncDev.ScoreOfLaidOut | src/agents/incdev/incdev.py:127-134 | the score of such a reply is n |
| IncDev.SecondTestRedundant | src/agents/incdev/incdev.py:227-229 | the extension test before the feature agent never skips a file the first test (lines 203-206) let through |
| IncDev.SecondTestWeaker | src/agents/incdev/incdev.py:228 | the second test lets a ".txt" file through that the first one skips |
| IncDev.DevelopFiles | src/agents/incdev/incdev.py:170-236 | the loop over the names posts a "Creating..." message for each missing file, which then reads as "", asks the model once per readable, developable file, runs the feature agent on each complete reply with a non-zero score and a non-empty diff, and ends as soon as a model call or a feature run raises or stalls; its requests, stacks and log are those of the reference loop |
| IncDev.DevelopOne | src/agents/incdev/incdev.py:172-236 | one turn of the loop either ends it as the reference does or leaves the rest of the work unchanged |
| IncDev.Execute | src/agents/incdev/incdev.py:141-236 | an unreadable design file ends the call with no request and nothing written or posted; otherwise its stripped non-empty lines, de-duplicated, are developed in order by the reference loop |
| IncDev.AppendMissing | src/agents/incdev/incdev.py:246-249 | the design names with no file are appended to the selected files, in order |
| IncDev.WithMissingMeaning | src/agents/incdev/incdev.py:246-249 | the selected files stay in front, and a name is in the result exactly when it was selected or is a design name with no file |
| IncDev.Execute1 | src/agents/incdev/incdev.py:238-317 | the missing design names are appended to the selection, which is de-duplicated and developed by the same loop as `execute` |
| IncDev.VisitedFacts | src/agents/incdev/incdev.py:251 | the visited list has no repeats and holds exactly the selected files and the missing design names |
| IncDev.DevelopFromRequests | src/agents/incdev/incdev.py:170-236 | requests and broadcasts are only appended; every new request is for a listed file that passes the extension test, with the code read for it, a non-zero score and a non-empty diff |
| IncDev.FeatureEndsLoop | src/agents/incdev/incdev.py:230-233 | a feature run that raises or stalls ends the loop there, with its request recorded and nothing written |
| Planner.Validate | src/agents/planner/planner.py:30-45 | the cleaned plan is never longer than the reply and has no white space left at either end |
| Planner.ValidateFenced | src/agents/planner/planner.py:30-45 | a plan wrapped in "```" comes back as its stripped inner text |
| Planner.Accept | src/agents/planner/planner.py:108-110 | a reply is accepted only when its cleaned text is non-empty, and then that text is the result |
| Planner.Execute | src/agents/planner/planner.py:104-125 | a finished call returns a non-empty cleaned reply (`execute` and `execute1` ask again while it is empty) |
| Planner.Power10 | src/agents/planner/planner.py:85 | the scale of a decimal fraction is positive |
| Planner.ParseDecimalNat | src/agents/planner/planner.py:85 | `float` of a step number written in digits is that number |
| Planner.DecimalWhole | src/agents/planner/planner.py:85 | digits without a fraction are worth their integer value |
| Planner.Step | src/agents/planner/planner.py:60-94 | one line of the loop keeps the current step a key of the plans |
| Planner.ParseFrom | src/agents/planner/planner.py:59-94 | the loop keeps the current step a key of the plans |
| Planner.ParseResponse | src/agents/planner/planner.py:47-102 | the loop with its section and step variables gives the reference parse, with the four texts stripped at the end |
| Planner.Parse | src/agents/planner/planner.py:47-102 | the project name, the reply, the focus and the summary come back stripped |
| Planner.ProjectFromLastHeader | src/agents/planner/planner.py:62-64 | the project name is the value of the last "Project Name:" line |
| Planner.ProjectUntouched | src/agents/planner/planner.py:62-94 | lines other than a "Project Name:" header leave the project name alone |
| Planner.StepKeepsProject | src/agents/planner/planner.py:65-94 | no other branch of the loop writes the project name |
| Planner.NoStepIgnoresLines | src/agents/planner/planner.py:87-91 | after a malformed step line the following plain lines of the plan are dropped |
| Planner.StepCollectsLines | src/agents/planner/planner.py:90-91 | under a step every plain line, even an empty one, is appended to that step after a space |
| Planner.StepAppends | src/agents/planner/planner.py:90-91 | one plain line under a step is appended to it after a space and changes nothing else |
| SysDesign.FencedLines | src/agents/sysdesign/sysdesigner.py:26-31 | a reply fenced by "~~~" on both sides gives at least one line; otherwise the result is the source's "" |
| SysDesign.ValidateResponse1 | src/agents/sysdesign/sysdesigner.py:25-37 | the reply is accepted exactly when it is fenced and every fenced line is "File: `...`", and then its lines are the result |
| SysDesign.StrictLines | src/agents/sysdesign/sysdesigner.py:25-37 | accepted lines are the fenced lines, at least one, every one of them a quoted file name |
| SysDesign.CheckQuoted | src/agents/sysdesign/sysdesigner.py:33-35 | the loop succeeds exactly when every line starts with "File: `" and ends with a backtick |
| SysDesign.Quoted | src/agents/sysdesign/sysdesigner.py:34 | one "File: `name`" line per name |
| SysDesign.StrictListing | src/agents/sysdesign/sysdesigner.py:25-37 | a fenced listing of "File: `name`" lines is accepted and gives those lines back |
| SysDesign.QuotedLines | src/agents/sysdesign/sysdesigner.py:34 | every line of such a listing passes the line test |
| SysDesign.FencedBody | src/agents/sysdesign/sysdesigner.py:26-31 | fenced text with no surrounding white space comes back whole, split into lines |
| SysDesign.StrictRejects | src/agents/sysdesign/sysdesigner.py:34-35 | a reply whose first fenced line is not quoted is refused whatever follows |
| SysDesign.TickFreeEnd | src/agents/sysdesign/sysdesigner.py:56 | `[^`]+` can reach up to the next backtick and no further |
| SysDesign.ClosingColon | src/agents/sysdesign/sysdesigner.py:56 | the closing `` `?\s*: `` of the pattern needs a ':' |
| SysDesign.GroupUpTo | src/agents/sysdesign/sysdesigner.py:56 | the backtracking group is the longest backtick-free prefix that the closing can follow |
| SysDesign.Group | src/agents/sysdesign/sysdesigner.py:56 | a matched group is non-empty and holds no backtick, and the line holds a ':' |
| SysDesign.OpenTick | src/agents/sysdesign/sysdesigner.py:56 | the optional opening backtick is tried first; the group never holds a backtick |
| SysDesign.SpacesUpTo | src/agents/sysdesign/sysdesigner.py:56 | `\s*` gives white space back one character at a time until the rest matches |
| SysDesign.MatchLine | src/agents/sysdesign/sysdesigner.py:56-58 | a line matches only when it starts with "File:" and has a ':' after it, and its name is non-empty and free of backticks |
| SysDesign.MatchQuoted | src/agents/sysdesign/sysdesigner.py:56-58 | "File: `name`:" gives `name`, colons in the name included |
| SysDesign.QuotedNeedsColon | src/agents/sysdesign/sysdesigner.py:56 | a line "File: `name`" with no colon, the form `validate_response1` wants, does not match |
| SysDesign.MatchBare | src/agents/sysdesign/sysdesigner.py:56-58 | "File: name:" gives `name` once the group has given the final ':' back |
| SysDesign.OpenTickBare | src/agents/sysdesign/sysdesigner.py:56 | an unquoted name followed by ':' is the whole group |
| SysDesign.MatchAll | src/agents/sysdesign/sysdesigner.py:53-62 | when all lines match there is one name per line |
| SysDesign.MatchAllMeaning | src/agents/sysdesign/sysdesigner.py:53-62 | names come back exactly when every line matches, and then line by line in order |
| SysDesign.ReplyLines | src/agents/sysdesign/sysdesigner.py:40-51 | the cleaned reply always has at least one line |
| SysDesign.Validated | src/agents/sysdesign/sysdesigner.py:39-62 | an accepted reply gives one name per line of the cleaned reply, at least one |
| SysDesign.ValidateResponse | src/agents/sysdesign/sysdesigner.py:39-62 | the method gives the reference validation |
| SysDesign.MatchLines | src/agents/sysdesign/sysdesigner.py:53-62 | the loop appends each line's name and returns `False` at the first line that does not match |
| SysDesign.MatchStep | src/agents/sysdesign/sysdesigner.py:56-60 | one line that does not match fails the whole reply |
| SysDesign.ValidatedListing | src/agents/sysdesign/sysdesigner.py:39-62 | a fenced listing of "File: `name`:" lines is accepted with exactly its names |
| SysDesign.ListingLines | src/agents/sysdesign/sysdesigner.py:56-58 | every line of such a listing gives its name |
| SysDesign.Listing | src/agents/sysdesign/sysdesigner.py:56 | one "File: `name`:" line per name |
| SysDesign.ValidatedRejects | src/agents/sysdesign/sysdesigner.py:59-60 | one line without "File:" anywhere in the reply refuses it all |
| SysDesign.QuotedAt | src/agents/sysdesign/sysdesigner.py:65 | a match of "File: `([^`]+)`" closes on the first backtick after a non-empty name |
| SysDesign.FindAllFrom | src/agents/sysdesign/sysdesigner.py:65 | every name found is non-empty and free of backticks |
| SysDesign.ExtractFiles | src/agents/sysdesign/sysdesigner.py:64-66 | every name `extract_files` finds is non-empty and free of backticks |
| SysDesign.ExtractListing | src/agents/sysdesign/sysdesigner.py:64-66 | the names of a "File: `name`:" listing are found again, in order |
| SysDesign.FirstQuoted | src/agents/sysdesign/sysdesigner.py:65 | a quoted name at the start is found first and the scan resumes behind its closing backtick |
| SysDesign.FindAllSkips | src/agents/sysdesign/sysdesigner.py:65 | text without an 'F' starts no match |
| SysDesign.Accept | src/agents/sysdesign/sysdesigner.py:109-113 | an accepted reply has at least one name, so `not valid_response` refuses only `False` |
| SysDesign.AppendNew | src/agents/sysdesign/sysdesigner.py:129-137 | the merge loop writes exactly the reference list of names |
| SysDesign.AppendedMeaning | src/agents/sysdesign/sysdesigner.py:129-137 | no name already in the file is written, every formatted name missing from it is, and at most one per reply name |
| SysDesign.RepeatedNameWrittenTwice | src/agents/sysdesign/sysdesigner.py:126-137 | the file's lines are read once, so a missing name the reply repeats is written twice |
| SysDesign.WithLines | src/agents/sysdesign/sysdesigner.py:124-137 | appending lines keeps the file's earlier text as its prefix |
| SysDesign.Execute | src/agents/sysdesign/sysdesigner.py:68-139 | the model is shown the file's non-blank lines without repeats; it is asked again until a reply validates, and then only the missing names are appended to the file |
| SysDesign.WriteLines | src/agents/sysdesign/sysdesigner.py:137 | each written name is appended followed by a line break, in order |
| SysDesign.ShownFacts | src/agents/sysdesign/sysdesigner.py:88-105 | the names shown have no repeats and are exactly the file's non-blank stripped lines |
| Reviewer.Content | src/agents/reviewer/codereviewfile.py:50-58 | there is content exactly when the stripped reply holds "~~~" |
| Reviewer.ValidateResponse | src/agents/reviewer/codereviewfile.py:50-83 | `False` without "~~~", on empty content, on a decoding failure or without a "Review" key; the pair of "Review" and "Raison" values exactly when the content decodes to an object with both; an exception when "Raison" is missing or the value is not an object |
| Reviewer.ContentBetween | src/agents/reviewer/codereviewfile.py:57-58 | the content is the stripped text between the first two "~~~" |
| Reviewer.ValidateFencedObject | src/agents/reviewer/codereviewfile.py:50-83 | an object with both keys between the fences is accepted with its two values |
| Reviewer.Unfenced | src/agents/reviewer/codereviewfile.py:86-87 | removing the fences never lengthens the reply |
| Reviewer.SplitReview | src/agents/reviewer/codereviewfile.py:88-95 | without "Reason:" the reason is "" |
| Reviewer.SplitReviewReason | src/agents/reviewer/codereviewfile.py:88-91 | the review is the text before the first "Reason:" and the reason the text up to the second, both stripped |
| Reviewer.SplitReviewSingle | src/agents/reviewer/codereviewfile.py:88-91 | with a single "Reason:" the reason is all the text after it, stripped |
| Reviewer.SplitReviewOnly | src/agents/reviewer/codereviewfile.py:92-94 | without "Reason:" the whole text, stripped, is the review and the reason is "" |
| Reviewer.ExtractFenced | src/agents/reviewer/codereviewfile.py:86-87 | a reply with "~~~" at both ends is split inside the fences |
| Reviewer.ExtractUnfenced | src/agents/reviewer/codereviewfile.py:86 | a reply without "~~~" at both ends is split as it is |
| Reviewer.ExtractFilenames | src/agents/reviewer/codereviewfile.py:97-119 | the loop over `splitlines()` gives the reference list of names |
| Reviewer.FilenamesMember | src/agents/reviewer/codereviewfile.py:111-115 | a name is extracted exactly when some line is "File: " followed by it, up to white space |
| Reviewer.NamedLine | src/agents/reviewer/codereviewfile.py:111-115 | every extracted name comes from a "File: " line |
| Reviewer.NamedExtracted | src/agents/reviewer/codereviewfile.py:111-115 | every "File: " line has its name extracted |
| Reviewer.FilenamesAppend | src/agents/reviewer/codereviewfile.py:111-115 | names come out in line order |
| Reviewer.PatchTestRedundant | src/agents/reviewer/codereviewfile.py:215-217 | the extension test before patching is the one at lines 183-186 again, so it never skips a reviewed file |
| Reviewer.PlaceholderReviewed | src/agents/reviewer/codereviewfile.py:183-186 | a file named ".placeholder" has no suffix and is reviewed |
| Reviewer.PlaceholderSuffix | src/agents/reviewer/codereviewfile.py:183-186 | "x.placeholder" is skipped |
| Reviewer.ReviewFiles | src/agents/reviewer/codereviewfile.py:182-220 | the loop reviews each readable, reviewable file once; an "LBTM" review posts the review message and runs the patcher on the file; the loop ends as soon as a model call or a patcher run raises or stalls; its patches, stacks and log are those of the reference loop |
| Reviewer.ReviewOne | src/agents/reviewer/codereviewfile.py:183-220 | one turn of the loop either ends it as the reference does or leaves the rest of the work unchanged |
| Reviewer.Execute | src/agents/reviewer/codereviewfile.py:147-220 | an empty conversation raises before anything is posted; otherwise its last message is posted as the user's, then an unreadable design file or one without names ends the call with no patch, and the names are reviewed in order by the reference loop |
| Reviewer.CandidatesFacts | src/agents/reviewer/codereviewfile.py:182-199 | every file reviewed is listed, passes the extension test and is read with its code |
| Reviewer.ReviewFromPatches | src/agents/reviewer/codereviewfile.py:211-220 | patches and broadcasts only grow, and every new patch is for a reviewed file with its code |
| Reviewer.ReviewStep | src/agents/reviewer/codereviewfile.py:203-220 | one review either ends the loop or lets it go on; it adds at most one patch, for the file reviewed with the reason of the reply, and the log only grows |
| Reviewer.NoLbtmNoPatch | src/agents/reviewer/codereviewfile.py:211 | when no review says "LBTM", nothing is patched, written or posted |
| Reviewer.LbtmPatched | src/agents/reviewer/codereviewfile.py:211-220 | a review that says "LBTM" posts the review message with the file and reason, then sends the file to the patcher with its code and reason |
| Reviewer.ReviewFirst | src/agents/reviewer/codereviewfile.py:203-211 | a file whose review does not send it to the patcher uses exactly one reply and changes nothing |
| ReadCode.Record | src/filesystem/read_code.py:20-28 | a file gives at most one record |
| ReadCode.RecordKept | src/filesystem/read_code.py:20-28 | a file gives a record exactly when it is not excluded and can be read, and then its path and stripped code |
| ReadCode.Children | src/filesystem/read_code.py:17-18 | the walk goes on only into sub-directories that are not pruned |
| ReadCode.ReadFiles | src/filesystem/read_code.py:19-28 | the inner loop gives the records of one directory's files, in order |
| ReadCode.ReadDirectory | src/filesystem/read_code.py:11-29 | the top-down walk, directory by directory, gives the reference records |
| ReadCode.ReadProject | src/filesystem/read_code.py:5-9 | the walk starts at the project name lower-cased with spaces turned into '-' |
| ReadCode.ExpandRead | src/filesystem/read_code.py:17-18 | taking one directory's files and putting its kept sub-directories first keeps the records still to come |
| ReadCode.ExpandSize | src/filesystem/read_code.py:17 | each directory visited shrinks what is left to walk, so the walk ends |
| ReadCode.FilesOfMember | src/filesystem/read_code.py:19-28 | a record is in a directory's list exactly when some file there is kept and gives it |
| ReadCode.RecordedFrom | src/filesystem/read_code.py:19-28 | every record comes from a kept file |
| ReadCode.KeptRecorded | src/filesystem/read_code.py:19-28 | every kept file gives its record |
| ReadCode.ExclusionsMean | src/filesystem/read_code.py:13-20 | a file is skipped exactly when its name is excluded or its lower-cased name ends with an excluded extension; a directory is pruned exactly when its name is excluded |
| ReadCode.PrunedDirIgnored | src/filesystem/read_code.py:18 | a pruned directory contributes nothing, whatever it holds |
| ReadCode.Blocks | src/filesystem/read_code.py:33 | one "name:", fenced code block per record, in order |
| ReadCode.MarkdownBlocks | src/filesystem/read_code.py:31-35 | the final strip changes nothing unless the first file name starts with white space, so the markdown is the blocks joined by line breaks |
| Monaco.Extension | ui/src/lib/components/MonacoEditor.js:357 | the extension holds no '.' |
| Monaco.ExtensionAfterLastDot | ui/src/lib/components/MonacoEditor.js:357 | the extension is the text after the last '.' |
| Monaco.ExtensionNoDot | ui/src/lib/components/MonacoEditor.js:357 | a name without '.' is its own extension |
| Monaco.LanguageOfName | ui/src/lib/components/MonacoEditor.js:8-30 | a listed extension gives its language whatever the case of its letters; any other gives 'plaintext' |
| Monaco.UpperCaseExtension | ui/src/lib/components/MonacoEditor.js:29 | "App.JSX" is opened as JavaScript |
| Monaco.LastDotCounts | ui/src/lib/components/MonacoEditor.js:357 | "main.py.bak" is opened as plain text |
| Monaco.Put | ui/src/lib/components/MonacoEditor.js:676 | assigning a key adds it to the key order unless it is there already |
| Monaco.WithoutFacts | ui/src/lib/components/MonacoEditor.js:677 | `delete` removes exactly that key and keeps the others without repeats |
| Monaco.WithoutAllFacts | ui/src/lib/components/MonacoEditor.js:692-695 | deleting a list of keys removes exactly those keys |
| Monaco.PutNoDup | ui/src/lib/components/MonacoEditor.js:676 | the key order never holds a key twice |
| Monaco.Prefixed | ui/src/lib/components/MonacoEditor.js:691 | the keys picked for a folder are exactly those that start with its path as text, in key order |
| Monaco.DoneStep | ui/src/lib/components/MonacoEditor.js:692-695 | a refused delete ends the loop; a successful one moves it on |
| Monaco.DeletedOneMore | ui/src/lib/components/MonacoEditor.js:694 | each delete removes one more key from the key order and from the map |
| Monaco.Workspace.constructor | ui/src/lib/components/MonacoEditor.js:628 | the models object starts with each key once and exactly the keys of its map |
| Monaco.Workspace.Rename | ui/src/lib/components/MonacoEditor.js:673-683 | after the server renames, the new key holds what the old one held and the old key is gone; a failed server call changes nothing |
| Monaco.Workspace.Delete | ui/src/lib/components/MonacoEditor.js:687-706 | a folder loses every key starting with its path up to the first refused delete; a file loses only its own key, when the server deletes it |
| Monaco.Workspace.DeleteEach | ui/src/lib/components/MonacoEditor.js:692-695 | the loop deletes the keys in order until the server refuses one |
| Monaco.Workspace.CreateNewFile | ui/src/lib/components/MonacoEditor.js:710-722 | an empty JavaScript model is added under "newFile.js" only when that key holds none |
| Monaco.Workspace.PopulateSidebar | ui/src/lib/components/MonacoEditor.js:628-659 | the nested loops give the reference sidebar |
| Monaco.PlaceFile | ui/src/lib/components/MonacoEditor.js:630-658 | one key adds the folders on its path, in order, then places the file under its parent unless its key holds `undefined` |
| Monaco.PathParts | ui/src/lib/components/MonacoEditor.js:630 | a path always has at least one piece |
| Monaco.Prefixes | ui/src/lib/components/MonacoEditor.js:634-645 | a path has one folder name per piece but the last |
| Monaco.MeetFolder | ui/src/lib/components/MonacoEditor.js:645-656 | the inner loop meets the next folder name and adds it unless it is known |
| Monaco.StaysStopped | ui/src/lib/components/MonacoEditor.js:666-669 | once a key holding `undefined` has thrown, later keys add nothing |
| Monaco.RenameMoves | ui/src/lib/components/MonacoEditor.js:676-677 | a rename to a different path moves the model and leaves every other key as it was |
| Monaco.RenameToSelfDrops | ui/src/lib/components/MonacoEditor.js:676-677 | renaming a path to itself removes its model |
| Monaco.RenameOrder | ui/src/lib/components/MonacoEditor.js:676-677 | a renamed key moves to the end of the key order |
| Monaco.DoneFacts | ui/src/lib/components/MonacoEditor.js:692-695 | only picked keys are deleted, and all of them when the server deletes each one |
| Monaco.DeleteScope | ui/src/lib/components/MonacoEditor.js:690-698 | deleting a folder removes every key that starts with its path as text ("src2/x" with "src"); deleting a file removes at most its own key; no other key goes |
| Monaco.PathPartsSplit | ui/src/lib/components/MonacoEditor.js:630 | a path is cut at every '/' and every '\' alike |
| Monaco.AddAllFacts | ui/src/lib/components/MonacoEditor.js:646-652 | the folder list gains exactly the names met and keeps no repeats |
| Monaco.SidebarNoDup | ui/src/lib/components/MonacoEditor.js:628-669 | each folder name gets at most one node, and the loop runs to the end exactly when no key holds `undefined` |
| Monaco.SidebarFolders | ui/src/lib/components/MonacoEditor.js:630-656 | when the loop finishes, the folder nodes are exactly the proper prefixes of the keys |
| Monaco.FolderStep | ui/src/lib/components/MonacoEditor.js:628-656 | the folders of all keys are those of the earlier keys and those of the last |
| Monaco.SidebarFiles | ui/src/lib/components/MonacoEditor.js:637-643 | when the loop finishes, every key is placed, in key order, under the folder of its parent path |

## Left out

- **Concurrency.** Threads, the `queue.Queue` hand-off, the lock and `time.sleep` are sequentialised. A started process's output is read to its end before `wait` returns.
- **Operating system.** Spawning (`subprocess.Popen`, `pty`, `os.setsid`) and signals are given as outcome lists. `terminate_process` takes the signal's error as a parameter.
- **Persistence and transport.** The SQLite table and the JSON (de)serialisation of snapshots are a map. Socket broadcasts are appended to an event log. The time stamp is a parameter.
- **Outside calls.** The model call, Jinja prompt rendering and logging are left out. A model reply is a list entry.
- **JSON.** Parsing is a decoder parameter. Numbers are integers, and object key order is not kept.
- **File system.** The following are parameters or values:
  - `os.path.normpath`, `os.path.isfile` and file reads;
  - `os.walk`, given as a directory tree (listing order as given);
  - the file `SysDesign.Execute` writes (`SysDesign.WriteLines`).

  `save_code_to_project`, `makedirs` and the other file writes are left out.

  Paths use '/' as the separator. `os.path.relpath` in `read_directory` is taken as the plain join of the directory and the file name (`ReadCode.Record`); the normalisation it does (an empty project slug, "." or ".." pieces) is not modelled.

  The lines of the design file that `SysDesign.Execute` shows are split at "\n" only; Python's text mode also ends a line at a lone "\r".
- **Chemistry.** RDKit molecule parsing, property computation and drawing are not modelled. Only the reply cleaning, the parser and the property-name formatting are.
- **UML.** PlantUML rendering and the base64 image encoding are not modelled. `DrawUml` stops at the ".puml" text.
- **Web search.** Scraping, the search backend and the formatter's page summaries are deterministic parameters of `Search.SearchQueries`. In the source the summary is itself a model call.
- **Feature agent.** `search_queries_faiss` (vector-index search) is not modelled.
- **Agent-state store.** `get_project_files1`, `add_placeholder` and `get_project_files` in `src/state.py` are not modelled. They are directory walks that build UI file lists.
- **Numbers.** `float(...)` step numbers in the planner are modelled for plain decimal text only. Exponents, "inf", "nan" and underscores are not covered. `int(...)` accepts ASCII digits only, and `\d` in the score pattern matches ASCII digits only.
- **Case mapping.** `lower()`, `capitalize()` and JavaScript `toLowerCase()` map ASCII letters only.
- **Path suffix.** `Path(name).suffix` is taken on '/'-separated names only.
- **incdev `validate_response`.** `validate_response` in `src/agents/incdev/incdev.py` (lines 35-50) is never called, so it is not modelled.
- **incdev `execute1`.** The caller's `selectedfiles` list, which `execute1` appends to in place, is returned as a new list (`IncDev.Execute1`).
- **Reviewer.** `execute4selectedfile`, `executeofcoder` and `save_code_to_project` in `src/agents/reviewer/codereviewfile.py` are not modelled. They repeat the loop of `execute` on other inputs.
- **Project messages.** `ProjectManager` is not part of this model. The `add_message_from_devika` and `add_message_from_user` calls of the modelled operations are recorded, in order, as chat events in the broadcast log. The exception is the "Creating New file..." messages posted by `save_code_to_project`, which is left out.
- **incdev missing files.** A missing file is created empty before it is read, so the model reads it as "". An error while creating it is not modelled. The feature agent's `save_code_to_project` is a file write and is left out.
- **Planner.** The system-design call at the start of `execute`/`execute1` in `src/agents/planner/planner.py` is the separate `SysDesign.Execute`. `Planner.Execute` models the retry on the planner's own reply. It does not model that each retry also reruns the system designer.
- **Editor panel.**
  - The DOM code is not modelled, nor is the global `monaco` object.
  - A model's `isFolder` flag is taken as given; the editor's own `createModel` never sets it.
  - JavaScript `Object` prototype keys are not modelled: neither a file named "constructor" in `getFileLanguage`, nor a folder named "constructor" or "toString", which `populateSidebar` (`Monaco.Place`) finds already present in its plain-object `folders` map.
  - Integer-like keys are not moved to the front of the `models` key order.
- **Runner type error.** The bool returned by a failed `handle_rerun` revalidation (`src/agents/runner/runner.py:236`) is unpacked as a pair by its caller, which raises. The model gives this path an exception outcome.
- Reviewer.ReviewFrom, IncDev.DevelopFrom: the patcher's and the feature agent's `save_code_to_project` (src/agents/patcher/patcher.py:180 and 106-129; src/agents/incdev/incdev.py:233 and src/agents/feature/feature.py:117-137) is left out. Its "<b>Creating New file...</b>:" chat message for each file that does not yet exist is therefore missing from the log these loops build, and so from the log `Reviewer.ReviewFiles`, `Reviewer.Execute`, `IncDev.DevelopFiles` and `IncDev.Execute` prove equal to them. Reads later in the same loop see each file as it was before the loop: in the source, a file written by an earlier patch or feature run, then listed again (the reviewer does not dedup) or listed later in the design, is read back with its new text.
- RunnerModel.HandleRerun, RunnerModel.Rerun, RunnerModel.Repair, RunnerModel.RunFrom, RunnerModel.RunCode, RunnerModel.ExecuteFrom, RunnerModel.Execute: their own ensures state only well-formedness and reply consumption. The full behaviour is in the `RunnerFacts` lemmas (for `HandleRerun`, `RunnerFacts.CommandDecisionReruns` and `RunnerFacts.PatchRerunsFirst` state its two decisions) and in the `Runner.Runner` methods that equal these functions.
- RunnerModel.ValidateCommands, RunnerModel.HandleRerun: commands are strings only. A "commands" object, whose keys the source runs in their JSON order (object key order is not kept here), and a list with an item that is not a string end the attempt without running anything. In the source, the string items before such an item run; a list item runs as a shell command with its arguments; any other item fails to start and enters the repair loop. A rerun decision whose "command" is not a string raises in the model, where the source hands it to `execute_subprocess`. These collapses carry into RunnerModel.Attempt, Runner.Runner.Attempt and Runner.Runner.HandleRerun.
