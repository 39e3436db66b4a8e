/**
 * The command runner of `src/agents/runner/runner.py` as functions over a `World`: the
 * agent-state stacks, the broadcast log, the process registry, the model's replies still
 * to come, the outcomes of the processes still to be started, and the log of commands
 * handed to the shell. The reader thread and the runner thread are sequentialised: a
 * started process's output is read to its end before `wait` returns.
 */
module RunnerModel {
  import opened Wrappers
  import opened Text
  import opened Json
  import opened Snapshots
  import opened Socket
  import opened AgentStateStore
  import opened FileBlocks
  import opened CodeWriting
  import opened Oracles

  /** One `subprocess.Popen`: a started process with its pid, the chunks its terminal
      yields and its exit status (which `wait` returns and nothing reads), or the text of
      the exception raised while starting it. */
  datatype Spawn = Spawned(pid: int, chunks: seq<string>, exitCode: int) | SpawnFailed(error: string)

  datatype World = World(
    stacks: Stacks,
    events: seq<Event>,
    procs: map<int, string>,
    llm: seq<Reply>,
    spawns: seq<Spawn>,
    executed: seq<string>)

  /** What stays fixed during one call: the project, the time stamp given to new
      snapshots, the JSON decoder and `os.path.normpath`. */
  datatype Ctx = Ctx(project: string, now: string, decode: Decoder, normpath: string -> string)

  /** A call's end state and how it ended. */
  datatype Run<T> = Run(w: World, status: Status<T>)

  const RetryLimit: nat := 5
  const DefaultMonologue: string := "Running code..."

  function RunningMonologue(command: string, output: string): string {
    "running the command '" + command + "': " + output
  }

  function ErrorMonologue(command: string, output: string): string {
    "Oh, seems like there is some error with the command '" + command + "': " + output
  }

  predicate Good(w: World) {
    Stacked(w.stacks)
  }

  /** The snapshot of `update_state`: a fresh one with the monologue and a "Terminal" session. */
  function TerminalState(command: string, output: string, monologue: string, now: string): (s: Snapshot)
    ensures s.monologue == Some(monologue) && s.terminal == Terminal(Some(command), Some(output), Some("Terminal"))
    ensures s == NewState(now).(monologue := s.monologue, terminal := s.terminal)
  {
    NewState(now).(monologue := Some(monologue), terminal := Terminal(Some(command), Some(output), Some("Terminal")))
  }

  /** `update_state`: push the snapshot on the project's stack and broadcast the stack. */
  function UpdateState(w: World, ctx: Ctx, command: string, output: string, monologue: string): (r: World)
    requires Good(w)
    ensures Good(r)
    ensures r.llm == w.llm && r.spawns == w.spawns && r.procs == w.procs && r.executed == w.executed
  {
    var m := Pushed(w.stacks, ctx.project, TerminalState(command, output, monologue, ctx.now));
    w.(stacks := m, events := w.events + [AgentStateEvt(m[ctx.project])])
  }

  // ---------------------------------------------------------------- responses

  /** The text `parse_response` hands to the decoder: stripped, every "json" deleted, and
      a ``` fence cut off (and the rest stripped) only when it is at both ends. */
  function CleanResponse(response: string): string {
    var s := Replace(Strip(response), "json", "");
    if StartsWith(s, "```") && EndsWith(s, "```") then Strip(Inner3(s)) else s
  }

  /** What `validate_response` makes of a reply, as `run_code` iterates it: the command
      list to run, or `BadCommands` when the "commands" value is a number, `true`, an
      object or a list holding an item that is not a string. For a number or `true` that
      is the source's behaviour: iterating it raises and the attempt ends. An object's
      keys and a list's non-string items are iterated by the source; commands here are
      strings only, so the model ends the attempt without running anything instead. */
  datatype Commands = Commands(list: seq<string>) | BadCommands

  predicate AllStrings(items: seq<Json>) {
    forall i :: 0 <= i < |items| ==> items[i].JStr?
  }

  /** The texts of a list of JSON strings. */
  function Texts(items: seq<Json>): (r: seq<string>)
    requires AllStrings(items)
    ensures |r| == |items| && forall i :: 0 <= i < |items| ==> items[i] == JStr(r[i])
  {
    if |items| == 0 then [] else [items[0].s] + Texts(items[1..])
  }

  /** A string iterated as a list: its characters, each a one-character string. */
  function Chars(s: string): (r: seq<string>)
    ensures |r| == |s| && forall i :: 0 <= i < |s| ==> r[i] == [s[i]]
  {
    if |s| == 0 then [] else [[s[0]]] + Chars(s[1..])
  }

  function ValidateCommands(response: string, decode: Decoder): (r: Commands)
    ensures decode(CleanResponse(response)).None? ==> r == Commands([])
    ensures r.Commands? && |r.list| > 0 ==>
      (decode(CleanResponse(response)).Some? && decode(CleanResponse(response)).value.JObj?
       && "commands" in decode(CleanResponse(response)).value.fields)
    ensures var d := decode(CleanResponse(response));
      d.Some? && d.value.JObj? && "commands" !in d.value.fields ==> r == Commands([])
    ensures var d := decode(CleanResponse(response));
      d.Some? && d.value.JObj? && "commands" in d.value.fields && d.value.fields["commands"].JArr?
      && AllStrings(d.value.fields["commands"].items) ==>
        r == Commands(Texts(d.value.fields["commands"].items))
    ensures decode(CleanResponse(response)).Some? && !decode(CleanResponse(response)).value.JObj? ==> r == BadCommands
  {
    match decode(CleanResponse(response))
    case None => Commands([])
    case Some(JObj(fields)) =>
      var v := if "commands" in fields then fields["commands"] else JArr([]);
      if !Truthy(v) then Commands([])
      else (match v
        case JArr(items) =>
          if AllStrings(items) then Commands(Texts(items))
          else BadCommands
        case JStr(s) => Commands(Chars(s))
        case _ => BadCommands)
    case Some(_) => BadCommands
  }

  /** What `validate_rerunner_response` and the key lookups after it make of a reply: an
      object with both "action" and "response", no decision (`False`), or a value whose
      test or lookup raises. */
  datatype Decision = Decision(fields: map<string, Json>) | NoDecision | BadDecision

  function ValidateRerunner(response: string, decode: Decoder): (r: Decision)
    ensures r.Decision? ==> "action" in r.fields && "response" in r.fields
    ensures r.Decision? ==> decode(CleanResponse(response)) == Some(JObj(r.fields))
    ensures decode(CleanResponse(response)).None? ==> r == NoDecision
    ensures r.Decision? <==>
      (decode(CleanResponse(response)).Some? && decode(CleanResponse(response)).value.JObj?
       && "action" in decode(CleanResponse(response)).value.fields
       && "response" in decode(CleanResponse(response)).value.fields)
  {
    match decode(CleanResponse(response))
    case None => NoDecision
    case Some(v) =>
      match HasKey(v, "action")
      case None => BadDecision
      case Some(false) => NoDecision
      case Some(true) =>
        match HasKey(v, "response")
        case None => BadDecision
        case Some(false) => NoDecision
        case Some(true) => if v.JObj? then Decision(v.fields) else BadDecision
  }

  // ---------------------------------------------------------------- processes

  /** The reader loop: append each chunk to the output and push a "running the command"
      snapshot, until an empty chunk or the end of the stream. */
  function ReadOutput(w: World, ctx: Ctx, command: string, output: string, chunks: seq<string>): (r: (World, string))
    requires Good(w)
    ensures Good(r.0)
    ensures r.0.llm == w.llm && r.0.spawns == w.spawns && r.0.procs == w.procs && r.0.executed == w.executed
    decreases |chunks|
  {
    if |chunks| == 0 || chunks[0] == "" then (w, output)
    else
      var out := output + chunks[0];
      ReadOutput(UpdateState(w, ctx, command, out, RunningMonologue(command, out)), ctx, command, out, chunks[1..])
  }

  /** `execute_subprocess` together with the `result_queue.get()` that follows it: the
      output and whether the command failed. */
  function ExecuteSubprocess(w: World, ctx: Ctx, command: string): (r: Run<(string, bool)>)
    requires Good(w)
    ensures Good(r.w) && r.w.llm == w.llm && !r.status.Raised?
    ensures r.status.Stalled? <==> |w.spawns| == 0
  {
    if |w.spawns| == 0 then Run(w, Stalled)
    else
      var w0 := w.(spawns := w.spawns[1..], executed := w.executed + [command]);
      match w.spawns[0]
      case SpawnFailed(e) => Run(w0, Ok((e, true)))
      case Spawned(pid, chunks, _) =>
        var w1 := w0.(procs := w0.procs[pid := command], events := w0.events + [PidEvt(command, pid)]);
        var (w2, output) := ReadOutput(w1, ctx, command, "", chunks);
        Run(w2.(procs := w2.procs - {pid}, events := w2.events + [PidKilledEvt(pid)]), Ok((output, false)))
  }

  // ---------------------------------------------------------------- repair

  /** `patcher.execute` as called from `handle_rerun`: the patcher agent's run
      (`CodeWriting.Outcome`) on this world's replies, stacks and broadcast log; the
      registry, the process outcomes and the shell log are left alone (saving the files is
      file I/O). */
  function Patch(w: World, ctx: Ctx): (r: Run<seq<FileCode>>)
    requires Good(w)
    ensures Good(r.w) && |r.w.llm| <= |w.llm|
    ensures (r.status, r.w.llm, r.w.stacks, r.w.events)
      == Outcome(Patcher, w.stacks, w.events, w.llm, Site(ctx.project, ctx.now, ctx.normpath))
    ensures r.w.procs == w.procs && r.w.spawns == w.spawns && r.w.executed == w.executed
  {
    var (st, rest, m, events) := Outcome(Patcher, w.stacks, w.events, w.llm, Site(ctx.project, ctx.now, ctx.normpath));
    Run(w.(llm := rest, stacks := m, events := events), st)
  }

  /** `handle_rerun`: the command to run next and the model's explanation. */
  function HandleRerun(w: World, ctx: Ctx, commands: seq<string>, retries: nat): (r: Run<(string, Json)>)
    requires Good(w) && |commands| > 0
    ensures Good(r.w) && |r.w.llm| <= |w.llm|
    ensures r.status.Ok? ==> |r.w.llm| < |w.llm|
    decreases |w.llm|, 0, 0, 0
  {
    if |w.llm| == 0 then Run(w, Stalled)
    else
      var w1 := w.(llm := w.llm[1..]);
      match w.llm[0]
      case Unavailable => Run(w1, Raised)
      case Reply(text) =>
        match ValidateRerunner(text, ctx.decode)
        case BadDecision => Run(w1, Raised)
        case NoDecision =>
          // `run_code` is called again, and its boolean result cannot be unpacked
          var nested := RunFrom(w1, ctx, commands, 0, retries, true);
          Run(nested.w, if nested.status.Stalled? then Stalled else Raised)
        case Decision(fields) =>
          var action := fields["action"];
          var response := fields["response"];
          if action == JStr("command") then
            if "command" in fields && fields["command"].JStr? then Run(w1, Ok((fields["command"].s, response)))
            else Run(w1, Raised)
          else if action == JStr("patch") then
            var p := Patch(w1, ctx);
            match p.status
            case Ok(_) => Run(p.w, Ok((commands[0], response)))
            case Raised => Run(p.w, Raised)
            case Stalled => Run(p.w, Stalled)
          else Run(w1, Raised)
  }

  /** One turn of the repair loop: report the error, ask for a decision, post its
      explanation to the chat, run the command it names and report that run. Returns the
      command run, its output and whether it failed. */
  function Rerun(w: World, ctx: Ctx, commands: seq<string>, command: string, output: string, retries: nat)
    : (r: Run<(string, string, bool)>)
    requires Good(w) && |commands| > 0
    ensures Good(r.w) && |r.w.llm| <= |w.llm|
    ensures r.status.Ok? ==> |r.w.llm| < |w.llm|
    decreases |w.llm|, 0, 0, 1
  {
    var w1 := UpdateState(w, ctx, command, output, ErrorMonologue(command, output));
    var h := HandleRerun(w1, ctx, commands, retries);
    match h.status
    case Raised => Run(h.w, Raised)
    case Stalled => Run(h.w, Stalled)
    case Ok((next, response)) =>
      var w2 := h.w.(events := h.w.events + [ChatMessage(ctx.project, response)]);
      var e := ExecuteSubprocess(w2, ctx, next);
      if !e.status.Ok? then Run(e.w, Stalled)
      else
        var (out, failed) := e.status.value;
        Run(UpdateState(e.w, ctx, next, out, DefaultMonologue), Ok((next, out, failed)))
  }

  /** The repair loop of `run_code` for one command: while it has failed and fewer than two
      reruns have failed, take another turn. Returns the new `retries` and `success`. */
  function Repair(w: World, ctx: Ctx, commands: seq<string>, command: string, output: string, failed: bool,
                  retries: nat, success: bool): (r: Run<(nat, bool)>)
    requires Good(w) && |commands| > 0
    ensures Good(r.w) && |r.w.llm| <= |w.llm|
    decreases |w.llm|, 1, 0, 0
  {
    if !(failed && retries < 2) then Run(w, Ok((retries, success)))
    else
      var t := Rerun(w, ctx, commands, command, output, retries);
      match t.status
      case Raised => Run(t.w, Raised)
      case Stalled => Run(t.w, Stalled)
      case Ok((next, out, nextFailed)) =>
        Repair(t.w, ctx, commands, next, out, nextFailed, retries + (if nextFailed then 1 else 0), false)
  }

  /** How `run_code` goes on after the repair loop of command `i`. */
  function AfterRepair(rr: Run<(nat, bool)>, ctx: Ctx, commands: seq<string>, i: nat): (r: Run<bool>)
    requires Good(rr.w) && i < |commands|
    ensures Good(r.w) && |r.w.llm| <= |rr.w.llm|
    decreases |rr.w.llm|, 2, |commands| - i, 0
  {
    match rr.status
    case Ok((retries, success)) => RunFrom(rr.w, ctx, commands, i + 1, retries, success)
    case Raised => Run(rr.w, Raised)
    case Stalled => Run(rr.w, Stalled)
  }

  /** The `for command in commands` loop of `run_code` from command `i` on. */
  function RunFrom(w: World, ctx: Ctx, commands: seq<string>, i: nat, retries: nat, success: bool): (r: Run<bool>)
    requires Good(w) && i <= |commands|
    ensures Good(r.w) && |r.w.llm| <= |w.llm|
    decreases |w.llm|, 2, |commands| - i, 1
  {
    if i == |commands| then Run(w, Ok(success))
    else
      var e := ExecuteSubprocess(w, ctx, commands[i]);
      if !e.status.Ok? then Run(e.w, Stalled)
      else
        var (output, failed) := e.status.value;
        AfterRepair(Repair(e.w, ctx, commands, commands[i], output, failed, retries, success), ctx, commands, i)
  }

  /** `run_code`: whether every command ran without failing. */
  function RunCode(w: World, ctx: Ctx, commands: seq<string>, retries: nat): (r: Run<bool>)
    requires Good(w)
    ensures Good(r.w)
  {
    RunFrom(w, ctx, commands, 0, retries, true)
  }

  /** One attempt of `execute`: ask for a command list and run it. `Ok(Some(cs))` when the
      run succeeded, `Ok(None)` when the attempt ends without success: the model call or
      the command list raised, the list is empty, or running it failed. */
  function Attempt(w: World, ctx: Ctx): (r: Run<Option<seq<string>>>)
    requires Good(w)
    ensures Good(r.w) && !r.status.Raised?
    ensures r.status.Ok? ==> |r.w.llm| < |w.llm|
  {
    if |w.llm| == 0 then Run(w, Stalled)
    else
      var w1 := w.(llm := w.llm[1..]);
      match w.llm[0]
      case Unavailable => Run(w1, Ok(None))
      case Reply(text) =>
        match ValidateCommands(text, ctx.decode)
        case BadCommands => Run(w1, Ok(None))
        case Commands(cs) =>
          if |cs| == 0 then Run(w1, Ok(None))
          else
            var run := RunCode(w1, ctx, cs, 0);
            match run.status
            case Stalled => Run(run.w, Stalled)
            case Ok(true) => Run(run.w, Ok(Some(cs)))
            case _ => Run(run.w, Ok(None))
  }

  /** The attempt loop of `execute` from attempt `attempt` on; it stops at the first run
      that succeeds. */
  function ExecuteFrom(w: World, ctx: Ctx, attempt: nat): (r: Run<Option<seq<string>>>)
    requires Good(w)
    ensures Good(r.w)
    decreases RetryLimit - attempt, 1
  {
    if attempt >= RetryLimit then Run(w, Ok(None)) else Continue(Attempt(w, ctx), ctx, attempt)
  }

  /** After attempt `attempt` ended as `t`: go on when it found no commands. */
  function Continue(t: Run<Option<seq<string>>>, ctx: Ctx, attempt: nat): (r: Run<Option<seq<string>>>)
    requires Good(t.w) && attempt < RetryLimit
    ensures Good(r.w)
    decreases RetryLimit - attempt, 0
  {
    if t.status == Ok(None) then ExecuteFrom(t.w, ctx, attempt + 1) else t
  }

  /** `execute`: the commands of the first successful run, or `None` after five attempts. */
  function Execute(w: World, ctx: Ctx): (r: Run<Option<seq<string>>>)
    requires Good(w)
    ensures Good(r.w)
  {
    ExecuteFrom(w, ctx, 0)
  }
}
