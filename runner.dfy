/**
 * The runner agent of `src/agents/runner/runner.py` as a class over the shared stores: the
 * agent-state store (with its broadcast channel), the process registry, the model's
 * replies still to come and the outcomes of the processes it will start. Every method is
 * proved to leave the stores as the corresponding function of `RunnerModel` says.
 */
module Runner {
  import opened Wrappers
  import opened Json
  import opened Socket
  import opened AgentStateStore
  import opened Processes
  import opened CodeWriting
  import opened Oracles
  import opened RunnerModel

  class Runner {
    const store: AgentState
    const table: ProcessTable
    /** The replies the model will give, in order. */
    var llm: seq<Reply>
    /** What each process started from now on will do, in order. */
    var spawns: seq<Spawn>
    /** Every command handed to the shell, in order. */
    var executed: seq<string>

    ghost predicate Valid()
      reads this, store
    {
      store.Valid()
    }

    /** The stores as one `World`. */
    ghost function View(): World
      reads this, store, store.sink, table
    {
      World(store.stacks, store.sink.events, table.procs, llm, spawns, executed)
    }

    constructor (store: AgentState, table: ProcessTable, llm: seq<Reply>, spawns: seq<Spawn>)
      requires store.Valid()
      ensures Valid() && this.store == store && this.table == table
      ensures this.llm == llm && this.spawns == spawns && executed == []
    {
      this.store := store;
      this.table := table;
      this.llm := llm;
      this.spawns := spawns;
      executed := [];
    }

    /** `update_state`. */
    method UpdateState(ctx: Ctx, command: string, output: string, monologue: string)
      requires Valid()
      modifies store, store.sink
      ensures Valid() && View() == RunnerModel.UpdateState(old(View()), ctx, command, output, monologue)
    {
      store.AddToCurrentState(ctx.project, TerminalState(command, output, monologue, ctx.now));
    }

    /** `execute_subprocess` and the `result_queue.get()` after it. */
    method ExecuteSubprocess(ctx: Ctx, command: string) returns (status: Status<(string, bool)>)
      requires Valid()
      modifies this, store, store.sink, table
      ensures Valid()
      ensures Run(View(), status) == RunnerModel.ExecuteSubprocess(old(View()), ctx, command)
    {
      if |spawns| == 0 {
        return Stalled;
      }
      var spawn := spawns[0];
      spawns := spawns[1..];
      executed := executed + [command];
      match spawn
      case SpawnFailed(e) =>
        return Ok((e, true));
      case Spawned(pid, chunks, _) =>
        table.procs := table.procs[pid := command];
        store.sink.Emit(PidEvt(command, pid));
        ghost var w1 := View();
        var output := "";
        var i := 0;
        while i < |chunks| && chunks[i] != ""
          invariant 0 <= i <= |chunks|
          invariant Valid()
          invariant ReadOutput(View(), ctx, command, output, chunks[i..]) == ReadOutput(w1, ctx, command, "", chunks)
          decreases |chunks| - i
        {
          assert chunks[i..][0] == chunks[i] && chunks[i..][1..] == chunks[i + 1..];
          output := output + chunks[i];
          UpdateState(ctx, command, output, RunningMonologue(command, output));
          i := i + 1;
        }
        table.procs := table.procs - {pid};
        store.sink.Emit(PidKilledEvt(pid));
        status := Ok((output, false));
    }

    /** `handle_rerun`: ask the model what to do about a failed command. */
    method HandleRerun(ctx: Ctx, commands: seq<string>, retries: nat) returns (status: Status<(string, Json)>)
      requires Valid() && |commands| > 0
      modifies this, store, store.sink, table
      ensures Valid()
      ensures Run(View(), status) == RunnerModel.HandleRerun(old(View()), ctx, commands, retries)
      decreases |llm|, 0, 0
    {
      if |llm| == 0 {
        return Stalled;
      }
      var reply := llm[0];
      llm := llm[1..];
      match reply
      case Unavailable =>
        return Raised;
      case Reply(text) =>
        match ValidateRerunner(text, ctx.decode)
        case BadDecision =>
          return Raised;
        case NoDecision =>
          var nested := RunCode(ctx, commands, retries);
          status := if nested.Stalled? then Stalled else Raised;
        case Decision(fields) =>
          var action := fields["action"];
          var response := fields["response"];
          if action == JStr("command") {
            if "command" in fields && fields["command"].JStr? {
              return Ok((fields["command"].s, response));
            }
            return Raised;
          } else if action == JStr("patch") {
            var patched, rest := CodeWriting.Execute(store, Patcher, llm, ctx.project, ctx.now, ctx.normpath);
            llm := rest;
            match patched
            case Ok(_) => status := Ok((commands[0], response));
            case Raised => status := Raised;
            case Stalled => status := Stalled;
          } else {
            return Raised;
          }
    }

    /** One turn of the repair loop of `run_code`. */
    method Rerun(ctx: Ctx, commands: seq<string>, command: string, output: string, retries: nat)
      returns (status: Status<(string, string, bool)>)
      requires Valid() && |commands| > 0
      modifies this, store, store.sink, table
      ensures Valid()
      ensures Run(View(), status) == RunnerModel.Rerun(old(View()), ctx, commands, command, output, retries)
      decreases |llm|, 0, 1
    {
      UpdateState(ctx, command, output, ErrorMonologue(command, output));
      var rerun := HandleRerun(ctx, commands, retries);
      if !rerun.Ok? {
        return if rerun.Raised? then Raised else Stalled;
      }
      var next := rerun.value.0;
      store.sink.Emit(ChatMessage(ctx.project, rerun.value.1));
      var run := ExecuteSubprocess(ctx, next);
      if !run.Ok? {
        return Stalled;
      }
      UpdateState(ctx, next, run.value.0, DefaultMonologue);
      return Ok((next, run.value.0, run.value.1));
    }

    /** `run_code`: run the commands in order, repairing a failed one while fewer than two
        reruns have failed. */
    method RunCode(ctx: Ctx, commands: seq<string>, retries0: nat) returns (status: Status<bool>)
      requires Valid()
      modifies this, store, store.sink, table
      ensures Valid()
      ensures Run(View(), status) == RunnerModel.RunCode(old(View()), ctx, commands, retries0)
      decreases |llm|, 1, 0
    {
      ghost var goal := RunnerModel.RunCode(View(), ctx, commands, retries0);
      ghost var budget := |llm|;
      var retries := retries0;
      var success := true;
      for i := 0 to |commands|
        invariant Valid() && |llm| <= budget
        invariant RunFrom(View(), ctx, commands, i, retries, success) == goal
      {
        var command := commands[i];
        var run := ExecuteSubprocess(ctx, command);
        if !run.Ok? {
          return Stalled;
        }
        var repaired := RepairCommand(ctx, commands, command, run.value.0, run.value.1, retries, success);
        if !repaired.Ok? {
          return if repaired.Raised? then Raised else Stalled;
        }
        retries, success := repaired.value.0, repaired.value.1;
      }
      return Ok(success);
    }

    /** The repair loop of `run_code` for one command: rerun while the command fails and
        fewer than two reruns have failed. */
    method RepairCommand(ctx: Ctx, commands: seq<string>, command0: string, output0: string, failed0: bool,
                         retries0: nat, success0: bool) returns (status: Status<(nat, bool)>)
      requires Valid() && |commands| > 0
      modifies this, store, store.sink, table
      ensures Valid()
      ensures Run(View(), status) == Repair(old(View()), ctx, commands, command0, output0, failed0, retries0, success0)
      decreases |llm|, 0, 2
    {
      ghost var goal := Repair(View(), ctx, commands, command0, output0, failed0, retries0, success0);
      ghost var budget := |llm|;
      var command, output, failed, retries, success := command0, output0, failed0, retries0, success0;
      while failed && retries < 2
        invariant Valid() && |llm| <= budget
        invariant Repair(View(), ctx, commands, command, output, failed, retries, success) == goal
        decreases |llm|
      {
        success := false;
        var turn := Rerun(ctx, commands, command, output, retries);
        if !turn.Ok? {
          return if turn.Raised? then Raised else Stalled;
        }
        command, output, failed := turn.value.0, turn.value.1, turn.value.2;
        retries := retries + (if failed then 1 else 0);
      }
      return Ok((retries, success));
    }

    /** One attempt of `execute`: ask for a command list and run it. */
    method Attempt(ctx: Ctx) returns (status: Status<Option<seq<string>>>)
      requires Valid()
      modifies this, store, store.sink, table
      ensures Valid()
      ensures Run(View(), status) == RunnerModel.Attempt(old(View()), ctx)
    {
      if |llm| == 0 {
        return Stalled;
      }
      var reply := llm[0];
      llm := llm[1..];
      if reply.Reply? {
        var valid := ValidateCommands(reply.text, ctx.decode);
        if valid.Commands? && |valid.list| > 0 {
          var success := RunCode(ctx, valid.list, 0);
          if success.Stalled? {
            return Stalled;
          }
          if success == Ok(true) {
            return Ok(Some(valid.list));
          }
        }
      }
      return Ok(None);
    }

    /** `execute`: up to five attempts at getting a command list that runs successfully. */
    method Execute(ctx: Ctx) returns (status: Status<Option<seq<string>>>)
      requires Valid()
      modifies this, store, store.sink, table
      ensures Valid()
      ensures Run(View(), status) == RunnerModel.Execute(old(View()), ctx)
    {
      ghost var goal := RunnerModel.Execute(View(), ctx);
      var attempt := 0;
      while attempt < RetryLimit
        invariant Valid() && attempt <= RetryLimit
        invariant ExecuteFrom(View(), ctx, attempt) == goal
      {
        var found := Attempt(ctx);
        if found.Stalled? {
          return Stalled;
        }
        if found != Ok(None) {
          return found;
        }
        attempt := attempt + 1;
      }
      return Ok(None);
    }
  }
}
