/**
 * Properties of the command runner model: what one process run reports, how the success
 * flag and the shared `retries` counter behave, that every command is attempted in order,
 * that the world only grows, and the bound of five attempts in `execute`.
 */
module RunnerFacts {
  import opened Wrappers
  import opened Json
  import opened Snapshots
  import opened Socket
  import opened AgentStateStore
  import opened FileBlocks
  import opened CodeWriting
  import opened Oracles
  import opened RunnerModel

  // ---------------------------------------------------------------- one process

  /** The output a started process yields: its chunks up to the first empty one. */
  function Collected(chunks: seq<string>): string
    decreases |chunks|
  {
    if |chunks| == 0 || chunks[0] == "" then "" else chunks[0] + Collected(chunks[1..])
  }

  /** The snapshots the reader pushes: one per chunk read, each showing the output so far. */
  function RunningStates(command: string, output: string, chunks: seq<string>, now: string): (ss: seq<Snapshot>)
    ensures |ss| <= |chunks|
    decreases |chunks|
  {
    if |chunks| == 0 || chunks[0] == "" then []
    else
      var out := output + chunks[0];
      [TerminalState(command, out, RunningMonologue(command, out), now)] + RunningStates(command, out, chunks[1..], now)
  }

  lemma {:induction false} ReadOutputPushes(w: World, ctx: Ctx, command: string, output: string, chunks: seq<string>)
    requires Good(w)
    ensures var ss := RunningStates(command, output, chunks, ctx.now);
      ReadOutput(w, ctx, command, output, chunks)
        == (w.(stacks := PushedAll(w.stacks, ctx.project, ss),
               events := w.events + PushEvents(w.stacks, ctx.project, ss)),
            output + Collected(chunks))
    decreases |chunks|
  {
    if |chunks| == 0 || chunks[0] == "" {
      ReadOutputStops(w, ctx, command, output, chunks);
    } else {
      var out := output + chunks[0];
      var s0 := TerminalState(command, out, RunningMonologue(command, out), ctx.now);
      var rest := RunningStates(command, out, chunks[1..], ctx.now);
      var m1 := Pushed(w.stacks, ctx.project, s0);
      var w1 := UpdateState(w, ctx, command, out, RunningMonologue(command, out));
      ReadOutputPushes(w1, ctx, command, out, chunks[1..]);
      PushCons(w.stacks, ctx.project, s0, rest);
      assert RunningStates(command, output, chunks, ctx.now) == [s0] + rest;
      CollectedCons(output, chunks);
      var e := AgentStateEvt(m1[ctx.project]);
      assert w1 == w.(stacks := m1, events := w.events + [e]);
      PushRegroup(w, w1, m1, e, PushedAll(m1, ctx.project, rest), PushEvents(m1, ctx.project, rest));
    }
  }

  lemma CollectedCons(output: string, chunks: seq<string>)
    requires |chunks| > 0 && chunks[0] != ""
    ensures output + chunks[0] + Collected(chunks[1..]) == output + Collected(chunks)
  {
  }

  /** A push, then the pushes after it, is the pushes with its event put first. */
  lemma PushRegroup(w: World, w1: World, m1: Stacks, e: Event, m: Stacks, es: seq<Event>)
    requires w1 == w.(stacks := m1, events := w.events + [e])
    ensures w1.(stacks := m, events := w1.events + es) == w.(stacks := m, events := w.events + ([e] + es))
  {
  }

  /** Pushing a list of snapshots pushes its first, then the others. */
  lemma PushCons(m: Stacks, p: string, s0: Snapshot, rest: seq<Snapshot>)
    requires Stacked(m)
    ensures PushedAll(m, p, [s0] + rest) == PushedAll(Pushed(m, p, s0), p, rest)
    ensures PushEvents(m, p, [s0] + rest) == [AgentStateEvt(Pushed(m, p, s0)[p])] + PushEvents(Pushed(m, p, s0), p, rest)
  {
    assert ([s0] + rest)[0] == s0 && ([s0] + rest)[1..] == rest;
  }

  /** At the end of the output the reader pushes nothing. */
  lemma ReadOutputStops(w: World, ctx: Ctx, command: string, output: string, chunks: seq<string>)
    requires Good(w) && (|chunks| == 0 || chunks[0] == "")
    ensures var ss := RunningStates(command, output, chunks, ctx.now);
      ReadOutput(w, ctx, command, output, chunks)
        == (w.(stacks := PushedAll(w.stacks, ctx.project, ss),
               events := w.events + PushEvents(w.stacks, ctx.project, ss)),
            output + Collected(chunks))
  {
    var ss := RunningStates(command, output, chunks, ctx.now);
    assert ss == [];
    assert PushedAll(w.stacks, ctx.project, ss) == w.stacks;
    assert PushEvents(w.stacks, ctx.project, ss) == [];
    assert Collected(chunks) == "";
    assert ReadOutput(w, ctx, command, output, chunks) == (w, output);
    assert output + "" == output;
    assert w.events + [] == w.events;
  }

  /** Each snapshot the reader pushes shows the command and everything read up to it. */
  lemma {:induction false} RunningStatesShowOutput(command: string, output: string, chunks: seq<string>, now: string)
    ensures var ss := RunningStates(command, output, chunks, now);
      forall k :: 0 <= k < |ss| ==>
        ss[k].terminal == Terminal(Some(command), Some(output + Collected(chunks[..k + 1])), Some("Terminal"))
    decreases |chunks|
  {
    var ss := RunningStates(command, output, chunks, now);
    if |chunks| > 0 && chunks[0] != "" {
      var out := output + chunks[0];
      RunningStatesShowOutput(command, out, chunks[1..], now);
      forall k | 0 <= k < |ss|
        ensures ss[k].terminal == Terminal(Some(command), Some(output + Collected(chunks[..k + 1])), Some("Terminal"))
      {
        var c := chunks[..k + 1];
        assert c[0] == chunks[0] && c[1..] == chunks[1..][..k];
        assert Collected(c) == chunks[0] + Collected(chunks[1..][..k]);
        assert output + Collected(c) == out + Collected(chunks[1..][..k]);
        if k == 0 {
          assert chunks[1..][..0] == [];
          assert out + Collected(chunks[1..][..k]) == out;
        } else {
          assert ss[k] == RunningStates(command, out, chunks[1..], now)[k - 1];
          assert chunks[1..][..k - 1 + 1] == chunks[1..][..k];
        }
      }
    }
  }

  /** A started process is reported as not failed, whatever its exit status; its output is
      everything it printed; its pid is registered, announced, then removed and announced. */
  lemma ExecuteSpawned(w: World, ctx: Ctx, command: string)
    requires Good(w) && |w.spawns| > 0 && w.spawns[0].Spawned?
    ensures var Spawned(pid, chunks, _) := w.spawns[0];
      var ss := RunningStates(command, "", chunks, ctx.now);
      var r := ExecuteSubprocess(w, ctx, command);
      r.status == Ok((Collected(chunks), false))
      && r.w.procs == w.procs - {pid}
      && (pid !in w.procs ==> r.w.procs == w.procs)
      && r.w.stacks == PushedAll(w.stacks, ctx.project, ss)
      && r.w.events == w.events + [PidEvt(command, pid)] + PushEvents(w.stacks, ctx.project, ss) + [PidKilledEvt(pid)]
      && r.w.spawns == w.spawns[1..] && r.w.executed == w.executed + [command] && r.w.llm == w.llm
  {
    var Spawned(pid, chunks, _) := w.spawns[0];
    var w0 := w.(spawns := w.spawns[1..], executed := w.executed + [command]);
    var w1 := w0.(procs := w0.procs[pid := command], events := w0.events + [PidEvt(command, pid)]);
    ReadOutputPushes(w1, ctx, command, "", chunks);
    assert "" + Collected(chunks) == Collected(chunks);
  }

  /** A start that raises is reported as failed with the exception text, and nothing is registered. */
  lemma ExecuteSpawnFailed(w: World, ctx: Ctx, command: string)
    requires Good(w) && |w.spawns| > 0 && w.spawns[0].SpawnFailed?
    ensures var r := ExecuteSubprocess(w, ctx, command);
      r.status == Ok((w.spawns[0].error, true))
      && r.w == w.(spawns := w.spawns[1..], executed := w.executed + [command])
  {
  }

  // ---------------------------------------------------------------- success and retries

  /** The repair loop leaves `retries` within [retries, 2] when it starts at most 2 (so a
      `run_code` call sees at most two failing reruns); once entered it clears `success`
      and consumes at least one reply; not entered, it changes nothing. */
  lemma {:induction false} RepairOutcome(w: World, ctx: Ctx, commands: seq<string>, command: string, output: string,
                                         failed: bool, retries: nat, success: bool)
    requires Good(w) && |commands| > 0
    ensures var rr := Repair(w, ctx, commands, command, output, failed, retries, success);
      rr.status.Ok? ==>
        retries <= rr.status.value.0 && (retries <= 2 ==> rr.status.value.0 <= 2)
        && (failed && retries < 2 ==> !rr.status.value.1 && |rr.w.llm| < |w.llm|)
        && (!(failed && retries < 2) ==> rr.status.value == (retries, success) && rr.w == w)
    decreases |w.llm|
  {
    if failed && retries < 2 {
      var t := Rerun(w, ctx, commands, command, output, retries);
      if t.status.Ok? {
        var (next, out, nextFailed) := t.status.value;
        RepairOutcome(t.w, ctx, commands, next, out, nextFailed, retries + (if nextFailed then 1 else 0), false);
      }
    }
  }

  /** `run_code` reports success exactly when no command failed while a repair was still
      allowed, i.e. exactly when it consumed no reply; one failure makes it false for good,
      even when a later rerun succeeds. */
  lemma {:induction false} RunOutcome(w: World, ctx: Ctx, commands: seq<string>, i: nat, retries: nat, success: bool)
    requires Good(w) && i <= |commands|
    requires retries < 2 || !success
    ensures var r := RunFrom(w, ctx, commands, i, retries, success);
      r.status.Ok? ==> (r.status.value <==> success && |r.w.llm| == |w.llm|)
    decreases |commands| - i
  {
    if i < |commands| {
      var e := ExecuteSubprocess(w, ctx, commands[i]);
      if e.status.Ok? {
        var (output, failed) := e.status.value;
        var rr := Repair(e.w, ctx, commands, commands[i], output, failed, retries, success);
        RepairOutcome(e.w, ctx, commands, commands[i], output, failed, retries, success);
        if rr.status.Ok? {
          var (retries', success') := rr.status.value;
          RunOutcome(rr.w, ctx, commands, i + 1, retries', success');
        }
      }
    }
  }

  /** With every process starting, `run_code` runs each command once, in order, consumes
      no reply and returns the flag it started with: a command that exits with an error
      status still counts as a success. */
  lemma {:induction false} RunAllStarted(w: World, ctx: Ctx, commands: seq<string>, i: nat, retries: nat, success: bool)
    requires Good(w) && i <= |commands|
    requires |commands| - i <= |w.spawns|
    requires forall j :: 0 <= j < |commands| - i ==> w.spawns[j].Spawned?
    ensures var r := RunFrom(w, ctx, commands, i, retries, success);
      r.status == Ok(success) && r.w.llm == w.llm
      && r.w.executed == w.executed + commands[i..] && r.w.spawns == w.spawns[|commands| - i..]
    decreases |commands| - i
  {
    if i < |commands| {
      var e := ExecuteSubprocess(w, ctx, commands[i]);
      assert e.status.Ok? && !e.status.value.1 && e.w.spawns == w.spawns[1..]
        && e.w.executed == w.executed + [commands[i]] && e.w.llm == w.llm by {
        ExecuteSpawned(w, ctx, commands[i]);
      }
      RunFromClean(w, ctx, commands, i, retries, success);
      assert forall j :: 0 <= j < |commands| - (i + 1) ==> e.w.spawns[j].Spawned? by {
        forall j | 0 <= j < |commands| - (i + 1) ensures e.w.spawns[j].Spawned? {
          assert e.w.spawns[j] == w.spawns[j + 1];
        }
      }
      RunAllStarted(e.w, ctx, commands, i + 1, retries, success);
      StartedTails(w.executed, commands, i, w.spawns);
    } else {
      assert w.executed + commands[i..] == w.executed;
    }
  }

  /** A command that runs without failing goes straight on to the next one. */
  lemma RunFromClean(w: World, ctx: Ctx, commands: seq<string>, i: nat, retries: nat, success: bool)
    requires Good(w) && i < |commands|
    requires var e := ExecuteSubprocess(w, ctx, commands[i]); e.status.Ok? && !e.status.value.1
    ensures RunFrom(w, ctx, commands, i, retries, success)
      == RunFrom(ExecuteSubprocess(w, ctx, commands[i]).w, ctx, commands, i + 1, retries, success)
  {
  }

  lemma StartedTails(executed: seq<string>, commands: seq<string>, i: nat, spawns: seq<Spawn>)
    requires i < |commands| && |commands| - i <= |spawns|
    ensures executed + [commands[i]] + commands[i + 1..] == executed + commands[i..]
    ensures spawns[1..][|commands| - (i + 1)..] == spawns[|commands| - i..]
  {
    assert commands[i..] == [commands[i]] + commands[i + 1..];
  }

  // ---------------------------------------------------------------- every command, in order

  /** `xs` occurs in `ys` in order, possibly with other items in between. */
  predicate Embeds(xs: seq<string>, ys: seq<string>)
    decreases |ys|
  {
    if |xs| == 0 then true
    else if |ys| == 0 then false
    else if xs[0] == ys[0] then Embeds(xs[1..], ys[1..])
    else Embeds(xs, ys[1..])
  }

  lemma {:induction false} EmbedsPadded(xs: seq<string>, extra: seq<string>, ys: seq<string>)
    requires Embeds(xs, ys)
    ensures Embeds(xs, extra + ys)
    decreases |extra|
  {
    if |extra| > 0 && |xs| > 0 {
      EmbedsPadded(xs, extra[1..], ys);
      var zs := extra + ys;
      assert zs[0] == extra[0] && zs[1..] == extra[1..] + ys;
      if xs[0] == extra[0] {
        EmbedsWeaker(xs, extra[1..] + ys);
        assert Embeds(xs, zs) == Embeds(xs[1..], zs[1..]);
      } else {
        assert Embeds(xs, zs) == Embeds(xs, zs[1..]);
      }
    } else if |extra| == 0 {
      assert extra + ys == ys;
    }
  }

  /** Dropping the first wanted item keeps an embedding. */
  lemma {:induction false} EmbedsWeaker(xs: seq<string>, ys: seq<string>)
    requires |xs| > 0 && Embeds(xs, ys)
    ensures Embeds(xs[1..], ys)
    decreases |ys|
  {
    if xs[0] == ys[0] {
      if |xs[1..]| > 0 && |ys| > 0 {
        if xs[1..][0] == ys[0] {
          EmbedsWeaker(xs[1..], ys[1..]);
        } else {
          assert Embeds(xs[1..], ys[1..]);
        }
      }
    } else {
      EmbedsWeaker(xs, ys[1..]);
      if |xs[1..]| > 0 && xs[1..][0] == ys[0] {
        EmbedsWeaker(xs[1..], ys[1..]);
      }
    }
  }

  /** Every command of `commands[i..]` is run, in order, by a `run_code` that completes,
      with the reruns the model asked for in between. */
  lemma {:induction false} RunRunsAll(w: World, ctx: Ctx, commands: seq<string>, i: nat, retries: nat, success: bool)
    requires Good(w) && i <= |commands|
    ensures var r := RunFrom(w, ctx, commands, i, retries, success);
      w.executed <= r.w.executed
      && (r.status.Ok? ==> Embeds(commands[i..], r.w.executed[|w.executed|..]))
    decreases |commands| - i
  {
    var r := RunFrom(w, ctx, commands, i, retries, success);
    assert w.executed <= r.w.executed by {
      RunFromGrows(w, ctx, commands, i, retries, success);
    }
    if i < |commands| {
      var e := ExecuteSubprocess(w, ctx, commands[i]);
      if e.status.Ok? {
        var (output, failed) := e.status.value;
        var rr := Repair(e.w, ctx, commands, commands[i], output, failed, retries, success);
        if rr.status.Ok? {
          var (retries', success') := rr.status.value;
          var n := |w.executed|;
          assert r == AfterRepair(rr, ctx, commands, i);
          assert r == RunFrom(rr.w, ctx, commands, i + 1, retries', success');
          assert w.executed + [commands[i]] <= rr.w.executed by {
            ExecGrows(w, ctx, commands[i]);
            RepairGrows(e.w, ctx, commands, commands[i], output, failed, retries, success);
          }
          RunRunsAll(rr.w, ctx, commands, i + 1, retries', success');
          if r.status.Ok? {
            EmbedsAfterFirst(commands, i, w.executed, rr.w.executed, r.w.executed);
          }
        }
      }
    }
  }

  lemma EmbedsAfterFirst(commands: seq<string>, i: nat, x0: seq<string>, x1: seq<string>, x2: seq<string>)
    requires i < |commands| && x0 + [commands[i]] <= x1 && x1 <= x2
    requires Embeds(commands[i + 1..], x2[|x1|..])
    ensures Embeds(commands[i..], x2[|x0|..])
  {
    var n := |x0|;
    var tail := x2[|x1|..];
    var between := x1[n + 1..];
    assert x2[n..] == [commands[i]] + (between + tail) by {
      assert x2 == x1 + tail;
      assert x1 == x0 + [commands[i]] + between;
    }
    EmbedsPadded(commands[i + 1..], between, tail);
    assert commands[i..][0] == commands[i] && commands[i..][1..] == commands[i + 1..];
  }

  // ---------------------------------------------------------------- the world only grows

  /** `xs` is what is left of `ys` after some items were taken from its front. */
  ghost predicate IsSuffix<T>(xs: seq<T>, ys: seq<T>) {
    |xs| <= |ys| && xs == ys[|ys| - |xs|..]
  }

  /** No project's stack loses or changes a snapshot. */
  predicate StacksGrow(a: Stacks, b: Stacks) {
    forall q :: q in a ==> q in b && a[q] <= b[q]
  }

  /** What a step of the runner may do to the world: push snapshots, broadcast, forget
      processes, consume replies and process outcomes, and log commands, never undo. */
  ghost predicate Grows(a: World, b: World) {
    StacksGrow(a.stacks, b.stacks) && a.events <= b.events
    && (forall pid :: pid in b.procs ==> pid in a.procs && b.procs[pid] == a.procs[pid])
    && IsSuffix(b.llm, a.llm) && IsSuffix(b.spawns, a.spawns) && a.executed <= b.executed
  }

  lemma SuffixTrans<T>(xs: seq<T>, ys: seq<T>, zs: seq<T>)
    requires IsSuffix(xs, ys) && IsSuffix(ys, zs)
    ensures IsSuffix(xs, zs)
  {
    assert zs[|zs| - |ys|..][|ys| - |xs|..] == zs[|zs| - |xs|..];
  }

  lemma GrowsTrans(a: World, b: World, c: World)
    requires Grows(a, b) && Grows(b, c)
    ensures Grows(a, c)
  {
    SuffixTrans(c.llm, b.llm, a.llm);
    SuffixTrans(c.spawns, b.spawns, a.spawns);
  }

  lemma {:induction false} PushedAllGrows(m: Stacks, p: string, ss: seq<Snapshot>)
    requires Stacked(m)
    ensures StacksGrow(m, PushedAll(m, p, ss))
    decreases |ss|
  {
    if |ss| > 0 {
      var m1 := Pushed(m, p, ss[0]);
      PushedAllGrows(m1, p, ss[1..]);
      assert StacksGrow(m, m1);
    }
  }

  lemma {:induction false} GenerateSuffix(replies: seq<Reply>, normpath: string -> string)
    ensures IsSuffix(Generate(replies, normpath).1, replies)
    decreases |replies|
  {
    if |replies| > 0 && replies[0].Reply? && Rejected(replies[0].text, normpath) {
      GenerateSuffix(replies[1..], normpath);
      SuffixTrans(Generate(replies, normpath).1, replies[1..], replies);
    }
  }

  lemma UpdateStateGrows(w: World, ctx: Ctx, command: string, output: string, monologue: string)
    requires Good(w)
    ensures Grows(w, UpdateState(w, ctx, command, output, monologue))
  {
    assert StacksGrow(w.stacks, Pushed(w.stacks, ctx.project, TerminalState(command, output, monologue, ctx.now)));
  }

  lemma ExecGrows(w: World, ctx: Ctx, command: string)
    requires Good(w)
    ensures var r := ExecuteSubprocess(w, ctx, command);
      Grows(w, r.w) && (r.status.Ok? ==> r.w.executed == w.executed + [command] && |r.w.spawns| < |w.spawns|)
  {
    if |w.spawns| > 0 && w.spawns[0].Spawned? {
      ExecuteSpawned(w, ctx, command);
      PushedAllGrows(w.stacks, ctx.project, RunningStates(command, "", w.spawns[0].chunks, ctx.now));
    }
  }

  lemma PatchGrows(w: World, ctx: Ctx)
    requires Good(w)
    ensures Grows(w, Patch(w, ctx).w)
  {
    GenerateSuffix(w.llm, ctx.normpath);
    var (st, rest) := Generate(w.llm, ctx.normpath);
    if st.Ok? {
      PushedAllGrows(w.stacks, ctx.project, WritingStates(st.value, Browser(None, None), ctx.now));
    }
  }

  lemma {:induction false} HandleRerunGrows(w: World, ctx: Ctx, commands: seq<string>, retries: nat)
    requires Good(w) && |commands| > 0
    ensures Grows(w, HandleRerun(w, ctx, commands, retries).w)
    decreases |w.llm|, 0, 0, 0
  {
    if |w.llm| > 0 {
      var w1 := w.(llm := w.llm[1..]);
      assert Grows(w, w1);
      if w.llm[0].Reply? {
        match ValidateRerunner(w.llm[0].text, ctx.decode)
        case BadDecision =>
        case NoDecision =>
          RunFromGrows(w1, ctx, commands, 0, retries, true);
          GrowsTrans(w, w1, RunFrom(w1, ctx, commands, 0, retries, true).w);
        case Decision(fields) =>
          if fields["action"] != JStr("command") && fields["action"] == JStr("patch") {
            PatchGrows(w1, ctx);
            GrowsTrans(w, w1, Patch(w1, ctx).w);
          }
      }
    }
  }

  /** On a "command" decision `handle_rerun` uses one reply and reruns the command the
      decision names, with the model's explanation; a missing or non-string "command"
      raises. */
  lemma CommandDecisionReruns(w: World, ctx: Ctx, commands: seq<string>, retries: nat)
    requires Good(w) && |commands| > 0 && |w.llm| > 0 && w.llm[0].Reply?
    requires ValidateRerunner(w.llm[0].text, ctx.decode).Decision?
    requires ValidateRerunner(w.llm[0].text, ctx.decode).fields["action"] == JStr("command")
    ensures var f := ValidateRerunner(w.llm[0].text, ctx.decode).fields;
      var w1 := w.(llm := w.llm[1..]);
      HandleRerun(w, ctx, commands, retries)
        == if "command" in f && f["command"].JStr?
           then Run(w1, Ok((f["command"].s, f["response"])))
           else Run(w1, Raised)
  {
  }

  /** On a "patch" decision `handle_rerun` reruns the first command of the list, whichever
      command failed, once the patcher has produced files; the model's explanation goes
      with it. */
  lemma PatchRerunsFirst(w: World, ctx: Ctx, commands: seq<string>, retries: nat)
    requires Good(w) && |commands| > 0 && |w.llm| > 0 && w.llm[0].Reply?
    requires ValidateRerunner(w.llm[0].text, ctx.decode).Decision?
    requires ValidateRerunner(w.llm[0].text, ctx.decode).fields["action"] == JStr("patch")
    ensures var h := HandleRerun(w, ctx, commands, retries);
      var fields := ValidateRerunner(w.llm[0].text, ctx.decode).fields;
      (h.status.Ok? <==> Patch(w.(llm := w.llm[1..]), ctx).status.Ok?)
      && (h.status.Ok? ==> h.status.value == (commands[0], fields["response"]))
  {
  }

  lemma {:induction false} RerunGrows(w: World, ctx: Ctx, commands: seq<string>, command: string, output: string, retries: nat)
    requires Good(w) && |commands| > 0
    ensures Grows(w, Rerun(w, ctx, commands, command, output, retries).w)
    decreases |w.llm|, 0, 0, 1
  {
    var w1 := UpdateState(w, ctx, command, output, ErrorMonologue(command, output));
    UpdateStateGrows(w, ctx, command, output, ErrorMonologue(command, output));
    var h := HandleRerun(w1, ctx, commands, retries);
    HandleRerunGrows(w1, ctx, commands, retries);
    GrowsTrans(w, w1, h.w);
    if h.status.Ok? {
      var (next, response) := h.status.value;
      var w2 := h.w.(events := h.w.events + [ChatMessage(ctx.project, response)]);
      assert Grows(h.w, w2);
      GrowsTrans(w, h.w, w2);
      var e := ExecuteSubprocess(w2, ctx, next);
      ExecGrows(w2, ctx, next);
      GrowsTrans(w, w2, e.w);
      if e.status.Ok? {
        UpdateStateGrows(e.w, ctx, next, e.status.value.0, DefaultMonologue);
        GrowsTrans(w, e.w, UpdateState(e.w, ctx, next, e.status.value.0, DefaultMonologue));
      }
    }
  }

  lemma {:induction false} RepairGrows(w: World, ctx: Ctx, commands: seq<string>, command: string, output: string,
                                       failed: bool, retries: nat, success: bool)
    requires Good(w) && |commands| > 0
    ensures Grows(w, Repair(w, ctx, commands, command, output, failed, retries, success).w)
    decreases |w.llm|, 1, 0, 0
  {
    if failed && retries < 2 {
      var t := Rerun(w, ctx, commands, command, output, retries);
      RerunGrows(w, ctx, commands, command, output, retries);
      if t.status.Ok? {
        var (next, out, nextFailed) := t.status.value;
        var retries' := retries + (if nextFailed then 1 else 0);
        RepairGrows(t.w, ctx, commands, next, out, nextFailed, retries', false);
        GrowsTrans(w, t.w, Repair(t.w, ctx, commands, next, out, nextFailed, retries', false).w);
      }
    }
  }

  lemma {:induction false} RunFromGrows(w: World, ctx: Ctx, commands: seq<string>, i: nat, retries: nat, success: bool)
    requires Good(w) && i <= |commands|
    ensures Grows(w, RunFrom(w, ctx, commands, i, retries, success).w)
    decreases |w.llm|, 2, |commands| - i, 1
  {
    if i < |commands| {
      var e := ExecuteSubprocess(w, ctx, commands[i]);
      ExecGrows(w, ctx, commands[i]);
      if e.status.Ok? {
        var (output, failed) := e.status.value;
        var rr := Repair(e.w, ctx, commands, commands[i], output, failed, retries, success);
        RepairGrows(e.w, ctx, commands, commands[i], output, failed, retries, success);
        GrowsTrans(w, e.w, rr.w);
        if rr.status.Ok? {
          var (retries', success') := rr.status.value;
          RunFromGrows(rr.w, ctx, commands, i + 1, retries', success');
          GrowsTrans(w, rr.w, RunFrom(rr.w, ctx, commands, i + 1, retries', success').w);
        }
      }
    }
  }

  lemma AttemptGrows(w: World, ctx: Ctx)
    requires Good(w)
    ensures Grows(w, Attempt(w, ctx).w)
  {
    if |w.llm| > 0 {
      var w1 := w.(llm := w.llm[1..]);
      assert Grows(w, w1);
      if !Useless(w.llm[0], ctx.decode) {
        var cs := ValidateCommands(w.llm[0].text, ctx.decode).list;
        RunFromGrows(w1, ctx, cs, 0, 0, true);
        GrowsTrans(w, w1, RunCode(w1, ctx, cs, 0).w);
      }
    }
  }

  lemma {:induction false} ExecuteGrows(w: World, ctx: Ctx, attempt: nat)
    requires Good(w)
    ensures Grows(w, ExecuteFrom(w, ctx, attempt).w)
    decreases RetryLimit - attempt, 1
  {
    if attempt < RetryLimit {
      var t := Attempt(w, ctx);
      AttemptGrows(w, ctx);
      ContinueGrows(t, ctx, attempt);
      GrowsTrans(w, t.w, Continue(t, ctx, attempt).w);
    } else {
      GrowsRefl(w);
    }
  }

  lemma {:induction false} ContinueGrows(t: Run<Option<seq<string>>>, ctx: Ctx, attempt: nat)
    requires Good(t.w) && attempt < RetryLimit
    ensures Grows(t.w, Continue(t, ctx, attempt).w)
    decreases RetryLimit - attempt, 0
  {
    if t.status == Ok(None) {
      ExecuteGrows(t.w, ctx, attempt + 1);
    } else {
      GrowsRefl(t.w);
    }
  }

  /** Doing nothing is growing. */
  lemma GrowsRefl(w: World)
    ensures Grows(w, w)
  {
    assert w.llm[|w.llm| - |w.llm|..] == w.llm;
    assert w.spawns[|w.spawns| - |w.spawns|..] == w.spawns;
  }

  // ---------------------------------------------------------------- five attempts

  /** A reply that ends an attempt before anything runs: the model call raised, or the
      reply holds no usable command list. */
  predicate Useless(reply: Reply, decode: Decoder) {
    reply.Unavailable? || (var c := ValidateCommands(reply.text, decode); c.BadCommands? || |c.list| == 0)
  }

  /** When every remaining attempt gets a useless reply, `execute` gives up with `None`
      after exactly the attempts left, and runs nothing. */
  lemma {:induction false} ExecuteGivesUp(w: World, ctx: Ctx, attempt: nat)
    requires Good(w) && attempt <= RetryLimit && RetryLimit - attempt <= |w.llm|
    requires forall j :: 0 <= j < RetryLimit - attempt ==> Useless(w.llm[j], ctx.decode)
    ensures ExecuteFrom(w, ctx, attempt) == Run(w.(llm := w.llm[RetryLimit - attempt..]), Ok(None))
    decreases RetryLimit - attempt
  {
    if attempt < RetryLimit {
      var w1 := w.(llm := w.llm[1..]);
      ExecuteUseless(w, ctx, attempt);
      UselessShift(w.llm, ctx.decode, RetryLimit - attempt);
      ExecuteGivesUp(w1, ctx, attempt + 1);
      assert w.llm[1..][RetryLimit - (attempt + 1)..] == w.llm[RetryLimit - attempt..];
    } else {
      assert w.llm[0..] == w.llm;
    }
  }

  /** A useless reply ends the attempt at once, consumed, and the next attempt follows. */
  lemma ExecuteUseless(w: World, ctx: Ctx, attempt: nat)
    requires Good(w) && attempt < RetryLimit && |w.llm| > 0 && Useless(w.llm[0], ctx.decode)
    ensures ExecuteFrom(w, ctx, attempt) == ExecuteFrom(w.(llm := w.llm[1..]), ctx, attempt + 1)
  {
    assert Attempt(w, ctx) == Run(w.(llm := w.llm[1..]), Ok(None));
  }

  lemma UselessShift(replies: seq<Reply>, decode: Decoder, n: nat)
    requires 0 < n <= |replies| && forall j :: 0 <= j < n ==> Useless(replies[j], decode)
    ensures forall j :: 0 <= j < n - 1 ==> Useless(replies[1..][j], decode)
  {
    forall j | 0 <= j < n - 1 ensures Useless(replies[1..][j], decode) {
      assert replies[1..][j] == replies[j + 1];
    }
  }

  /** A successful attempt returns the list it ran: non-empty, every command run in order. */
  lemma AttemptFound(w: World, ctx: Ctx)
    requires Good(w)
    ensures var t := Attempt(w, ctx);
      w.executed <= t.w.executed
      && (t.status.Ok? && t.status.value.Some? ==>
            |t.status.value.value| > 0 && Embeds(t.status.value.value, t.w.executed[|w.executed|..]))
  {
    AttemptGrows(w, ctx);
    if |w.llm| > 0 && !Useless(w.llm[0], ctx.decode) {
      var w1 := w.(llm := w.llm[1..]);
      var cs := ValidateCommands(w.llm[0].text, ctx.decode).list;
      RunRunsAll(w1, ctx, cs, 0, 0, true);
      assert cs[0..] == cs;
    }
  }

  /** The commands `execute` returns are non-empty, and were all run, in order, after the
      call started. */
  lemma {:induction false} ExecuteFound(w: World, ctx: Ctx, attempt: nat)
    requires Good(w)
    ensures var r := ExecuteFrom(w, ctx, attempt);
      w.executed <= r.w.executed
      && (r.status.Ok? && r.status.value.Some? ==>
            |r.status.value.value| > 0 && Embeds(r.status.value.value, r.w.executed[|w.executed|..]))
    decreases RetryLimit - attempt
  {
    if attempt < RetryLimit {
      var t := Attempt(w, ctx);
      AttemptFound(w, ctx);
      if t.status == Ok(None) {
        var r := ExecuteFrom(t.w, ctx, attempt + 1);
        ExecuteFound(t.w, ctx, attempt + 1);
        if r.status.Ok? && r.status.value.Some? {
          EmbedsLater(r.status.value.value, w.executed, t.w.executed, r.w.executed);
        }
      }
    }
  }

  lemma EmbedsLater(xs: seq<string>, x0: seq<string>, x1: seq<string>, x2: seq<string>)
    requires x0 <= x1 <= x2 && Embeds(xs, x2[|x1|..])
    ensures Embeds(xs, x2[|x0|..])
  {
    assert x2[|x0|..] == x1[|x0|..] + x2[|x1|..];
    EmbedsPadded(xs, x1[|x0|..], x2[|x1|..]);
  }
}
