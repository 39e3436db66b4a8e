/**
 * The agent-state store: every project owns a stack of snapshots, persisted as one
 * row per project and broadcast as "agent-state" after each write. The database row
 * is a map entry; the broadcast is an append to the event log.
 */
module AgentStateStore {
  import opened Wrappers
  import opened Snapshots
  import opened Socket

  type Stacks = map<string, seq<Snapshot>>

  const CompletedMonologue: string := "Agent has completed the task."

  /** Every stored stack has a top element: each writer creates a one-element stack. */
  predicate Stacked(m: Stacks) {
    forall p :: p in m ==> |m[p]| > 0
  }

  function Top(m: Stacks, p: string): Snapshot
    requires Stacked(m) && p in m
  {
    m[p][|m[p]| - 1]
  }

  /** `r` holds project `p` and agrees with `m` on every other project. */
  ghost predicate OthersKept(m: Stacks, r: Stacks, p: string) {
    p in r && forall q :: q != p ==> (q in r <==> q in m) && (q in m ==> r[q] == m[q])
  }

  /** `r[p]` keeps every element of `m[p]` except possibly the last, and has the same length. */
  predicate BelowTopKept(m: Stacks, r: Stacks, p: string)
    requires Stacked(m) && p in m && p in r
  {
    |r[p]| == |m[p]| && r[p][..|m[p]| - 1] == m[p][..|m[p]| - 1]
  }

  /** `add_to_current_state`: push on top, creating `[s]` for an unknown project. */
  function Pushed(m: Stacks, p: string, s: Snapshot): (r: Stacks)
    requires Stacked(m)
    ensures Stacked(r) && OthersKept(m, r, p) && Top(r, p) == s
    ensures p in m ==> |r[p]| == |m[p]| + 1 && r[p][..|m[p]|] == m[p]
    ensures p !in m ==> r[p] == [s]
  {
    if p in m then m[p := m[p] + [s]] else m[p := [s]]
  }

  /** `update_latest_state`: overwrite the top, creating `[s]` for an unknown project. */
  function Replaced(m: Stacks, p: string, s: Snapshot): (r: Stacks)
    requires Stacked(m)
    ensures Stacked(r) && OthersKept(m, r, p) && Top(r, p) == s
    ensures p in m ==> BelowTopKept(m, r, p)
    ensures p !in m ==> r[p] == [s]
  {
    if p in m then m[p := m[p][..|m[p]| - 1] + [s]] else m[p := [s]]
  }

  /** `set_agent_active`: only the top's `agent_is_active` flag changes. */
  function SetActive(m: Stacks, p: string, b: bool, now: string): (r: Stacks)
    requires Stacked(m)
    ensures Stacked(r) && OthersKept(m, r, p)
    ensures p in m ==> BelowTopKept(m, r, p) && Top(r, p) == Top(m, p).(active := b)
    ensures p !in m ==> r[p] == [NewState(now).(active := b)]
  {
    Replaced(m, p, if p in m then Top(m, p).(active := b) else NewState(now).(active := b))
  }

  /** `set_agent_completed`: the flag and, on an existing stack only, the monologue change. */
  function SetCompleted(m: Stacks, p: string, b: bool, now: string): (r: Stacks)
    requires Stacked(m)
    ensures Stacked(r) && OthersKept(m, r, p)
    ensures p in m ==>
      BelowTopKept(m, r, p) && Top(r, p) == Top(m, p).(monologue := Some(CompletedMonologue), completed := b)
    ensures p !in m ==> r[p] == [NewState(now).(completed := b)] && Top(r, p).monologue == None
  {
    Replaced(m, p,
      if p in m then Top(m, p).(monologue := Some(CompletedMonologue), completed := b)
      else NewState(now).(completed := b))
  }

  /** `update_token_usage`: add `n` to the top's count, or start a stack whose count is `n`. */
  function AddTokens(m: Stacks, p: string, n: int, now: string): (r: Stacks)
    requires Stacked(m)
    ensures Stacked(r) && OthersKept(m, r, p)
    ensures p in m ==>
      BelowTopKept(m, r, p) && Top(r, p) == Top(m, p).(tokenUsage := Top(m, p).tokenUsage + n)
    ensures p !in m ==> r[p] == [NewState(now).(tokenUsage := n)]
  {
    Replaced(m, p,
      if p in m then Top(m, p).(tokenUsage := Top(m, p).tokenUsage + n)
      else NewState(now).(tokenUsage := n))
  }

  /** `get_latest_state`: nothing for an empty project name or an unknown project. */
  function LatestOf(m: Stacks, p: string): (r: Option<Snapshot>)
    requires Stacked(m)
    ensures r.Some? <==> p != "" && p in m
    ensures r.Some? ==> r.value == Top(m, p)
  {
    if p == "" || p !in m then None else Some(Top(m, p))
  }

  /** `is_agent_active` (no empty-name check, unlike `get_latest_state`). */
  function ActiveOf(m: Stacks, p: string): (r: Option<bool>)
    requires Stacked(m)
    ensures r.Some? <==> p in m
    ensures r.Some? ==> r.value == Top(m, p).active
  {
    if p in m then Some(Top(m, p).active) else None
  }

  /** `is_agent_completed`. */
  function CompletedOf(m: Stacks, p: string): (r: Option<bool>)
    requires Stacked(m)
    ensures r.Some? <==> p in m
    ensures r.Some? ==> r.value == Top(m, p).completed
  {
    if p in m then Some(Top(m, p).completed) else None
  }

  /** `get_latest_token_usage`: 0 for an unknown project. */
  function TokensOf(m: Stacks, p: string): (r: int)
    requires Stacked(m)
    ensures p !in m ==> r == 0
    ensures p in m ==> r == Top(m, p).tokenUsage
  {
    if p in m then Top(m, p).tokenUsage else 0
  }

  /** Pushing a run of snapshots one by one, as the agents do in their loops. */
  function PushedAll(m: Stacks, p: string, ss: seq<Snapshot>): (r: Stacks)
    requires Stacked(m)
    ensures Stacked(r)
    decreases |ss|
  {
    if |ss| == 0 then m else PushedAll(Pushed(m, p, ss[0]), p, ss[1..])
  }

  /** The stack of `p`, empty when the project is unknown. */
  function StackOf(m: Stacks, p: string): seq<Snapshot> {
    if p in m then m[p] else []
  }

  /** Pushing a run appends exactly that run to `p`'s stack and leaves every other project alone. */
  lemma {:induction false} PushedAllAppends(m: Stacks, p: string, ss: seq<Snapshot>)
    requires Stacked(m)
    ensures StackOf(PushedAll(m, p, ss), p) == StackOf(m, p) + ss
    ensures |ss| > 0 ==> OthersKept(m, PushedAll(m, p, ss), p)
    ensures |ss| == 0 ==> PushedAll(m, p, ss) == m
    decreases |ss|
  {
    if |ss| > 0 {
      var m1 := Pushed(m, p, ss[0]);
      assert StackOf(m1, p) == StackOf(m, p) + [ss[0]];
      PushedAllAppends(m1, p, ss[1..]);
      assert StackOf(m, p) + [ss[0]] + ss[1..] == StackOf(m, p) + ss;
    }
  }

  /** The "agent-state" broadcasts sent while a run of snapshots is pushed: each carries
      the whole stack right after its push. */
  function PushEvents(m: Stacks, p: string, ss: seq<Snapshot>): seq<Event>
    requires Stacked(m)
    decreases |ss|
  {
    if |ss| == 0 then [] else [AgentStateEvt(Pushed(m, p, ss[0])[p])] + PushEvents(Pushed(m, p, ss[0]), p, ss[1..])
  }

  lemma PushedStack(m: Stacks, p: string, s: Snapshot)
    requires Stacked(m)
    ensures Pushed(m, p, s)[p] == StackOf(m, p) + [s] == StackOf(Pushed(m, p, s), p)
  {
  }

  /** One broadcast per pushed snapshot; the i-th shows the old stack followed by the first i+1 snapshots. */
  lemma {:induction false} PushEventsShape(m: Stacks, p: string, ss: seq<Snapshot>)
    requires Stacked(m)
    ensures |PushEvents(m, p, ss)| == |ss|
    ensures forall i :: 0 <= i < |ss| ==> PushEvents(m, p, ss)[i] == AgentStateEvt(StackOf(m, p) + ss[..i + 1])
    decreases |ss|
  {
    if |ss| > 0 {
      var m1 := Pushed(m, p, ss[0]);
      var es1 := PushEvents(m1, p, ss[1..]);
      assert PushEvents(m, p, ss) == [AgentStateEvt(m1[p])] + es1;
      PushedStack(m, p, ss[0]);
      PushEventsShape(m1, p, ss[1..]);
      assert ss == [ss[0]] + ss[1..];
      ShapeCons(StackOf(m, p), ss[0], ss[1..], es1);
    }
  }

  /** The broadcasts after the first push show the stack with the first snapshot in it. */
  lemma ShapeCons(base: seq<Snapshot>, s0: Snapshot, rest: seq<Snapshot>, es1: seq<Event>)
    requires |es1| == |rest|
    requires forall i :: 0 <= i < |rest| ==> es1[i] == AgentStateEvt(base + [s0] + rest[..i + 1])
    ensures var es := [AgentStateEvt(base + [s0])] + es1;
      var ss := [s0] + rest;
      forall i :: 0 <= i < |ss| ==> es[i] == AgentStateEvt(base + ss[..i + 1])
  {
    var es := [AgentStateEvt(base + [s0])] + es1;
    var ss := [s0] + rest;
    forall i | 0 <= i < |ss| ensures es[i] == AgentStateEvt(base + ss[..i + 1]) {
      if i == 0 {
        assert ss[..1] == [s0];
      } else {
        assert es[i] == es1[i - 1];
        assert base + [s0] + rest[..i] == base + ss[..i + 1];
      }
    }
  }

  lemma {:induction false} PushedAllSnoc(m: Stacks, p: string, ss: seq<Snapshot>, s: Snapshot)
    requires Stacked(m)
    ensures PushedAll(m, p, ss + [s]) == Pushed(PushedAll(m, p, ss), p, s)
    ensures PushEvents(m, p, ss + [s]) == PushEvents(m, p, ss) + [AgentStateEvt(Pushed(PushedAll(m, p, ss), p, s)[p])]
    decreases |ss|
  {
    if |ss| == 0 {
      assert ss + [s] == [s];
    } else {
      assert (ss + [s])[1..] == ss[1..] + [s];
      PushedAllSnoc(Pushed(m, p, ss[0]), p, ss[1..], s);
    }
  }

  /** After a non-empty run of pushes the project exists and its top is the last snapshot pushed. */
  lemma PushedAllTop(m: Stacks, p: string, ss: seq<Snapshot>)
    requires Stacked(m) && |ss| > 0
    ensures p in PushedAll(m, p, ss) && Top(PushedAll(m, p, ss), p) == ss[|ss| - 1]
  {
    PushedAllAppends(m, p, ss);
  }

  /** `get_latest_token_usage` grows by exactly `n` on every `update_token_usage(n)`,
      whether or not the project existed before. */
  lemma TokensAdd(m: Stacks, p: string, n: int, now: string)
    requires Stacked(m)
    ensures TokensOf(AddTokens(m, p, n, now), p) == TokensOf(m, p) + n
  {
  }

  function Sum(ns: seq<int>): int {
    if |ns| == 0 then 0 else ns[0] + Sum(ns[1..])
  }

  /** A series of `update_token_usage` calls on one project. */
  function AddAllTokens(m: Stacks, p: string, ns: seq<int>, now: string): (r: Stacks)
    requires Stacked(m)
    ensures Stacked(r)
    decreases |ns|
  {
    if |ns| == 0 then m else AddAllTokens(AddTokens(m, p, ns[0], now), p, ns[1..], now)
  }

  /** The reported usage is the sum of every amount added. */
  lemma {:induction false} TokensAccumulate(m: Stacks, p: string, ns: seq<int>, now: string)
    requires Stacked(m)
    ensures TokensOf(AddAllTokens(m, p, ns, now), p) == TokensOf(m, p) + Sum(ns)
    decreases |ns|
  {
    if |ns| > 0 {
      TokensAdd(m, p, ns[0], now);
      TokensAccumulate(AddTokens(m, p, ns[0], now), p, ns[1..], now);
    }
  }

  /** The store; `stacks` stands for the `agent_state` table. */
  class AgentState {
    var stacks: Stacks
    const sink: EventSink

    ghost predicate Valid()
      reads this
    {
      Stacked(stacks)
    }

    constructor (sink: EventSink)
      ensures Valid() && stacks == map[] && this.sink == sink
    {
      stacks := map[];
      this.sink := sink;
    }

    /** `delete_state`: drop the row; nothing happens for an unknown project and nothing is broadcast. */
    method DeleteState(project: string)
      requires Valid()
      modifies this
      ensures Valid() && stacks == old(stacks) - {project}
    {
      stacks := stacks - {project};
    }

    method AddToCurrentState(project: string, state: Snapshot)
      requires Valid()
      modifies this, sink
      ensures Valid() && stacks == Pushed(old(stacks), project, state)
      ensures sink.events == old(sink.events) + [AgentStateEvt(stacks[project])]
    {
      stacks := Pushed(stacks, project, state);
      sink.Emit(AgentStateEvt(stacks[project]));
    }

    /** `get_current_state`: the whole stack, or nothing for an unknown project. */
    function GetCurrentState(project: string): (r: Option<seq<Snapshot>>)
      reads this
      requires Valid()
      ensures r.Some? <==> project in stacks
      ensures r.Some? ==> |r.value| > 0 && r.value[|r.value| - 1] == Top(stacks, project)
    {
      if project in stacks then Some(stacks[project]) else None
    }

    method UpdateLatestState(project: string, state: Snapshot)
      requires Valid()
      modifies this, sink
      ensures Valid() && stacks == Replaced(old(stacks), project, state)
      ensures sink.events == old(sink.events) + [AgentStateEvt(stacks[project])]
    {
      stacks := Replaced(stacks, project, state);
      sink.Emit(AgentStateEvt(stacks[project]));
    }

    function GetLatestState(project: string): (r: Option<Snapshot>)
      reads this
      requires Valid()
      ensures r == LatestOf(stacks, project)
    {
      if project == "" then None
      else if project in stacks then Some(stacks[project][|stacks[project]| - 1])
      else None
    }

    method SetAgentActive(project: string, isActive: bool, now: string)
      requires Valid()
      modifies this, sink
      ensures Valid() && stacks == SetActive(old(stacks), project, isActive, now)
      ensures sink.events == old(sink.events) + [AgentStateEvt(stacks[project])]
    {
      var stack: seq<Snapshot>;
      if project in stacks {
        stack := stacks[project];
        var k := |stack| - 1;
        stack := stack[k := stack[k].(active := isActive)];
        assert stack == stacks[project][..k] + [stack[k]];
      } else {
        stack := [NewState(now)];
        stack := stack[0 := stack[0].(active := isActive)];
        assert stack == [NewState(now).(active := isActive)];
      }
      stacks := stacks[project := stack];
      sink.Emit(AgentStateEvt(stack));
    }

    function IsAgentActive(project: string): (r: Option<bool>)
      reads this
      requires Valid()
      ensures r == ActiveOf(stacks, project)
    {
      if project in stacks then Some(stacks[project][|stacks[project]| - 1].active) else None
    }

    method SetAgentCompleted(project: string, isCompleted: bool, now: string)
      requires Valid()
      modifies this, sink
      ensures Valid() && stacks == SetCompleted(old(stacks), project, isCompleted, now)
      ensures sink.events == old(sink.events) + [AgentStateEvt(stacks[project])]
    {
      var stack: seq<Snapshot>;
      if project in stacks {
        stack := stacks[project];
        var k := |stack| - 1;
        stack := stack[k := stack[k].(monologue := Some(CompletedMonologue))];
        stack := stack[k := stack[k].(completed := isCompleted)];
        assert stack == stacks[project][..k] + [stack[k]];
      } else {
        stack := [NewState(now)];
        stack := stack[0 := stack[0].(completed := isCompleted)];
        assert stack == [NewState(now).(completed := isCompleted)];
      }
      stacks := stacks[project := stack];
      sink.Emit(AgentStateEvt(stack));
    }

    function IsAgentCompleted(project: string): (r: Option<bool>)
      reads this
      requires Valid()
      ensures r == CompletedOf(stacks, project)
    {
      if project in stacks then Some(stacks[project][|stacks[project]| - 1].completed) else None
    }

    /** `update_token_usage`, the one writer that sends no broadcast. */
    method UpdateTokenUsage(project: string, tokenUsage: int, now: string)
      requires Valid()
      modifies this
      ensures Valid() && stacks == AddTokens(old(stacks), project, tokenUsage, now)
    {
      var stack: seq<Snapshot>;
      if project in stacks {
        stack := stacks[project];
        var k := |stack| - 1;
        stack := stack[k := stack[k].(tokenUsage := stack[k].tokenUsage + tokenUsage)];
        assert stack == stacks[project][..k] + [stack[k]];
      } else {
        stack := [NewState(now)];
        stack := stack[0 := stack[0].(tokenUsage := tokenUsage)];
        assert stack == [NewState(now).(tokenUsage := tokenUsage)];
      }
      stacks := stacks[project := stack];
    }

    function GetLatestTokenUsage(project: string): (r: int)
      reads this
      requires Valid()
      ensures r == TokensOf(stacks, project)
    {
      if project in stacks then stacks[project][|stacks[project]| - 1].tokenUsage else 0
    }
  }
}
