/**
 * What the coder, the patcher and the feature agent do with a parsed reply: ask the model
 * until a reply parses to a non-empty file list, then "emulate code writing": one
 * snapshot per file on the project's stack, then one "code" broadcast naming the agent.
 */
module CodeWriting {
  import opened Wrappers
  import opened Snapshots
  import opened Socket
  import opened AgentStateStore
  import opened FileBlocks
  import opened Oracles

  datatype Agent = Coder | Patcher | Feature

  /** The "from" field of the agent's "code" broadcast. */
  function Tag(agent: Agent): string {
    match agent
    case Coder => "coder"
    case Patcher => "patcher"
    case Feature => "feature"
  }

  const WritingMonologue: string := "Writing code..."

  /** The snapshot pushed for one written file. */
  function WritingState(f: FileCode, browser: Browser, now: string): (s: Snapshot)
    ensures s.monologue == Some(WritingMonologue) && s.browser == browser
    ensures s.terminal == Terminal(Some("vim " + f.file), Some(f.code), Some("Editing " + f.file))
    ensures s == NewState(now).(monologue := s.monologue, browser := browser, terminal := s.terminal)
  {
    NewState(now).(monologue := Some(WritingMonologue), browser := browser,
      terminal := Terminal(Some("vim " + f.file), Some(f.code), Some("Editing " + f.file)))
  }

  function WritingStates(fs: seq<FileCode>, browser: Browser, now: string): (ss: seq<Snapshot>)
    ensures |ss| == |fs| && forall i :: 0 <= i < |fs| ==> ss[i] == WritingState(fs[i], browser, now)
  {
    seq(|fs|, i requires 0 <= i < |fs| => WritingState(fs[i], browser, now))
  }

  /** The browser session the written snapshots carry. The coder copies it from the
      project's latest snapshot, and fails (`None`) when there is none, i.e. the project
      name is empty or unknown; the other agents leave it null. */
  function BrowserFor(agent: Agent, m: Stacks, p: string, fs: seq<FileCode>): (r: Option<Browser>)
    requires Stacked(m)
    ensures r.None? <==> agent == Coder && |fs| > 0 && (p == "" || p !in m)
    ensures r.Some? && agent == Coder && |fs| > 0 ==> r.value == Top(m, p).browser
    ensures r.Some? && (agent != Coder || |fs| == 0) ==> r.value == Browser(None, None)
  {
    if agent == Coder && |fs| > 0 then
      match LatestOf(m, p)
      case None => None
      case Some(s) => Some(s.browser)
    else Some(Browser(None, None))
  }

  /** `emulate_code_writing`. `ok` is false when the coder's lookup of the latest snapshot
      raised; nothing has been written then. */
  method EmulateCodeWriting(store: AgentState, agent: Agent, project: string, fs: seq<FileCode>, now: string)
    returns (ok: bool)
    requires store.Valid()
    modifies store, store.sink
    ensures store.Valid()
    ensures ok <==> BrowserFor(agent, old(store.stacks), project, fs).Some?
    ensures !ok ==> store.stacks == old(store.stacks) && store.sink.events == old(store.sink.events)
    ensures ok ==>
      var ss := WritingStates(fs, BrowserFor(agent, old(store.stacks), project, fs).value, now);
      store.stacks == PushedAll(old(store.stacks), project, ss)
      && store.sink.events == old(store.sink.events) + PushEvents(old(store.stacks), project, ss) + [CodeEvt(fs, Tag(agent))]
  {
    var m0 := store.stacks;
    var e0 := store.sink.events;
    ghost var b := BrowserFor(agent, m0, project, fs);
    ghost var ss := if b.Some? then WritingStates(fs, b.value, now) else [];
    var files: seq<FileCode> := [];
    for i := 0 to |fs|
      invariant store.Valid()
      invariant b.Some? || i == 0
      invariant files == fs[..i]
      invariant b.Some? ==> store.stacks == PushedAll(m0, project, ss[..i])
      invariant b.Some? ==> store.sink.events == e0 + PushEvents(m0, project, ss[..i])
      invariant i == 0 ==> store.stacks == m0 && store.sink.events == e0
    {
      var written := WriteOne(store, agent, project, fs, now, i, m0, e0, ss);
      if !written {
        return false;
      }
      files := files + [fs[i]];
    }
    assert ss[..|fs|] == ss;
    assert files == fs;
    store.sink.Emit(CodeEvt(files, Tag(agent)));
    return true;
  }

  /** One turn of the loop: the snapshot for file `i`, with the coder's browser lookup
      before it. */
  method WriteOne(store: AgentState, agent: Agent, project: string, fs: seq<FileCode>, now: string, i: nat,
                  ghost m0: Stacks, ghost e0: seq<Event>, ghost ss: seq<Snapshot>)
    returns (written: bool)
    requires store.Valid() && Stacked(m0) && i < |fs|
    requires BrowserFor(agent, m0, project, fs).Some? || i == 0
    requires BrowserFor(agent, m0, project, fs).Some? ==>
      ss == WritingStates(fs, BrowserFor(agent, m0, project, fs).value, now)
      && store.stacks == PushedAll(m0, project, ss[..i])
      && store.sink.events == e0 + PushEvents(m0, project, ss[..i])
    requires i == 0 ==> store.stacks == m0 && store.sink.events == e0
    modifies store, store.sink
    ensures store.Valid()
    ensures !written ==>
      BrowserFor(agent, m0, project, fs).None? && i == 0 && store.stacks == m0 && store.sink.events == e0
    ensures written ==>
      BrowserFor(agent, m0, project, fs).Some?
      && store.stacks == PushedAll(m0, project, ss[..i + 1])
      && store.sink.events == e0 + PushEvents(m0, project, ss[..i + 1])
  {
    ghost var b := BrowserFor(agent, m0, project, fs);
    var browser := Browser(None, None);
    if agent == Coder {
      var current := store.GetLatestState(project);
      if current.None? {
        assert i == 0 by {
          if i > 0 {
            LatestAfterWrites(m0, project, ss, i);
          }
        }
        return false;
      }
      assert current.value.browser == b.value by {
        if i > 0 {
          LatestAfterWrites(m0, project, ss, i);
        }
      }
      browser := current.value.browser;
    }
    var state := WritingState(fs[i], browser, now);
    assert state == ss[i];
    store.AddToCurrentState(project, state);
    WriteStep(m0, project, ss, i);
    return true;
  }

  lemma WriteStep(m: Stacks, p: string, ss: seq<Snapshot>, i: nat)
    requires Stacked(m) && i < |ss|
    ensures PushedAll(m, p, ss[..i + 1]) == Pushed(PushedAll(m, p, ss[..i]), p, ss[i])
    ensures PushEvents(m, p, ss[..i + 1])
      == PushEvents(m, p, ss[..i]) + [AgentStateEvt(Pushed(PushedAll(m, p, ss[..i]), p, ss[i])[p])]
  {
    assert ss[..i + 1] == ss[..i] + [ss[i]];
    PushedAllSnoc(m, p, ss[..i], ss[i]);
  }

  lemma LatestAfterWrites(m: Stacks, p: string, ss: seq<Snapshot>, i: nat)
    requires Stacked(m) && 0 < i <= |ss| && p != ""
    ensures LatestOf(PushedAll(m, p, ss[..i]), p) == Some(ss[i - 1])
  {
    PushedAllTop(m, p, ss[..i]);
  }

  /** A reply the agent throws away: it does not parse, or parses to no file. */
  predicate Rejected(text: string, normpath: string -> string) {
    var v := Validate(text, normpath);
    v.None? || |v.value| == 0
  }

  /** The agent's `execute` loop before writing: ask again while the reply is rejected.
      Returns how the loop ended and the replies left over. */
  function Generate(replies: seq<Reply>, normpath: string -> string): (r: (Status<seq<FileCode>>, seq<Reply>))
    ensures |r.1| < |replies| || (r.0.Stalled? && r.1 == [])
    decreases |replies|
  {
    if |replies| == 0 then (Stalled, [])
    else match replies[0]
      case Unavailable => (Raised, replies[1..])
      case Reply(text) =>
        if Rejected(text, normpath) then Generate(replies[1..], normpath)
        else (Ok(Validate(text, normpath).value), replies[1..])
  }

  /** Rejected replies are skipped, whatever their number. */
  lemma {:induction false} GenerateSkipsRejected(replies: seq<Reply>, k: nat, normpath: string -> string)
    requires k <= |replies|
    requires forall j :: 0 <= j < k ==> replies[j].Reply? && Rejected(replies[j].text, normpath)
    ensures Generate(replies, normpath) == Generate(replies[k..], normpath)
    decreases k
  {
    if k > 0 {
      GenerateSkipsRejected(replies[1..], k - 1, normpath);
      assert replies[1..][k - 1..] == replies[k..];
    }
  }

  /** Reply `k` is the first accepted one: it parses to `fs`, the replies before it are
      all rejected, and `rest` is what follows it. */
  predicate AcceptedFirstAt(replies: seq<Reply>, k: int, fs: seq<FileCode>, rest: seq<Reply>, normpath: string -> string) {
    0 <= k < |replies| && replies[k].Reply? && Validate(replies[k].text, normpath) == Some(fs)
    && |fs| > 0 && rest == replies[k + 1..]
    && forall j :: 0 <= j < k ==> replies[j].Reply? && Rejected(replies[j].text, normpath)
  }

  lemma AcceptedShift(replies: seq<Reply>, k: int, fs: seq<FileCode>, rest: seq<Reply>, normpath: string -> string)
    requires |replies| > 0 && replies[0].Reply? && Rejected(replies[0].text, normpath)
    requires AcceptedFirstAt(replies[1..], k, fs, rest, normpath)
    ensures AcceptedFirstAt(replies, k + 1, fs, rest, normpath)
  {
    assert replies[1..][k + 1..] == replies[k + 2..];
    assert replies[k + 1] == replies[1..][k];
    forall j | 0 <= j < k + 1 ensures replies[j].Reply? && Rejected(replies[j].text, normpath) {
      if j > 0 {
        assert replies[j] == replies[1..][j - 1];
      }
    }
  }

  /** A successful run returns the non-empty parse of the first accepted reply and
      consumes exactly the replies up to and including it. */
  lemma {:induction false} GenerateOk(replies: seq<Reply>, normpath: string -> string)
    requires Generate(replies, normpath).0.Ok?
    ensures exists k :: AcceptedFirstAt(replies, k, Generate(replies, normpath).0.value, Generate(replies, normpath).1, normpath)
    decreases |replies|
  {
    var r := Generate(replies, normpath);
    if Rejected(replies[0].text, normpath) {
      assert r == Generate(replies[1..], normpath);
      GenerateOk(replies[1..], normpath);
      var k :| AcceptedFirstAt(replies[1..], k, r.0.value, r.1, normpath);
      AcceptedShift(replies, k, r.0.value, r.1, normpath);
    } else {
      assert AcceptedFirstAt(replies, 0, r.0.value, r.1, normpath);
    }
  }

  /** The agent's `execute`: generate, then write. The result is the parsed file list. */
  method Execute(store: AgentState, agent: Agent, replies: seq<Reply>, project: string, now: string,
                 normpath: string -> string)
    returns (status: Status<seq<FileCode>>, rest: seq<Reply>)
    requires store.Valid()
    modifies store, store.sink
    decreases |replies|
    ensures store.Valid()
    ensures rest == Generate(replies, normpath).1
    ensures !Generate(replies, normpath).0.Ok? ==>
      status == Generate(replies, normpath).0 && store.stacks == old(store.stacks) && store.sink.events == old(store.sink.events)
    ensures (status, rest, store.stacks, store.sink.events)
      == Outcome(agent, old(store.stacks), old(store.sink.events), replies, Site(project, now, normpath))
    ensures Generate(replies, normpath).0.Ok? ==>
      var fs := Generate(replies, normpath).0.value;
      var b := BrowserFor(agent, old(store.stacks), project, fs);
      (b.None? ==> status == Raised && store.stacks == old(store.stacks) && store.sink.events == old(store.sink.events))
      && (b.Some? ==>
        var ss := WritingStates(fs, b.value, now);
        status == Ok(fs) && store.stacks == PushedAll(old(store.stacks), project, ss)
        && store.sink.events == old(store.sink.events) + PushEvents(old(store.stacks), project, ss) + [CodeEvt(fs, Tag(agent))])
  {
    if |replies| == 0 {
      return Stalled, [];
    }
    match replies[0]
    case Unavailable =>
      return Raised, replies[1..];
    case Reply(text) =>
      var valid := ValidateResponse(text, normpath);
      if valid.None? || |valid.value| == 0 {
        status, rest := Execute(store, agent, replies[1..], project, now, normpath);
        return;
      }
      var ok := EmulateCodeWriting(store, agent, project, valid.value, now);
      status := if ok then Ok(valid.value) else Raised;
      rest := replies[1..];
  }

  /** What an agent run started by another agent's loop works with: the project, the
      time stamp given to new snapshots and `os.path.normpath`. */
  datatype Site = Site(project: string, now: string, normpath: string -> string)

  /** The agent's `execute` on values, for the loops that call it: how the run ended, the
      replies left over, and the project's stacks and the broadcast log after it. */
  function Outcome(agent: Agent, m: Stacks, events: seq<Event>, replies: seq<Reply>, site: Site)
    : (r: (Status<seq<FileCode>>, seq<Reply>, Stacks, seq<Event>))
    requires Stacked(m)
    ensures Stacked(r.2)
    ensures r.1 == Generate(replies, site.normpath).1
    ensures !r.0.Ok? ==> r.2 == m && r.3 == events
    ensures r.0.Ok? ==>
      r.0 == Generate(replies, site.normpath).0 && |r.0.value| > 0
      && BrowserFor(agent, m, site.project, r.0.value).Some?
      && StackOf(r.2, site.project) == StackOf(m, site.project) + WritingStates(r.0.value, BrowserFor(agent, m, site.project, r.0.value).value, site.now)
      && |r.3| == |events| + |r.0.value| + 1 && r.3[..|events|] == events
      && r.3[|r.3| - 1] == CodeEvt(r.0.value, Tag(agent))
  {
    var (g, rest) := Generate(replies, site.normpath);
    if !g.Ok? then (g, rest, m, events)
    else
      match BrowserFor(agent, m, site.project, g.value)
      case None => (Raised, rest, m, events)
      case Some(b) =>
        var ss := WritingStates(g.value, b, site.now);
        GenerateOk(replies, site.normpath);
        WrittenShape(m, site.project, ss, events, CodeEvt(g.value, Tag(agent)));
        (g, rest, PushedAll(m, site.project, ss), events + PushEvents(m, site.project, ss) + [CodeEvt(g.value, Tag(agent))])
  }

  /** Writing a run of snapshots appends it to the stack, and the log gains one broadcast
      per snapshot before the final event. */
  lemma WrittenShape(m: Stacks, p: string, ss: seq<Snapshot>, events: seq<Event>, last: Event)
    requires Stacked(m)
    ensures StackOf(PushedAll(m, p, ss), p) == StackOf(m, p) + ss
    ensures var e := events + PushEvents(m, p, ss) + [last];
      |e| == |events| + |ss| + 1 && e[..|events|] == events && e[|e| - 1] == last
  {
    PushedAllAppends(m, p, ss);
    PushEventsShape(m, p, ss);
    var e := events + PushEvents(m, p, ss) + [last];
    assert e[..|events|] == events;
  }
}
