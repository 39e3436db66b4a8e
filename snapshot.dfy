/** The agent-state snapshot record pushed onto a project's state stack. */
module Snapshots {
  import opened Wrappers

  datatype Browser = Browser(url: Option<string>, screenshot: Option<string>)

  datatype Terminal = Terminal(command: Option<string>, output: Option<string>, title: Option<string>)

  datatype Snapshot = Snapshot(
    monologue: Option<string>,
    browser: Browser,
    terminal: Terminal,
    step: Option<string>,
    message: Option<string>,
    completed: bool,
    active: bool,
    tokenUsage: int,
    timestamp: string)

  /** A fresh snapshot: every field null except the two flags, the token count and the
      time stamp, which is passed in because the clock is not modelled. */
  function NewState(now: string): (s: Snapshot)
    ensures s.monologue == None && s.step == None && s.message == None
    ensures s.browser == Browser(None, None)
    ensures s.terminal == Terminal(None, None, None)
    ensures !s.completed && s.active && s.tokenUsage == 0 && s.timestamp == now
  {
    Snapshot(None, Browser(None, None), Terminal(None, None, None), None, None, false, true, 0, now)
  }
}
