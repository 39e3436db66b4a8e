/** The broadcasts sent to the user interface, recorded in order in an event log. */
module Socket {
  import opened Json
  import opened Snapshots

  /** A file written by an agent, as carried in a "code" broadcast. */
  datatype FileCode = FileCode(file: string, code: string)

  datatype Event =
    | AgentStateEvt(stack: seq<Snapshot>)        // "agent-state" with the whole stack
    | PidEvt(command: string, pid: int)          // "pid"
    | PidKilledEvt(pid: int)                     // "pidkilled", command "killed"
    | KillResponse(ok: bool, message: string)    // "kill_process_response"
    | CodeEvt(files: seq<FileCode>, from: string) // "code"
    | ChatMessage(project: string, text: Json)   // a message from the agent added to the project chat
    | UserMessage(project: string, message: string) // a message from the user added to the project chat

  /** The broadcast channel. */
  class EventSink {
    var events: seq<Event>

    constructor ()
      ensures events == []
    {
      events := [];
    }

    method Emit(e: Event)
      modifies this
      ensures events == old(events) + [e]
    {
      events := events + [e];
    }
  }
}
