/** The shared registry of running commands, keyed by process id (`process_dict`). */
module Processes {

  class ProcessTable {
    /** The live processes; the process handle itself is represented by its command. */
    var procs: map<int, string>

    constructor ()
      ensures procs == map[]
    {
      procs := map[];
    }
  }
}
