/** The helpers of `src/utils.py`: process termination, path shortening and the
    system-design file reader. */
module Utils {
  import opened Wrappers
  import opened Text
  import opened Lists
  import opened Socket
  import opened Processes

  /** `terminate_process`: signal a registered process and report the outcome in one
      "kill_process_response" broadcast. `signalError` is what the signal call raised, if
      anything (`terminate()` on Windows, `killpg` elsewhere). The registry is read, never
      written: a terminated pid stays registered until its runner thread removes it. */
  method TerminateProcess(table: ProcessTable, sink: EventSink, pid: int, signalError: Option<string>)
    modifies sink
    ensures unchanged(table)
    ensures |sink.events| == |old(sink.events)| + 1 && sink.events[..|old(sink.events)|] == old(sink.events)
    ensures pid !in table.procs ==>
      sink.events[|sink.events| - 1] == KillResponse(false, "Process " + IntToDecimal(pid) + " not found.")
    ensures pid in table.procs && signalError.None? ==>
      sink.events[|sink.events| - 1] == KillResponse(true, "Process " + IntToDecimal(pid) + " terminated.")
    ensures pid in table.procs && signalError.Some? ==>
      sink.events[|sink.events| - 1] == KillResponse(false, signalError.value)
  {
    if pid in table.procs {
      match signalError {
        case None =>
          sink.Emit(KillResponse(true, "Process " + IntToDecimal(pid) + " terminated."));
        case Some(e) =>
          sink.Emit(KillResponse(false, e));
      }
    } else {
      sink.Emit(KillResponse(false, "Process " + IntToDecimal(pid) + " not found."));
    }
  }

  /** What `shorten_path` computes: the distinct '/'-separated parts, first occurrences
      only, rejoined with '/'. */
  function Shortened(path: string): string {
    Join(Dedup(Split(path, "/")), "/")
  }

  method ShortenPath(path: string) returns (r: string)
    ensures r == Shortened(path)
  {
    var parts := Split(path, "/");
    var shortened: seq<string> := [];
    for i := 0 to |parts|
      invariant DedupFrom(shortened, parts[i..]) == Dedup(parts)
    {
      assert parts[i..][1..] == parts[i + 1..];
      if parts[i] !in shortened {
        shortened := shortened + [parts[i]];
      }
    }
    r := Join(shortened, "/");
  }

  /** The parts of the shortened path are the distinct parts of the input, in first-occurrence order. */
  lemma ShortenedParts(path: string)
    ensures Split(Shortened(path), "/") == Dedup(Split(path, "/"))
  {
    var parts := Split(path, "/");
    SplitPartsFree(path, '/');
    DedupFacts(parts);
    assert parts[0] in Dedup(parts);
    var d := Dedup(parts);
    forall i | 0 <= i < |d| ensures '/' !in d[i] {
      assert d[i] in parts;
      var j :| 0 <= j < |parts| && parts[j] == d[i];
    }
    SplitJoin(d, '/');
  }

  /** Shortening twice is shortening once. */
  lemma ShortenedIdempotent(path: string)
    ensures Shortened(Shortened(path)) == Shortened(path)
  {
    ShortenedParts(path);
    DedupIdempotent(Split(path, "/"));
  }

  /** Sum of the part lengths plus one separator per part. */
  function Weight(xs: seq<string>): nat {
    if |xs| == 0 then 0 else |xs[0]| + 1 + Weight(xs[1..])
  }

  lemma {:induction false} JoinLength(xs: seq<string>)
    requires |xs| > 0
    ensures |Join(xs, "/")| + 1 == Weight(xs)
    decreases |xs|
  {
    if |xs| > 1 {
      JoinLength(xs[1..]);
    }
  }

  lemma {:induction false} WeightAppend(a: seq<string>, b: seq<string>)
    ensures Weight(a + b) == Weight(a) + Weight(b)
    decreases |a|
  {
    if |a| == 0 {
      assert a + b == b;
    } else {
      assert (a + b)[1..] == a[1..] + b;
      WeightAppend(a[1..], b);
    }
  }

  lemma {:induction false} DedupWeight(acc: seq<string>, rest: seq<string>)
    ensures Weight(DedupFrom(acc, rest)) <= Weight(acc) + Weight(rest)
    decreases |rest|
  {
    if |rest| > 0 {
      var acc' := if rest[0] in acc then acc else acc + [rest[0]];
      DedupWeight(acc', rest[1..]);
      WeightAppend(acc, [rest[0]]);
    }
  }

  /** Shortening never lengthens a path. */
  lemma ShortenedNoLonger(path: string)
    ensures |Shortened(path)| <= |path|
  {
    var parts := Split(path, "/");
    DedupFacts(parts);
    assert parts[0] in Dedup(parts);
    JoinLength(parts);
    JoinLength(Dedup(parts));
    DedupWeight([], parts);
    JoinSplit(path, '/');
  }

  /** Non-blank text with no surrounding white space. */
  predicate IsClean(x: string) {
    |x| > 0 && !IsSpace(x[0]) && !IsSpace(x[|x| - 1])
  }

  /** The loop of `read_Sysdesign`: each line is stripped and appended to `acc` unless blank. */
  function CleanFrom(acc: seq<string>, lines: seq<string>): seq<string>
    decreases |lines|
  {
    if |lines| == 0 then acc
    else
      var c := Strip(lines[0]);
      CleanFrom(if |c| > 0 then acc + [c] else acc, lines[1..])
  }

  /** The non-blank lines, stripped, in file order. */
  function CleanLines(lines: seq<string>): seq<string> {
    CleanFrom([], lines)
  }

  /** The loop only appends, and every line it appends is non-blank with no surrounding white space. */
  lemma {:induction false} CleanFromClean(acc: seq<string>, lines: seq<string>)
    ensures |acc| <= |CleanFrom(acc, lines)| <= |acc| + |lines|
    ensures CleanFrom(acc, lines)[..|acc|] == acc
    ensures forall i :: |acc| <= i < |CleanFrom(acc, lines)| ==> IsClean(CleanFrom(acc, lines)[i])
    decreases |lines|
  {
    if |lines| > 0 {
      var c := Strip(lines[0]);
      var acc' := if |c| > 0 then acc + [c] else acc;
      CleanFromClean(acc', lines[1..]);
      assert acc'[..|acc|] == acc;
    }
  }

  /** Lines of a file read in two parts are cleaned part by part, so file order is kept. */
  lemma {:induction false} CleanFromAppend(acc: seq<string>, a: seq<string>, b: seq<string>)
    ensures CleanFrom(acc, a + b) == CleanFrom(CleanFrom(acc, a), b)
    decreases |a|
  {
    if |a| == 0 {
      assert a + b == b;
    } else {
      assert (a + b)[0] == a[0];
      assert (a + b)[1..] == a[1..] + b;
      var c := Strip(a[0]);
      CleanFromAppend(if |c| > 0 then acc + [c] else acc, a[1..], b);
    }
  }

  lemma {:induction false} CleanFromKeepsClean(acc: seq<string>, lines: seq<string>)
    requires forall i :: 0 <= i < |lines| ==> IsClean(lines[i])
    ensures CleanFrom(acc, lines) == acc + lines
    decreases |lines|
  {
    if |lines| == 0 {
      assert acc + lines == acc;
    } else {
      StripTrimmed(lines[0]);
      assert acc + [lines[0]] + lines[1..] == acc + lines;
      CleanFromKeepsClean(acc + [lines[0]], lines[1..]);
    }
  }

  /** Cleaned lines are already clean: cleaning twice is cleaning once. */
  lemma CleanLinesIdempotent(lines: seq<string>)
    ensures CleanLines(CleanLines(lines)) == CleanLines(lines)
    ensures forall i :: 0 <= i < |CleanLines(lines)| ==> IsClean(CleanLines(lines)[i])
  {
    CleanFromClean([], lines);
    CleanFromKeepsClean([], CleanLines(lines));
    assert [] + CleanLines(lines) == CleanLines(lines);
  }

  /** `read_Sysdesign`: `file` holds the lines of `systemdesign/systemdesign.txt` in the
      order Python's file iterator yields them, up to the first read error; `None` is a
      file that could not be opened. */
  method ReadSysdesign(file: Option<seq<string>>) returns (filenames: seq<string>)
    ensures file.None? ==> filenames == []
    ensures file.Some? ==> filenames == CleanLines(file.value)
  {
    var lines := if file.Some? then file.value else [];
    filenames := [];
    for i := 0 to |lines|
      invariant CleanFrom(filenames, lines[i..]) == CleanLines(lines)
    {
      var cleaned := Strip(lines[i]);
      assert lines[i..][1..] == lines[i + 1..];
      if |cleaned| > 0 {
        filenames := filenames + [cleaned];
      }
    }
  }
}
