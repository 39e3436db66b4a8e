/**
 * The code-review agent of `src/agents/reviewer/codereviewfile.py`: the review reply is
 * split into a review and a reason, file names are picked out of a system design, and a
 * file whose review says "LBTM" is handed to the patcher with the reason.
 */
module Reviewer {
  import opened Wrappers
  import opened Text
  import opened Json
  import opened Fences
  import opened Oracles
  import Utils
  import opened Paths
  import Socket
  import AgentStateStore
  import CodeWriting

  const ReasonLabel := "Reason:"

  // ---------------------------------------------------------------------------------
  // validate_response

  /** What `validate_response` gives: `False`, the pair of decoded values, or an exception. */
  datatype Verdict = Invalid | Reviewed(review: Json, raison: Json) | Raises

  /** `response.split("~~~")[1].strip()` after the "~~~" test: the text between the first
      two fences, or after the only one. */
  function Content(response: string): (r: Option<string>)
    ensures r.Some? <==> Contains(Strip(response), Tildes)
  {
    var t := Strip(response);
    if !Contains(t, Tildes) then None
    else
      SplitParts(t, Tildes);
      Some(Strip(Split(t, Tildes)[1]))
  }

  /** `validate_response`: the JSON object between the first two "~~~" must carry a "Review"
      key; its "Review" and "Raison" values are returned. */
  function ValidateResponse(response: string, decode: Decoder): (r: Verdict)
    ensures Content(response).None? ==> r == Invalid
    ensures r.Reviewed? <==> ReviewObject(Content(response), decode)
    ensures r.Reviewed? ==> r == Reviewed(decode(Content(response).value).value.fields["Review"],
                                          decode(Content(response).value).value.fields["Raison"])
    ensures r.Raises? ==> !ReviewObject(Content(response), decode) && decode(Content(response).value).Some?
  {
    match Content(response)
    case None => Invalid
    case Some(content) =>
      if |content| == 0 then Invalid
      else match decode(content)
        case None => Invalid
        case Some(data) =>
          match HasKey(data, "Review")
          case None => Raises
          case Some(false) => Invalid
          case Some(true) =>
            if data.JObj? && "Raison" in data.fields then Reviewed(data.fields["Review"], data.fields["Raison"])
            else Raises
  }

  /** Non-empty content that decodes to an object with both keys. */
  predicate ReviewObject(content: Option<string>, decode: Decoder) {
    content.Some? && |content.value| > 0 && HasBoth(decode(content.value))
  }

  /** A decoded object with both keys. */
  predicate HasBoth(v: Option<Json>) {
    v.Some? && v.value.JObj? && "Review" in v.value.fields && "Raison" in v.value.fields
  }

  /** The content is what lies between the first two "~~~" fences, whatever text (without
      surrounding white space) lies around them. */
  lemma ContentBetween(a: string, x: string, b: string)
    requires Tildes[0] !in a && Tildes[0] !in x
    requires (|a| == 0 || !IsSpace(a[0])) && (|b| == 0 || !IsSpace(b[|b| - 1]))
    ensures Content(a + Tildes + x + Tildes + b) == Some(Strip(x))
  {
    var s := a + Tildes + x + Tildes + b;
    assert s[0] == (if |a| == 0 then '~' else a[0]);
    assert s[|s| - 1] == (if |b| == 0 then '~' else b[|b| - 1]);
    StripTrimmed(s);
    SplitSecond(a, x, b, Tildes);
  }

  /** Hence a review object between the fences is accepted. */
  lemma ValidateFencedObject(a: string, x: string, b: string, decode: Decoder)
    requires Tildes[0] !in a && Tildes[0] !in x
    requires (|a| == 0 || !IsSpace(a[0])) && (|b| == 0 || !IsSpace(b[|b| - 1]))
    requires |Strip(x)| > 0 && HasBoth(decode(Strip(x)))
    ensures ValidateResponse(a + Tildes + x + Tildes + b, decode)
      == Reviewed(decode(Strip(x)).value.fields["Review"], decode(Strip(x)).value.fields["Raison"])
  {
    ContentBetween(a, x, b);
  }

  // ---------------------------------------------------------------------------------
  // extract_review_and_reason

  /** `response[3:-3].strip()` when the reply both starts and ends with "~~~". */
  function Unfenced(response: string): (r: string)
    ensures |r| <= |response|
  {
    if StartsWith(response, Tildes) && EndsWith(response, Tildes) then Strip(Inner3(response)) else response
  }

  /** The split on "Reason:": the review before the first label and the reason up to the
      second, both stripped; no label, no reason. */
  function SplitReview(t: string): (r: (string, string))
    ensures !Contains(t, ReasonLabel) ==> r.1 == ""
  {
    var parts := Split(t, ReasonLabel);
    SplitParts(t, ReasonLabel);
    (Strip(parts[0]), if |parts| >= 2 then Strip(parts[1]) else "")
  }

  /** `extract_review_and_reason`. */
  function ExtractReviewAndReason(response: string): (r: (string, string)) {
    SplitReview(Unfenced(response))
  }

  /** The review is the text before the first "Reason:" and the reason the text after it,
      up to a second "Reason:" if there is one. */
  lemma SplitReviewReason(a: string, b: string)
    requires !Contains(a, ReasonLabel)
    ensures SplitReview(a + ReasonLabel + b) == (Strip(a), Strip(Split(b, ReasonLabel)[0]))
  {
    assert ReasonLabel[0] !in ReasonLabel[1..];
    SplitAfterAbsent(a, ReasonLabel, b);
  }

  /** With a single label, the reason is all the text after it. */
  lemma SplitReviewSingle(a: string, b: string)
    requires !Contains(a, ReasonLabel) && !Contains(b, ReasonLabel)
    ensures SplitReview(a + ReasonLabel + b) == (Strip(a), Strip(b))
  {
    SplitReviewReason(a, b);
  }

  /** Without a label, the whole text is the review. */
  lemma SplitReviewOnly(t: string)
    requires !Contains(t, ReasonLabel)
    ensures SplitReview(t) == (Strip(t), "")
  {
  }

  /** A reply fenced by "~~~" at both ends is split inside the fences. */
  lemma ExtractFenced(x: string)
    ensures ExtractReviewAndReason(Tildes + x + Tildes) == SplitReview(Strip(x))
  {
    var s := Tildes + x + Tildes;
    assert s[..3] == Tildes && s[|s| - 3..] == Tildes;
    assert Inner3(s) == x;
  }

  /** A reply not fenced at both ends is split as it is. */
  lemma ExtractUnfenced(t: string)
    requires !(StartsWith(t, Tildes) && EndsWith(t, Tildes))
    ensures ExtractReviewAndReason(t) == SplitReview(t)
  {
  }

  // ---------------------------------------------------------------------------------
  // extract_filenames

  const FilePrefix := "File: "

  /** The file names the lines carry: each line starting with "File: ", the rest stripped. */
  function FilenamesOf(lines: seq<string>): seq<string>
    decreases |lines|
  {
    if |lines| == 0 then []
    else
      var line := lines[|lines| - 1];
      FilenamesOf(lines[..|lines| - 1]) + (if StartsWith(line, FilePrefix) then [Strip(line[6..])] else [])
  }

  /** `extract_filenames` over `splitlines()`. */
  method ExtractFilenames(content: string) returns (filenames: seq<string>)
    ensures filenames == FilenamesOf(SplitLines(content))
  {
    var lines := SplitLines(content);
    filenames := [];
    for i := 0 to |lines|
      invariant filenames == FilenamesOf(lines[..i])
    {
      assert lines[..i + 1][..i] == lines[..i];
      var line := lines[i];
      if StartsWith(line, FilePrefix) {
        filenames := filenames + [Strip(line[6..])];
      }
    }
    assert lines[..|lines|] == lines;
  }

  /** A name is extracted exactly when some line is "File: " followed by it, up to white
      space. */
  lemma FilenamesMember(lines: seq<string>, f: string)
    ensures f in FilenamesOf(lines) <==> exists j :: 0 <= j < |lines| && Names(lines[j], f)
  {
    if f in FilenamesOf(lines) {
      var j := NamedLine(lines, f);
    }
    if j :| 0 <= j < |lines| && Names(lines[j], f) {
      NamedExtracted(lines, f, j);
    }
  }

  /** An extracted name comes from some line. */
  lemma {:induction false} NamedLine(lines: seq<string>, f: string) returns (j: nat)
    requires f in FilenamesOf(lines)
    ensures j < |lines| && Names(lines[j], f)
    decreases |lines|
  {
    var n := |lines| - 1;
    var init := lines[..n];
    FilenamesSnoc(lines);
    if f in FilenamesOf(init) {
      j := NamedLine(init, f);
      assert init[j] == lines[j];
    } else {
      j := n;
    }
  }

  /** A line naming `f` has it extracted. */
  lemma {:induction false} NamedExtracted(lines: seq<string>, f: string, j: nat)
    requires j < |lines| && Names(lines[j], f)
    ensures f in FilenamesOf(lines)
    decreases |lines|
  {
    var n := |lines| - 1;
    var init := lines[..n];
    FilenamesSnoc(lines);
    if j < n {
      assert init[j] == lines[j];
      NamedExtracted(init, f, j);
    }
  }

  lemma FilenamesSnoc(lines: seq<string>)
    requires |lines| > 0
    ensures var n := |lines| - 1;
      FilenamesOf(lines) == FilenamesOf(lines[..n]) + (if StartsWith(lines[n], FilePrefix) then [Strip(lines[n][6..])] else [])
  {
  }

  /** The line is "File: " followed by `f`, up to white space. */
  predicate Names(line: string, f: string) {
    StartsWith(line, FilePrefix) && f == Strip(line[6..])
  }

  /** Names come out in line order: the names of two blocks of lines are those of the first
      followed by those of the second. */
  lemma {:induction false} FilenamesAppend(a: seq<string>, b: seq<string>)
    ensures FilenamesOf(a + b) == FilenamesOf(a) + FilenamesOf(b)
    decreases |b|
  {
    if |b| == 0 {
      assert a + b == a;
    } else {
      var n := |b| - 1;
      assert (a + b)[..|a + b| - 1] == a + b[..n];
      FilenamesAppend(a, b[..n]);
    }
  }

  // ---------------------------------------------------------------------------------
  // execute

  /** The extensions `execute` does not review, first test (line 184). */
  const NotReviewed: seq<string> := [".jpg", ".png", ".jpeg", ".gif", ".bmp", ".tiff", ".placeholder", ".ico", ".md", ".json"]
  /** The same test repeated before patching (line 216), in another order. */
  const NotPatched: seq<string> := [".jpg", ".png", ".jpeg", ".tiff", ".gif", ".bmp", ".placeholder", ".ico", ".md", ".json"]

  /** The second test is the first one again: it never skips a file that was reviewed. */
  lemma PatchTestRedundant(filename: string)
    ensures SkippedBy(filename, NotPatched) == SkippedBy(filename, NotReviewed)
  {
    assert forall e :: e in NotPatched <==> e in NotReviewed;
  }

  /** A file named ".placeholder" is reviewed: a leading dot starts no suffix, so the
      ".placeholder" entry only catches names with something before the dot. */
  lemma PlaceholderReviewed()
    ensures !SkippedBy(".placeholder", NotReviewed)
  {
    DotOnly();
    assert Lower("") == "";
  }

  lemma DotOnly()
    ensures Contains(".placeholder", ".") && Suffix(".placeholder") == ""
  {
    assert "." + "placeholder" == ".placeholder";
    DotFirst("placeholder");
    assert OccursAt(".placeholder", ".", 0);
  }

  /** ... while "x.placeholder" is skipped. */
  lemma PlaceholderSuffix()
    ensures SkippedBy("x.placeholder", NotReviewed)
  {
    StemAndDot();
    PlaceholderLower();
    assert NotReviewed[6] == ".placeholder";
  }

  lemma PlaceholderLower()
    ensures Lower(".placeholder") == ".placeholder"
  {
    LowerKeeps(".placeholder");
  }

  lemma StemAndDot()
    ensures Contains("x.placeholder", ".") && Suffix("x.placeholder") == ".placeholder"
  {
    StemSuffix();
    assert OccursAt("x.placeholder", ".", 1);
  }

  lemma StemSuffix()
    ensures Suffix("x.placeholder") == ".placeholder"
  {
    assert "x" + "." + "placeholder" == "x.placeholder";
    assert "." + "placeholder" == ".placeholder";
    SuffixOf("x", "placeholder");
  }

  /** A file handed to the patcher: its name, its code and the reason of the review. */
  datatype Patch = Patch(filename: string, code: string, reason: string)

  /** The user message `execute` posts first, before the last message of the conversation. */
  const ReviewBanner := "<mark>Agent Code Review: </mark><br>"

  /** The chat message posted before a file goes to the patcher. */
  function ReviewMessage(filename: string, reason: string): string {
    "<b>file </b>:" + filename + "<br>" + "<b>Review</b>:LBTM" + "<br>" + "<b>Reason</b>:" + reason
  }

  /** What the loop has done so far: the files handed to the patcher, the project's
      stacks and the broadcast log (chat messages included). */
  datatype Rev = Rev(patches: seq<Patch>, stacks: AgentStateStore.Stacks, events: seq<Socket.Event>)

  /** The files `execute` reviews, with their code, in list order: those not skipped by
      their extension and that can be read. */
  function Candidates(filenames: seq<string>, read: string -> Option<string>): (r: seq<(string, string)>)
    decreases |filenames|
  {
    if |filenames| == 0 then []
    else
      var f := filenames[0];
      if SkippedBy(f, NotReviewed) || read(f).None? then Candidates(filenames[1..], read)
      else [(f, read(f).value)] + Candidates(filenames[1..], read)
  }

  /** The reviews of the candidate files still to go, after `rv`: the model reviews each
      file once, `extract` (`extract_review_and_reason`) reads the reply, and a review
      containing "LBTM" posts a message and runs the patcher on the file with the reason;
      the patcher uses replies of its own and, when it raises or stalls, ends the loop. */
  function ReviewFrom(rv: Rev, files: seq<(string, string)>, replies: seq<Reply>, site: CodeWriting.Site,
                      extract: string -> (string, string)): (r: (Rev, Status<()>))
    requires AgentStateStore.Stacked(rv.stacks)
    ensures AgentStateStore.Stacked(r.0.stacks)
    decreases |files|
  {
    if |files| == 0 then (rv, Ok(()))
    else if |replies| == 0 then (rv, Stalled)
    else match replies[0]
      case Unavailable => (rv, Raised)
      case Reply(text) =>
        var (f, code) := files[0];
        var (review, reason) := extract(text);
        if Contains(review, "LBTM") && !SkippedBy(f, NotPatched) then
          var o := CodeWriting.Outcome(CodeWriting.Patcher, rv.stacks,
            rv.events + [Socket.ChatMessage(site.project, Json.JStr(ReviewMessage(f, reason)))], replies[1..], site);
          var rv2 := Rev(rv.patches + [Patch(f, code, reason)], o.2, o.3);
          match o.0
          case Ok(_) => ReviewFrom(rv2, files[1..], o.1, site, extract)
          case Raised => (rv2, Raised)
          case Stalled => (rv2, Stalled)
        else ReviewFrom(rv, files[1..], replies[1..], site, extract)
  }

  /** The loop of `execute` over the names of the system design: `read` gives a file's
      content, `None` for a file that is missing or cannot be read, and `replies` the
      model's reviews and the patcher's replies. */
  method ReviewFiles(store: AgentStateStore.AgentState, site: CodeWriting.Site, filenames: seq<string>,
                     read: string -> Option<string>, replies: seq<Reply>, extract: string -> (string, string))
    returns (patches: seq<Patch>, status: Status<()>)
    requires store.Valid()
    modifies store, store.sink
    ensures store.Valid()
    ensures var r := ReviewFrom(Rev([], old(store.stacks), old(store.sink.events)), Candidates(filenames, read),
                                replies, site, extract);
      patches == r.0.patches && status == r.1 && store.stacks == r.0.stacks && store.sink.events == r.0.events
  {
    ghost var goal := ReviewFrom(Rev([], store.stacks, store.sink.events), Candidates(filenames, read), replies, site, extract);
    patches := [];
    var llm := replies;
    for i := 0 to |filenames|
      invariant store.Valid()
      invariant ReviewFrom(Rev(patches, store.stacks, store.sink.events), Candidates(filenames[i..], read), llm, site, extract)
             == goal
    {
      var done;
      done, patches, llm, status := ReviewOne(store, site, filenames, i, read, llm, patches, extract);
      if done {
        return;
      }
    }
    return patches, Ok(());
  }

  /** One turn of the loop, on file `i`: `done` when the loop stops there. */
  method ReviewOne(store: AgentStateStore.AgentState, site: CodeWriting.Site, filenames: seq<string>, i: nat,
                   read: string -> Option<string>, llm: seq<Reply>, patches: seq<Patch>,
                   extract: string -> (string, string))
    returns (done: bool, patches': seq<Patch>, llm': seq<Reply>, status: Status<()>)
    requires i < |filenames| && store.Valid()
    modifies store, store.sink
    ensures store.Valid()
    ensures var goal := ReviewFrom(Rev(patches, old(store.stacks), old(store.sink.events)), Candidates(filenames[i..], read),
                                   llm, site, extract);
      var now := Rev(patches', store.stacks, store.sink.events);
      if done then (now, status) == goal
      else ReviewFrom(now, Candidates(filenames[i + 1..], read), llm', site, extract) == goal
  {
    assert filenames[i..][1..] == filenames[i + 1..];
    done, patches', llm', status := false, patches, llm, Ok(());
    var filename := filenames[i];
    var ext := Lower(Suffix(filename));
    if !Contains(filename, ".") || ext in NotReviewed {
      return;
    }
    var code := read(filename);
    if code.None? {
      return;
    }
    assert Candidates(filenames[i..], read) == [(filename, code.value)] + Candidates(filenames[i + 1..], read);
    if |llm| == 0 {
      return true, patches, llm, Stalled;
    }
    var response := llm[0];
    llm' := llm[1..];
    if response.Unavailable? {
      return true, patches, llm', Raised;
    }
    var (review, reason) := extract(response.text);
    if !Contains(review, "LBTM") {
      return;
    }
    if !Contains(filename, ".") || Lower(Suffix(filename)) in NotPatched {
      return;
    }
    store.sink.Emit(Socket.ChatMessage(site.project, Json.JStr(ReviewMessage(filename, reason))));
    patches' := patches + [Patch(filename, code.value, reason)];
    assert CodeWriting.Site(site.project, site.now, site.normpath) == site;
    var patched, rest := CodeWriting.Execute(store, CodeWriting.Patcher, llm', site.project, site.now, site.normpath);
    llm' := rest;
    if !patched.Ok? {
      return true, patches', llm', if patched.Raised? then Raised else Stalled;
    }
  }

  /** `execute`: the last message of the conversation is posted as the user's (indexing
      an empty conversation raises); then the names come from `systemdesign/systemdesign.txt`
      (its lines, `None` when it cannot be read), and with no names nothing is reviewed. */
  method Execute(store: AgentStateStore.AgentState, site: CodeWriting.Site, conversation: seq<string>,
                 design: Option<seq<string>>, read: string -> Option<string>, replies: seq<Reply>)
    returns (patches: seq<Patch>, status: Status<()>)
    requires store.Valid()
    modifies store, store.sink
    ensures store.Valid()
    ensures |conversation| == 0 ==>
      patches == [] && status == Raised && store.stacks == old(store.stacks) && store.sink.events == old(store.sink.events)
    ensures |conversation| > 0 ==>
      var e1 := old(store.sink.events) + [Socket.UserMessage(site.project, ReviewBanner + conversation[|conversation| - 1])];
      var names := if design.Some? then Utils.CleanLines(design.value) else [];
      var r := ReviewFrom(Rev([], old(store.stacks), e1), Candidates(names, read), replies, site, ExtractReviewAndReason);
      patches == r.0.patches && status == r.1 && store.stacks == r.0.stacks && store.sink.events == r.0.events
  {
    if |conversation| == 0 {
      return [], Raised;
    }
    store.sink.Emit(Socket.UserMessage(site.project, ReviewBanner + conversation[|conversation| - 1]));
    var filenames := Utils.ReadSysdesign(design);
    if |filenames| == 0 {
      assert Candidates(filenames, read) == [];
      return [], Ok(());
    }
    patches, status := ReviewFiles(store, site, filenames, read, replies, ExtractReviewAndReason);
  }

  /** The candidates are the listed files that are not skipped and can be read, with their
      code. */
  lemma {:induction false} CandidatesFacts(filenames: seq<string>, read: string -> Option<string>)
    ensures forall k :: 0 <= k < |Candidates(filenames, read)| ==>
      Reviewable(Candidates(filenames, read)[k], filenames, read)
    decreases |filenames|
  {
    if |filenames| > 0 {
      var rest := filenames[1..];
      CandidatesFacts(rest, read);
      var f := filenames[0];
      var d := Candidates(rest, read);
      forall k | 0 <= k < |d| ensures Reviewable(d[k], filenames, read) {
        var j :| 0 <= j < |rest| && rest[j] == d[k].0;
        assert filenames[j + 1] == d[k].0;
      }
      if !(read(f).None? || SkippedBy(f, NotReviewed)) {
        var c := [(f, read(f).value)] + d;
        assert Candidates(filenames, read) == c;
        forall k | 0 < k < |c| ensures c[k] == d[k - 1] { }
      }
    }
  }

  /** The file `p` is listed, passes the extension test and reads as its code. */
  predicate Reviewable(p: (string, string), filenames: seq<string>, read: string -> Option<string>) {
    p.0 in filenames && !SkippedBy(p.0, NotReviewed) && read(p.0) == Some(p.1)
  }

  /** Every patch requested is for a candidate file, with its code, in candidate order,
      and the broadcast log only grows. */
  lemma {:induction false} ReviewFromPatches(rv: Rev, files: seq<(string, string)>, replies: seq<Reply>,
                                             site: CodeWriting.Site, extract: string -> (string, string))
    requires AgentStateStore.Stacked(rv.stacks)
    ensures Extends(ReviewFrom(rv, files, replies, site, extract).0, rv, files)
    decreases |files|
  {
    var r := ReviewFrom(rv, files, replies, site, extract).0;
    if |files| > 0 && |replies| > 0 && replies[0].Reply? {
      var next, rest, stop := ReviewStep(rv, files, replies, site, extract);
      if stop {
        ExtendsStep(r, r, rv, files, extract(replies[0].text).1);
      } else {
        ReviewFromPatches(next, files[1..], rest, site, extract);
        ExtendsStep(r, next, rv, files, extract(replies[0].text).1);
      }
    } else {
      assert r == rv;
      assert r.patches[..|r.patches|] == r.patches && r.events[..|r.events|] == r.events;
    }
  }

  /** `r` starts with the patches and the log of `rv`, and every patch after them is one of `files`. */
  predicate Extends(r: Rev, rv: Rev, files: seq<(string, string)>) {
    |rv.patches| <= |r.patches| && r.patches[..|rv.patches|] == rv.patches
    && |rv.events| <= |r.events| && r.events[..|rv.events|] == rv.events
    && forall k :: |rv.patches| <= k < |r.patches| ==> (r.patches[k].filename, r.patches[k].code) in files
  }

  /** One review: the loop either stops with `next`, or goes on from `next` with the
      replies `rest`; the patches grow by at most a patch of the file reviewed, and the
      log only grows. */
  lemma ReviewStep(rv: Rev, files: seq<(string, string)>, replies: seq<Reply>, site: CodeWriting.Site,
                   extract: string -> (string, string)) returns (next: Rev, rest: seq<Reply>, stop: bool)
    requires AgentStateStore.Stacked(rv.stacks)
    requires |files| > 0 && |replies| > 0 && replies[0].Reply?
    ensures AgentStateStore.Stacked(next.stacks)
    ensures stop ==> ReviewFrom(rv, files, replies, site, extract).0 == next
    ensures !stop ==> ReviewFrom(rv, files, replies, site, extract) == ReviewFrom(next, files[1..], rest, site, extract)
    ensures next.patches == rv.patches || next.patches == rv.patches + [Patch(files[0].0, files[0].1, extract(replies[0].text).1)]
    ensures |rv.events| <= |next.events| && next.events[..|rv.events|] == rv.events
  {
    var (f, code) := files[0];
    var (review, reason) := extract(replies[0].text);
    if Contains(review, "LBTM") && !SkippedBy(f, NotPatched) {
      var e1 := rv.events + [Socket.ChatMessage(site.project, Json.JStr(ReviewMessage(f, reason)))];
      var o := CodeWriting.Outcome(CodeWriting.Patcher, rv.stacks, e1, replies[1..], site);
      next, rest, stop := Rev(rv.patches + [Patch(f, code, reason)], o.2, o.3), o.1, !o.0.Ok?;
      assert next.events[..|rv.events|] == next.events[..|e1|][..|rv.events|];
    } else {
      next, rest, stop := rv, replies[1..], false;
      assert next.events[..|rv.events|] == rv.events;
    }
  }

  lemma ExtendsStep(r: Rev, next: Rev, rv: Rev, files: seq<(string, string)>, reason: string)
    requires |files| > 0 && Extends(r, next, files[1..])
    requires next.patches == rv.patches || next.patches == rv.patches + [Patch(files[0].0, files[0].1, reason)]
    requires |rv.events| <= |next.events| && next.events[..|rv.events|] == rv.events
    ensures Extends(r, rv, files)
  {
    PrefixOfPrefix(r.patches, next.patches, rv.patches);
    PrefixOfPrefix(r.events, next.events, rv.events);
    forall k | |rv.patches| <= k < |r.patches| ensures (r.patches[k].filename, r.patches[k].code) in files {
      if k >= |next.patches| {
        assert (r.patches[k].filename, r.patches[k].code) in files[1..];
      } else {
        assert r.patches[k] == next.patches[k] && (r.patches[k].filename, r.patches[k].code) == files[0];
      }
    }
  }

  lemma PrefixOfPrefix<T>(r: seq<T>, next: seq<T>, patches: seq<T>)
    requires |next| <= |r| && r[..|next|] == next
    requires |patches| <= |next| && next[..|patches|] == patches
    ensures r[..|patches|] == patches
  {
    assert r[..|patches|] == r[..|next|][..|patches|];
  }

  /** When no review says "LBTM", nothing is patched, nothing is written and nothing is
      posted. */
  lemma {:induction false} NoLbtmNoPatch(rv: Rev, files: seq<(string, string)>, replies: seq<Reply>,
                                         site: CodeWriting.Site, extract: string -> (string, string))
    requires AgentStateStore.Stacked(rv.stacks)
    requires forall k :: 0 <= k < |replies| && replies[k].Reply? ==> !Contains(extract(replies[k].text).0, "LBTM")
    ensures ReviewFrom(rv, files, replies, site, extract).0 == rv
    decreases |files|
  {
    if |files| > 0 && |replies| > 0 && replies[0].Reply? {
      assert forall k :: 0 <= k < |replies| - 1 ==> replies[1..][k] == replies[k + 1];
      NoLbtmNoPatch(rv, files[1..], replies[1..], site, extract);
    }
  }

  /** A review that says "LBTM" for a file of the list posts the review message and sends
      that file to the patcher with its code and the reason. */
  lemma LbtmPatched(rv: Rev, f: string, code: string, files: seq<(string, string)>,
                    text: string, replies: seq<Reply>, site: CodeWriting.Site, extract: string -> (string, string))
    requires AgentStateStore.Stacked(rv.stacks)
    requires Contains(extract(text).0, "LBTM") && !SkippedBy(f, NotReviewed)
    ensures var r := ReviewFrom(rv, [(f, code)] + files, [Reply(text)] + replies, site, extract).0;
      |r.patches| > |rv.patches| && r.patches[|rv.patches|] == Patch(f, code, extract(text).1)
      && |r.events| > |rv.events| && r.events[|rv.events|] == Socket.ChatMessage(site.project, Json.JStr(ReviewMessage(f, extract(text).1)))
  {
    PatchTestRedundant(f);
    var all := [(f, code)] + files;
    var rs := [Reply(text)] + replies;
    assert all[0] == (f, code) && all[1..] == files && rs[0] == Reply(text) && rs[1..] == replies;
    var reason := extract(text).1;
    var e1 := rv.events + [Socket.ChatMessage(site.project, Json.JStr(ReviewMessage(f, reason)))];
    var o := CodeWriting.Outcome(CodeWriting.Patcher, rv.stacks, e1, replies, site);
    var rv2 := Rev(rv.patches + [Patch(f, code, reason)], o.2, o.3);
    var r := ReviewFrom(rv, all, rs, site, extract).0;
    if o.0.Ok? {
      assert r == ReviewFrom(rv2, files, o.1, site, extract).0;
      ReviewFromPatches(rv2, files, o.1, site, extract);
    } else {
      assert r == rv2;
    }
    assert r.patches[..|rv2.patches|] == rv2.patches;
    assert r.patches[|rv.patches|] == r.patches[..|rv2.patches|][|rv.patches|];
    assert o.2 == rv2.stacks && rv2.events[..|e1|] == e1;
    assert r.events[|rv.events|] == r.events[..|rv2.events|][..|e1|][|rv.events|];
  }

  /** A file whose review does not send it to the patcher is passed over with one reply. */
  lemma ReviewFirst(rv: Rev, f: string, code: string, files: seq<(string, string)>,
                    text: string, replies: seq<Reply>, site: CodeWriting.Site, extract: string -> (string, string))
    requires AgentStateStore.Stacked(rv.stacks)
    requires !(Contains(extract(text).0, "LBTM") && !SkippedBy(f, NotPatched))
    ensures ReviewFrom(rv, [(f, code)] + files, [Reply(text)] + replies, site, extract)
      == ReviewFrom(rv, files, replies, site, extract)
  {
    assert ([(f, code)] + files)[1..] == files && ([Reply(text)] + replies)[1..] == replies;
  }
}
