/**
 * The incremental developer of `src/agents/incdev/incdev.py`: for each file of the
 * system design it asks the model for a git-style diff, reads the reply's "Gitdiff:",
 * "Summary:" and "Score:" parts, and hands a file with a non-zero score and a non-empty
 * diff to the feature agent.
 */
module IncDev {
  import opened Wrappers
  import opened Text
  import opened Oracles
  import opened Paths
  import Lists
  import Utils
  import Json
  import Socket
  import AgentStateStore
  import CodeWriting

  const Fence := "~~~"
  const DiffLabel := "Gitdiff:"
  const SummaryLabel := "Summary:"
  const ScoreLabel := "Score:"

  /** One change of the diff (`{'old': ..., 'new': ...}`): the removed lines and the
      added lines, markers kept. */
  datatype Hunk = Hunk(oldLines: seq<string>, newLines: seq<string>)

  /** What `extractGitDiffInfoFromResponse` returns when the reply is complete. */
  datatype Change = Change(gitdiff: seq<Hunk>, summary: string, score: nat)

  // ---------------------------------------------------------------------------------
  // The reply's parts

  /** One leading "~~~" and one trailing "~~~" removed, then stripped. Unlike the other
      agents, the reply is not stripped before the fences are looked for. */
  function Unfenced(response: string): (r: string)
    ensures |r| <= |response|
  {
    var a := if StartsWith(response, Fence) then DropPrefix(response, Fence) else response;
    var b := if EndsWith(a, Fence) then DropSuffix(a, Fence) else a;
    Strip(b)
  }

  /** The three labels all occur. */
  predicate Labelled(text: string) {
    Contains(text, DiffLabel) && Contains(text, SummaryLabel) && Contains(text, ScoreLabel)
  }

  /** `text.split(a)[1].split(b)[0].strip()`: what follows the first `a`, up to the next
      `a` or `b`, stripped. */
  function Section(text: string, a: string, b: string): string
    requires |a| > 0 && |b| > 0 && Contains(text, a)
  {
    SplitParts(text, a);
    Strip(Split(Split(text, a)[1], b)[0])
  }

  /** A section written as `x + a + y + b + z` is `y` stripped, when neither `a` nor `b`
      can start inside `y` or `x` and `a` cannot start inside `b`. */
  lemma SectionOf(x: string, a: string, y: string, b: string, z: string)
    requires |a| > 0 && |b| > 0 && a[0] !in x && a[0] !in y && b[0] !in y
    requires forall j :: 0 <= j < |b| ==> !OccursAt(b + z, a, j)
    ensures Contains(x + a + y + b + z, a)
    ensures Section(x + a + y + b + z, a, b) == Strip(y)
  {
    var r := y + b + z;
    assert x + a + y + b + z == x + a + r;
    SecondPiece(x, a, r);
    SectionPiece(y, b, z, a);
  }

  /** The text after `a`: its piece before the next `a`, cut at `b`, is `y`. */
  lemma SectionPiece(y: string, b: string, z: string, a: string)
    requires |a| > 0 && |b| > 0 && a[0] !in y && b[0] !in y
    requires forall j :: 0 <= j < |b| ==> !OccursAt(b + z, a, j)
    ensures Split(Split(y + b + z, a)[0], b)[0] == y
  {
    var r := y + b + z;
    NoEarlyOccurrence(y, b, z, a);
    FirstPieceKeeps(r, a, |y| + |b|);
    assert r[..|y| + |b|] == y + b;
    CutAt(Split(r, a)[0], y, b);
  }

  /** A text that starts with `y + b`, where `b` cannot start inside `y`, is cut at `b`
      right after `y`. */
  lemma CutAt(p: string, y: string, b: string)
    requires |b| > 0 && b[0] !in y && |y| + |b| <= |p| && p[..|y| + |b|] == y + b
    ensures Split(p, b)[0] == y
  {
    var z := p[|y| + |b|..];
    assert p == y + b + z;
    FindAfterFree(y, b, z);
    assert p[..|y|] == y;
  }

  lemma NoEarlyOccurrence(y: string, b: string, z: string, a: string)
    requires |a| > 0 && a[0] !in y
    requires forall j :: 0 <= j < |b| ==> !OccursAt(b + z, a, j)
    ensures forall j :: 0 <= j < |y| + |b| ==> !OccursAt(y + b + z, a, j)
  {
    var r := y + b + z;
    forall j | 0 <= j < |y| + |b| ensures !OccursAt(r, a, j) {
      if j + |a| <= |r| {
        if j < |y| {
          assert r[j..j + |a|][0] == y[j] != a[0];
        } else {
          assert !OccursAt(b + z, a, j - |y|);
          assert r[j..j + |a|] == (b + z)[j - |y|..j - |y| + |a|];
        }
      }
    }
  }

  /** The second piece of `split` when the separator's first occurrence follows `x`. */
  lemma SecondPiece(x: string, a: string, r: string)
    requires |a| > 0 && a[0] !in x
    ensures |Split(x + a + r, a)| >= 2 && Split(x + a + r, a)[1] == Split(r, a)[0]
  {
    var s := x + a + r;
    FindAfterFree(x, a, r);
    assert s[..|x|] == x && s[|x| + |a|..] == r;
  }

  /** The first piece of `split` keeps the text before any occurrence of the separator. */
  lemma FirstPieceKeeps(r: string, a: string, m: nat)
    requires |a| > 0 && m <= |r|
    requires forall j :: 0 <= j < m ==> !OccursAt(r, a, j)
    ensures m <= |Split(r, a)[0]| && Split(r, a)[0][..m] == r[..m]
  {
    var k := Find(r, a);
    if k >= 0 {
      assert k >= m;
      assert r[..k][..m] == r[..m];
    }
  }

  // ---------------------------------------------------------------------------------
  // The hunks of the diff

  /** Every line, stripped. */
  function Stripped(lines: seq<string>): (r: seq<string>)
    ensures |r| == |lines| && forall i :: 0 <= i < |lines| ==> r[i] == Strip(lines[i])
  {
    seq(|lines|, i requires 0 <= i < |lines| => Strip(lines[i]))
  }

  /** The end of the run of lines from `i` that start with `mark`. */
  function RunEnd(ls: seq<string>, i: nat, mark: string): (k: nat)
    requires i <= |ls|
    ensures i <= k <= |ls| && (k < |ls| ==> !StartsWith(ls[k], mark))
    ensures forall j :: i <= j < k ==> StartsWith(ls[j], mark)
    decreases |ls| - i
  {
    if i < |ls| && StartsWith(ls[i], mark) then RunEnd(ls, i + 1, mark) else i
  }

  /** The hunks of the stripped lines from `i` on: a '-' line opens a hunk that takes the
      '-' lines after it and then the '+' lines; a '+' line opens one that takes the '+'
      lines and then the '-' lines; any other line is passed over. */
  function HunksFrom(ls: seq<string>, i: nat): seq<Hunk>
    requires i <= |ls|
    decreases |ls| - i
  {
    if i == |ls| then []
    else if StartsWith(ls[i], "-") then
      var j := RunEnd(ls, i + 1, "-");
      var k := RunEnd(ls, j, "+");
      [Hunk(ls[i..j], ls[j..k])] + HunksFrom(ls, k)
    else if StartsWith(ls[i], "+") then
      var j := RunEnd(ls, i + 1, "+");
      var k := RunEnd(ls, j, "-");
      [Hunk(ls[j..k], ls[i..j])] + HunksFrom(ls, k)
    else HunksFrom(ls, i + 1)
  }

  /** Every hunk is well formed. */
  lemma {:induction false} HunksWellFormed(ls: seq<string>, i: nat)
    requires i <= |ls|
    ensures forall h :: h in HunksFrom(ls, i) ==> WellFormed(h)
    decreases |ls| - i
  {
    if i < |ls| {
      if StartsWith(ls[i], "-") {
        HunksWellFormed(ls, RunEnd(ls, RunEnd(ls, i + 1, "-"), "+"));
      } else if StartsWith(ls[i], "+") {
        HunksWellFormed(ls, RunEnd(ls, RunEnd(ls, i + 1, "+"), "-"));
      } else {
        HunksWellFormed(ls, i + 1);
      }
    }
  }

  /** A hunk is not empty, its old lines start with '-' and its new lines with '+'. */
  predicate WellFormed(h: Hunk) {
    |h.oldLines| + |h.newLines| > 0
    && (forall j :: 0 <= j < |h.oldLines| ==> StartsWith(h.oldLines[j], "-"))
    && (forall j :: 0 <= j < |h.newLines| ==> StartsWith(h.newLines[j], "+"))
  }

  /** The loop of `extractGitDiffInfoFromResponse` over the diff's lines. */
  method ExtractHunks(lines: seq<string>) returns (gitdiff: seq<Hunk>)
    ensures gitdiff == HunksFrom(Stripped(lines), 0)
  {
    ghost var ls := Stripped(lines);
    gitdiff := [];
    var i := 0;
    while i < |lines|
      invariant 0 <= i <= |lines|
      invariant gitdiff + HunksFrom(ls, i) == HunksFrom(ls, 0)
      decreases |lines| - i
    {
      gitdiff, i := ScanLine(lines, ls, gitdiff, i);
    }
  }

  /** The body of the outer loop: a '-' or '+' line adds the hunk it opens, any other
      line is passed over. */
  method ScanLine(lines: seq<string>, ghost ls: seq<string>, gitdiff: seq<Hunk>, i: nat)
      returns (gitdiff': seq<Hunk>, i': nat)
    requires ls == Stripped(lines) && i < |lines|
    ensures i < i' <= |lines| && gitdiff' + HunksFrom(ls, i') == gitdiff + HunksFrom(ls, i)
  {
    var line := Strip(lines[i]);
    assert line == ls[i];
    if StartsWith(line, "-") {
      var hunk, k := NextHunk(lines, ls, i, "-", "+");
      Regroup(gitdiff, hunk, HunksFrom(ls, k), HunksFrom(ls, i));
      gitdiff', i' := gitdiff + [hunk], k;
    } else if StartsWith(line, "+") {
      var hunk, k := NextHunk(lines, ls, i, "+", "-");
      Regroup(gitdiff, hunk, HunksFrom(ls, k), HunksFrom(ls, i));
      gitdiff', i' := gitdiff + [hunk], k;
    } else {
      Unsigned(ls, i);
      gitdiff', i' := gitdiff, i + 1;
    }
  }

  /** A line that is neither '-' nor '+' opens no hunk. */
  lemma Unsigned(ls: seq<string>, i: nat)
    requires i < |ls| && !StartsWith(ls[i], "-") && !StartsWith(ls[i], "+")
    ensures HunksFrom(ls, i) == HunksFrom(ls, i + 1)
  {
  }

  /** The hunk opened by the '-' or '+' line `i`, and where the scan goes on. */
  method NextHunk(lines: seq<string>, ghost ls: seq<string>, i: nat, first: string, second: string)
      returns (hunk: Hunk, k: nat)
    requires ls == Stripped(lines) && i < |lines| && StartsWith(ls[i], first)
    requires (first == "-" && second == "+") || (first == "+" && second == "-")
    ensures i < k <= |lines| && HunksFrom(ls, i) == [hunk] + HunksFrom(ls, k)
  {
    var openRun, closeRun;
    openRun, closeRun, k := TakeHunk(lines, i, first, second);
    HunkStep(ls, i, first, second);
    hunk := if first == "-" then Hunk(openRun, closeRun) else Hunk(closeRun, openRun);
  }

  lemma Regroup(a: seq<Hunk>, h: Hunk, b: seq<Hunk>, c: seq<Hunk>)
    requires c == [h] + b
    ensures (a + [h]) + b == a + c
  {
  }

  /** The hunks from a '-' or '+' line: the one it opens, then those after it. */
  lemma HunkStep(ls: seq<string>, i: nat, first: string, second: string)
    requires i < |ls| && StartsWith(ls[i], first)
    requires (first == "-" && second == "+") || (first == "+" && second == "-")
    ensures var j := RunEnd(ls, i + 1, first); var k := RunEnd(ls, j, second);
      HunksFrom(ls, i)
      == [if first == "-" then Hunk(ls[i..j], ls[j..k]) else Hunk(ls[j..k], ls[i..j])] + HunksFrom(ls, k)
  {
  }

  /** One hunk opened by line `i`: its run of `first` lines, then the run of `second` lines. */
  method TakeHunk(lines: seq<string>, i: nat, first: string, second: string)
      returns (openRun: seq<string>, closeRun: seq<string>, k: nat)
    requires i < |lines|
    ensures var ls := Stripped(lines); var j := RunEnd(ls, i + 1, first);
      k == RunEnd(ls, j, second) && openRun == ls[i..j] && closeRun == ls[j..k]
  {
    ghost var ls := Stripped(lines);
    var more, j := TakeRun(lines, i + 1, first);
    closeRun, k := TakeRun(lines, j, second);
    var line := Strip(lines[i]);
    openRun := [line] + more;
    assert line == ls[i];
    ConsSlice(ls, i, j);
  }

  lemma Assoc(a: seq<string>, b: seq<string>, c: seq<string>)
    ensures a + (b + c) == (a + b) + c
  {
  }

  lemma ConsSlice(ls: seq<string>, i: nat, j: nat)
    requires i < j <= |ls|
    ensures ls[i..j] == [ls[i]] + ls[i + 1..j]
  {
  }

  /** One inner loop: the stripped lines from `i` on that start with `mark`. */
  method TakeRun(lines: seq<string>, i: nat, mark: string) returns (run: seq<string>, end: nat)
    requires i <= |lines|
    ensures end == RunEnd(Stripped(lines), i, mark) && run == Stripped(lines)[i..end]
  {
    ghost var ls := Stripped(lines);
    run := [];
    end := i;
    while end < |lines| && StartsWith(Strip(lines[end]), mark)
      invariant i <= end <= |lines|
      invariant RunEnd(ls, end, mark) == RunEnd(ls, i, mark)
      invariant run == ls[i..end]
      decreases |lines| - end
    {
      var line := Strip(lines[end]);
      run, end := RunGrow(lines, ls, i, end, mark, run, line);
    }
    assert end < |lines| ==> Strip(lines[end]) == ls[end];
    RunStop(ls, end, mark);
  }

  /** The body of the inner loop. */
  method RunGrow(ghost lines: seq<string>, ghost ls: seq<string>, ghost i: nat, end: nat, ghost mark: string,
                 run: seq<string>, line: string) returns (run': seq<string>, end': nat)
    requires ls == Stripped(lines) && i <= end < |lines| && line == Strip(lines[end])
    requires StartsWith(line, mark) && run == ls[i..end]
    ensures end' == end + 1 && run' == ls[i..end']
    ensures RunEnd(ls, end', mark) == RunEnd(ls, end, mark)
  {
    RunStep(ls, i, end, mark);
    run' := run + [line];
    end' := end + 1;
  }

  /** One line of a run: the end is unchanged and the line joins the run. */
  lemma RunStep(ls: seq<string>, i: nat, end: nat, mark: string)
    requires i <= end < |ls| && StartsWith(ls[end], mark)
    ensures RunEnd(ls, end, mark) == RunEnd(ls, end + 1, mark)
    ensures ls[i..end + 1] == ls[i..end] + [ls[end]]
  {
  }

  /** A line without the mark ends the run. */
  lemma RunStop(ls: seq<string>, end: nat, mark: string)
    requires end <= |ls| && !(end < |ls| && StartsWith(ls[end], mark))
    ensures RunEnd(ls, end, mark) == end
  {
  }

  /** A line that opens or joins a hunk. */
  predicate Signed(line: string) {
    StartsWith(line, "-") || StartsWith(line, "+")
  }

  /** The '-' and '+' lines from `i` on, in order. */
  function SignedFrom(ls: seq<string>, i: nat): seq<string>
    requires i <= |ls|
    decreases |ls| - i
  {
    if i == |ls| then [] else (if Signed(ls[i]) then [ls[i]] else []) + SignedFrom(ls, i + 1)
  }

  /** The lines of the hunks, old before new. */
  function Flat(hunks: seq<Hunk>): seq<string> {
    if |hunks| == 0 then [] else hunks[0].oldLines + hunks[0].newLines + Flat(hunks[1..])
  }

  /** A run of signed lines is kept as it is. */
  lemma {:induction false} SignedRun(ls: seq<string>, a: nat, b: nat)
    requires a <= b <= |ls| && forall j :: a <= j < b ==> Signed(ls[j])
    ensures SignedFrom(ls, a) == ls[a..b] + SignedFrom(ls, b)
    decreases b - a
  {
    if a < b {
      SignedRun(ls, a + 1, b);
      assert SignedFrom(ls, a) == [ls[a]] + SignedFrom(ls, a + 1);
      ConsSlice(ls, a, b);
      Assoc([ls[a]], ls[a + 1..b], SignedFrom(ls, b));
    }
  }

  /** Every '-' or '+' line lands in exactly one hunk: the hunks hold the signed lines,
      each as often as it occurs. */
  lemma {:induction false} HunksCover(ls: seq<string>, i: nat)
    requires i <= |ls|
    ensures multiset(Flat(HunksFrom(ls, i))) == multiset(SignedFrom(ls, i))
    decreases |ls| - i
  {
    if i < |ls| {
      if StartsWith(ls[i], "-") {
        var k := HunkLines(ls, i, "-", "+");
        HunksCover(ls, k);
      } else if StartsWith(ls[i], "+") {
        var k := HunkLines(ls, i, "+", "-");
        HunksCover(ls, k);
      } else {
        HunksCover(ls, i + 1);
      }
    }
  }

  /** The hunk opened at `i` holds the signed lines from `i` up to the `k` where the
      rest of the hunks start. */
  lemma HunkLines(ls: seq<string>, i: nat, first: string, second: string) returns (k: nat)
    requires i < |ls| && StartsWith(ls[i], first)
    requires (first == "-" && second == "+") || (first == "+" && second == "-")
    ensures i < k <= |ls|
    ensures multiset(Flat(HunksFrom(ls, i))) == multiset(ls[i..k]) + multiset(Flat(HunksFrom(ls, k)))
    ensures SignedFrom(ls, i) == ls[i..k] + SignedFrom(ls, k)
  {
    var j := RunEnd(ls, i + 1, first);
    k := RunEnd(ls, j, second);
    SignedRun(ls, i, k);
    assert ls[i..k] == ls[i..j] + ls[j..k];
    var h := if first == "-" then Hunk(ls[i..j], ls[j..k]) else Hunk(ls[j..k], ls[i..j]);
    assert HunksFrom(ls, i) == [h] + HunksFrom(ls, k);
    assert ([h] + HunksFrom(ls, k))[1..] == HunksFrom(ls, k);
    assert Flat(HunksFrom(ls, i)) == h.oldLines + h.newLines + Flat(HunksFrom(ls, k));
  }

  // ---------------------------------------------------------------------------------
  // The score: `re.search(r'Score:\s*(\d+)\s*:?', text)`

  /** The end of the run of decimal digits from `i`. */
  function DigitEnd(s: string, i: nat): (k: nat)
    requires i <= |s|
    ensures i <= k <= |s| && (k < |s| ==> !IsDigit(s[k]))
    ensures forall j :: i <= j < k ==> IsDigit(s[j])
    decreases |s| - i
  {
    if i < |s| && IsDigit(s[i]) then DigitEnd(s, i + 1) else i
  }

  /** The number a match starting at `i` captures. `\s*` takes the longest run of white
      space: giving some back leaves white space where `\d` must match, which cannot. The
      trailing `\s*:?` always matches. */
  function ScoreAt(s: string, i: nat): Option<nat>
    requires i <= |s|
  {
    if OccursAt(s, ScoreLabel, i) then NumberAt(s, SkipSpaces(s, i + |ScoreLabel|)) else None
  }

  /** The number written by the digits from `k`, if there is one. */
  function NumberAt(s: string, k: nat): Option<nat>
    requires k <= |s|
  {
    var e := DigitEnd(s, k);
    if k < e then Some(DigitsValue(s[k..e])) else None
  }

  /** The first match at or after `i`. */
  function ScoreSearch(s: string, i: nat): Option<nat>
    requires i <= |s|
    decreases |s| - i
  {
    if i == |s| then None
    else match ScoreAt(s, i)
      case Some(v) => Some(v)
      case None => ScoreSearch(s, i + 1)
  }

  /** The score, 0 when no match is found. */
  function Score(text: string): nat {
    match ScoreSearch(text, 0)
    case Some(v) => v
    case None => 0
  }

  /** "Score: <n>" at the start of the text gives `n`. */
  lemma ScoreLeading(n: nat, rest: string)
    requires |rest| == 0 || !IsDigit(rest[0])
    ensures ScoreSearch(ScoreLabel + " " + NatToDecimal(n) + rest, 0) == Some(n)
  {
    var ds := NatToDecimal(n);
    var s := ScoreLabel + " " + ds + rest;
    assert s[..|ScoreLabel|] == ScoreLabel;
    assert s[6] == ' ' && s[7] == ds[0];
    assert SkipSpaces(s, 7) == 7;
    assert SkipSpaces(s, 6) == 7;
    DigitsRun(ScoreLabel + " ", ds, rest, 7);
    assert s[7..7 + |ds|] == ds;
    NatToDecimalValue(n);
  }

  lemma {:induction false} DigitsRun(a: string, ds: string, rest: string, i: nat)
    requires |a| <= i <= |a| + |ds| && AllDigits(ds) && (|rest| == 0 || !IsDigit(rest[0]))
    ensures DigitEnd(a + ds + rest, i) == |a| + |ds|
    decreases |a| + |ds| - i
  {
    var s := a + ds + rest;
    if i < |a| + |ds| {
      assert s[i] == ds[i - |a|];
      DigitsRun(a, ds, rest, i + 1);
    } else if i < |s| {
      assert s[i] == rest[0];
    }
  }

  /** With no "Score:" followed by digits, the score is 0. */
  lemma {:induction false} ScoreMissing(s: string, i: nat)
    requires i <= |s|
    requires forall j :: i <= j <= |s| ==> ScoreAt(s, j).None?
    ensures ScoreSearch(s, i).None?
    decreases |s| - i
  {
    if i < |s| {
      ScoreMissing(s, i + 1);
    }
  }

  // ---------------------------------------------------------------------------------
  // extractGitDiffInfoFromResponse

  /** The hunks, the summary and the score of a reply, or `None` (the source's `False`)
      when a label is missing. */
  function ExtractDiff(response: string): (r: Option<Change>)
    ensures r.Some? <==> Labelled(Unfenced(response))
    ensures r.Some? ==> forall h :: h in r.value.gitdiff ==> WellFormed(h)
  {
    var text := Unfenced(response);
    if !Labelled(text) then None
    else
      HunksWellFormed(Stripped(Split(Section(text, DiffLabel, SummaryLabel), "\n")), 0);
      Some(Change(HunksFrom(Stripped(Split(Section(text, DiffLabel, SummaryLabel), "\n")), 0),
                  Section(text, SummaryLabel, ScoreLabel), Score(text)))
  }

  /** `extractGitDiffInfoFromResponse`. */
  method ExtractGitDiffInfo(response: string) returns (r: Option<Change>)
    ensures r == ExtractDiff(response)
  {
    var text := Unfenced(response);
    if !Contains(text, DiffLabel) || !Contains(text, SummaryLabel) || !Contains(text, ScoreLabel) {
      return None;
    }
    var gitdiffLines := Split(Section(text, DiffLabel, SummaryLabel), "\n");
    var gitdiff := ExtractHunks(gitdiffLines);
    var summary := Section(text, SummaryLabel, ScoreLabel);
    r := Some(Change(gitdiff, summary, Score(text)));
  }

  /** The reply the prompt asks for, "Gitdiff:\n<diff>\nSummary: <summary>\nScore: <n>",
      is read back part by part. */
  lemma ExtractLaidOut(diff: string, summary: string, n: nat)
    requires IsCleanText(diff) && IsCleanText(summary)
    requires 'G' !in diff && 'S' !in diff && 'G' !in summary && 'S' !in summary
    ensures ExtractDiff(LaidOut(diff, summary, n))
      == Some(Change(HunksFrom(Stripped(Split(diff, "\n")), 0), summary, n))
  {
    var s := LaidOut(diff, summary, n);
    UnfencedLaidOut(diff, summary, n);
    DiffLaidOut(diff, summary, n);
    SummaryLaidOut(diff, summary, n);
    ScoreLabelLaidOut(diff, summary, n);
    ScoreOfLaidOut(diff, summary, n);
  }

  /** The diff section of a laid-out reply: after "Gitdiff:", up to "Summary:". */
  lemma DiffLaidOut(diff: string, summary: string, n: nat)
    requires IsCleanText(diff) && 'G' !in diff && 'S' !in diff
    ensures Contains(LaidOut(diff, summary, n), DiffLabel)
    ensures Contains(LaidOut(diff, summary, n), SummaryLabel)
    ensures Section(LaidOut(diff, summary, n), DiffLabel, SummaryLabel) == diff
  {
    var z := " " + summary + "\n" + ScoreLabel + " " + NatToDecimal(n);
    var s := LaidOut(diff, summary, n);
    assert s == "" + DiffLabel + ("\n" + diff + "\n") + SummaryLabel + z;
    NoLabelInside(SummaryLabel, DiffLabel, z);
    SectionOf("", DiffLabel, "\n" + diff + "\n", SummaryLabel, z);
    StripSurrounded("\n", diff, "\n");
    SummaryLabelLaidOut(diff, summary, n);
  }

  /** "Summary:" occurs in a laid-out reply. */
  lemma SummaryLabelLaidOut(diff: string, summary: string, n: nat)
    ensures Contains(LaidOut(diff, summary, n), SummaryLabel)
  {
    var s := LaidOut(diff, summary, n);
    var x := DiffLabel + "\n" + diff + "\n";
    assert s == x + SummaryLabel + (" " + summary + "\n" + ScoreLabel + " " + NatToDecimal(n));
    assert s[|x|..|x| + |SummaryLabel|] == SummaryLabel;
    assert OccursAt(s, SummaryLabel, |x|);
  }

  /** The summary section of a laid-out reply: after "Summary:", up to "Score:". */
  lemma SummaryLaidOut(diff: string, summary: string, n: nat)
    requires IsCleanText(summary) && 'S' !in diff && 'S' !in summary
    ensures Contains(LaidOut(diff, summary, n), SummaryLabel)
    ensures Section(LaidOut(diff, summary, n), SummaryLabel, ScoreLabel) == summary
  {
    var tail := " " + NatToDecimal(n);
    var x := DiffLabel + "\n" + diff + "\n";
    assert 'S' !in x by {
      assert x == DiffLabel + ("\n" + diff + "\n");
    }
    assert LaidOut(diff, summary, n) == x + SummaryLabel + (" " + summary + "\n") + ScoreLabel + tail;
    NoLabelInside(ScoreLabel, SummaryLabel, tail);
    SectionOf(x, SummaryLabel, " " + summary + "\n", ScoreLabel, tail);
    StripSurrounded(" ", summary, "\n");
  }

  /** The score of a laid-out reply. */
  lemma ScoreOfLaidOut(diff: string, summary: string, n: nat)
    requires 'S' !in diff && 'S' !in summary
    ensures Score(LaidOut(diff, summary, n)) == n
  {
    var x := DiffLabel + "\n" + diff + "\n";
    var y := " " + summary + "\n";
    var a := x + SummaryLabel + y;
    assert 'S' !in x && 'S' !in y;
    NoScoreBefore(x, y);
    ScoreLaidOut(a, n);
    assert LaidOut(diff, summary, n) == a + ScoreLabel + " " + NatToDecimal(n);
  }

  /** In the lines before the score, every 'S' (that of "Summary:") is followed by
      something other than 'c'. */
  lemma NoScoreBefore(x: string, y: string)
    requires 'S' !in x && 'S' !in y
    ensures var a := x + SummaryLabel + y;
      forall j :: 0 <= j < |a| && a[j] == 'S' ==> j + 1 < |a| && a[j + 1] != 'c'
  {
    var a := x + SummaryLabel + y;
    forall j | 0 <= j < |a| ensures a[j] == 'S' ==> j + 1 < |a| && a[j + 1] != 'c' {
      if j < |x| {
        assert a[j] == x[j];
      } else if j >= |x| + |SummaryLabel| {
        assert a[j] == y[j - |x| - |SummaryLabel|];
      } else if j == |x| {
        assert a[j + 1] == SummaryLabel[1];
      } else {
        assert a[j] == SummaryLabel[j - |x|];
      }
    }
  }

  /** "Score:" occurs in a laid-out reply. */
  lemma ScoreLabelLaidOut(diff: string, summary: string, n: nat)
    ensures Contains(LaidOut(diff, summary, n), ScoreLabel)
  {
    var s := LaidOut(diff, summary, n);
    var tail := " " + NatToDecimal(n);
    assert s[|s| - |tail| - |ScoreLabel|..|s| - |tail|] == ScoreLabel;
    assert OccursAt(s, ScoreLabel, |s| - |tail| - |ScoreLabel|);
  }

  predicate IsCleanText(x: string) {
    |x| > 0 && !IsSpace(x[0]) && !IsSpace(x[|x| - 1])
  }

  /** The reply laid out as the prompt asks. */
  function LaidOut(diff: string, summary: string, n: nat): string {
    DiffLabel + "\n" + diff + "\n" + SummaryLabel + " " + summary + "\n" + ScoreLabel + " " + NatToDecimal(n)
  }

  lemma UnfencedLaidOut(diff: string, summary: string, n: nat)
    ensures Unfenced(LaidOut(diff, summary, n)) == LaidOut(diff, summary, n)
  {
    var s := LaidOut(diff, summary, n);
    var ds := NatToDecimal(n);
    assert s[0] == 'G';
    assert s[|s| - 1] == ds[|ds| - 1];
    assert !StartsWith(s, Fence) by {
      assert s[..3][0] == 'G';
    }
    assert !EndsWith(s, Fence) by {
      assert s[|s| - 3..][2] == ds[|ds| - 1];
    }
    StripTrimmed(s);
  }

  /** Label `a` never starts inside label `b` (for the two pairs the reply uses). */
  lemma NoLabelInside(b: string, a: string, z: string)
    requires (b == SummaryLabel && a == DiffLabel) || (b == ScoreLabel && a == SummaryLabel)
    ensures forall j :: 0 <= j < |b| ==> !OccursAt(b + z, a, j)
  {
    forall j | 0 <= j < |b| ensures !OccursAt(b + z, a, j) {
      if j + |a| <= |b + z| {
        if j == 0 {
          assert (b + z)[j..j + |a|][1] == b[1] != a[1];
        } else {
          assert (b + z)[j..j + |a|][0] == b[j] != a[0];
        }
      }
    }
  }

  /** The score of a laid-out reply: no "Score:" occurs before the last line. */
  lemma ScoreLaidOut(a: string, n: nat)
    requires forall j :: 0 <= j < |a| && a[j] == 'S' ==> j + 1 < |a| && a[j + 1] != 'c'
    ensures Score(a + ScoreLabel + " " + NatToDecimal(n)) == n
  {
    var tail := ScoreLabel + " " + NatToDecimal(n);
    var s := a + tail;
    assert s == a + ScoreLabel + " " + NatToDecimal(n);
    forall j | 0 <= j < |a| ensures ScoreAt(s, j).None? {
      if j + |ScoreLabel| <= |s| {
        if a[j] == 'S' {
          assert s[j..j + |ScoreLabel|][1] == a[j + 1] != ScoreLabel[1];
        } else {
          assert s[j..j + |ScoreLabel|][0] == a[j] != ScoreLabel[0];
        }
      }
    }
    ScoreSkip(s, 0, |a|);
    ScoreLeading(n, "");
    assert tail + "" == tail;
    ScoreShift(a, tail, 0);
  }

  lemma {:induction false} ScoreSkip(s: string, i: nat, m: nat)
    requires i <= m <= |s|
    requires forall j :: i <= j < m ==> ScoreAt(s, j).None?
    ensures ScoreSearch(s, i) == ScoreSearch(s, m)
    decreases m - i
  {
    if i < m {
      ScoreSkip(s, i + 1, m);
    }
  }

  /** The search only looks forward from its position. */
  lemma {:induction false} ScoreShift(p: string, q: string, i: nat)
    requires i <= |q|
    ensures ScoreSearch(p + q, |p| + i) == ScoreSearch(q, i)
    decreases |q| - i
  {
    if i < |q| {
      ScoreAtShift(p, q, i);
      ScoreShift(p, q, i + 1);
    }
  }

  lemma ScoreAtShift(p: string, q: string, i: nat)
    requires i <= |q|
    ensures ScoreAt(p + q, |p| + i) == ScoreAt(q, i)
  {
    OccursShift(p, q, ScoreLabel, i);
    if OccursAt(q, ScoreLabel, i) {
      SpacesShift(p, q, i + |ScoreLabel|);
      NumberShift(p, q, SkipSpaces(q, i + |ScoreLabel|));
    }
  }

  lemma NumberShift(p: string, q: string, k: nat)
    requires k <= |q|
    ensures NumberAt(p + q, |p| + k) == NumberAt(q, k)
  {
    DigitShift(p, q, k);
    var e := DigitEnd(q, k);
    assert (p + q)[|p| + k..|p| + e] == q[k..e];
  }

  lemma OccursShift(p: string, q: string, t: string, i: nat)
    requires i <= |q|
    ensures OccursAt(p + q, t, |p| + i) == OccursAt(q, t, i)
  {
    if |p| + i + |t| <= |p + q| {
      assert (p + q)[|p| + i..|p| + i + |t|] == q[i..i + |t|];
    }
  }

  lemma {:induction false} SpacesShift(p: string, q: string, i: nat)
    requires i <= |q|
    ensures SkipSpaces(p + q, |p| + i) == |p| + SkipSpaces(q, i)
    decreases |q| - i
  {
    if i < |q| {
      assert (p + q)[|p| + i] == q[i];
      SpacesShift(p, q, i + 1);
    }
  }

  lemma {:induction false} DigitShift(p: string, q: string, i: nat)
    requires i <= |q|
    ensures DigitEnd(p + q, |p| + i) == |p| + DigitEnd(q, i)
    decreases |q| - i
  {
    if i < |q| {
      assert (p + q)[|p| + i] == q[i];
      DigitShift(p, q, i + 1);
    }
  }

  // ---------------------------------------------------------------------------------
  // execute and execute1

  /** The extensions the loop skips before asking the model (lines 204-205). */
  const NotDeveloped: seq<string> := [".jpg", ".png", ".jpeg", ".gif", ".bmp", ".tiff", ".placeholder", ".ico", ".md", ".json", ".svg", ".txt"]
  /** The test repeated before the feature agent is called (line 228), without ".svg" and ".txt". */
  const NotChanged: seq<string> := [".jpg", ".png", ".jpeg", ".gif", ".tiff", ".bmp", ".placeholder", ".ico", ".md", ".json"]

  /** The second test never skips a file the first one let through. */
  lemma SecondTestRedundant(filename: string)
    ensures SkippedBy(filename, NotChanged) ==> SkippedBy(filename, NotDeveloped)
  {
    assert forall e :: e in NotChanged ==> e in NotDeveloped;
  }

  /** ... and it is weaker: a ".txt" file passes it. */
  lemma SecondTestWeaker()
    ensures !SkippedBy("a.txt", NotChanged) && SkippedBy("a.txt", NotDeveloped)
  {
    TxtSuffix();
    assert NotDeveloped[11] == ".txt";
    assert ".txt" !in NotChanged;
  }

  lemma TxtSuffix()
    ensures Contains("a.txt", ".") && Lower(Suffix("a.txt")) == ".txt"
  {
    TxtName();
    TxtLower();
    assert OccursAt("a.txt", ".", 1);
  }

  lemma TxtName()
    ensures Suffix("a.txt") == ".txt"
  {
    assert "a" + "." + "txt" == "a.txt";
    assert "." + "txt" == ".txt";
    SuffixOf("a", "txt");
  }

  lemma TxtLower()
    ensures Lower(".txt") == ".txt"
  {
    var l := Lower(".txt");
    assert l[0] == '.' && l[1] == 't' && l[2] == 'x' && l[3] == 't';
  }

  /** What the feature agent receives for a file: its name, its code and the change. */
  datatype Request = Request(filename: string, code: string, change: Change)

  /** The chat message posted for a name whose file does not exist yet (lines 178-180). */
  const CreatingLabel := "<b>Creating...</b>:"

  /** What the loop has done so far: the requests handed to the feature agent, the
      project's stacks and the broadcast log (chat messages included). */
  datatype Dev = Dev(requests: seq<Request>, stacks: AgentStateStore.Stacks, events: seq<Socket.Event>)

  /** The code the loop reads for a name: a missing file is first created empty, so it
      reads as ""; `read` gives an existing file's content, `None` when reading fails. */
  function CodeOf(f: string, exists_: string -> bool, read: string -> Option<string>): Option<string>
  {
    if exists_(f) then read(f) else Some("")
  }

  /** The message posted before a missing file is created. */
  function Announce(d: Dev, f: string, site: CodeWriting.Site, exists_: string -> bool): Dev
  {
    if exists_(f) then d else d.(events := d.events + [Socket.ChatMessage(site.project, Json.JStr(CreatingLabel + f))])
  }

  /** The loop over the names still to go, after `d`: a missing file is announced and
      created empty, an unreadable or skipped file is passed over, the model is asked
      once per remaining file and its reply read by `extract`; a complete reply with a
      non-zero score and a non-empty diff runs the feature agent on the file, which uses
      replies of its own and, when it raises or stalls, ends the whole loop. */
  function DevelopFrom(d: Dev, files: seq<string>, replies: seq<Reply>, site: CodeWriting.Site,
                       exists_: string -> bool, read: string -> Option<string>,
                       extract: string -> Option<Change>): (r: (Dev, Status<()>))
    requires AgentStateStore.Stacked(d.stacks)
    ensures AgentStateStore.Stacked(r.0.stacks)
    decreases |files|
  {
    if |files| == 0 then (d, Ok(()))
    else
      var f := files[0];
      var d1 := Announce(d, f, site, exists_);
      var code := CodeOf(f, exists_, read);
      if code.None? || SkippedBy(f, NotDeveloped) then DevelopFrom(d1, files[1..], replies, site, exists_, read, extract)
      else if |replies| == 0 then (d1, Stalled)
      else match replies[0]
        case Unavailable => (d1, Raised)
        case Reply(text) =>
          var c := extract(text);
          if c.Some? && c.value.score != 0 && |c.value.gitdiff| > 0 then
            var o := CodeWriting.Outcome(CodeWriting.Feature, d1.stacks, d1.events, replies[1..], site);
            var d2 := Dev(d1.requests + [Request(f, code.value, c.value)], o.2, o.3);
            match o.0
            case Ok(_) => DevelopFrom(d2, files[1..], o.1, site, exists_, read, extract)
            case Raised => (d2, Raised)
            case Stalled => (d2, Stalled)
          else DevelopFrom(d1, files[1..], replies[1..], site, exists_, read, extract)
  }

  /** The loop over the file names shared by `execute` and `execute1`. */
  method DevelopFiles(store: AgentStateStore.AgentState, site: CodeWriting.Site, filenames: seq<string>,
                      exists_: string -> bool, read: string -> Option<string>, replies: seq<Reply>,
                      extract: string -> Option<Change>)
    returns (requests: seq<Request>, status: Status<()>)
    requires store.Valid()
    modifies store, store.sink
    ensures store.Valid()
    ensures var r := DevelopFrom(Dev([], old(store.stacks), old(store.sink.events)), filenames, replies, site,
                                 exists_, read, extract);
      requests == r.0.requests && status == r.1 && store.stacks == r.0.stacks && store.sink.events == r.0.events
  {
    ghost var goal := DevelopFrom(Dev([], store.stacks, store.sink.events), filenames, replies, site, exists_, read, extract);
    requests := [];
    var llm := replies;
    for i := 0 to |filenames|
      invariant store.Valid()
      invariant DevelopFrom(Dev(requests, store.stacks, store.sink.events), filenames[i..], llm, site, exists_, read, extract) == goal
    {
      var done;
      done, requests, llm, status := DevelopOne(store, site, filenames, i, exists_, read, llm, requests, extract);
      if done {
        return;
      }
    }
    return requests, Ok(());
  }

  /** One turn of the loop, on name `i`: `done` when the loop stops there. */
  method DevelopOne(store: AgentStateStore.AgentState, site: CodeWriting.Site, filenames: seq<string>, i: nat,
                    exists_: string -> bool, read: string -> Option<string>, llm: seq<Reply>,
                    requests: seq<Request>, extract: string -> Option<Change>)
    returns (done: bool, requests': seq<Request>, llm': seq<Reply>, status: Status<()>)
    requires i < |filenames| && store.Valid()
    modifies store, store.sink
    ensures store.Valid()
    ensures var goal := DevelopFrom(Dev(requests, old(store.stacks), old(store.sink.events)), filenames[i..], llm,
                                    site, exists_, read, extract);
      var now := Dev(requests', store.stacks, store.sink.events);
      if done then (now, status) == goal
      else DevelopFrom(now, filenames[i + 1..], llm', site, exists_, read, extract) == goal
  {
    assert filenames[i..][1..] == filenames[i + 1..];
    done, requests', llm', status := false, requests, llm, Ok(());
    var fileName := filenames[i];
    if !exists_(fileName) {
      store.sink.Emit(Socket.ChatMessage(site.project, Json.JStr(CreatingLabel + fileName)));
    }
    var fileCode := if exists_(fileName) then read(fileName) else Some("");
    if fileCode.None? {
      return;
    }
    var ext := Lower(Suffix(fileName));
    if !Contains(fileName, ".") || ext in NotDeveloped {
      return;
    }
    if |llm| == 0 {
      return true, requests, llm, Stalled;
    }
    var response := llm[0];
    llm' := llm[1..];
    if response.Unavailable? {
      return true, requests, llm', Raised;
    }
    var valid := extract(response.text);
    if valid.None? {
      return;
    }
    var change := valid.value;
    if change.score == 0 || |change.gitdiff| == 0 {
      return;
    }
    SecondTestRedundant(fileName);
    if !Contains(fileName, ".") || ext in NotChanged {
      return;
    }
    requests' := requests + [Request(fileName, fileCode.value, change)];
    assert CodeWriting.Site(site.project, site.now, site.normpath) == site;
    var code, rest := CodeWriting.Execute(store, CodeWriting.Feature, llm', site.project, site.now, site.normpath);
    llm' := rest;
    if !code.Ok? {
      return true, requests', llm', if code.Raised? then Raised else Stalled;
    }
  }

  /** `execute`: the names come from `systemdesign/systemdesign.txt` (its lines, `None`
      when it cannot be read), de-duplicated; with no names the call returns at once. */
  method Execute(store: AgentStateStore.AgentState, site: CodeWriting.Site, design: Option<seq<string>>,
                 exists_: string -> bool, read: string -> Option<string>, replies: seq<Reply>)
    returns (requests: seq<Request>, status: Status<()>)
    requires store.Valid()
    modifies store, store.sink
    ensures store.Valid()
    ensures design.None? ==>
      requests == [] && status == Ok(()) && store.stacks == old(store.stacks) && store.sink.events == old(store.sink.events)
    ensures design.Some? ==>
      var r := DevelopFrom(Dev([], old(store.stacks), old(store.sink.events)), Lists.Dedup(Utils.CleanLines(design.value)),
                           replies, site, exists_, read, ExtractDiff);
      requests == r.0.requests && status == r.1 && store.stacks == r.0.stacks && store.sink.events == r.0.events
  {
    if design.None? {
      return [], Ok(());
    }
    var filenames := Utils.ReadSysdesign(design);
    if |filenames| == 0 {
      assert Lists.Dedup(filenames) == [];
      return [], Ok(());
    }
    var filenames2 := Lists.Dedup(filenames);
    requests, status := DevelopFiles(store, site, filenames2, exists_, read, replies, ExtractDiff);
  }

  /** The system-design names with no file yet, appended to the selected files. */
  function WithMissing(selected: seq<string>, filenames: seq<string>, exists_: string -> bool): seq<string>
    decreases |filenames|
  {
    if |filenames| == 0 then selected
    else
      var init := filenames[..|filenames| - 1];
      var f := filenames[|filenames| - 1];
      WithMissing(selected, init, exists_) + (if exists_(f) then [] else [f])
  }

  /** The first loop of `execute1`: it appends to the caller's list. */
  method AppendMissing(selected: seq<string>, filenames: seq<string>, exists_: string -> bool)
    returns (selected': seq<string>)
    ensures selected' == WithMissing(selected, filenames, exists_)
  {
    selected' := selected;
    for i := 0 to |filenames|
      invariant selected' == WithMissing(selected, filenames[..i], exists_)
    {
      assert filenames[..i + 1][..i] == filenames[..i];
      if !exists_(filenames[i]) {
        selected' := selected' + [filenames[i]];
      }
    }
    assert filenames[..|filenames|] == filenames;
  }

  /** The selected files come first, followed by the missing names, in order. */
  lemma {:induction false} WithMissingMeaning(selected: seq<string>, filenames: seq<string>, exists_: string -> bool)
    ensures |selected| <= |WithMissing(selected, filenames, exists_)|
    ensures WithMissing(selected, filenames, exists_)[..|selected|] == selected
    ensures forall x :: x in WithMissing(selected, filenames, exists_) <==>
      x in selected || (x in filenames && !exists_(x))
    decreases |filenames|
  {
    if |filenames| > 0 {
      var init := filenames[..|filenames| - 1];
      WithMissingMeaning(selected, init, exists_);
      assert filenames == init + [filenames[|filenames| - 1]];
      var w := WithMissing(selected, init, exists_);
      var f := filenames[|filenames| - 1];
      assert (w + (if exists_(f) then [] else [f]))[..|selected|] == w[..|selected|];
    }
  }

  /** `execute1`: `selected` is the caller's list of selected files, which the call
      extends; `design` the lines of `systemdesign.txt`; `exists_` tells whether a
      project file exists. Returns the extended list, the de-duplicated list the loop
      visits, the requests and how the calls ended. */
  method Execute1(store: AgentStateStore.AgentState, site: CodeWriting.Site, selected: seq<string>,
                  design: Option<seq<string>>, exists_: string -> bool, read: string -> Option<string>,
                  replies: seq<Reply>)
    returns (selected': seq<string>, visited: seq<string>, requests: seq<Request>, status: Status<()>)
    requires store.Valid()
    modifies store, store.sink
    ensures store.Valid()
    ensures selected' == WithMissing(selected, if design.Some? then Utils.CleanLines(design.value) else [], exists_)
    ensures visited == Lists.Dedup(selected')
    ensures var r := DevelopFrom(Dev([], old(store.stacks), old(store.sink.events)), visited, replies, site,
                                 exists_, read, ExtractDiff);
      requests == r.0.requests && status == r.1 && store.stacks == r.0.stacks && store.sink.events == r.0.events
  {
    var filenames := Utils.ReadSysdesign(design);
    selected' := AppendMissing(selected, filenames, exists_);
    visited := Lists.Dedup(selected');
    requests, status := DevelopFiles(store, site, visited, exists_, read, replies, ExtractDiff);
  }

  /** The visited list has no repeats and holds exactly the selected files and the
      missing design names; the selected files' first occurrences lead it. */
  lemma VisitedFacts(selected: seq<string>, filenames: seq<string>, exists_: string -> bool)
    ensures Lists.NoDup(Lists.Dedup(WithMissing(selected, filenames, exists_)))
    ensures forall x :: x in Lists.Dedup(WithMissing(selected, filenames, exists_)) <==>
      x in selected || (x in filenames && !exists_(x))
  {
    WithMissingMeaning(selected, filenames, exists_);
    Lists.DedupFacts(WithMissing(selected, filenames, exists_));
  }

  /** The request `q` is for a listed file that passes the extension test, with the code
      the loop read for it, a non-zero score and a non-empty diff. */
  predicate Sent(q: Request, files: seq<string>, exists_: string -> bool, read: string -> Option<string>) {
    q.filename in files && !SkippedBy(q.filename, NotDeveloped) && CodeOf(q.filename, exists_, read) == Some(q.code)
    && q.change.score != 0 && |q.change.gitdiff| > 0
  }

  /** `r` continues `d`: its requests and its log start with those of `d`, and every
      request after them was sent for one of `files`. */
  predicate Extends(r: Dev, d: Dev, files: seq<string>, exists_: string -> bool, read: string -> Option<string>) {
    |d.requests| <= |r.requests| && r.requests[..|d.requests|] == d.requests
    && |d.events| <= |r.events| && r.events[..|d.events|] == d.events
    && forall k :: |d.requests| <= k < |r.requests| ==> Sent(r.requests[k], files, exists_, read)
  }

  /** The loop never undoes: requests and broadcasts are only appended, and every new
      request is for a listed, readable, developable file with a non-zero score and a
      non-empty diff. */
  lemma {:induction false} DevelopFromRequests(d: Dev, files: seq<string>, replies: seq<Reply>, site: CodeWriting.Site,
                                               exists_: string -> bool, read: string -> Option<string>,
                                               extract: string -> Option<Change>)
    requires AgentStateStore.Stacked(d.stacks)
    ensures Extends(DevelopFrom(d, files, replies, site, exists_, read, extract).0, d, files, exists_, read)
    decreases |files|
  {
    var r := DevelopFrom(d, files, replies, site, exists_, read, extract).0;
    if |files| == 0 {
      ExtendsSelf(r, files, exists_, read);
      return;
    }
    var f := files[0];
    var d1 := Announce(d, f, site, exists_);
    var code := CodeOf(f, exists_, read);
    assert Extends(d1, d, files, exists_, read) by {
      assert d1.events[..|d.events|] == d.events;
    }
    if code.None? || SkippedBy(f, NotDeveloped) {
      DevelopFromRequests(d1, files[1..], replies, site, exists_, read, extract);
      ExtendsTrans(r, d1, d, files, exists_, read);
    } else if |replies| == 0 || replies[0].Unavailable? {
      assert r == d1;
    } else {
      var c := extract(replies[0].text);
      if c.Some? && c.value.score != 0 && |c.value.gitdiff| > 0 {
        var o := CodeWriting.Outcome(CodeWriting.Feature, d1.stacks, d1.events, replies[1..], site);
        var q := Request(f, code.value, c.value);
        var d2 := Dev(d1.requests + [q], o.2, o.3);
        assert Sent(q, files, exists_, read);
        ExtendsRequest(d2, d1, d, q, files, exists_, read);
        if o.0.Ok? {
          DevelopFromRequests(d2, files[1..], o.1, site, exists_, read, extract);
          ExtendsTrans(r, d2, d, files, exists_, read);
        } else {
          assert r == d2;
        }
      } else {
        DevelopFromRequests(d1, files[1..], replies[1..], site, exists_, read, extract);
        ExtendsTrans(r, d1, d, files, exists_, read);
      }
    }
  }

  lemma ExtendsSelf(r: Dev, files: seq<string>, exists_: string -> bool, read: string -> Option<string>)
    ensures Extends(r, r, files, exists_, read)
  {
    assert r.requests[..|r.requests|] == r.requests;
    assert r.events[..|r.events|] == r.events;
  }

  /** A step that adds the request `q` after the announcement, with the feature agent's
      broadcasts appended to the log. */
  lemma ExtendsRequest(d2: Dev, d1: Dev, d: Dev, q: Request, files: seq<string>, exists_: string -> bool,
                       read: string -> Option<string>)
    requires Extends(d1, d, files, exists_, read) && d1.requests == d.requests
    requires d2.requests == d1.requests + [q] && Sent(q, files, exists_, read)
    requires |d1.events| <= |d2.events| && d2.events[..|d1.events|] == d1.events
    ensures Extends(d2, d, files, exists_, read)
  {
    assert d2.requests[..|d.requests|] == d.requests;
    assert d2.events[..|d.events|] == d2.events[..|d1.events|][..|d.events|];
  }

  lemma ExtendsTrans(r: Dev, d2: Dev, d: Dev, files: seq<string>, exists_: string -> bool, read: string -> Option<string>)
    requires |files| > 0
    requires Extends(r, d2, files[1..], exists_, read)
    requires Extends(d2, d, files, exists_, read)
    ensures Extends(r, d, files, exists_, read)
  {
    assert r.requests[..|d.requests|] == r.requests[..|d2.requests|][..|d.requests|];
    assert r.events[..|d.events|] == r.events[..|d2.events|][..|d.events|];
    forall k | |d.requests| <= k < |r.requests| ensures Sent(r.requests[k], files, exists_, read) {
      if k < |d2.requests| {
        assert r.requests[k] == d2.requests[k];
      } else {
        assert r.requests[k].filename in files[1..];
      }
    }
  }

  /** A feature run that raises or stalls ends the loop: the names after it are not visited. */
  lemma FeatureEndsLoop(d: Dev, f: string, files: seq<string>, text: string, replies: seq<Reply>,
                        site: CodeWriting.Site, exists_: string -> bool, read: string -> Option<string>,
                        extract: string -> Option<Change>)
    requires AgentStateStore.Stacked(d.stacks)
    requires exists_(f) && read(f).Some? && !SkippedBy(f, NotDeveloped)
    requires extract(text).Some? && extract(text).value.score != 0 && |extract(text).value.gitdiff| > 0
    requires !CodeWriting.Generate(replies, site.normpath).0.Ok?
    ensures var r := DevelopFrom(d, [f] + files, [Reply(text)] + replies, site, exists_, read, extract);
      r.1 == (if CodeWriting.Generate(replies, site.normpath).0.Raised? then Raised else Stalled)
      && r.0 == Dev(d.requests + [Request(f, read(f).value, extract(text).value)], d.stacks, d.events)
  {
    assert ([f] + files)[0] == f && ([Reply(text)] + replies)[1..] == replies;
  }
}
