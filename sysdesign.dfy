/**
 * The system designer: it asks the model for the list of files the project needs,
 * checks the reply's "File: ..." lines, and appends the new names to
 * `systemdesign/systemdesign.txt`.
 */
module SysDesign {
  import opened Wrappers
  import opened Text
  import Fences
  import Lists
  import Utils
  import opened Oracles

  const Fence := "~~~"
  const StrictPrefix := "File: `"
  const LoosePrefix := "File:"

  // ---------------------------------------------------------------------------------
  // validate_response1

  /** Every line has the form "File: `...`". */
  predicate AllQuoted(lines: seq<string>) {
    forall i :: 0 <= i < |lines| ==> StartsWith(lines[i], StrictPrefix) && EndsWith(lines[i], "`")
  }

  /** The lines between the "~~~" fences, or `None` (the source's "") when the reply is
      not fenced on both sides. */
  function FencedLines(response: string): (r: Option<seq<string>>)
    ensures r.Some? ==> |r.value| > 0
  {
    var s := Strip(response);
    if StartsWith(s, Fence) && EndsWith(s, Fence) then Some(Split(Strip(Inner3(s)), "\n")) else None
  }

  /** `validate_response1`: the fenced lines when every one of them is a quoted file name. */
  function StrictLines(response: string): (r: Option<seq<string>>)
    ensures r.Some? ==> |r.value| > 0 && AllQuoted(r.value) && FencedLines(response) == r
  {
    match FencedLines(response)
    case Some(lines) => if AllQuoted(lines) then Some(lines) else None
    case None => None
  }

  /** The loop of `validate_response1`: it bails out at the first line that is not quoted. */
  method ValidateResponse1(response: string) returns (r: Option<seq<string>>)
    ensures r.Some? <==> FencedLines(response).Some? && AllQuoted(FencedLines(response).value)
    ensures r.Some? ==> r.value == FencedLines(response).value && |r.value| > 0
  {
    var fenced := FencedLines(response);
    if fenced.None? {
      return None;
    }
    var ok := CheckQuoted(fenced.value);
    if !ok {
      return None;
    }
    r := Some(fenced.value);
  }

  /** The line loop of `validate_response1`. */
  method CheckQuoted(lines: seq<string>) returns (ok: bool)
    ensures ok <==> AllQuoted(lines)
  {
    var i := 0;
    while i < |lines|
      invariant 0 <= i <= |lines|
      invariant forall j :: 0 <= j < i ==> StartsWith(lines[j], StrictPrefix) && EndsWith(lines[j], "`")
    {
      if !StartsWith(lines[i], StrictPrefix) || !EndsWith(lines[i], "`") {
        return false;
      }
      i := i + 1;
    }
    return true;
  }

  /** The listing a well-behaved reply carries: one "File: `name`" line per name. */
  function Quoted(names: seq<string>): (lines: seq<string>)
    ensures |lines| == |names|
    ensures forall i :: 0 <= i < |names| ==> lines[i] == StrictPrefix + names[i] + "`"
  {
    seq(|names|, i requires 0 <= i < |names| => StrictPrefix + names[i] + "`")
  }

  /** A reply "~~~\n<listing>\n~~~" is accepted and gives the listing's lines back. */
  lemma StrictListing(names: seq<string>)
    requires |names| > 0
    requires forall i :: 0 <= i < |names| ==> '\n' !in names[i]
    ensures StrictLines(Fence + ("\n" + Join(Quoted(names), "\n") + "\n") + Fence) == Some(Quoted(names))
  {
    var lines := Quoted(names);
    var body := Join(lines, "\n");
    JoinFirst(lines, "\n");
    JoinLast(lines, "\n");
    FencedBody(body);
    QuotedLines(names);
    SplitJoin(lines, '\n');
  }

  lemma QuotedLines(names: seq<string>)
    requires forall i :: 0 <= i < |names| ==> '\n' !in names[i]
    ensures AllQuoted(Quoted(names))
    ensures forall i :: 0 <= i < |names| ==> '\n' !in Quoted(names)[i]
  {
    var lines := Quoted(names);
    forall i | 0 <= i < |lines|
      ensures StartsWith(lines[i], StrictPrefix) && EndsWith(lines[i], "`") && '\n' !in lines[i]
    {
      var l := lines[i];
      assert l == StrictPrefix + names[i] + "`";
      assert l[..|StrictPrefix|] == StrictPrefix;
      assert l[|l| - 1..] == "`";
    }
  }

  /** Text with no surrounding white space, fenced on lines of their own, comes back whole. */
  lemma FencedBody(body: string)
    requires |body| > 0 && !IsSpace(body[0]) && !IsSpace(body[|body| - 1])
    ensures FencedLines(Fence + ("\n" + body + "\n") + Fence) == Some(Split(body, "\n"))
  {
    var m := "\n" + body + "\n";
    var s := Fence + m + Fence;
    FenceParts(m);
    StripSurrounded("\n", body, "\n");
  }

  lemma FenceParts(m: string)
    ensures Strip(Fence + m + Fence) == Fence + m + Fence
    ensures StartsWith(Fence + m + Fence, Fence) && EndsWith(Fence + m + Fence, Fence)
    ensures Inner3(Fence + m + Fence) == m
  {
    var s := Fence + m + Fence;
    assert s[..3] == Fence;
    assert s[|s| - 3..] == Fence;
    assert s[0] == '~' && s[|s| - 1] == '~';
    StripTrimmed(s);
  }

  /** A reply whose first fenced line is not quoted is refused, whatever follows. */
  lemma StrictRejects(response: string)
    requires FencedLines(response).Some?
    requires !StartsWith(FencedLines(response).value[0], StrictPrefix)
    ensures StrictLines(response).None?
  {
  }

  // ---------------------------------------------------------------------------------
  // validate_response: `re.match(r"File:\s*`?([^`]+)`?\s*:", line)`
  //
  // Python's matcher backtracks: a greedy quantifier tries its longest choice first and
  // gives characters back one by one; `?` tries the backtick before its absence. The
  // functions below try the choices in that order and return the first success.

  /** Index of the first backtick at or after `i`, or `|s|`: how far `[^`]+` can reach. */
  function TickFreeEnd(s: string, i: nat): (k: nat)
    requires i <= |s|
    ensures i <= k <= |s| && (k < |s| ==> s[k] == '`')
    ensures forall j :: i <= j < k ==> s[j] != '`'
    decreases |s| - i
  {
    if i < |s| && s[i] != '`' then TickFreeEnd(s, i + 1) else i
  }

  /** `\s*:` at the start of `u`. Giving white space back cannot help, since ':' is not
      white space, so only the longest run of it is tried. */
  predicate SpacesColon(u: string) {
    var k := SkipSpaces(u, 0);
    k < |u| && u[k] == ':'
  }

  /** `` `?\s*: `` at the start of `u`, the backtick tried first. */
  predicate Closing(u: string) {
    (|u| > 0 && u[0] == '`' && SpacesColon(u[1..])) || SpacesColon(u)
  }

  lemma ClosingColon(u: string)
    requires Closing(u)
    ensures ':' in u
  {
    if |u| > 0 && u[0] == '`' && SpacesColon(u[1..]) {
      var k := SkipSpaces(u[1..], 0);
      assert u[k + 1] == ':';
    } else {
      assert u[SkipSpaces(u, 0)] == ':';
    }
  }

  /** `([^`]+)` followed by the closing, at the start of `t`, with group lengths
      `g`, `g - 1`, ..., 1 tried in turn: the result is the longest group that the
      closing can follow. */
  function GroupUpTo(t: string, g: nat): (r: Option<string>)
    requires g <= |t|
    requires forall j :: 0 <= j < g ==> t[j] != '`'
    ensures r.Some? ==> 0 < |r.value| <= g && r.value == t[..|r.value|] && Closing(t[|r.value|..])
    ensures r.Some? ==> forall h :: |r.value| < h <= g ==> !Closing(t[h..])
    ensures r.None? ==> forall h :: 0 < h <= g ==> !Closing(t[h..])
    decreases g
  {
    if g == 0 then None
    else if Closing(t[g..]) then Some(t[..g])
    else GroupUpTo(t, g - 1)
  }

  /** The group at the start of `t`, starting from the longest run free of backticks. */
  function Group(t: string): (r: Option<string>)
    ensures r.Some? ==> |r.value| > 0 && '`' !in r.value && ':' in t
  {
    var r := GroupUpTo(t, TickFreeEnd(t, 0));
    GroupFacts(t, r);
    r
  }

  lemma GroupFacts(t: string, r: Option<string>)
    requires r == GroupUpTo(t, TickFreeEnd(t, 0))
    ensures r.Some? ==> '`' !in r.value && ':' in t
  {
    if r.Some? {
      assert forall j :: 0 <= j < |r.value| ==> r.value[j] == t[j];
      ClosingColon(t[|r.value|..]);
      var k :| 0 <= k < |t[|r.value|..]| && t[|r.value|..][k] == ':';
      assert t[|r.value| + k] == ':';
    }
  }

  /** `` `?([^`]+)`?\s*: `` at the start of `t`. With a leading backtick the alternative
      without it would leave `[^`]+` facing that backtick, which fails. */
  function OpenTick(t: string): (r: Option<string>)
    ensures r.Some? ==> |r.value| > 0 && '`' !in r.value && ':' in t
  {
    if |t| > 0 && t[0] == '`' then Group(t[1..]) else Group(t)
  }

  /** `\s*` tried with `a`, `a - 1`, ..., 0 white-space characters in front of the rest. */
  function SpacesUpTo(s: string, a: nat): (r: Option<string>)
    requires a <= |s|
    ensures r.Some? ==> |r.value| > 0 && '`' !in r.value && ':' in s
    decreases a
  {
    match OpenTick(s[a..])
    case Some(g) => Some(g)
    case None => if a == 0 then None else SpacesUpTo(s, a - 1)
  }

  /** `re.match(r"File:\s*`?([^`]+)`?\s*:", line).group(1)`, or `None` when the line does
      not match. */
  function MatchLine(line: string): (r: Option<string>)
    ensures r.Some? ==> StartsWith(line, LoosePrefix) && ':' in line[|LoosePrefix|..]
    ensures r.Some? ==> |r.value| > 0 && '`' !in r.value
  {
    if !StartsWith(line, LoosePrefix) then None
    else
      var s := line[|LoosePrefix|..];
      SpacesUpTo(s, SkipSpaces(s, 0))
  }

  /** The form the prompt asks for, "File: `name`:", gives `name` back, colons in the
      name included. */
  lemma MatchQuoted(name: string)
    requires |name| > 0 && '`' !in name
    ensures MatchLine(StrictPrefix + name + "`:") == Some(name)
  {
    var line := StrictPrefix + name + "`:";
    var s := line[|LoosePrefix|..];
    assert s == " `" + name + "`:";
    assert SkipSpaces(s, 1) == 1;
    assert SkipSpaces(s, 0) == 1;
    var t := s[2..];
    assert s[1..] == "`" + t && t == name + "`:";
    assert TickFreeEnd(t, 0) == |name| by {
      TickRun(name, "`:", 0);
    }
    assert t[|name|..] == "`:";
    assert SpacesColon(t[|name|..][1..]) by {
      assert t[|name|..][1..] == ":";
    }
  }

  /** A line `validate_response1` accepts, "File: `name`" with no colon in the name,
      does not match here: the pattern needs a ':' after the group. */
  lemma QuotedNeedsColon(name: string)
    requires ':' !in name
    ensures MatchLine(StrictPrefix + name + "`").None?
  {
    var line := StrictPrefix + name + "`";
    assert line[|LoosePrefix|..] == " `" + name + "`";
  }

  /** The run of a text free of backticks ends where the next backtick starts. */
  lemma {:induction false} TickRun(x: string, y: string, i: nat)
    requires i <= |x| && '`' !in x && |y| > 0 && y[0] == '`'
    ensures TickFreeEnd(x + y, i) == |x|
    decreases |x| - i
  {
    if i < |x| {
      assert (x + y)[i] == x[i];
      TickRun(x, y, i + 1);
    } else {
      assert (x + y)[i] == y[0];
    }
  }

  /** The bare form "File: name:" gives `name` back: the group first takes the final ':'
      and then gives it back. */
  lemma MatchBare(name: string)
    requires |name| > 0 && '`' !in name && !IsSpace(name[0])
    ensures MatchLine(LoosePrefix + " " + name + ":") == Some(name)
  {
    var line := LoosePrefix + " " + name + ":";
    var s := " " + name + ":";
    assert line[..|LoosePrefix|] == LoosePrefix && line[|LoosePrefix|..] == s;
    assert SkipSpaces(s, 1) == 1 by {
      assert s[1] == name[0];
    }
    assert s[1..] == name + ":";
    OpenTickBare(name);
  }

  /** The group takes the name and the final ':' closes it. */
  lemma OpenTickBare(name: string)
    requires |name| > 0 && '`' !in name
    ensures OpenTick(name + ":") == Some(name)
  {
    var t := name + ":";
    assert t[0] == name[0];
    TickFreeAll(t, 0);
    assert !Closing(t[|t|..]);
    assert t[|name|..] == ":";
    assert SpacesColon(t[|name|..]);
    assert t[..|name|] == name;
  }

  lemma {:induction false} TickFreeAll(t: string, i: nat)
    requires i <= |t| && '`' !in t
    ensures TickFreeEnd(t, i) == |t|
    decreases |t| - i
  {
    if i < |t| {
      TickFreeAll(t, i + 1);
    }
  }

  /** The names of all lines, or `None` as soon as one line does not match. */
  function MatchAll(lines: seq<string>): (r: Option<seq<string>>)
    ensures r.Some? ==> |r.value| == |lines|
    decreases |lines|
  {
    if |lines| == 0 then Some([])
    else
      var m := MatchLine(lines[0]);
      var rest := MatchAll(lines[1..]);
      if m.Some? && rest.Some? then Some([m.value] + rest.value) else None
  }

  /** `MatchAll` succeeds exactly when every line matches, and then gives one name per
      line, in line order. */
  lemma {:induction false} MatchAllMeaning(lines: seq<string>)
    ensures MatchAll(lines).Some? <==> forall i :: 0 <= i < |lines| ==> MatchLine(lines[i]).Some?
    ensures MatchAll(lines).Some? ==>
      forall i :: 0 <= i < |lines| ==> MatchLine(lines[i]) == Some(MatchAll(lines).value[i])
    decreases |lines|
  {
    if |lines| > 0 {
      MatchAllMeaning(lines[1..]);
      forall i | 0 < i < |lines| ensures lines[i] == lines[1..][i - 1] { }
    }
  }

  /** The lines of the reply once one leading and one trailing "~~~" are removed. */
  function ReplyLines(response: string): (lines: seq<string>)
    ensures |lines| > 0
  {
    Split(Fences.Unfence(response, Fence), "\n")
  }

  /** `validate_response`: the names of all lines, or `None` (the source's `False`). */
  function Validated(response: string): (r: Option<seq<string>>)
    ensures r.Some? ==> |r.value| == |ReplyLines(response)| > 0
  {
    MatchAll(ReplyLines(response))
  }

  /** `validate_response`. */
  method ValidateResponse(response: string) returns (r: Option<seq<string>>)
    ensures r == Validated(response)
  {
    r := MatchLines(ReplyLines(response));
  }

  /** The loop of `validate_response`: it appends each line's name and bails out at the
      first line that does not match. */
  method MatchLines(lines: seq<string>) returns (r: Option<seq<string>>)
    ensures r == MatchAll(lines)
  {
    var files := [];
    var i := 0;
    assert lines[i..] == lines;
    PrependNothing(MatchAll(lines));
    while i < |lines|
      invariant 0 <= i <= |lines|
      invariant MatchAll(lines) == Prepend(files, MatchAll(lines[i..]))
    {
      var m := MatchLine(lines[i]);
      MatchStep(lines, i);
      if m.None? {
        return None;
      }
      PrependTwice(files, [m.value], MatchAll(lines[i + 1..]));
      files := files + [m.value];
      i := i + 1;
    }
    assert lines[i..] == [];
    assert files + [] == files;
    r := Some(files);
  }

  /** The names `files` followed by those of `rest`, when `rest` succeeded. */
  function Prepend(files: seq<string>, rest: Option<seq<string>>): Option<seq<string>> {
    if rest.Some? then Some(files + rest.value) else None
  }

  lemma PrependNothing(r: Option<seq<string>>)
    ensures Prepend([], r) == r
  {
    if r.Some? {
      assert [] + r.value == r.value;
    }
  }

  lemma PrependTwice(a: seq<string>, b: seq<string>, r: Option<seq<string>>)
    ensures Prepend(a, Prepend(b, r)) == Prepend(a + b, r)
  {
    if r.Some? {
      assert a + (b + r.value) == a + b + r.value;
    }
  }

  /** One line of the loop: a line that does not match fails the whole. */
  lemma MatchStep(lines: seq<string>, i: nat)
    requires i < |lines|
    ensures MatchAll(lines[i..]) ==
      if MatchLine(lines[i]).Some? then Prepend([MatchLine(lines[i]).value], MatchAll(lines[i + 1..])) else None
  {
    assert lines[i..][1..] == lines[i + 1..];
  }

  /** A listing of "File: `name`:" lines between fences is accepted with its names. */
  lemma ValidatedListing(names: seq<string>)
    requires |names| > 0
    requires forall i :: 0 <= i < |names| ==> |names[i]| > 0 && '`' !in names[i] && '\n' !in names[i]
    ensures Validated(Fence + ("\n" + Join(Listing(names), "\n") + "\n") + Fence) == Some(names)
  {
    var lines := Listing(names);
    var body := Join(lines, "\n");
    JoinFirst(lines, "\n");
    JoinLast(lines, "\n");
    UnfencedBody(body);
    ListingLines(names);
    SplitJoin(lines, '\n');
    MatchAllMeaning(lines);
    assert MatchAll(lines).Some?;
    assert MatchAll(lines).value == names;
  }

  lemma UnfencedBody(body: string)
    requires |body| > 0 && !IsSpace(body[0]) && !IsSpace(body[|body| - 1])
    ensures ReplyLines(Fence + ("\n" + body + "\n") + Fence) == Split(body, "\n")
  {
    StripSurrounded("\n", body, "\n");
    Fences.UnfenceFenced(Fence, "\n" + body + "\n");
  }

  lemma ListingLines(names: seq<string>)
    requires forall i :: 0 <= i < |names| ==> |names[i]| > 0 && '`' !in names[i] && '\n' !in names[i]
    ensures forall i :: 0 <= i < |names| ==> '\n' !in Listing(names)[i] && MatchLine(Listing(names)[i]) == Some(names[i])
  {
    var lines := Listing(names);
    forall i | 0 <= i < |lines| ensures '\n' !in lines[i] && MatchLine(lines[i]) == Some(names[i]) {
      assert lines[i] == StrictPrefix + names[i] + "`:";
      MatchQuoted(names[i]);
    }
  }

  /** The listing `validate_response` expects: one "File: `name`:" line per name. */
  function Listing(names: seq<string>): (lines: seq<string>)
    ensures |lines| == |names|
    ensures forall i :: 0 <= i < |names| ==> lines[i] == StrictPrefix + names[i] + "`:"
  {
    seq(|names|, i requires 0 <= i < |names| => StrictPrefix + names[i] + "`:")
  }

  /** One line without the "File:" prefix, anywhere in the reply, refuses it all. */
  lemma ValidatedRejects(response: string, i: nat)
    requires i < |ReplyLines(response)| && !StartsWith(ReplyLines(response)[i], LoosePrefix)
    ensures Validated(response).None?
  {
    MatchAllMeaning(ReplyLines(response));
  }

  // ---------------------------------------------------------------------------------
  // extract_files: `re.findall(r"File: `([^`]+)`", response)`

  /** Where a match of "File: `([^`]+)`" that starts at `i` closes (the index of its
      final backtick), or -1. The group cannot give characters back usefully: the
      character after a shorter group is not a backtick. */
  function QuotedAt(s: string, i: nat): (k: int)
    requires i <= |s|
    ensures k >= 0 ==> i + |StrictPrefix| < k < |s| && OccursAt(s, StrictPrefix, i) && s[k] == '`'
    ensures k >= 0 ==> '`' !in s[i + |StrictPrefix|..k]
  {
    if OccursAt(s, StrictPrefix, i) then
      var e := TickFreeEnd(s, i + |StrictPrefix|);
      if i + |StrictPrefix| < e < |s| then e else -1
    else -1
  }

  /** The scan of `findall` from index `i`: after a match it resumes behind it,
      otherwise one character further. */
  function FindAllFrom(s: string, i: nat): (names: seq<string>)
    requires i <= |s|
    ensures forall j :: 0 <= j < |names| ==> |names[j]| > 0 && '`' !in names[j]
    decreases |s| - i
  {
    if i == |s| then []
    else
      var k := QuotedAt(s, i);
      if k >= 0 then [s[i + |StrictPrefix|..k]] + FindAllFrom(s, k + 1) else FindAllFrom(s, i + 1)
  }

  /** `extract_files`. */
  function ExtractFiles(response: string): (names: seq<string>)
    ensures forall j :: 0 <= j < |names| ==> |names[j]| > 0 && '`' !in names[j]
  {
    FindAllFrom(response, 0)
  }

  /** The scan only looks forward: what comes before the scan position is irrelevant. */
  lemma {:induction false} FindAllShift(p: string, q: string, i: nat)
    requires i <= |q|
    ensures FindAllFrom(p + q, |p| + i) == FindAllFrom(q, i)
    decreases |q| - i
  {
    if i < |q| {
      var k := QuotedAt(q, i);
      QuotedShift(p, q, i);
      if k >= 0 {
        assert (p + q)[|p| + i + |StrictPrefix|..|p| + k] == q[i + |StrictPrefix|..k];
        FindAllShift(p, q, k + 1);
      } else {
        FindAllShift(p, q, i + 1);
      }
    }
  }

  lemma QuotedShift(p: string, q: string, i: nat)
    requires i <= |q|
    ensures QuotedAt(p + q, |p| + i) == (if QuotedAt(q, i) >= 0 then |p| + QuotedAt(q, i) else -1)
  {
    var s := p + q;
    if OccursAt(q, StrictPrefix, i) {
      assert s[|p| + i..|p| + i + |StrictPrefix|] == q[i..i + |StrictPrefix|];
      TickShift(p, q, i + |StrictPrefix|);
    } else if |p| + i + |StrictPrefix| <= |s| {
      assert s[|p| + i..|p| + i + |StrictPrefix|] == q[i..i + |StrictPrefix|];
    }
  }

  lemma {:induction false} TickShift(p: string, q: string, i: nat)
    requires i <= |q|
    ensures TickFreeEnd(p + q, |p| + i) == |p| + TickFreeEnd(q, i)
    decreases |q| - i
  {
    if i < |q| {
      assert (p + q)[|p| + i] == q[i];
      TickShift(p, q, i + 1);
    }
  }

  /** Text that holds no 'F' cannot start a match, so the scan passes over it. */
  lemma {:induction false} FindAllSkips(p: string, q: string, i: nat)
    requires i <= |p| && 'F' !in p
    ensures FindAllFrom(p + q, i) == FindAllFrom(p + q, |p|)
    decreases |p| - i
  {
    if i < |p| {
      assert (p + q)[i] == p[i];
      assert (p + q)[i] != StrictPrefix[0];
      FindAllSkips(p, q, i + 1);
    }
  }

  /** The names of a listing joined by line breaks are found, in order; so a reply that
      `validate_response` accepts with a listing yields the same names here. */
  lemma {:induction false} ExtractListing(names: seq<string>)
    requires |names| > 0
    requires forall i :: 0 <= i < |names| ==> |names[i]| > 0 && '`' !in names[i]
    ensures ExtractFiles(Join(Listing(names), "\n")) == names
    decreases |names|
  {
    var lines := Listing(names);
    var n := names[0];
    var tail := if |names| == 1 then ":" else ":\n" + Join(lines[1..], "\n");
    assert Join(lines, "\n") == StrictPrefix + n + "`" + tail;
    FirstQuoted(n, tail);
    if |names| == 1 {
      assert FindAllFrom(tail, 1) == [];
    } else {
      var rest := Join(lines[1..], "\n");
      FindAllSkips(":\n", rest, 0);
      FindAllShift(":\n", rest, 0);
      ExtractListing(names[1..]);
      assert Listing(names[1..]) == lines[1..];
    }
  }

  /** A quoted name at the start of the text is found first, and the scan resumes
      behind its closing backtick. */
  lemma FirstQuoted(n: string, tail: string)
    requires |n| > 0 && '`' !in n
    ensures FindAllFrom(StrictPrefix + n + "`" + tail, 0) == [n] + FindAllFrom(tail, 0)
  {
    var head := StrictPrefix + n + "`";
    var s := head + tail;
    assert OccursAt(s, StrictPrefix, 0) by {
      assert s[..|StrictPrefix|] == StrictPrefix;
    }
    assert s == StrictPrefix + (n + ("`" + tail));
    TickShift(StrictPrefix, n + ("`" + tail), 0);
    TickRun(n, "`" + tail, 0);
    assert QuotedAt(s, 0) == |StrictPrefix| + |n|;
    assert s[|StrictPrefix|..|StrictPrefix| + |n|] == n;
    FindAllShift(head, tail, 0);
  }

  // ---------------------------------------------------------------------------------
  // execute

  /** The reply is accepted when it validates; a validated reply always has a line, so
      `not valid_response` only refuses `False`. */
  function Accept(response: string): (r: Option<seq<string>>)
    ensures r.Some? ==> |r.value| > 0
  {
    var v := Validated(response);
    if v.Some? then
      assert |v.value| == |ReplyLines(response)|;
      v
    else None
  }

  /** The names written for a reply, given the lines the file held before the call:
      each name with '/' turned into '\\' and normalised by `normpath`, unless it was
      already a line of the file. The file's lines are read once, so a name that a reply
      repeats is written again. */
  function Appended(files: seq<string>, existing: seq<string>, normpath: string -> string): (written: seq<string>)
    decreases |files|
  {
    if |files| == 0 then []
    else
      var init := files[..|files| - 1];
      var formatted := normpath(MapChar(files[|files| - 1], '/', '\\'));
      Appended(init, existing, normpath) + (if formatted in existing then [] else [formatted])
  }

  /** The merge loop of `execute`. */
  method AppendNew(files: seq<string>, existing: seq<string>, normpath: string -> string) returns (written: seq<string>)
    ensures written == Appended(files, existing, normpath)
  {
    written := [];
    for i := 0 to |files|
      invariant written == Appended(files[..i], existing, normpath)
    {
      assert files[..i + 1][..i] == files[..i];
      var fileName := Replace(files[i], "/", "\\");
      ReplaceCharIsMap(files[i], '/', '\\');
      var formatted := normpath(fileName);
      if formatted !in existing {
        written := written + [formatted];
      }
    }
    assert files[..|files|] == files;
  }

  /** Exactly the formatted names absent from the file are written, once per
      occurrence in the reply, in reply order. */
  lemma {:induction false} AppendedMeaning(files: seq<string>, existing: seq<string>, normpath: string -> string)
    ensures forall w :: w in Appended(files, existing, normpath) ==> w !in existing
    ensures forall f :: f in files && normpath(MapChar(f, '/', '\\')) !in existing ==>
      normpath(MapChar(f, '/', '\\')) in Appended(files, existing, normpath)
    ensures |Appended(files, existing, normpath)| <= |files|
    decreases |files|
  {
    if |files| > 0 {
      var init := files[..|files| - 1];
      AppendedMeaning(init, existing, normpath);
      assert files == init + [files[|files| - 1]];
    }
  }

  /** A name the reply gives twice and the file lacks is written twice. */
  lemma RepeatedNameWrittenTwice(f: string, existing: seq<string>, normpath: string -> string)
    requires normpath(MapChar(f, '/', '\\')) !in existing
    ensures Appended([f, f], existing, normpath) == [normpath(MapChar(f, '/', '\\')), normpath(MapChar(f, '/', '\\'))]
  {
    assert [f, f][..1] == [f];
    assert [f][..0] == [];
    assert Appended([], existing, normpath) == [];
    assert Appended([f], existing, normpath) == [normpath(MapChar(f, '/', '\\'))];
  }

  /** The text the file holds after the merge: each written name on a line of its own. */
  function WithLines(content: string, written: seq<string>): (r: string)
    ensures |r| >= |content| && r[..|content|] == content
    decreases |written|
  {
    if |written| == 0 then content
    else
      var r := WithLines(content, written[..|written| - 1]) + written[|written| - 1] + "\n";
      assert r[..|content|] == WithLines(content, written[..|written| - 1])[..|content|];
      r
  }

  /** `execute`. `content` is the text of `systemdesign.txt` at the call; `replies` are
      the model's replies; `normpath` is `os.path.normpath`. Returns the names shown to
      the model, how the retries ended, and the file's new text. */
  method Execute(content: string, replies: seq<Reply>, normpath: string -> string)
    returns (shown: seq<string>, status: Status<seq<string>>, newContent: string)
    ensures shown == Lists.Dedup(Utils.CleanLines(Split(content, "\n")))
    ensures status == Retry(replies, Accept).0
    ensures status.Ok? ==>
      newContent == WithLines(content, Appended(status.value, SplitLines(content), normpath))
    ensures !status.Ok? ==> newContent == content
  {
    var filenames := Utils.ReadSysdesign(Some(Split(content, "\n")));
    shown := Lists.Dedup(filenames);
    status := Retry(replies, Accept).0;
    newContent := content;
    if status.Ok? {
      var existing := SplitLines(content);
      var written := AppendNew(status.value, existing, normpath);
      newContent := WriteLines(content, written);
    }
  }

  /** `file.write(name + "\n")` for each written name, in order. */
  method WriteLines(content: string, written: seq<string>) returns (newContent: string)
    ensures newContent == WithLines(content, written)
  {
    newContent := content;
    for i := 0 to |written|
      invariant newContent == WithLines(content, written[..i])
    {
      assert written[..i + 1][..i] == written[..i];
      newContent := newContent + written[i] + "\n";
    }
    assert written[..|written|] == written;
  }

  /** The names shown to the model are the file's non-blank lines without repeats. */
  lemma ShownFacts(content: string)
    ensures Lists.NoDup(Lists.Dedup(Utils.CleanLines(Split(content, "\n"))))
    ensures forall x :: x in Lists.Dedup(Utils.CleanLines(Split(content, "\n"))) <==>
      x in Utils.CleanLines(Split(content, "\n"))
  {
    Lists.DedupFacts(Utils.CleanLines(Split(content, "\n")));
  }
}
