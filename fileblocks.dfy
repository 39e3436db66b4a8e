/**
 * The "File: `name`:" code-block format exchanged with the model by the coder, the
 * patcher and the feature agent. The three agents carry the same `validate_response`
 * parser and the same `response_to_markdown_prompt` serialiser, so they are modelled
 * once here. `os.path.normpath` is passed in as `normpath`.
 */
module FileBlocks {
  import opened Wrappers
  import opened Text
  import opened Socket
  import opened Fences

  /** The name announced by a "File:" line: the text between its first two backticks, or,
      with no backtick, between its first two colons when it ends in ':'. `None` is the
      malformed header that makes the whole parse fail. */
  function HeaderName(line: string): (r: Option<string>)
    ensures r.None? <==> '`' !in line && !(StartsWith(line, "File:") && EndsWith(line, ":"))
    ensures r.Some? && '`' in line ==> '`' !in r.value
    ensures r.Some? ==> Strip(r.value) == r.value
  {
    if '`' in line then
      FindCharFirst(line, '`');
      SplitPartsFree(line, '`');
      var name := Strip(Split(line, "`")[1]);
      StripKeepsAbsent(Split(line, "`")[1], '`');
      StripTrimmed(name);
      Some(name)
    else if StartsWith(line, "File:") && EndsWith(line, ":") then
      assert line[4] == ':';
      FindCharFirst(line, ':');
      var name := Strip(Split(line, ":")[1]);
      StripTrimmed(name);
      Some(name)
    else None
  }

  /** The parser's loop state. `file` is `current_file`, with "" standing for `None` (both
      are false in the flush test); `code` is `current_code`; `result` the entries so far.
      The source also toggles a `code_block` flag on "```" lines, which nothing reads. */
  datatype Parse = Parse(file: string, code: seq<string>, result: seq<FileCode>)

  /** The entries once the current file, if named and with code, is emitted. */
  function Flush(st: Parse, normpath: string -> string): (r: seq<FileCode>)
    ensures |st.file| > 0 && |st.code| > 0 ==>
      r == st.result + [FileCode(normpath(st.file), Join(st.code, "\n"))]
    ensures |st.file| == 0 || |st.code| == 0 ==> r == st.result
  {
    if |st.file| > 0 && |st.code| > 0 then
      st.result + [FileCode(normpath(st.file), Join(st.code, "\n"))]
    else st.result
  }

  /** The line loop of `validate_response` from state `st` over the remaining `lines`. */
  function ParseFrom(st: Parse, lines: seq<string>, normpath: string -> string): Option<seq<FileCode>>
    decreases |lines|
  {
    if |lines| == 0 then Some(Flush(st, normpath))
    else
      var line := lines[0];
      if StartsWith(line, "File:") then
        match HeaderName(line)
        case None => None
        case Some(name) => ParseFrom(Parse(name, [], Flush(st, normpath)), lines[1..], normpath)
      else if StartsWith(line, "```") then ParseFrom(st, lines[1..], normpath)
      else ParseFrom(st.(code := st.code + [line]), lines[1..], normpath)
  }

  /** What `validate_response` returns: `None` stands for `False`. */
  function Validate(response: string, normpath: string -> string): Option<seq<FileCode>> {
    ParseFrom(Parse("", [], []), Split(Unfence(response, Tildes), "\n"), normpath)
  }

  method ValidateResponse(response: string, normpath: string -> string) returns (r: Option<seq<FileCode>>)
    ensures r == Validate(response, normpath)
  {
    var lines := Split(Unfence(response, Tildes), "\n");
    var result: seq<FileCode> := [];
    var currentFile := "";
    var currentCode: seq<string> := [];
    for i := 0 to |lines|
      invariant ParseFrom(Parse(currentFile, currentCode, result), lines[i..], normpath)
        == ParseFrom(Parse("", [], []), lines, normpath)
    {
      assert lines[i..] == [lines[i]] + lines[i + 1..];
      var ok;
      ok, currentFile, currentCode, result := ParseLine(lines[i], lines[i + 1..], currentFile, currentCode, result, normpath);
      if !ok {
        return None;
      }
    }
    if |currentFile| > 0 && |currentCode| > 0 {
      result := result + [FileCode(normpath(currentFile), Join(currentCode, "\n"))];
    }
    return Some(result);
  }

  /** One turn of the parser's loop over `line`; `ok` is false when the parse gives up. */
  method ParseLine(line: string, ghost rest: seq<string>, file: string, code: seq<string>,
                   result: seq<FileCode>, normpath: string -> string)
    returns (ok: bool, file': string, code': seq<string>, result': seq<FileCode>)
    ensures ok ==> (ParseFrom(Parse(file, code, result), [line] + rest, normpath)
                    == ParseFrom(Parse(file', code', result'), rest, normpath))
    ensures !ok ==> ParseFrom(Parse(file, code, result), [line] + rest, normpath).None?
  {
    assert ([line] + rest)[0] == line && ([line] + rest)[1..] == rest;
    ok, file', code', result' := true, file, code, result;
    if StartsWith(line, "File:") {
      if |file| > 0 && |code| > 0 {
        result' := result + [FileCode(normpath(file), Join(code, "\n"))];
      }
      if '`' in line {
        FindCharFirst(line, '`');
        file' := Strip(Split(line, "`")[1]);
      } else if StartsWith(line, "File:") && EndsWith(line, ":") && '`' !in line {
        assert line[4] == ':';
        FindCharFirst(line, ':');
        file' := Strip(Split(line, ":")[1]);
      } else {
        return false, file, code, result;
      }
      code' := [];
    } else if StartsWith(line, "```") {
    } else {
      code' := code + [line];
    }
  }

  /** A "File:" line the parser rejects. */
  predicate BadHeader(line: string) {
    StartsWith(line, "File:") && HeaderName(line).None?
  }

  /** The parse fails exactly when some line is a malformed header. */
  lemma {:induction false} ParseFailsIffBadHeader(st: Parse, lines: seq<string>, normpath: string -> string)
    ensures ParseFrom(st, lines, normpath).None? <==> exists i :: 0 <= i < |lines| && BadHeader(lines[i])
    decreases |lines|
  {
    if |lines| > 0 {
      var line := lines[0];
      var st' :=
        if StartsWith(line, "File:") && HeaderName(line).Some? then Parse(HeaderName(line).value, [], Flush(st, normpath))
        else if StartsWith(line, "```") then st
        else st.(code := st.code + [line]);
      ParseFailsIffBadHeader(st', lines[1..], normpath);
      if exists i :: 0 <= i < |lines| && BadHeader(lines[i]) {
        var i :| 0 <= i < |lines| && BadHeader(lines[i]);
        if i > 0 {
          assert BadHeader(lines[1..][i - 1]);
        }
      }
      if exists i :: 0 <= i < |lines[1..]| && BadHeader(lines[1..][i]) {
        var i :| 0 <= i < |lines[1..]| && BadHeader(lines[1..][i]);
        assert BadHeader(lines[i + 1]);
      }
    }
  }

  /** Every emitted entry comes from a header with a non-empty name and at least one code line. */
  lemma {:induction false} ParseEntriesNamed(st: Parse, lines: seq<string>, normpath: string -> string)
    requires forall k :: 0 <= k < |st.result| ==> exists n :: |n| > 0 && st.result[k].file == normpath(n)
    requires ParseFrom(st, lines, normpath).Some?
    ensures forall k :: 0 <= k < |ParseFrom(st, lines, normpath).value| ==>
      exists n :: |n| > 0 && ParseFrom(st, lines, normpath).value[k].file == normpath(n)
    decreases |lines|
  {
    var flushed := Flush(st, normpath);
    assert forall k :: 0 <= k < |flushed| ==> exists n :: |n| > 0 && flushed[k].file == normpath(n) by {
      forall k | 0 <= k < |flushed| ensures exists n :: |n| > 0 && flushed[k].file == normpath(n) {
        if k == |st.result| {
          assert |st.file| > 0 && flushed[k].file == normpath(st.file);
        }
      }
    }
    if |lines| > 0 {
      var line := lines[0];
      if StartsWith(line, "File:") {
        ParseEntriesNamed(Parse(HeaderName(line).value, [], flushed), lines[1..], normpath);
      } else if StartsWith(line, "```") {
        ParseEntriesNamed(st, lines[1..], normpath);
      } else {
        ParseEntriesNamed(st.(code := st.code + [line]), lines[1..], normpath);
      }
    }
  }

  /** The project directory name: the project name lower-cased, spaces turned into '-'. */
  function Slug(projectName: string): (slug: string)
    ensures |slug| == |projectName| && ' ' !in slug
    ensures forall i :: 0 <= i < |slug| ==> slug[i] == (if projectName[i] == ' ' then '-' else LowerChar(projectName[i]))
  {
    ReplaceCharIsMap(Lower(projectName), ' ', '-');
    Replace(Lower(projectName), " ", "-")
  }

  /** `get_project_path`: the project's directory under `projectDir`. */
  function GetProjectPath(projectDir: string, projectName: string): (r: string)
    ensures StartsWith(r, projectDir + "/") && r[|projectDir| + 1..] == Slug(projectName)
  {
    projectDir + "/" + Slug(projectName)
  }

  function HeaderLine(n: string): string {
    "File: `" + n + "`:"
  }

  /** One entry of `response_to_markdown_prompt`: the header, then the code between fences. */
  function Block(f: FileCode): string {
    HeaderLine(f.file) + "\n" + Backticks + "\n" + f.code + "\n" + Backticks
  }

  function Blocks(fs: seq<FileCode>): (r: seq<string>)
    ensures |r| == |fs|
    ensures forall i :: 0 <= i < |fs| ==> r[i] == Block(fs[i])
  {
    if |fs| == 0 then [] else [Block(fs[0])] + Blocks(fs[1..])
  }

  /** `response_to_markdown_prompt`: the entries' blocks joined by newlines inside "~~~" fences. */
  function ToMarkdown(fs: seq<FileCode>): (r: string)
    ensures StartsWith(r, "~~~\n") && EndsWith(r, "\n~~~")
  {
    "~~~\n" + Join(Blocks(fs), "\n") + "\n~~~"
  }

  /** Names that survive the trip: non-empty, no backtick or newline, no surrounding
      white space, and already normalised. */
  predicate NameRoundTrips(n: string, normpath: string -> string) {
    |n| > 0 && '`' !in n && '\n' !in n && !IsSpace(n[0]) && !IsSpace(n[|n| - 1]) && normpath(n) == n
  }

  /** No code line can be mistaken for a header or a fence. */
  predicate PlainLines(ls: seq<string>) {
    forall i :: 0 <= i < |ls| ==> !StartsWith(ls[i], "File:") && !StartsWith(ls[i], "```")
  }

  predicate RoundTrips(fs: seq<FileCode>, normpath: string -> string) {
    forall i :: 0 <= i < |fs| ==> NameRoundTrips(fs[i].file, normpath) && PlainLines(Split(fs[i].code, "\n"))
  }

  lemma HeaderLineName(n: string)
    requires '`' !in n && |n| > 0 && !IsSpace(n[0]) && !IsSpace(n[|n| - 1])
    ensures StartsWith(HeaderLine(n), "File:") && HeaderName(HeaderLine(n)) == Some(n)
  {
    HeaderLineSplit(n);
    StripTrimmed(n);
  }

  /** The header's backticks cut it into the prefix, the name and the closing colon. */
  lemma HeaderLineSplit(n: string)
    requires '`' !in n
    ensures HeaderLine(n)[..5] == "File:" && HeaderLine(n)[6] == '`'
    ensures Split(HeaderLine(n), "`") == ["File: ", n, ":"]
  {
    assert HeaderLine(n) == "File: " + "`" + n + "`" + ":";
    assert '`' !in "File: " && '`' !in ":";
    SplitThree("File: ", n, ":", '`');
  }

  lemma SplitThree(a: string, b: string, c: string, d: char)
    requires d !in a && d !in b && d !in c
    ensures Split(a + [d] + b + [d] + c, [d]) == [a, b, c]
  {
    var bc := b + [d] + c;
    assert a + [d] + b + [d] + c == a + [d] + bc;
    SplitNoSep(b, d);
    SplitNoSep(c, d);
    SplitConcat(b, d, c);
    assert Split(bc, [d]) == [b, c];
    SplitNoSep(a, d);
    SplitConcat(a, d, bc);
  }

  lemma HeaderLineOneLine(n: string)
    requires '\n' !in n
    ensures '\n' !in HeaderLine(n)
  {
    var h := HeaderLine(n);
    forall i | 0 <= i < |h| ensures h[i] != '\n' {
      if 7 <= i < 7 + |n| {
        assert h[i] == n[i - 7];
      }
    }
  }

  lemma BlockLines(f: FileCode)
    requires '\n' !in f.file
    ensures Split(Block(f), "\n") == [HeaderLine(f.file), Backticks] + Split(f.code, "\n") + [Backticks]
  {
    HeaderLineOneLine(f.file);
    assert '\n' !in Backticks;
    SplitFenced(HeaderLine(f.file), Backticks, f.code, '\n');
  }

  /** A header and a fence, each on its own line, around lines of code. */
  lemma SplitFenced(h: string, b: string, code: string, d: char)
    requires d !in h && d !in b
    ensures Split(h + [d] + b + [d] + code + [d] + b, [d]) == [h, b] + Split(code, [d]) + [b]
  {
    var tail := b + [d] + code + [d] + b;
    assert h + [d] + b + [d] + code + [d] + b == h + [d] + tail;
    SplitConcat(h, d, tail);
    SplitNoSep(h, d);
    SplitOpened(b, code, d);
    Bracket(h, b, Split(code, [d]));
  }

  lemma SplitOpened(b: string, code: string, d: char)
    requires d !in b
    ensures Split(b + [d] + code + [d] + b, [d]) == [b] + (Split(code, [d]) + [b])
  {
    var tail := code + [d] + b;
    assert b + [d] + code + [d] + b == b + [d] + tail;
    SplitConcat(b, d, tail);
    SplitNoSep(b, d);
    SplitConcat(code, d, b);
    SplitNoSep(b, d);
  }

  lemma Bracket<T>(h: T, b: T, xs: seq<T>)
    ensures [h] + ([b] + (xs + [b])) == [h, b] + xs + [b]
  {
  }

  /** Plain code lines are gathered into the current file. */
  lemma {:induction false} ParseCodeLines(st: Parse, ls: seq<string>, rest: seq<string>, normpath: string -> string)
    requires PlainLines(ls)
    ensures ParseFrom(st, ls + rest, normpath) == ParseFrom(st.(code := st.code + ls), rest, normpath)
    decreases |ls|
  {
    if |ls| == 0 {
      assert ls + rest == rest;
      assert st.code + ls == st.code;
    } else {
      assert (ls + rest)[0] == ls[0];
      assert (ls + rest)[1..] == ls[1..] + rest;
      ParseCodeLines(st.(code := st.code + [ls[0]]), ls[1..], rest, normpath);
      assert st.code + [ls[0]] + ls[1..] == st.code + ls;
    }
  }

  /** A header line switches to its file; a fence line is skipped. */
  lemma ParseHeader(st: Parse, n: string, rest: seq<string>, normpath: string -> string)
    requires HeaderName(HeaderLine(n)) == Some(n)
    ensures ParseFrom(st, [HeaderLine(n)] + rest, normpath) == ParseFrom(Parse(n, [], Flush(st, normpath)), rest, normpath)
  {
    assert ([HeaderLine(n)] + rest)[1..] == rest;
  }

  lemma ParseFence(st: Parse, rest: seq<string>, normpath: string -> string)
    ensures ParseFrom(st, [Backticks] + rest, normpath) == ParseFrom(st, rest, normpath)
  {
    assert ([Backticks] + rest)[1..] == rest;
  }

  /** One block opens its file, gathers its code and closes the fence. */
  lemma ParseBlock(st: Parse, f: FileCode, rest: seq<string>, normpath: string -> string)
    requires NameRoundTrips(f.file, normpath) && PlainLines(Split(f.code, "\n"))
    ensures ParseFrom(st, Split(Block(f), "\n") + rest, normpath)
      == ParseFrom(Parse(f.file, Split(f.code, "\n"), Flush(st, normpath)), rest, normpath)
  {
    BlockLines(f);
    HeaderLineName(f.file);
    ParseBlockLines(st, f.file, Split(f.code, "\n"), rest, normpath);
  }

  lemma ParseBlockLines(st: Parse, n: string, code: seq<string>, rest: seq<string>, normpath: string -> string)
    requires HeaderName(HeaderLine(n)) == Some(n) && PlainLines(code)
    ensures ParseFrom(st, [HeaderLine(n), Backticks] + code + [Backticks] + rest, normpath)
      == ParseFrom(Parse(n, code, Flush(st, normpath)), rest, normpath)
  {
    var after := code + ([Backticks] + rest);
    assert [HeaderLine(n), Backticks] + code + [Backticks] + rest == [HeaderLine(n)] + ([Backticks] + after);
    var st1 := Parse(n, [], Flush(st, normpath));
    ParseHeader(st, n, [Backticks] + after, normpath);
    ParseFence(st1, after, normpath);
    ParseCodeLines(st1, code, [Backticks] + rest, normpath);
    assert [] + code == code;
    ParseFence(Parse(n, code, Flush(st, normpath)), rest, normpath);
  }

  function Lines(fs: seq<FileCode>): seq<string> {
    SplitEach(Blocks(fs), '\n')
  }

  lemma LinesCons(fs: seq<FileCode>)
    requires |fs| > 0
    ensures Lines(fs) == Split(Block(fs[0]), "\n") + Lines(fs[1..])
  {
    assert Blocks(fs)[1..] == Blocks(fs[1..]);
  }

  lemma RoundTripsTail(fs: seq<FileCode>, normpath: string -> string)
    requires |fs| > 0 && RoundTrips(fs, normpath)
    ensures RoundTrips(fs[1..], normpath)
    ensures NameRoundTrips(fs[0].file, normpath) && PlainLines(Split(fs[0].code, "\n"))
  {
    forall i | 0 <= i < |fs[1..]|
      ensures NameRoundTrips(fs[1..][i].file, normpath) && PlainLines(Split(fs[1..][i].code, "\n"))
    {
      assert fs[1..][i] == fs[i + 1];
    }
  }

  /** Closing a block returns the entry that was written. */
  lemma FlushBlock(acc: seq<FileCode>, f: FileCode, normpath: string -> string)
    requires NameRoundTrips(f.file, normpath)
    ensures Flush(Parse(f.file, Split(f.code, "\n"), acc), normpath) == acc + [f]
  {
    JoinSplit(f.code, '\n');
  }

  lemma ParseFirstBlock(st: Parse, fs: seq<FileCode>, normpath: string -> string)
    requires |fs| > 0 && NameRoundTrips(fs[0].file, normpath) && PlainLines(Split(fs[0].code, "\n"))
    ensures ParseFrom(st, Lines(fs), normpath)
      == ParseFrom(Parse(fs[0].file, Split(fs[0].code, "\n"), Flush(st, normpath)), Lines(fs[1..]), normpath)
  {
    LinesCons(fs);
    ParseBlock(st, fs[0], Lines(fs[1..]), normpath);
  }

  lemma AppendHead<T>(acc: seq<T>, xs: seq<T>)
    requires |xs| > 0
    ensures acc + [xs[0]] + xs[1..] == acc + xs
  {
  }

  /** Parsing the lines of well-formed blocks emits exactly their entries. */
  lemma {:induction false} ParseBlocks(st: Parse, fs: seq<FileCode>, normpath: string -> string)
    requires RoundTrips(fs, normpath)
    ensures ParseFrom(st, Lines(fs), normpath) == Some(Flush(st, normpath) + fs)
    decreases |fs|
  {
    if |fs| == 0 {
      assert Lines(fs) == [];
      assert Flush(st, normpath) + fs == Flush(st, normpath);
    } else {
      var f := fs[0];
      var acc := Flush(st, normpath);
      var st1 := Parse(f.file, Split(f.code, "\n"), acc);
      assert RoundTrips(fs[1..], normpath) && NameRoundTrips(f.file, normpath) && PlainLines(Split(f.code, "\n")) by {
        RoundTripsTail(fs, normpath);
      }
      var r1 := ParseFrom(st1, Lines(fs[1..]), normpath);
      assert r1 == Some(Flush(st1, normpath) + fs[1..]) by {
        ParseBlocks(st1, fs[1..], normpath);
      }
      assert Flush(st1, normpath) == acc + [f] by {
        FlushBlock(acc, f, normpath);
      }
      assert r1 == Some(acc + fs) by {
        AppendHead(acc, fs);
      }
      assert ParseFrom(st, Lines(fs), normpath) == r1 by {
        ParseFirstBlock(st, fs, normpath);
      }
    }
  }

  lemma {:induction false} SkipAll(s: string, i: nat)
    requires i <= |s|
    requires forall j :: 0 <= j < |s| ==> IsSpace(s[j])
    ensures SkipSpaces(s, i) == |s|
    decreases |s| - i
  {
    if i < |s| {
      SkipAll(s, i + 1);
    }
  }

  lemma UnfenceToMarkdown(fs: seq<FileCode>)
    ensures Unfence(ToMarkdown(fs), Tildes) == Strip("\n" + Join(Blocks(fs), "\n") + "\n")
  {
    var inner := "\n" + Join(Blocks(fs), "\n") + "\n";
    assert ToMarkdown(fs) == Tildes + inner + Tildes;
    UnfenceFenced(Tildes, inner);
  }

  lemma StripBlocks(fs: seq<FileCode>)
    ensures Strip("\n" + Join(Blocks(fs), "\n") + "\n") == Join(Blocks(fs), "\n")
  {
    var body := Join(Blocks(fs), "\n");
    if |fs| == 0 {
      SkipAll("\n\n", 0);
    } else {
      var blocks := Blocks(fs);
      var last := fs[|fs| - 1];
      assert Block(fs[0])[0] == 'F';
      assert Block(last)[|Block(last)| - 1] == '`';
      JoinFirst(blocks, "\n");
      JoinLast(blocks, "\n");
      StripSurrounded("\n", body, "\n");
    }
  }

  /** The fences come off exactly: the parser sees the joined blocks. */
  lemma UnfenceMarkdown(fs: seq<FileCode>)
    ensures Unfence(ToMarkdown(fs), Tildes) == Join(Blocks(fs), "\n")
  {
    UnfenceToMarkdown(fs);
    StripBlocks(fs);
  }

  /** Round trip: parsing what `response_to_markdown_prompt` writes gives the entries back. */
  lemma RoundTrip(fs: seq<FileCode>, normpath: string -> string)
    requires RoundTrips(fs, normpath)
    ensures Validate(ToMarkdown(fs), normpath) == Some(fs)
  {
    UnfenceMarkdown(fs);
    var init := Parse("", [], []);
    if |fs| == 0 {
      assert Split("", "\n") == [""];
      assert ParseFrom(init, [""], normpath) == ParseFrom(init.(code := [""]), [], normpath);
    } else {
      SplitJoinParts(Blocks(fs), '\n');
      ParseBlocks(init, fs, normpath);
      assert [] + fs == fs;
    }
  }
}
