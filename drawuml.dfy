/**
 * The UML agent of `src/agents/drawuml/drawuml.py`: for each of nine diagram types in a
 * fixed order it asks the model for a "~~~"-fenced PlantUML text and writes it to
 * "{type}.puml". An unfenced reply skips that type; there is no retry.
 */
module DrawUml {
  import opened Wrappers
  import opened Text
  import opened Fences
  import opened Oracles

  const DiagramTypes: seq<string> :=
    ["Class", "Sequence", "UseCase", "Activite", "Composant", "Etat", "Objet", "Deploiement", "Temps"]

  /** `validate_response`: the stripped text between the "~~~" fences, split into lines;
      `None` (the source's `False`) unless the trimmed reply starts and ends with "~~~". */
  function Validate(response: string): (r: Option<seq<string>>)
    ensures r.Some? <==> StartsWith(Strip(response), Tildes) && EndsWith(Strip(response), Tildes)
    ensures r.Some? ==> |r.value| > 0
  {
    var t := Strip(response);
    if StartsWith(t, Tildes) && EndsWith(t, Tildes) then Some(Split(Strip(Inner3(t)), "\n")) else None
  }

  /** A fenced diagram is accepted, and its lines rejoined give the stripped inner text. */
  lemma ValidateFenced(x: string)
    ensures Validate(Tildes + x + Tildes) == Some(Split(Strip(x), "\n"))
    ensures Join(Validate(Tildes + x + Tildes).value, "\n") == Strip(x)
  {
    var s := Tildes + x + Tildes;
    assert s[0] == '~' && s[|s| - 1] == '~';
    StripTrimmed(s);
    assert s[..3] == Tildes && s[|s| - 3..] == Tildes;
    assert Inner3(s) == x;
    JoinSplit(Strip(x), '\n');
  }

  /** One written file: its name and its content. */
  datatype Puml = Puml(file: string, content: string)

  /** The files written so far and how the loop ended. */
  datatype Drawing = Drawing(files: seq<Puml>, status: Status<()>)

  /** What one reply writes for diagram type `item`. */
  function Written(item: string, text: string): (ws: seq<Puml>)
    ensures |ws| <= 1
  {
    match Validate(text)
    case None => []
    case Some(lines) => [Puml(item + ".puml", Join(lines, "\n"))]
  }

  /** The loop of `execute` from `items` on, with `files` already written; `write` says
      what one reply writes for one diagram type. */
  function DrawFrom(files: seq<Puml>, items: seq<string>, replies: seq<Reply>, write: (string, string) -> seq<Puml>): (d: Drawing)
    decreases |items|
  {
    if |items| == 0 then Drawing(files, Ok(()))
    else if |replies| == 0 then Drawing(files, Stalled)
    else match replies[0]
      case Unavailable => Drawing(files, Raised)
      case Reply(text) => DrawFrom(files + write(items[0], text), items[1..], replies[1..], write)
  }

  /** The loop of `execute` over the diagram types `items`. */
  method Draw(items: seq<string>, replies: seq<Reply>) returns (files: seq<Puml>, status: Status<()>)
    ensures Drawing(files, status) == DrawFrom([], items, replies, Written)
  {
    files := [];
    var rest := replies;
    for i := 0 to |items|
      invariant DrawFrom(files, items[i..], rest, Written) == DrawFrom([], items, replies, Written)
    {
      assert items[i..][1..] == items[i + 1..];
      if |rest| == 0 {
        return files, Stalled;
      }
      var reply := rest[0];
      rest := rest[1..];
      match reply
      case Unavailable =>
        return files, Raised;
      case Reply(text) =>
        ghost var before := files;
        var valid := Validate(text);
        if valid.Some? {
          files := files + [Puml(items[i] + ".puml", Join(valid.value, "\n"))];
        }
        assert files == before + Written(items[i], text);
    }
    status := Ok(());
  }

  /** `execute`: one request per diagram type, in the fixed order; a refused reply is
      skipped. */
  method Execute(replies: seq<Reply>) returns (files: seq<Puml>, status: Status<()>)
    ensures Drawing(files, status) == DrawFrom([], DiagramTypes, replies, Written)
  {
    files, status := Draw(DiagramTypes, replies);
  }

  /** Reference reading of the loop when every request is answered: the files written
      are, in diagram-type order, those of the accepted replies. */
  function Accepted(items: seq<string>, texts: seq<string>, write: (string, string) -> seq<Puml>): seq<Puml>
    requires |texts| == |items|
  {
    if |items| == 0 then [] else write(items[0], texts[0]) + Accepted(items[1..], texts[1..], write)
  }

  lemma {:induction false} DrawFromAnswered(files: seq<Puml>, items: seq<string>, replies: seq<Reply>, texts: seq<string>,
                                            write: (string, string) -> seq<Puml>)
    requires |texts| == |items| <= |replies|
    requires forall i :: 0 <= i < |items| ==> replies[i] == Reply(texts[i])
    ensures DrawFrom(files, items, replies, write) == Drawing(files + Accepted(items, texts, write), Ok(()))
    decreases |items|
  {
    if |items| > 0 {
      var next := files + write(items[0], texts[0]);
      DrawFromAnswered(next, items[1..], replies[1..], texts[1..], write);
      assert next + Accepted(items[1..], texts[1..], write) == files + Accepted(items, texts, write);
    }
  }

  lemma WrittenFenced(item: string, body: string)
    ensures Written(item, Tildes + body + Tildes) == [Puml(item + ".puml", Strip(body))]
  {
    ValidateFenced(body);
  }

  /** When each reply writes one file, the loop writes them all, in order. */
  lemma {:induction false} AcceptedEach(items: seq<string>, texts: seq<string>, write: (string, string) -> seq<Puml>, files: seq<Puml>)
    requires |texts| == |items| == |files|
    requires forall i :: 0 <= i < |items| ==> write(items[i], texts[i]) == [files[i]]
    ensures Accepted(items, texts, write) == files
    decreases |items|
  {
    if |items| > 0 {
      assert write(items[0], texts[0]) == [files[0]];
      AcceptedEach(items[1..], texts[1..], write, files[1..]);
      assert files == [files[0]] + files[1..];
    }
  }

  /** An unanswered request stops the loop there, keeping the files written before it. */
  lemma {:induction false} DrawFromRaised(files: seq<Puml>, items: seq<string>, replies: seq<Reply>, texts: seq<string>,
                                          write: (string, string) -> seq<Puml>)
    requires |texts| < |items| && |texts| < |replies|
    requires forall i :: 0 <= i < |texts| ==> replies[i] == Reply(texts[i])
    requires replies[|texts|] == Unavailable
    ensures DrawFrom(files, items, replies, write) == Drawing(files + Accepted(items[..|texts|], texts, write), Raised)
    decreases |texts|
  {
    if |texts| > 0 {
      var next := files + write(items[0], texts[0]);
      DrawFromRaised(next, items[1..], replies[1..], texts[1..], write);
      assert items[1..][..|texts| - 1] == items[..|texts|][1..];
      assert next + Accepted(items[..|texts|][1..], texts[1..], write) == files + Accepted(items[..|texts|], texts, write);
    }
  }

  /** With every reply fenced, the loop writes one file per diagram type, in order, each
      holding the stripped text between the fences. */
  lemma DrawFenced(items: seq<string>, replies: seq<Reply>, bodies: seq<string>)
    requires |bodies| == |items| <= |replies|
    requires forall i :: 0 <= i < |bodies| ==> replies[i] == Reply(Tildes + bodies[i] + Tildes)
    ensures DrawFrom([], items, replies, Written)
      == Drawing(seq(|items|, i requires 0 <= i < |items| => Puml(items[i] + ".puml", Strip(bodies[i]))), Ok(()))
  {
    var texts := seq(|bodies|, i requires 0 <= i < |bodies| => Tildes + bodies[i] + Tildes);
    var files := seq(|items|, i requires 0 <= i < |items| => Puml(items[i] + ".puml", Strip(bodies[i])));
    forall i | 0 <= i < |items| ensures Written(items[i], texts[i]) == [files[i]] {
      WrittenFenced(items[i], bodies[i]);
    }
    AcceptedEach(items, texts, Written, files);
    DrawFromAnswered([], items, replies, texts, Written);
    assert [] + files == files;
  }
}
