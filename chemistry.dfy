/**
 * The chemistry expert of `src/experts/chemistry/chemistry.py`: the reply cleaning, the
 * line-by-line section parser and the property-name formatting. Molecule parsing,
 * property computation and drawing are RDKit calls and are not part of this model.
 */
module Chemistry {
  import opened Wrappers
  import opened Text
  import opened Fences
  import opened Oracles

  /** `validate_response`: strip, rewrite "```json" as "```", and remove "'''" quotes only
      when they are at both ends; "```" fences stay in place. */
  function Validate(response: string): (r: string)
  {
    Unwrap(response, Quotes)
  }

  /** A block between "'''" quotes comes back stripped. */
  lemma ValidateQuoted(x: string)
    requires !Contains(Quotes + x + Quotes, JsonFence)
    ensures Validate(Quotes + x + Quotes) == Strip(x)
  {
    UnwrapFenced(Quotes, x);
  }

  /** A "```" block is left fenced: only a "```json" opening is rewritten. */
  lemma ValidateKeepsBackticks(x: string)
    requires !Contains(x + Backticks, JsonFence)
    ensures Validate(JsonFence + x + Backticks) == Strip(Backticks + x + Backticks)
  {
    var s := JsonFence + x + Backticks;
    assert s[0] == '`' && s[|s| - 1] == '`';
    StripTrimmed(s);
    RewriteJsonFence(x);
    var t := Backticks + x + Backticks;
    assert t[0] == '`' && t[|t| - 1] == '`';
    StripTrimmed(t);
    assert !StartsWith(t, Quotes) by {
      assert t[0] != Quotes[0];
    }
  }

  function Accept(text: string): (r: Option<string>)
    ensures r.Some? ==> r.value == Validate(text) && |r.value| > 0
  {
    var v := Validate(text);
    if |v| > 0 then Some(v) else None
  }

  /** `execute`: ask again, without bound, while the cleaned reply is empty. */
  function Execute(replies: seq<Reply>): (r: (Status<string>, seq<Reply>))
    ensures r.0.Ok? ==> |r.0.value| > 0 && exists t :: Validate(t) == r.0.value
  {
    Retry(replies, Accept)
  }

  // ---------------------------------------------------------------------------------
  // parse_response

  datatype Section = Outside | Problem | Plan | Solutions

  /** The four keys `parse_response` always returns. */
  datatype Parsed = Parsed(problem: string, plans: map<int, string>, solutions: string, smiles: seq<string>)

  /** The parser's loop state: the result so far, the current section and step. */
  datatype ParseState = ParseState(data: Parsed, section: Section, step: Option<int>)

  const Init := ParseState(Parsed("", map[], "", []), Outside, None)

  /** The current step, when there is one, is a key of the plan. */
  predicate WellFormed(st: ParseState) {
    st.step.Some? ==> st.step.value in st.data.plans
  }

  const ProblemHeader := "Problem Description:"
  const PlanHeader := "Plan:"
  const SolutionsHeader := "Innovative Solutions:"
  const StepMarker := "- Step"

  predicate IsHeader(line: string) {
    StartsWith(line, ProblemHeader) || StartsWith(line, PlanHeader) || StartsWith(line, SolutionsHeader)
  }

  /** `line.split(":", 1)[1].strip()` on a line that holds a ':'. */
  function HeaderValue(line: string): string {
    match AfterFirst(line, ":")
    case Some(v) => Strip(v)
    case None => ""
  }

  /** `int(line.split(":")[0].strip().split(" ")[-1])`: the step number, `None` where `int`
      raises `ValueError`. */
  function StepNumber(line: string): Option<int> {
    var words := Split(Strip(Split(line, ":")[0]), " ");
    ParseInt(words[|words| - 1])
  }

  /** One iteration of the loop, on the stripped line. */
  function Step(st: ParseState, line: string): (r: ParseState)
    requires WellFormed(st)
    ensures WellFormed(r)
  {
    var d := st.data;
    if StartsWith(line, ProblemHeader) then st.(section := Problem, data := d.(problem := HeaderValue(line)))
    else if StartsWith(line, PlanHeader) then st.(section := Plan)
    else if StartsWith(line, SolutionsHeader) then st.(section := Solutions, data := d.(solutions := HeaderValue(line)))
    else if st.section == Problem then st.(data := d.(problem := d.problem + " " + line))
    else if st.section == Plan then PlanStep(st, line)
    else if st.section == Solutions then st.(data := d.(solutions := d.solutions + " " + line))
    else st
  }

  /** One iteration in the plan section, on a line that is not a header: a "- Step N:"
      line opens step N, another line extends the current step. */
  function PlanStep(st: ParseState, line: string): (r: ParseState)
    requires WellFormed(st)
    ensures WellFormed(r)
  {
    var d := st.data;
    if StartsWith(line, StepMarker) then
      var parts := Split(line, ":");
      match StepNumber(line)
      case None => st.(step := None)
      case Some(n) =>
        if |parts| < 2 then st.(step := None)
        else
          var smiles := if |parts| >= 4 then d.smiles + [Strip(parts[2])] else d.smiles;
          st.(step := Some(n), data := d.(plans := d.plans[n := HeaderValue(line)], smiles := smiles))
    else if st.step.Some? then
      var n := st.step.value;
      st.(data := d.(plans := d.plans[n := d.plans[n] + " " + line]))
    else st
  }

  /** The loop over the remaining lines. */
  function ParseFrom(st: ParseState, lines: seq<string>): (r: ParseState)
    requires WellFormed(st)
    ensures WellFormed(r)
    decreases |lines|
  {
    if |lines| == 0 then st else ParseFrom(Step(st, Strip(lines[0])), lines[1..])
  }

  /** `parse_response`: the string values are stripped at the end; the plan is not. */
  function Parse(response: string): Parsed {
    var d := ParseFrom(Init, Split(response, "\n")).data;
    d.(problem := Strip(d.problem), solutions := Strip(d.solutions))
  }

  /** `parse_response` as the loop it is. */
  method ParseResponse(response: string) returns (r: Parsed)
    ensures r == Parse(response)
  {
    var lines := Split(response, "\n");
    var problem, plans, solutions, smiles := "", map[], "", [];
    var section := Outside;
    var step: Option<int> := None;
    for i := 0 to |lines|
      invariant WellFormed(ParseState(Parsed(problem, plans, solutions, smiles), section, step))
      invariant ParseFrom(ParseState(Parsed(problem, plans, solutions, smiles), section, step), lines[i..])
                == ParseFrom(Init, lines)
    {
      assert lines[i..][1..] == lines[i + 1..];
      var line := Strip(lines[i]);
      problem, plans, solutions, smiles, section, step :=
        ParseLine(problem, plans, solutions, smiles, section, step, line);
    }
    r := Parsed(Strip(problem), plans, Strip(solutions), smiles);
  }

  /** The body of the loop, on the stripped line. */
  method ParseLine(problem: string, plans: map<int, string>, solutions: string, smiles: seq<string>,
                   section: Section, step: Option<int>, line: string)
    returns (problem': string, plans': map<int, string>, solutions': string, smiles': seq<string>,
             section': Section, step': Option<int>)
    requires WellFormed(ParseState(Parsed(problem, plans, solutions, smiles), section, step))
    ensures ParseState(Parsed(problem', plans', solutions', smiles'), section', step')
      == Step(ParseState(Parsed(problem, plans, solutions, smiles), section, step), line)
  {
    problem', plans', solutions', smiles', section', step' := problem, plans, solutions, smiles, section, step;
    if StartsWith(line, ProblemHeader) {
      section' := Problem;
      problem' := HeaderValue(line);
    } else if StartsWith(line, PlanHeader) {
      section' := Plan;
    } else if StartsWith(line, SolutionsHeader) {
      section' := Solutions;
      solutions' := HeaderValue(line);
    } else if section == Problem {
      problem' := problem + " " + line;
    } else if section == Plan {
      plans', smiles', step' := ParsePlanLine(problem, plans, solutions, smiles, step, line);
    } else if section == Solutions {
      solutions' := solutions + " " + line;
    }
  }

  /** The plan-section branch of the loop body. */
  method ParsePlanLine(problem: string, plans: map<int, string>, solutions: string, smiles: seq<string>,
                       step: Option<int>, line: string)
    returns (plans': map<int, string>, smiles': seq<string>, step': Option<int>)
    requires WellFormed(ParseState(Parsed(problem, plans, solutions, smiles), Plan, step))
    ensures ParseState(Parsed(problem, plans', solutions, smiles'), Plan, step')
      == PlanStep(ParseState(Parsed(problem, plans, solutions, smiles), Plan, step), line)
  {
    plans', smiles', step' := plans, smiles, step;
    if StartsWith(line, StepMarker) {
      var number := StepNumber(line);
      var parts := Split(line, ":");
      if number.None? || |parts| < 2 {
        step' := None;
      } else {
        step' := number;
        if |parts| >= 4 {
          smiles' := smiles + [Strip(parts[2])];
        }
        plans' := plans[number.value := HeaderValue(line)];
      }
    } else if step.Some? {
      plans' := plans[step.value := plans[step.value] + " " + line];
    }
  }

  /** The SMILES annotations only grow, in line order: earlier ones are never changed. */
  lemma {:induction false} SmilesOnlyGrow(st: ParseState, lines: seq<string>)
    requires WellFormed(st)
    ensures st.data.smiles <= ParseFrom(st, lines).data.smiles
    decreases |lines|
  {
    if |lines| > 0 {
      var next := Step(st, Strip(lines[0]));
      assert st.data.smiles <= next.data.smiles;
      SmilesOnlyGrow(next, lines[1..]);
    }
  }

  /** A line of the plan section that opens step `n`. */
  predicate OpensStep(line: string, n: int) {
    StartsWith(line, StepMarker) && StepNumber(line) == Some(n)
  }

  lemma StepKeys(st: ParseState, line: string)
    requires WellFormed(st)
    ensures forall k :: k in Step(st, line).data.plans ==> k in st.data.plans || OpensStep(line, k)
  {
    var r := Step(st, line);
    if IsHeader(line) || st.section != Plan {
      assert r.data.plans == st.data.plans;
    } else {
      assert r == PlanStep(st, line);
      PlanStepKeys(st, line);
    }
  }

  lemma PlanStepKeys(st: ParseState, line: string)
    requires WellFormed(st)
    ensures forall k :: k in PlanStep(st, line).data.plans ==> k in st.data.plans || OpensStep(line, k)
  {
    var r := PlanStep(st, line);
    if StartsWith(line, StepMarker) {
      match StepNumber(line)
      case None =>
        assert r.data.plans == st.data.plans;
      case Some(n) =>
        assert r.data.plans.Keys <= st.data.plans.Keys + {n};
    } else {
      assert r.data.plans.Keys == st.data.plans.Keys;
    }
  }

  /** In the plan section, a "- Step N: text" line opens step N and stores under N the
      text after its first ':', stripped. */
  lemma StepLineStores(st: ParseState, line: string, n: int, text: string)
    requires WellFormed(st) && st.section == Plan && !IsHeader(line)
    requires OpensStep(line, n) && AfterFirst(line, ":") == Some(text)
    ensures Step(st, line).step == Some(n) && Step(st, line).data.plans[n] == Strip(text)
  {
    SplitParts(line, ":");
  }

  /** Some line of `lines` opens step `k`. */
  ghost predicate OpenedIn(lines: seq<string>, k: int) {
    exists j :: 0 <= j < |lines| && OpensStep(Strip(lines[j]), k)
  }

  lemma OpenedInCons(lines: seq<string>, k: int)
    requires |lines| > 0
    ensures OpensStep(Strip(lines[0]), k) || OpenedIn(lines[1..], k) ==> OpenedIn(lines, k)
  {
    if OpenedIn(lines[1..], k) {
      var j :| 0 <= j < |lines[1..]| && OpensStep(Strip(lines[1..][j]), k);
      assert lines[1..][j] == lines[j + 1];
    }
    if OpensStep(Strip(lines[0]), k) {
      assert 0 < |lines|;
    }
  }

  /** Every step number in the plan comes from a "- Step N" line. */
  lemma {:induction false} PlanKeysFromSteps(st: ParseState, lines: seq<string>)
    requires WellFormed(st)
    ensures forall k :: k in ParseFrom(st, lines).data.plans ==> k in st.data.plans || OpenedIn(lines, k)
    decreases |lines|
  {
    if |lines| > 0 {
      var next := Step(st, Strip(lines[0]));
      StepKeys(st, Strip(lines[0]));
      PlanKeysFromSteps(next, lines[1..]);
      assert ParseFrom(st, lines) == ParseFrom(next, lines[1..]);
      forall k | k in ParseFrom(next, lines[1..]).data.plans
        ensures k in st.data.plans || OpenedIn(lines, k)
      {
        OpenedInCons(lines, k);
      }
    }
  }

  /** A plan line that neither switches section nor opens a step. */
  predicate PlainLine(line: string) {
    !IsHeader(Strip(line)) && !StartsWith(Strip(line), StepMarker)
  }

  /** After a malformed step line has cleared the current step, the plain lines that
      follow are dropped: the plan and the annotations stay as they were. */
  lemma {:induction false} NoStepIgnoresLines(st: ParseState, lines: seq<string>)
    requires WellFormed(st) && st.section == Plan && st.step.None?
    requires forall j :: 0 <= j < |lines| ==> PlainLine(lines[j])
    ensures ParseFrom(st, lines) == st
    decreases |lines|
  {
    if |lines| > 0 {
      assert Step(st, Strip(lines[0])) == st;
      NoStepIgnoresLines(st, lines[1..]);
    }
  }

  /** A step line whose number does not parse clears the current step and records
      nothing. */
  lemma MalformedStepClears(st: ParseState, line: string)
    requires WellFormed(st) && st.section == Plan && !IsHeader(line)
    requires StartsWith(line, StepMarker) && StepNumber(line).None?
    ensures Step(st, line) == st.(step := None)
  {
  }

  // ---------------------------------------------------------------------------------
  // print_molecule_properties

  /** `prop.replace('_', ' ').capitalize()`. */
  function Label(prop: string): string {
    Capitalize(Replace(prop, "_", " "))
  }

  /** No underscore is left in a label. */
  lemma LabelHasNoUnderscore(prop: string)
    ensures '_' !in Label(prop)
  {
    ReplaceCharIsMap(prop, '_', ' ');
    var m := MapChar(prop, '_', ' ');
    assert '_' !in m;
    var l := Label(prop);
    forall i | 0 <= i < |l| ensures l[i] != '_' {
      if i > 0 {
        assert l[i] == Lower(m[1..])[i - 1];
      }
    }
  }

  /** The dictionary built by the loop, read from its last assignment back. */
  function Labelled<V>(props: seq<(string, V)>): map<string, V>
    decreases |props|
  {
    if |props| == 0 then map[]
    else
      var last := props[|props| - 1];
      Labelled(props[..|props| - 1])[Label(last.0) := last.1]
  }

  /** `print_molecule_properties`: each property under its label, value unchanged. */
  method PrintMoleculeProperties<V>(props: seq<(string, V)>) returns (labelled: map<string, V>)
    ensures labelled == Labelled(props)
  {
    labelled := map[];
    for i := 0 to |props|
      invariant labelled == Labelled(props[..i])
    {
      assert props[..i + 1][..i] == props[..i];
      labelled := labelled[Label(props[i].0) := props[i].1];
    }
    assert props[..|props|] == props;
  }

  /** The keys are exactly the labels of the properties. */
  lemma {:induction false} LabelledKeys<V>(props: seq<(string, V)>)
    ensures Labelled(props).Keys == set i | 0 <= i < |props| :: Label(props[i].0)
    decreases |props|
  {
    if |props| > 0 {
      var init := props[..|props| - 1];
      LabelledKeys(init);
      assert forall i :: 0 <= i < |init| ==> init[i] == props[i];
    }
  }

  /** Each label holds the value of the last property carrying it; with distinct labels,
      every property keeps its own value. */
  lemma {:induction false} LabelledValue<V>(props: seq<(string, V)>, i: nat)
    requires i < |props|
    requires forall j :: i < j < |props| ==> Label(props[j].0) != Label(props[i].0)
    ensures Label(props[i].0) in Labelled(props) && Labelled(props)[Label(props[i].0)] == props[i].1
    decreases |props|
  {
    if i < |props| - 1 {
      var init := props[..|props| - 1];
      assert init[i] == props[i];
      LabelledValue(init, i);
    }
  }
}
