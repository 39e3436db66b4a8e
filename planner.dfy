/**
 * The planner agent of `src/agents/planner/planner.py`: the reply is cut out of its "```"
 * fences, then parsed line by line into the project name, the reply to the user, the
 * current focus, the numbered plan steps and the summary.
 */
module Planner {
  import opened Wrappers
  import opened Text
  import opened Fences
  import opened Oracles

  /** `validate_response`: strip, drop one leading and one trailing "```", strip again. */
  function Validate(response: string): (r: string)
    ensures |r| <= |response| && Strip(r) == r
  {
    Unfence(response, Backticks)
  }

  /** A fenced plan comes back stripped. */
  lemma ValidateFenced(x: string)
    ensures Validate(Backticks + x + Backticks) == Strip(x)
  {
    UnfenceFenced(Backticks, x);
  }

  function Accept(text: string): (r: Option<string>)
    ensures r.Some? ==> r.value == Validate(text) && |r.value| > 0
  {
    var v := Validate(text);
    if |v| > 0 then Some(v) else None
  }

  /** `execute` and `execute1`: ask again, without bound, while the cleaned reply is empty.
      The system-design call made first is a separate agent. */
  function Execute(replies: seq<Reply>): (r: (Status<string>, seq<Reply>))
    ensures r.0.Ok? ==> |r.0.value| > 0 && exists t :: Validate(t) == r.0.value
  {
    Retry(replies, Accept)
  }

  // ---------------------------------------------------------------------------------
  // Step numbers: `float(token)`

  /** The value of the decimal text `int.frac` (either part may be empty, not both). */
  function DecimalValue(whole: string, frac: string): real
    requires AllDigits(whole) && AllDigits(frac)
  {
    DigitsValue(whole) as real + DigitsValue(frac) as real / Power10(|frac|) as real
  }

  function Power10(n: nat): (p: nat)
    ensures p > 0
  {
    if n == 0 then 1 else 10 * Power10(n - 1)
  }

  /** Python `float(token)` on plain decimal text: surrounding white space, one sign, digits
      with at most one '.'; `None` where `float` raises `ValueError`. */
  function ParseDecimal(token: string): (r: Option<real>)
  {
    var t := Strip(token);
    var body := StripSign(t);
    var dot := Find(body, ".");
    var whole := if dot < 0 then body else body[..dot];
    var frac := if dot < 0 then "" else body[dot + 1..];
    if |whole| + |frac| > 0 && AllDigits(whole) && AllDigits(frac) then
      var v := DecimalValue(whole, frac);
      Some(if |t| > 0 && t[0] == '-' then -v else v)
    else None
  }

  /** `float(str(n))` for a natural number is `n`. */
  lemma ParseDecimalNat(n: nat)
    ensures ParseDecimal(NatToDecimal(n)) == Some(n as real)
  {
    var ds := NatToDecimal(n);
    StripTrimmed(ds);
    assert StripSign(ds) == ds by {
      assert IsDigit(ds[0]);
    }
    assert '.' !in ds by {
      forall i | 0 <= i < |ds| ensures ds[i] != '.' {
        assert IsDigit(ds[i]);
      }
    }
    FindAbsentChar(ds, '.');
    DecimalWhole(ds);
    NatToDecimalValue(n);
  }

  /** Digits without a fraction are worth their integer value. */
  lemma DecimalWhole(ds: string)
    requires AllDigits(ds)
    ensures AllDigits("") && DecimalValue(ds, "") == DigitsValue(ds) as real
  {
  }

  // ---------------------------------------------------------------------------------
  // parse_response

  datatype Section = Outside | Project | Answer | Focus | Steps | Summary

  /** The five keys `parse_response` always returns. */
  datatype Plan = Plan(project: string, reply: string, focus: string, plans: map<real, string>, summary: string)

  /** The parser's loop state: the result so far, the current section and step. */
  datatype ParseState = ParseState(plan: Plan, section: Section, step: Option<real>)

  const Init := ParseState(Plan("", "", "", map[], ""), Outside, None)

  predicate WellFormed(st: ParseState) {
    st.step.Some? ==> st.step.value in st.plan.plans
  }

  const ProjectHeader := "Project Name:"
  const ReplyHeader := "Your Reply to the Human Prompter:"
  const FocusHeader := "Current Focus:"
  const PlanHeader := "Plan:"
  const SummaryHeader := "Summary:"
  const StepMarker := "- [ ] Step"

  predicate IsHeader(line: string) {
    StartsWith(line, ProjectHeader) || StartsWith(line, ReplyHeader) || StartsWith(line, FocusHeader)
    || StartsWith(line, PlanHeader) || StartsWith(line, SummaryHeader)
  }

  /** `line.split(":", 1)[1].strip()`, on a line known to hold a ':'. */
  function HeaderValue(line: string): string {
    match AfterFirst(line, ":")
    case Some(v) => Strip(v)
    case None => ""
  }

  /** `float(line.split(":")[0].strip().split(" ")[-1])`. */
  function StepNumber(line: string): Option<real> {
    var words := Split(Strip(Split(line, ":")[0]), " ");
    ParseDecimal(words[|words| - 1])
  }

  /** One iteration of the loop, on the stripped line. */
  function Step(st: ParseState, line: string): (r: ParseState)
    requires WellFormed(st)
    ensures WellFormed(r)
  {
    var p := st.plan;
    if StartsWith(line, ProjectHeader) then st.(section := Project, plan := p.(project := HeaderValue(line)))
    else if StartsWith(line, ReplyHeader) then st.(section := Answer, plan := p.(reply := HeaderValue(line)))
    else if StartsWith(line, FocusHeader) then st.(section := Focus, plan := p.(focus := HeaderValue(line)))
    else if StartsWith(line, PlanHeader) then st.(section := Steps)
    else if StartsWith(line, SummaryHeader) then st.(section := Summary, plan := p.(summary := HeaderValue(line)))
    else if st.section == Answer then
      if |line| > 0 then st.(plan := p.(reply := p.reply + " " + line)) else st
    else if st.section == Focus then
      if |line| > 0 then st.(plan := p.(focus := p.focus + " " + line)) else st
    else if st.section == Steps then
      if StartsWith(line, StepMarker) then
        match StepNumber(line)
        case None => st.(step := None)
        case Some(n) =>
          if Contains(line, ":") then st.(step := Some(n), plan := p.(plans := p.plans[n := HeaderValue(line)]))
          else st.(step := None)
      else if st.step.Some? then
        var n := st.step.value;
        st.(plan := p.(plans := p.plans[n := p.plans[n] + " " + line]))
      else st
    else if st.section == Summary then
      if |line| > 0 then st.(plan := p.(summary := p.summary + " " + Replace(line, Backticks, ""))) else st
    else st
  }

  /** The loop over the remaining lines. */
  function ParseFrom(st: ParseState, lines: seq<string>): (r: ParseState)
    requires WellFormed(st)
    ensures WellFormed(r)
    decreases |lines|
  {
    if |lines| == 0 then st else ParseFrom(Step(st, Strip(lines[0])), lines[1..])
  }

  /** `parse_response`: the four text values are stripped at the end; the plan texts are not. */
  function Parse(response: string): (r: Plan)
    ensures Strip(r.project) == r.project && Strip(r.reply) == r.reply
    ensures Strip(r.focus) == r.focus && Strip(r.summary) == r.summary
  {
    var p := ParseFrom(Init, Split(response, "\n")).plan;
    StripStrip(p.project);
    StripStrip(p.reply);
    StripStrip(p.focus);
    StripStrip(p.summary);
    p.(project := Strip(p.project), reply := Strip(p.reply), focus := Strip(p.focus), summary := Strip(p.summary))
  }

  /** `parse_response` as the loop it is. */
  method ParseResponse(response: string) returns (r: Plan)
    ensures r == Parse(response)
  {
    var lines := Split(response, "\n");
    var project, reply, focus, plans, summary := "", "", "", map[], "";
    var section := Outside;
    var step: Option<real> := None;
    for i := 0 to |lines|
      invariant WellFormed(ParseState(Plan(project, reply, focus, plans, summary), section, step))
      invariant ParseFrom(ParseState(Plan(project, reply, focus, plans, summary), section, step), lines[i..])
                == ParseFrom(Init, lines)
    {
      ghost var before := ParseState(Plan(project, reply, focus, plans, summary), section, step);
      assert lines[i..][1..] == lines[i + 1..];
      var line := Strip(lines[i]);
      if StartsWith(line, ProjectHeader) {
        section := Project;
        project := HeaderValue(line);
      } else if StartsWith(line, ReplyHeader) {
        section := Answer;
        reply := HeaderValue(line);
      } else if StartsWith(line, FocusHeader) {
        section := Focus;
        focus := HeaderValue(line);
      } else if StartsWith(line, PlanHeader) {
        section := Steps;
      } else if StartsWith(line, SummaryHeader) {
        section := Summary;
        summary := HeaderValue(line);
      } else if section == Answer {
        if |line| > 0 {
          reply := reply + " " + line;
        }
      } else if section == Focus {
        if |line| > 0 {
          focus := focus + " " + line;
        }
      } else if section == Steps {
        if StartsWith(line, StepMarker) {
          var number := StepNumber(line);
          if number.None? || !Contains(line, ":") {
            step := None;
          } else {
            step := number;
            plans := plans[number.value := HeaderValue(line)];
          }
        } else if step.Some? {
          plans := plans[step.value := plans[step.value] + " " + line];
        }
      } else if section == Summary {
        if |line| > 0 {
          summary := summary + " " + Replace(line, Backticks, "");
        }
      }
      assert ParseState(Plan(project, reply, focus, plans, summary), section, step) == Step(before, line);
    }
    r := Plan(Strip(project), Strip(reply), Strip(focus), plans, Strip(summary));
  }

  /** The project name comes from the last "Project Name:" line: later headers of the same
      kind overwrite earlier ones, and no other line changes it. */
  lemma {:induction false} ProjectFromLastHeader(st: ParseState, lines: seq<string>, k: nat)
    requires WellFormed(st) && k < |lines|
    requires StartsWith(Strip(lines[k]), ProjectHeader)
    requires forall j :: k < j < |lines| ==> !StartsWith(Strip(lines[j]), ProjectHeader)
    ensures ParseFrom(st, lines).plan.project == HeaderValue(Strip(lines[k]))
    decreases |lines|
  {
    var next := Step(st, Strip(lines[0]));
    if k == 0 {
      ProjectUntouched(next, lines[1..]);
    } else {
      assert forall j :: k - 1 < j < |lines| - 1 ==> lines[1..][j] == lines[j + 1];
      ProjectFromLastHeader(next, lines[1..], k - 1);
    }
  }

  /** Lines that are not "Project Name:" headers leave the project name alone. */
  lemma {:induction false} ProjectUntouched(st: ParseState, lines: seq<string>)
    requires WellFormed(st)
    requires forall j :: 0 <= j < |lines| ==> !StartsWith(Strip(lines[j]), ProjectHeader)
    ensures ParseFrom(st, lines).plan.project == st.plan.project
    decreases |lines|
  {
    if |lines| > 0 {
      var next := Step(st, Strip(lines[0]));
      StepKeepsProject(st, Strip(lines[0]));
      NoProjectTail(lines);
      ProjectUntouched(next, lines[1..]);
    }
  }

  lemma StepKeepsProject(st: ParseState, line: string)
    requires WellFormed(st) && !StartsWith(line, ProjectHeader)
    ensures Step(st, line).plan.project == st.plan.project
  {
    var r := Step(st, line);
    if IsHeader(line) {
      assert r.plan.project == st.plan.project;
    } else if st.section == Steps && StartsWith(line, StepMarker) {
      assert r.plan.project == st.plan.project;
    } else {
      assert r.plan.project == st.plan.project;
    }
  }

  lemma NoProjectTail(lines: seq<string>)
    requires |lines| > 0 && forall j :: 0 <= j < |lines| ==> !StartsWith(Strip(lines[j]), ProjectHeader)
    ensures forall j :: 0 <= j < |lines| - 1 ==> !StartsWith(Strip(lines[1..][j]), ProjectHeader)
  {
    assert forall j :: 0 <= j < |lines| - 1 ==> lines[1..][j] == lines[j + 1];
  }

  /** A plan line that neither switches section nor opens a step. */
  predicate PlainLine(line: string) {
    !IsHeader(Strip(line)) && !StartsWith(Strip(line), StepMarker)
  }

  /** With no current step, as after a malformed step line, the plain lines of the plan
      section are dropped. */
  lemma {:induction false} NoStepIgnoresLines(st: ParseState, lines: seq<string>)
    requires WellFormed(st) && st.section == Steps && st.step.None?
    requires forall j :: 0 <= j < |lines| ==> PlainLine(lines[j])
    ensures ParseFrom(st, lines) == st
    decreases |lines|
  {
    if |lines| > 0 {
      assert Step(st, Strip(lines[0])) == st;
      NoStepIgnoresLines(st, lines[1..]);
    }
  }

  /** Under a step, every plain line is appended with a space, even an empty one. */
  lemma {:induction false} StepCollectsLines(st: ParseState, lines: seq<string>)
    requires WellFormed(st) && st.section == Steps && st.step.Some?
    requires forall j :: 0 <= j < |lines| ==> PlainLine(lines[j])
    ensures ParseFrom(st, lines).plan.plans
      == st.plan.plans[st.step.value := st.plan.plans[st.step.value] + Spaced(lines)]
    decreases |lines|
  {
    var n := st.step.value;
    if |lines| == 0 {
      assert Spaced(lines) == "";
      assert st.plan.plans[n] + Spaced(lines) == st.plan.plans[n];
      assert st.plan.plans[n := st.plan.plans[n]] == st.plan.plans;
    } else {
      var next := Step(st, Strip(lines[0]));
      StepAppends(st, Strip(lines[0]));
      PlainTail(lines);
      StepCollectsLines(next, lines[1..]);
      SpacedCons(st.plan.plans[n], lines);
    }
  }

  lemma StepAppends(st: ParseState, line: string)
    requires WellFormed(st) && st.section == Steps && st.step.Some?
    requires !IsHeader(line) && !StartsWith(line, StepMarker)
    ensures var n := st.step.value;
      Step(st, line) == st.(plan := st.plan.(plans := st.plan.plans[n := st.plan.plans[n] + " " + line]))
  {
  }

  lemma PlainTail(lines: seq<string>)
    requires |lines| > 0 && forall j :: 0 <= j < |lines| ==> PlainLine(lines[j])
    ensures forall j :: 0 <= j < |lines| - 1 ==> PlainLine(lines[1..][j])
    ensures PlainLine(lines[0])
  {
    assert forall j :: 0 <= j < |lines| - 1 ==> lines[1..][j] == lines[j + 1];
  }

  lemma SpacedCons(text: string, lines: seq<string>)
    requires |lines| > 0
    ensures text + " " + Strip(lines[0]) + Spaced(lines[1..]) == text + Spaced(lines)
  {
    var a, b := Strip(lines[0]), Spaced(lines[1..]);
    assert Spaced(lines) == " " + a + b;
    Regroup(text, " ", a, b);
  }

  lemma Regroup<T>(t: seq<T>, u: seq<T>, a: seq<T>, b: seq<T>)
    ensures t + u + a + b == t + (u + a + b)
  {
  }

  /** The stripped lines, each preceded by a space. */
  function Spaced(lines: seq<string>): string
    decreases |lines|
  {
    if |lines| == 0 then "" else " " + Strip(lines[0]) + Spaced(lines[1..])
  }
}
