/**
 * The cost ledger, prompt assembly and verdict parsing of the behavioral
 * test harness. The `claude -p` subprocess and the decoding of its JSON
 * reply are oracles passed in as functions; costs are whole micro-dollars;
 * the cost file and the trace files are the state of the objects below.
 */
module Behavioral {
  import opened Wrappers
  import opened Strings
  import opened Lists

  // ---------------------------------------------------------------------------
  // the cost ledger

  /** `COST_CAP` (0.50 dollars) and `COST_WARN_THRESHOLD` (0.45 dollars), in micro-dollars. */
  const CostCap: int := 500000
  const CostWarnThreshold: int := 450000

  /** The condition under which `check_cost_cap` skips a test. */
  predicate CapReached(total: int) {
    total >= CostWarnThreshold
  }

  /** `sum(tests.values())`: the loop adds the value of each key once, in some order. */
  method SumCosts(tests: map<string, int>) returns (total: int)
    ensures total == SumValues(tests)
  {
    total := 0;
    var rest := tests;
    while rest != map[]
      invariant total + SumValues(rest) == SumValues(tests)
      decreases |rest|
    {
      var key :| key in rest;
      SumValuesRemove(rest, key);
      RemoveOne(rest, key);
      total := total + rest[key];
      rest := rest - {key};
    }
  }

  /** The cost state: the cost of each test by key, and the running total. */
  class CostLedger {
    var tests: map<string, int>
    var runningTotal: int

    /** The total is the sum of the recorded costs. */
    ghost predicate Valid()
      reads this
    {
      runningTotal == SumValues(tests)
    }

    /** The state `_load_cost_state` starts from when there is no cost file. */
    constructor ()
      ensures tests == map[] && runningTotal == 0 && Valid()
    {
      tests := map[];
      runningTotal := 0;
    }

    /**
     * Record `cost` under `key`, overwriting any earlier cost of that key,
     * and recompute the total. The total moves by the difference.
     */
    method Record(key: string, cost: int)
      modifies this
      ensures tests == old(tests)[key := cost] && Valid()
      ensures old(Valid()) ==>
        runningTotal == old(runningTotal) - (if key in old(tests) then old(tests)[key] else 0) + cost
    {
      SumValuesUpdate(tests, key, cost);
      tests := tests[key := cost];
      runningTotal := SumCosts(tests);
    }

    /** `check_cost_cap`: whether the test has to be skipped. */
    method CheckCostCap() returns (skip: bool)
      ensures skip <==> CapReached(runningTotal)
    {
      skip := runningTotal >= CostWarnThreshold;
    }
  }

  /**
   * Once the cap is reached it stays reached while no recorded cost
   * decreases: a new key with a non-negative cost, or a key whose cost is
   * not lowered.
   */
  lemma CapStaysReached(tests: map<string, int>, key: string, cost: int)
    requires CapReached(SumValues(tests))
    requires if key in tests then cost >= tests[key] else cost >= 0
    ensures CapReached(SumValues(tests[key := cost]))
  {
    SumValuesUpdate(tests, key, cost);
  }

  // ---------------------------------------------------------------------------
  // prompts and commands

  const SkillOpen := "<skill_context>\n"
  const SkillClose := "\n</skill_context>\n\n"

  /** The prompt `invoke_skill` sends: the skill wrapped in tags, then the prompt. */
  function FullPrompt(skill: string, prompt: string): (r: string)
    ensures skill == [] ==> r == prompt
    ensures skill != [] ==>
      && StartsWith(r, SkillOpen) && EndsWith(r, prompt)
      && |r| == |SkillOpen| + |skill| + |SkillClose| + |prompt|
      && r[|SkillOpen|..|SkillOpen| + |skill|] == skill
      && r[|SkillOpen| + |skill|..|r| - |prompt|] == SkillClose
  {
    if skill != [] then SkillOpen + skill + SkillClose + prompt else prompt
  }

  /**
   * For prompts of the same length, the wrapped prompt determines the skill
   * and the prompt. Without that condition it does not: text that looks like
   * the closing tag can sit at the end of the skill or the start of the
   * prompt and give the same wrapped prompt.
   */
  lemma FullPromptInjective(s1: string, p1: string, s2: string, p2: string)
    requires s1 != [] && s2 != [] && |p1| == |p2|
    requires FullPrompt(s1, p1) == FullPrompt(s2, p2)
    ensures s1 == s2 && p1 == p2
  {
    var r := FullPrompt(s1, p1);
    assert r[|r| - |p1|..] == p1 && r[|r| - |p2|..] == p2;
  }

  /** The judge's prompt. */
  function JudgePrompt(question: string, context: string): (r: string)
    ensures EndsWith(r, context)
  {
    "Evaluate the following and answer with YES or NO on the first line, "
    + "followed by a brief reason.\n\n"
    + "Question: " + question + "\n\n"
    + "Content to evaluate:\n" + context
  }

  /** `claude -p <prompt> --output-format json`, with `--model haiku` for the judge. */
  function Command(prompt: string, model: Option<string>): (cmd: seq<string>)
    ensures |cmd| >= 5 && cmd[..2] == ["claude", "-p"] && cmd[2] == prompt
  {
    ["claude", "-p", prompt, "--output-format", "json"]
    + (match model case Some(m) => ["--model", m] case None => [])
  }

  /** The key the judge's cost is recorded under. */
  function JudgeKey(testId: string): (key: string)
    ensures testId != [] ==> StartsWith(key, testId) && EndsWith(key, "_judge")
    ensures testId == [] ==> key == "judge"
  {
    if testId != [] then testId + "_judge" else "judge"
  }

  /** Different tests never share a judge key. */
  lemma JudgeKeyInjective(a: string, b: string)
    requires JudgeKey(a) == JudgeKey(b)
    ensures a == b
  {
    if a != [] && b != [] {
      assert a == JudgeKey(a)[..|a|] && b == JudgeKey(b)[..|b|];
    }
  }

  // ---------------------------------------------------------------------------
  // the subprocess and its JSON reply

  /**
   * What `subprocess.run` gives: the exit status and the two output streams;
   * the `TimeoutExpired` it raises when the time limit passes; or the
   * `OSError` it raises when the program cannot be started at all, such as
   * `FileNotFoundError` when `claude` is not on the path.
   */
  datatype Process =
    | Process(returnCode: int, stdout: string, stderr: string)
    | TimedOut
    | NotStarted(exception: string)

  /**
   * The fields the harness reads from the JSON reply, with the defaults of
   * `data.get`: `total_cost_usd` (in micro-dollars), `result` and `is_error`.
   */
  datatype Reply = Reply(costMicros: int, result: string, isError: bool)

  /**
   * What the harness makes of the stripped output: `json.loads` fails
   * (`JSONDecodeError`, which is caught); or it succeeds but reading the
   * fields raises, because the value is not an object (`data.get`) or the
   * cost is not a number (`float`); or the fields are read.
   */
  datatype Decoded = NotJson | Raises(exception: string) | Parsed(reply: Reply)

  /** The exception `pytest.skip` raises, and the one a timed-out subprocess raises. */
  const SkipException := "Skipped"
  const TimeoutException := "TimeoutExpired"

  /** The dictionary `invoke_skill` returns. */
  datatype Invocation = Invocation(result: string, costMicros: int, isError: bool, raw: Option<Reply>)

  /**
   * `invoke_skill`: skip when the cap is reached; otherwise run the command.
   * A failed run or output that is not JSON gives an error result; a
   * timeout or a reply whose fields cannot be read raises. Only a read
   * reply records its cost, under the test's id when there is one.
   * A program that cannot be started raises its `OSError`.
   */
  method InvokeSkill(ledger: CostLedger, prompt: string, skill: string, testId: string,
                     run: seq<string> -> Process, decode: string -> Decoded) returns (r: Outcome<Invocation>)
    modifies ledger
    ensures CapReached(old(ledger.runningTotal)) ==> r == Raised(SkipException) && unchanged(ledger)
    ensures !CapReached(old(ledger.runningTotal)) ==>
      var p := run(Command(FullPrompt(skill, prompt), None));
      && (p.TimedOut? ==> r == Raised(TimeoutException) && unchanged(ledger))
      && (p.NotStarted? ==> r == Raised(p.exception) && unchanged(ledger))
      && (p.Process? && p.returnCode != 0 ==>
            r == Returned(Invocation(if p.stderr != [] then p.stderr else p.stdout, 0, true, None)) && unchanged(ledger))
      && (p.Process? && p.returnCode == 0 ==>
            var o := decode(Strip(p.stdout));
            && (o.NotJson? ==> r == Returned(Invocation(Strip(p.stdout), 0, true, None)) && unchanged(ledger))
            && (o.Raises? ==> r == Raised(o.exception) && unchanged(ledger))
            && (o.Parsed? ==>
                  && r == Returned(Invocation(o.reply.result, o.reply.costMicros, o.reply.isError, Some(o.reply)))
                  && ledger.tests == (if testId != [] then old(ledger.tests)[testId := o.reply.costMicros] else old(ledger.tests))
                  && ledger.Valid()))
  {
    var skip := ledger.CheckCostCap();
    if skip {
      return Raised(SkipException);
    }
    var fullPrompt := FullPrompt(skill, prompt);
    var p := run(Command(fullPrompt, None));
    if p.TimedOut? {
      return Raised(TimeoutException);
    }
    if p.NotStarted? {
      return Raised(p.exception);
    }
    if p.returnCode != 0 {
      return Returned(Invocation(if p.stderr != [] then p.stderr else p.stdout, 0, true, None));
    }
    var rawOutput := Strip(p.stdout);
    match decode(rawOutput)
    case NotJson =>
      return Returned(Invocation(rawOutput, 0, true, None));
    case Raises(e) =>
      return Raised(e);
    case Parsed(d) =>
      if testId != [] {
        ledger.Record(testId, d.costMicros);
      } else {
        ledger.runningTotal := SumCosts(ledger.tests);
      }
      r := Returned(Invocation(d.result, d.costMicros, d.isError, Some(d)));
  }

  // ---------------------------------------------------------------------------
  // the judge

  /** The first line of the stripped response, trimmed and upper-cased, starts with `YES`. */
  function Verdict(response: string): (v: string)
    ensures v == "YES" || v == "NO"
  {
    var lines := SplitOn(Strip(response), '\n');
    if StartsWith(Upper(Strip(lines[0])), "YES") then "YES" else "NO"
  }

  /** The remaining lines, joined and stripped; empty for a one-line response. */
  function Reason(response: string): string {
    var lines := SplitOn(Strip(response), '\n');
    if |lines| > 1 then Strip(Join("\n", lines[1..])) else ""
  }

  /** `s` begins with the letters y, e, s, in either case. */
  predicate SaysYes(s: string) {
    |s| >= 3 && UpperChar(s[0]) == 'Y' && UpperChar(s[1]) == 'E' && UpperChar(s[2]) == 'S'
  }

  /** The text of `s` before its first newline, or all of it. */
  function FirstLine(s: string): (r: string)
    ensures |r| <= |s| && r == s[..|r|] && '\n' !in r && (|r| == |s| || s[|r|] == '\n')
  {
    if s == [] || s[0] == '\n' then []
    else
      var rest := FirstLine(s[1..]);
      assert s[..|rest| + 1] == [s[0]] + s[1..][..|rest|];
      [s[0]] + rest
  }

  lemma {:induction false} SplitOnFirst(s: string)
    ensures SplitOn(s, '\n')[0] == FirstLine(s)
  {
    var f := FirstLine(s);
    if |f| == |s| {
      assert f == s;
      SplitOnNoSeparator(s, '\n');
    } else {
      SplitOnAt(s, '\n', |f|);
    }
  }

  /**
   * The verdict is `YES` exactly when the first line of the stripped
   * response, stripped again, begins with "yes" in any case.
   */
  lemma VerdictMeaning(response: string)
    ensures Verdict(response) == "YES" <==> SaysYes(Strip(FirstLine(Strip(response))))
  {
    SplitOnFirst(Strip(response));
    var u := Upper(Strip(FirstLine(Strip(response))));
    if |u| >= 3 {
      assert u[..3] == [u[0], u[1], u[2]];
    }
  }

  /**
   * The reason is the stripped text after the first newline of the
   * stripped response, and empty when it has none.
   */
  lemma ReasonMeaning(response: string)
    ensures var s := Strip(response); var f := FirstLine(s);
      Reason(response) == if |f| < |s| then Strip(s[|f| + 1..]) else ""
  {
    var s := Strip(response);
    var f := FirstLine(s);
    if |f| < |s| {
      SplitOnAt(s, '\n', |f|);
      var tail := SplitOn(s[|f| + 1..], '\n');
      assert SplitOn(s, '\n')[1..] == tail;
      SplitOnJoin(s[|f| + 1..], '\n');
      assert "\n" == ['\n'];
    } else {
      assert f == s;
      SplitOnNoSeparator(s, '\n');
    }
  }

  /** The dictionary `llm_judge` returns. */
  datatype Judgement = Judgement(verdict: string, reason: string, costMicros: int, rawResponse: string)

  /**
   * `llm_judge`: run the judge. A failed run or output that is not JSON
   * gives an error verdict; a timeout or a reply whose fields cannot be read
   * raises, as does a program that cannot be started. A read reply records
   * its cost under the judge key and gives the parsed verdict. The judge
   * does not check the cap.
   */
  method LlmJudge(ledger: CostLedger, question: string, context: string, testId: string,
                  run: seq<string> -> Process, decode: string -> Decoded) returns (j: Outcome<Judgement>)
    modifies ledger
    ensures var p := run(Command(JudgePrompt(question, context), Some("haiku")));
      && (p.TimedOut? ==> j == Raised(TimeoutException) && unchanged(ledger))
      && (p.NotStarted? ==> j == Raised(p.exception) && unchanged(ledger))
      && (p.Process? && p.returnCode != 0 ==> j == Returned(Judgement("ERROR", p.stderr, 0, "")) && unchanged(ledger))
      && (p.Process? && p.returnCode == 0 ==>
            var o := decode(Strip(p.stdout));
            && (o.NotJson? ==> j == Returned(Judgement("ERROR", "JSON parse failed", 0, p.stdout)) && unchanged(ledger))
            && (o.Raises? ==> j == Raised(o.exception) && unchanged(ledger))
            && (o.Parsed? ==>
                  && j == Returned(Judgement(Verdict(o.reply.result), Reason(o.reply.result), o.reply.costMicros, o.reply.result))
                  && ledger.tests == old(ledger.tests)[JudgeKey(testId) := o.reply.costMicros]
                  && ledger.Valid()))
  {
    var prompt := JudgePrompt(question, context);
    var p := run(Command(prompt, Some("haiku")));
    if p.TimedOut? {
      return Raised(TimeoutException);
    }
    if p.NotStarted? {
      return Raised(p.exception);
    }
    if p.returnCode != 0 {
      return Returned(Judgement("ERROR", p.stderr, 0, ""));
    }
    match decode(Strip(p.stdout))
    case NotJson =>
      return Returned(Judgement("ERROR", "JSON parse failed", 0, p.stdout));
    case Raises(e) =>
      return Raised(e);
    case Parsed(d) =>
      var verdict := Verdict(d.result);
      var reason := Reason(d.result);
      ledger.Record(JudgeKey(testId), d.costMicros);
      j := Returned(Judgement(verdict, reason, d.costMicros, d.result));
  }

  // ---------------------------------------------------------------------------
  // trace timestamps

  /** `_trace_timestamps`: the timestamp each test's trace file is named with. */
  class TraceClock {
    var stamps: map<string, string>

    constructor ()
      ensures stamps == map[]
    {
      stamps := map[];
    }

    /**
     * `_trace_ts`, with the formatted current time `now` as input: the
     * first call for a test stores `now`, every later call returns what was
     * stored. No other test's timestamp changes.
     */
    method Stamp(testId: string, now: string) returns (ts: string)
      modifies this
      ensures testId in old(stamps) ==> ts == old(stamps)[testId] && stamps == old(stamps)
      ensures testId !in old(stamps) ==> ts == now && stamps == old(stamps)[testId := now]
      ensures testId in stamps && stamps[testId] == ts
      ensures forall t :: t in old(stamps) ==> t in stamps && stamps[t] == old(stamps)[t]
    {
      if testId !in stamps {
        stamps := stamps[testId := now];
      }
      ts := stamps[testId];
    }
  }
}
