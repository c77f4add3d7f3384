/** The runtime that follows the WolfParser (`include/interpreter.h` and
    `src/interpreter.cpp` at the top of the repository): typed values
    decoded from a variable's type word and raw text, an environment of
    global variables, registered actions and an error flag, the
    interpreter's set-up from a parse record, the phase/step walk that
    stops at the first error, and the small JSON summary.  The console
    messages the walk prints are left out; exceptions become `Result`s. */
module WolfRuntime {
  import opened Chars
  import opened Results
  import opened NumText
  import opened WolfParser
  import opened Text

  /** `RuntimeValue`: a number (a C `int`), a text, a flag, or none. */
  datatype Value = Number(n: int) | Text(s: string) | Flag(b: bool) | NoValue

  // --------------------------------------------------------------- fromString

  /** `fromString` trims plain spaces only. */
  const Blank: set<char> := {' '}

  /** `fromString`: `num` reads the trimmed text with `atoi`, `str` keeps
      it, `bool` is true exactly when it reads `true` in any case, and any
      other type word gives no value. */
  function FromString(ty: string, raw: string): (r: Value)
    ensures ty == "num" <==> r.Number?
    ensures ty == "str" <==> r.Text?
    ensures ty == "bool" <==> r.Flag?
    ensures r.Text? ==> r.s == Trim(raw, Blank)
    ensures r.Flag? ==> (r.b <==> LowerAll(Trim(raw, Blank)) == "true")
  {
    var t := Trim(raw, Blank);
    if ty == "num" then Number(Atoi(t))
    else if ty == "str" then Text(t)
    else if ty == "bool" then Flag(LowerAll(t) == "true")
    else NoValue
  }

  /** A number written in decimal, with spaces around it, decodes to
      itself. */
  lemma NumberRoundTrip(i: int, before: nat, after: nat)
    ensures FromString("num", Spaces(before) + IntText(i) + Spaces(after)) == Number(i)
  {
    var w := IntText(i);
    var s := Spaces(before) + w + Spaces(after);
    assert s[before..before + |w|] == w;
    IntTextEnds(i);
    TrimAround(Spaces(before), w, Spaces(after), Blank);
    IntTextRoundTrip(i);
  }

  function Spaces(n: nat): (r: string)
    ensures |r| == n && forall k :: 0 <= k < n ==> r[k] == ' '
  {
    if n == 0 then "" else " " + Spaces(n - 1)
  }

  /** Decimal text starts with `-` or a digit and ends with a digit. */
  lemma IntTextEnds(i: int)
    ensures |IntText(i)| > 0 && IntText(i)[0] != ' ' && IntText(i)[|IntText(i)| - 1] != ' '
  {
    var n: nat := if i < 0 then -i else i;
    NatTextDigits(n);
    if i < 0 {
      assert IntText(i) == "-" + NatText(n);
    }
  }

  lemma NatTextDigits(n: nat)
    ensures |NatText(n)| > 0 && IsDigit(NatText(n)[0]) && IsDigit(NatText(n)[|NatText(n)| - 1])
  {
    NatTextValue(n);
  }

  // -------------------------------------------------------------- Environment

  /** `RuntimeEnv`. */
  datatype Env = Env(
    vars: map<string, Value>,
    actions: map<string, ActionDef>,
    gameName: string,
    roles: seq<string>,
    hasError: bool,
    errorMsg: string)

  /** The runtime's messages: "undefined variable:", "undefined action:",
      "step [", "] failed: ", "parse error:". */
  const UndefinedVariable: string := "\U{672A}\U{5B9A}\U{4E49}\U{7684}\U{53D8}\U{91CF}:"
  const UndefinedAction: string := "\U{672A}\U{5B9A}\U{4E49}\U{7684}\U{52A8}\U{4F5C}:"
  const StepOpen: string := "\U{6B65}\U{9AA4} ["
  const StepFailed: string := "] \U{6267}\U{884C}\U{5931}\U{8D25}\U{FF1A}"
  const ParseErrorPrefix: string := "\U{89E3}\U{6790}\U{9519}\U{8BEF}:"

  /** `set_var`: the name is bound to the value, whatever it held. */
  function SetVar(env: Env, name: string, v: Value): (r: Env)
    ensures r.(vars := env.vars) == env
  {
    env.(vars := env.vars[name := v])
  }

  /** `get_var`: the stored value, or the undefined-variable error. */
  function GetVar(env: Env, name: string): (r: Result<Value>)
    ensures r.Ok? <==> name in env.vars
    ensures r.Ok? ==> r.value == env.vars[name]
    ensures r.Err? ==> r.msg == UndefinedVariable + name
  {
    if name in env.vars then Ok(env.vars[name]) else Err(UndefinedVariable + name)
  }

  /** Reading back a variable just set gives the new value; every other
      name reads as before. */
  lemma SetThenGet(env: Env, name: string, v: Value, other: string)
    ensures GetVar(SetVar(env, name, v), name) == Ok(v)
    ensures other != name ==> GetVar(SetVar(env, name, v), other) == GetVar(env, other)
  {
  }

  /** `register_action`: keyed by name, replacing an earlier action. */
  function RegisterAction(env: Env, a: ActionDef): (r: Env)
    ensures r.(actions := env.actions) == env
  {
    env.(actions := env.actions[a.name := a])
  }

  /** `get_action`: the action, or the undefined-action error. */
  function GetAction(env: Env, name: string): (r: Result<ActionDef>)
    ensures r.Ok? <==> name in env.actions
    ensures r.Ok? ==> r.value == env.actions[name]
    ensures r.Err? ==> r.msg == UndefinedAction + name
  {
    if name in env.actions then Ok(env.actions[name]) else Err(UndefinedAction + name)
  }

  /** `set_error`. */
  function SetError(env: Env, msg: string): (r: Env)
    ensures r.hasError && r.errorMsg == msg
    ensures r.(hasError := env.hasError, errorMsg := env.errorMsg) == env
  {
    env.(hasError := true, errorMsg := msg)
  }

  /** The constructor's loop over the actions, in order. */
  function RegisterAll(env: Env, acts: seq<ActionDef>): (r: Env)
    ensures r.(actions := env.actions) == env
    ensures forall n :: n in r.actions <==> n in env.actions || exists i :: 0 <= i < |acts| && acts[i].name == n
    decreases |acts|
  {
    if |acts| == 0 then env
    else
      var r := RegisterAll(RegisterAction(env, acts[0]), acts[1..]);
      assert forall i :: 0 <= i < |acts| - 1 ==> acts[1..][i] == acts[i + 1];
      r
  }

  /** The last action registered under a name is the one kept. */
  lemma {:induction false} LastRegistrationWins(env: Env, acts: seq<ActionDef>, i: nat)
    requires i < |acts|
    requires forall j :: i < j < |acts| ==> acts[j].name != acts[i].name
    ensures acts[i].name in RegisterAll(env, acts).actions
    ensures RegisterAll(env, acts).actions[acts[i].name] == acts[i]
    decreases |acts|
  {
    var e1 := RegisterAction(env, acts[0]);
    if i == 0 {
      NotRegisteredKeeps(e1, acts[1..], acts[0].name);
    } else {
      LastRegistrationWins(e1, acts[1..], i - 1);
    }
  }

  /** Registering actions of other names keeps an entry. */
  lemma {:induction false} NotRegisteredKeeps(env: Env, acts: seq<ActionDef>, n: string)
    requires n in env.actions
    requires forall j :: 0 <= j < |acts| ==> acts[j].name != n
    ensures n in RegisterAll(env, acts).actions && RegisterAll(env, acts).actions[n] == env.actions[n]
    decreases |acts|
  {
    if |acts| > 0 {
      NotRegisteredKeeps(RegisterAction(env, acts[0]), acts[1..], n);
    }
  }

  /** `WolfDSLInterpreter`: the parse record and the environment. */
  datatype Interpreter = Interpreter(parsed: ParseResult, env: Env)

  /** The constructor: game name and roles copied, actions registered,
      every variable decoded from its type word and text, and a parse
      error turned into the environment's error. */
  function Init(pr: ParseResult): (r: Interpreter)
    ensures r.parsed == pr
    ensures r.env.gameName == pr.gameName && r.env.roles == pr.roles
    ensures r.env.vars.Keys == pr.variables.Keys
    ensures forall n :: n in pr.variables ==>
      r.env.vars[n] == FromString(pr.variables[n].typeKeyword, pr.variables[n].value)
    ensures r.env.hasError <==> pr.hasError
    ensures pr.hasError ==> r.env.errorMsg == ParseErrorPrefix + pr.errorMessage
  {
    var e0 := Env(map[], map[], pr.gameName, pr.roles, false, "");
    var e1 := RegisterAll(e0, pr.actions);
    var vs := map n | n in pr.variables :: FromString(pr.variables[n].typeKeyword, pr.variables[n].value);
    var e2 := e1.(vars := vs);
    Interpreter(pr, if pr.hasError then SetError(e2, ParseErrorPrefix + pr.errorMessage) else e2)
  }

  // --------------------------------------------------------------------- Run

  /** A step that names an action nobody registered. */
  predicate Unresolved(env: Env, step: StepDef) {
    step.actionName != "" && step.actionName !in env.actions
  }

  /** The message a failing step leaves. */
  function StepError(step: StepDef): string {
    StepOpen + step.name + StepFailed + UndefinedAction + step.actionName
  }

  /** `execute_step`: nothing after an error; otherwise an unresolved
      action sets the error, and everything else only prints. */
  function ExecuteStep(env: Env, step: StepDef): (r: Env)
    ensures env.hasError ==> r == env
    ensures !env.hasError && Unresolved(env, step) ==> r == SetError(env, StepError(step))
    ensures !Unresolved(env, step) ==> r == env
  {
    if env.hasError then env
    else if step.actionName != "" then
      match GetAction(env, step.actionName)
      case Ok(_) => env
      case Err(m) => SetError(env, StepOpen + step.name + StepFailed + m)
    else env
  }

  /** `execute_phase`'s loop: the steps in order, stopping at an error. */
  function ExecuteSteps(env: Env, steps: seq<StepDef>): (r: Env)
    ensures r.actions == env.actions
    decreases |steps|
  {
    if env.hasError || |steps| == 0 then env
    else ExecuteSteps(ExecuteStep(env, steps[0]), steps[1..])
  }

  /** The first unresolved step, if any. */
  function FirstUnresolved(env: Env, steps: seq<StepDef>): (r: Option<nat>)
    ensures r.Some? ==> r.value < |steps| && Unresolved(env, steps[r.value])
    ensures r.Some? ==> forall j :: 0 <= j < r.value ==> !Unresolved(env, steps[j])
    ensures r.None? ==> forall j :: 0 <= j < |steps| ==> !Unresolved(env, steps[j])
    decreases |steps|
  {
    if |steps| == 0 then None
    else if Unresolved(env, steps[0]) then Some(0)
    else
      match FirstUnresolved(env, steps[1..])
      case None => None
      case Some(k) => Some(k + 1)
  }

  /** The walk over steps leaves the environment alone unless a step names
      an unknown action, and then records the first such step's error. */
  lemma {:induction false} StepsReportFirstFailure(env: Env, steps: seq<StepDef>)
    requires !env.hasError
    ensures FirstUnresolved(env, steps).None? ==> ExecuteSteps(env, steps) == env
    ensures FirstUnresolved(env, steps).Some? ==>
      ExecuteSteps(env, steps) == SetError(env, StepError(steps[FirstUnresolved(env, steps).value]))
    decreases |steps|
  {
    if |steps| > 0 {
      if !Unresolved(env, steps[0]) {
        StepsReportFirstFailure(env, steps[1..]);
      }
    }
  }

  /** `execute_phase`: nothing after an error, otherwise its steps. */
  function ExecutePhase(env: Env, phase: PhaseDef): (r: Env)
    ensures env.hasError ==> r == env
    ensures r.actions == env.actions
  {
    if env.hasError then env else ExecuteSteps(env, phase.steps)
  }

  /** The steps of all phases, in order. */
  function AllSteps(phases: seq<PhaseDef>): seq<StepDef> {
    if |phases| == 0 then [] else phases[0].steps + AllSteps(phases[1..])
  }

  /** `run`'s loop over phases, stopping at an error. */
  function ExecutePhases(env: Env, phases: seq<PhaseDef>): (r: Env)
    decreases |phases|
  {
    if |phases| == 0 then env
    else
      var e := ExecutePhase(env, phases[0]);
      if e.hasError then e else ExecutePhases(e, phases[1..])
  }

  /** Running phase after phase is running their steps back to back. */
  lemma {:induction false} PhasesAreTheirSteps(env: Env, phases: seq<PhaseDef>)
    ensures ExecutePhases(env, phases) == ExecuteSteps(env, AllSteps(phases))
    decreases |phases|
  {
    if |phases| > 0 {
      var e := ExecutePhase(env, phases[0]);
      StepsAppend(env, phases[0].steps, AllSteps(phases[1..]));
      if !e.hasError {
        PhasesAreTheirSteps(e, phases[1..]);
      } else {
        assert ExecuteSteps(e, AllSteps(phases[1..])) == e;
      }
    }
  }

  lemma {:induction false} StepsAppend(env: Env, a: seq<StepDef>, b: seq<StepDef>)
    ensures ExecuteSteps(env, a + b) == ExecuteSteps(ExecuteSteps(env, a), b)
    decreases |a|
  {
    if |a| == 0 {
      assert a + b == b;
    } else if env.hasError {
      assert ExecuteSteps(env, b) == env;
    } else {
      assert (a + b)[1..] == a[1..] + b;
      StepsAppend(ExecuteStep(env, a[0]), a[1..], b);
    }
  }

  /** `run`: an environment already in error (a parse error, say) runs no
      phase at all. */
  function Run(it: Interpreter): (r: Interpreter)
    ensures it.env.hasError ==> r == it
    ensures r.parsed == it.parsed
  {
    if it.env.hasError then it else it.(env := ExecutePhases(it.env, it.parsed.phases))
  }

  /** A parse record with an error runs nothing: `run` after the
      constructor leaves the environment as the constructor made it. */
  lemma ParseErrorStopsRun(pr: ParseResult)
    requires pr.hasError
    ensures Run(Init(pr)) == Init(pr)
  {
  }

  /** With no parse error, the run's outcome is the first step, over all
      phases in order, that names an unknown action. */
  lemma RunReportsFirstFailure(pr: ParseResult)
    requires !pr.hasError
    ensures var env := Init(pr).env;
      var steps := AllSteps(pr.phases);
      var r := Run(Init(pr)).env;
      && (FirstUnresolved(env, steps).None? ==> r == env)
      && (FirstUnresolved(env, steps).Some? ==> r == SetError(env, StepError(steps[FirstUnresolved(env, steps).value])))
  {
    var env := Init(pr).env;
    PhasesAreTheirSteps(env, pr.phases);
    StepsReportFirstFailure(env, AllSteps(pr.phases));
  }

  // --------------------------------------------------------------------- JSON

  /** `escape_json`: a backslash before every `"` and `\`, nothing else. */
  function EscapeJson(s: string): (r: string)
    ensures |r| >= |s|
  {
    if |s| == 0 then ""
    else (if s[0] == '"' || s[0] == '\\' then ['\\', s[0]] else [s[0]]) + EscapeJson(s[1..])
  }

  /** The reading a JSON parser gives the two escapes `escape_json` makes. */
  function UnescapeJson(s: string): string
    decreases |s|
  {
    if |s| == 0 then ""
    else if |s| >= 2 && s[0] == '\\' && (s[1] == '"' || s[1] == '\\') then [s[1]] + UnescapeJson(s[2..])
    else [s[0]] + UnescapeJson(s[1..])
  }

  /** Round trip: unescaping undoes `escape_json`. */
  lemma {:induction false} EscapeJsonRoundTrip(s: string)
    ensures UnescapeJson(EscapeJson(s)) == s
    decreases |s|
  {
    if |s| > 0 {
      EscapeJsonRoundTrip(s[1..]);
      var e := EscapeJson(s);
      if s[0] == '"' || s[0] == '\\' {
        assert e == ['\\', s[0]] + EscapeJson(s[1..]);
        assert e[2..] == EscapeJson(s[1..]);
      } else {
        assert e == [s[0]] + EscapeJson(s[1..]);
        assert e[1..] == EscapeJson(s[1..]);
      }
      assert s == [s[0]] + s[1..];
    }
  }

  /** Text with no `"` and no `\` is not changed. */
  lemma {:induction false} EscapeJsonKeepsPlain(s: string)
    requires forall k :: 0 <= k < |s| ==> s[k] != '"' && s[k] != '\\'
    ensures EscapeJson(s) == s
    decreases |s|
  {
    if |s| > 0 {
      EscapeJsonKeepsPlain(s[1..]);
      assert s == [s[0]] + s[1..];
    }
  }

  /** `export_ast_to_json`: the summary object.  The `error_msg` field is
      the last one exactly when the environment has an error; otherwise the
      object closes right after `"has_error":false`. */
  function ExportJson(it: Interpreter): (r: string)
    ensures it.env.hasError ==>
      var tail := ",\"error_msg\":\"" + EscapeJson(it.env.errorMsg) + "\"}";
      |r| >= |tail| && r[|r| - |tail|..] == tail
    ensures !it.env.hasError ==> |r| >= 18 && r[|r| - 18..] == "\"has_error\":false}"
  {
    var env := it.env;
    var head := "{" + "\"game_name\":\"" + EscapeJson(env.gameName) + "\","
      + "\"roles_count\":" + NatText(|env.roles|) + ","
      + "\"actions_count\":" + NatText(|env.actions.Keys|) + ","
      + "\"phases_count\":" + NatText(|it.parsed.phases|) + ",";
    var flag := "\"has_error\":" + (if env.hasError then "true" else "false");
    var tail := if env.hasError then ",\"error_msg\":\"" + EscapeJson(env.errorMsg) + "\"" else "";
    var r := head + flag + tail + "}";
    assert r == (head + flag) + (tail + "}");
    r
  }
}
