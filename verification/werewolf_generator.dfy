/** The data-driven parts of the werewolf generator
    (`LuduScript/LuduScript-main/src/werewolf_generator.cpp`): the `Role`
    enum, one action class per action, the role table in `__init__`, the
    phase and step construction in `_init_phases`, and the default
    `check_game_over`.  Output is a list of `Line`s; a blank line is an
    empty line at level 0. */
module WerewolfGenerator {
  import opened Chars
  import opened Text
  import opened PyText
  import opened WolfParser
  import opened MainGenerator

  // ---------------------------------------------------------------- the enums

  /** An enum member line `NAME = "value"`. */
  function Member(name: string, value: string): Line {
    Line(1, name + " = \"" + value + "\"")
  }

  /** The member of a declared role: its name upper-cased, its own text
      as the value. */
  function RoleLine(role: string): Line {
    Member(UpperAll(role), role)
  }

  /** The roles written when the script declares none. */
  const DefaultRoles: seq<string> := ["werewolf", "villager", "seer", "witch", "hunter", "guard"]

  /** The members of `Role`: the six defaults without declared roles,
      otherwise one member per declared role in order. */
  function RoleMembers(roles: seq<string>): (r: seq<Line>)
    ensures |roles| == 0 ==> |r| == 6
    ensures |roles| > 0 ==> |r| == |roles| && forall i :: 0 <= i < |roles| ==> r[i] == RoleLine(roles[i])
  {
    if |roles| == 0 then
      [ Member("WEREWOLF", "werewolf"), Member("VILLAGER", "villager"),
        Member("SEER", "seer"), Member("WITCH", "witch"),
        Member("HUNTER", "hunter"), Member("GUARD", "guard") ]
    else seq(|roles|, i requires 0 <= i < |roles| => RoleLine(roles[i]))
  }

  /** The members are one level inside the class and open no block. */
  lemma MembersClose(roles: seq<string>)
    ensures var r := RoleMembers(roles);
            forall i :: 0 <= i < |r| ==> r[i].level == 1 && !Opens(r[i].text)
  {
    var r := RoleMembers(roles);
    forall i | 0 <= i < |r|
      ensures r[i].level == 1 && !Opens(r[i].text)
    {
      if |roles| == 0 {
        var names := ["WEREWOLF", "VILLAGER", "SEER", "WITCH", "HUNTER", "GUARD"];
        assert r[i] == Member(names[i], DefaultRoles[i]);
        MemberCloses(names[i], DefaultRoles[i]);
      } else {
        MemberCloses(UpperAll(roles[i]), roles[i]);
      }
    }
  }

  /** The fixed `DeathReason` enum and the blank lines around it. */
  const DeathReasons: seq<Line> := [
    Line(0, ""), Line(0, ""),
    Line(0, "class DeathReason(Enum):"),
    Member("KILLED_BY_WEREWOLF", "\U{5728}\U{591C}\U{665A}\U{88AB}\U{6740}\U{5BB3}"),
    Member("POISONED_BY_WITCH", "\U{88AB}\U{5973}\U{5DEB}\U{6BD2}\U{6740}"),
    Member("VOTED_OUT", "\U{88AB}\U{6295}\U{7968}\U{51FA}\U{5C40}"),
    Member("SHOT_BY_HUNTER", "\U{88AB}\U{730E}\U{4EBA}\U{5E26}\U{8D70}"),
    Line(0, "")
  ]

  /** An enum member line never opens a block. */
  lemma MemberCloses(name: string, value: string)
    ensures !Opens(Member(name, value).text)
  {
    var t := Member(name, value).text;
    assert t[|t| - 1] == '"';
  }

  /** `generateEnums`: both enum classes have a body, every declared role
      has its member (every default role when none is declared), and the
      `DeathReason` block closes the output. */
  function GenerateEnums(roles: seq<string>): (r: seq<Line>)
    ensures |r| == 2 + |RoleMembers(roles)| + |DeathReasons|
    ensures r[..2] == [Line(0, "# models.py"), Line(0, "class Role(Enum):")]
    ensures r[2..|r| - |DeathReasons|] == RoleMembers(roles)
    ensures r[|r| - |DeathReasons|..] == DeathReasons
    ensures BlocksHaveBodies(r)
    ensures forall role :: role in roles ==> RoleLine(role) in r
    ensures |roles| == 0 ==> forall role :: role in DefaultRoles ==> RoleLine(role) in r
  {
    var members := RoleMembers(roles);
    var r := [Line(0, "# models.py"), Line(0, "class Role(Enum):")] + members + DeathReasons;
    MembersClose(roles);
    EnumBodies(members, r);
    RolesHaveMembers(roles, r);
    r
  }

  /** Every declared role, or every default role when none is declared,
      has its member among the enum lines. */
  lemma RolesHaveMembers(roles: seq<string>, r: seq<Line>)
    requires r == [Line(0, "# models.py"), Line(0, "class Role(Enum):")] + RoleMembers(roles) + DeathReasons
    ensures forall role :: role in roles ==> RoleLine(role) in r
    ensures |roles| == 0 ==> forall role :: role in DefaultRoles ==> RoleLine(role) in r
  {
    var named := if |roles| == 0 then DefaultRoles else roles;
    if |roles| == 0 {
      DefaultsAreDeclaredRoles();
    }
    assert RoleMembers(roles) == RoleMembers(named);
    forall role | role in named
      ensures RoleLine(role) in r
    {
      var i :| 0 <= i < |named| && named[i] == role;
      assert r[2 + i] == RoleMembers(named)[i];
    }
  }

  /** The lines of `GenerateEnums` open exactly two blocks, each followed
      by a member. */
  lemma EnumBodies(members: seq<Line>, r: seq<Line>)
    requires |members| > 0 && forall i :: 0 <= i < |members| ==> members[i].level == 1 && !Opens(members[i].text)
    requires r == [Line(0, "# models.py"), Line(0, "class Role(Enum):")] + members + DeathReasons
    ensures BlocksHaveBodies(r)
  {
    MemberCloses("KILLED_BY_WEREWOLF", "\U{5728}\U{591C}\U{665A}\U{88AB}\U{6740}\U{5BB3}");
    MemberCloses("POISONED_BY_WITCH", "\U{88AB}\U{5973}\U{5DEB}\U{6BD2}\U{6740}");
    MemberCloses("VOTED_OUT", "\U{88AB}\U{6295}\U{7968}\U{51FA}\U{5C40}");
    MemberCloses("SHOT_BY_HUNTER", "\U{88AB}\U{730E}\U{4EBA}\U{5E26}\U{8D70}");
    var n := |members|;
    forall k | 0 <= k < |r|
      ensures Opens(r[k].text) ==> k + 1 < |r| && r[k + 1].level > r[k].level
    {
      if 2 <= k < 2 + n {
        assert r[k] == members[k - 2];
      } else if k == 1 {
        assert r[2] == members[0];
      } else if k >= 2 + n {
        assert r[k] == DeathReasons[k - 2 - n];
        if k - 2 - n == 2 {
          assert r[k + 1] == DeathReasons[3];
        }
      }
    }
  }

  /** The fallback members are exactly the members the six default roles
      would get if the script declared them. */
  lemma DefaultsAreDeclaredRoles()
    ensures RoleMembers([]) == RoleMembers(DefaultRoles)
  {
    var d := RoleMembers(DefaultRoles);
    var e := RoleMembers([]);
    forall i | 0 <= i < 6
      ensures d[i] == e[i]
    {
      DefaultMember(i);
    }
  }

  /** The `i`-th fallback line is the line of the `i`-th default role. */
  lemma DefaultMember(i: nat)
    requires i < 6
    ensures RoleMembers(DefaultRoles)[i] == RoleMembers([])[i]
  {
    if i == 0 {
      UpperLetters("werewolf", "WEREWOLF");
    } else if i == 1 {
      UpperLetters("villager", "VILLAGER");
    } else if i == 2 {
      UpperLetters("seer", "SEER");
    } else if i == 3 {
      UpperLetters("witch", "WITCH");
    } else if i == 4 {
      UpperLetters("hunter", "HUNTER");
    } else {
      UpperLetters("guard", "GUARD");
    }
  }

  /** Upper-casing a lower-case word moves each letter by 32. */
  lemma UpperLetters(low: string, up: string)
    requires |low| == |up|
    requires forall k :: 0 <= k < |low| ==> IsLower(low[k]) && up[k] as int == low[k] as int - 32
    ensures UpperAll(low) == up
  {
  }

  /** Every member of a declared role is named by the role upper-cased and
      holds the role's own text. */
  lemma DeclaredMembers(roles: seq<string>, i: nat)
    requires i < |roles|
    ensures var t := RoleMembers(roles)[i].text;
      t[..|roles[i]|] == UpperAll(roles[i]) && t[|t| - |roles[i]| - 1..|t| - 1] == roles[i]
  {
  }

  // ------------------------------------------------------------ action classes

  /** The banner before the action classes. */
  const ActionsBanner: seq<Line> := [
    Line(0, "# -----------------------------------------------------------------------------"),
    Line(0, "# Generated Actions from DSL"),
    Line(0, "# -----------------------------------------------------------------------------"),
    Line(0, "")
  ]

  /** One action's class: its name from `mapActionToClassName`, a
      `description` returning the action's name, and an `execute` whose
      body is the translated body lines at level 2 (the `game.` prefix is
      part of `build`). */
  function ActionClass(a: ActionDef, build: Builder): (r: seq<Line>)
    ensures |r| == 8 + |TranslateBody(a.bodyLines, 2, build)|
    ensures r[0] == Line(0, "class " + MapActionToClassName(a.name) + "(GameAction):")
    ensures r[2] == Line(2, "return \"" + a.name + "\"")
    ensures r[6..|r| - 2] == TranslateBody(a.bodyLines, 2, build)
    ensures r[|r| - 2..] == [Line(0, ""), Line(0, "")]
    ensures BlocksHaveBodies(r)
    ensures r[1].level == 1 && r[4].level == 1
  {
    var head := [ Line(0, "class " + MapActionToClassName(a.name) + "(GameAction):"),
                  Line(1, "def description(self) -> str:"),
                  Line(2, "return \"" + a.name + "\""),
                  Line(0, ""),
                  Line(1, "def execute(self, context: ActionContext) -> Any:"),
                  Line(2, "game = context.game") ];
    var body := TranslateBody(a.bodyLines, 2, build);
    var tail := [Line(0, ""), Line(0, "")];
    ClassHeadBodies(head, a.name, MapActionToClassName(a.name));
    assert BlocksHaveBodies(tail);
    BodiesJoin(head, body);
    BodiesJoin(head + body, tail);
    head + body + tail
  }

  /** The fixed lines of an action class open three blocks, each followed
      by a deeper line. */
  lemma ClassHeadBodies(head: seq<Line>, name: string, className: string)
    requires head == [ Line(0, "class " + className + "(GameAction):"),
                       Line(1, "def description(self) -> str:"),
                       Line(2, "return \"" + name + "\""),
                       Line(0, ""),
                       Line(1, "def execute(self, context: ActionContext) -> Any:"),
                       Line(2, "game = context.game") ]
    ensures BlocksHaveBodies(head)
  {
    var t := head[2].text;
    assert t[|t| - 1] == '"';
    assert !Opens(head[5].text);
  }

  /** The classes of the actions, in order. */
  function ActionClasses(actions: seq<ActionDef>, build: Builder): seq<Line> {
    if |actions| == 0 then [] else ActionClass(actions[0], build) + ActionClasses(actions[1..], build)
  }

  /** `generateActionClasses`. */
  function GenerateActionClasses(actions: seq<ActionDef>, build: Builder): (r: seq<Line>)
    ensures |r| >= |ActionsBanner|
    ensures r[..|ActionsBanner|] == ActionsBanner
    ensures |actions| == 0 ==> r == ActionsBanner
  {
    ActionsBanner + ActionClasses(actions, build)
  }

  /** The classes of two action lists are the classes of each, in order:
      every action gets its own class and nothing else is written. */
  lemma {:induction false} ActionClassesAppend(a: seq<ActionDef>, b: seq<ActionDef>, build: Builder)
    ensures ActionClasses(a + b, build) == ActionClasses(a, build) + ActionClasses(b, build)
    decreases |a|
  {
    if |a| == 0 {
      assert a + b == b;
    } else {
      assert (a + b)[0] == a[0] && (a + b)[1..] == a[1..] + b;
      ActionClassesAppend(a[1..], b, build);
    }
  }

  /** A class name always ends up carrying `Action` and no underscore. */
  lemma ClassLineNamed(a: ActionDef, build: Builder)
    ensures var n := MapActionToClassName(a.name);
      ActionClass(a, build)[0].text == "class " + n + "(GameAction):" && Contains(n, "Action")
  {
  }

  // -------------------------------------------------------------------- init

  /** The base `generateInit`: the `__init__` header, the call to the base
      class with the game's name, one attribute per variable with its
      value as a Python literal, and a blank line.  The variables come in
      the order of the map they are kept in. */
  function BaseInit(gameName: string, vars: seq<(string, string)>): (r: seq<Line>)
    ensures |r| == |vars| + 3
    ensures r[..2] == InitHeader(gameName)
    ensures forall i :: 0 <= i < |vars| ==> r[2 + i] == VariableLine(vars[i].0, vars[i].1)
    ensures r[|r| - 1] == Line(0, "")
    ensures r[0].level == 1 && Opens(r[0].text)
    ensures forall i :: 1 <= i < |r| - 1 ==> r[i].level == 2
    ensures forall v :: v in vars ==> VariableLine(v.0, v.1) in r
  {
    VariablesWritten(gameName, vars);
    InitHeader(gameName)
    + seq(|vars|, i requires 0 <= i < |vars| => VariableLine(vars[i].0, vars[i].1))
    + [Line(0, "")]
  }

  /** Each variable's attribute line is among the base `__init__` lines. */
  lemma VariablesWritten(gameName: string, vars: seq<(string, string)>)
    ensures var r := InitHeader(gameName)
                     + seq(|vars|, i requires 0 <= i < |vars| => VariableLine(vars[i].0, vars[i].1))
                     + [Line(0, "")];
            forall v :: v in vars ==> VariableLine(v.0, v.1) in r
  {
    var r := InitHeader(gameName)
             + seq(|vars|, i requires 0 <= i < |vars| => VariableLine(vars[i].0, vars[i].1))
             + [Line(0, "")];
    forall v | v in vars
      ensures VariableLine(v.0, v.1) in r
    {
      var i :| 0 <= i < |vars| && vars[i] == v;
      assert r[2 + i] == VariableLine(v.0, v.1);
    }
  }

  /** The signature of `__init__` and the call of the base constructor
      with the game's name. */
  function InitHeader(gameName: string): (r: seq<Line>)
    ensures |r| == 2 && r[0].level == 1 && r[1].level == 2
    ensures Opens(r[0].text)
  {
    [ Line(1, "def __init__(self, players_data: List[Dict[str, str]], event_emitter=None, input_handler=None):"),
      Line(2, "super().__init__(\"" + gameName + "\", players_data, event_emitter, input_handler)") ]
  }

  /** `self.name = <literal>` for one game variable. */
  function VariableLine(name: string, value: string): Line {
    Line(2, "self." + name + " = " + ToPythonLiteral(value))
  }

  /** `self.roles["r"] = 0`. */
  function RoleCount(role: string): Line {
    Line(2, "self.roles[\"" + role + "\"] = 0")
  }

  /** `generateInit`: the base lines, an empty role table, one zero count
      per declared role in order, then the players. */
  function GenerateInit(baseInit: seq<Line>, roles: seq<string>): (r: seq<Line>)
    ensures |r| == |baseInit| + |roles| + 2
    ensures r[..|baseInit|] == baseInit
    ensures r[|baseInit|] == Line(2, "self.roles = {}")
    ensures forall i :: 0 <= i < |roles| ==> r[|baseInit| + 1 + i] == RoleCount(roles[i])
    ensures r[|r| - 1] == Line(2, "self._init_players(players_data)")
    ensures forall i :: |baseInit| <= i < |r| ==> r[i].level == 2
    ensures forall role :: role in roles ==> RoleCount(role) in r[|baseInit| + 1..]
  {
    var counts := seq(|roles|, i requires 0 <= i < |roles| => RoleCount(roles[i]));
    var r := baseInit + [Line(2, "self.roles = {}")] + counts + [Line(2, "self._init_players(players_data)")];
    assert r[|baseInit| + 1..] == counts + [Line(2, "self._init_players(players_data)")];
    assert forall role :: role in roles ==> RoleCount(role) in counts by {
      forall role | role in roles
        ensures RoleCount(role) in counts
      {
        var i :| 0 <= i < |roles| && roles[i] == role;
        assert counts[i] == RoleCount(role);
      }
    }
    r
  }

  // ------------------------------------------------------------- init phases

  /** How a role appears in a step's role list. */
  function RoleText(role: string): string {
    if role == "all" then "\"all\"" else "Role(\"" + role + "\")"
  }

  /** The loop that writes a role list from position `i`: each role's text,
      with `", "` after every role but the last. */
  function RolesFrom(roles: seq<string>, i: nat): string
    requires i <= |roles|
    decreases |roles| - i
  {
    if i == |roles| then ""
    else RoleText(roles[i]) + (if i < |roles| - 1 then ", " else "") + RolesFrom(roles, i + 1)
  }

  /** A step's `roles_involved` list. */
  function RolesList(roles: seq<string>): string {
    if |roles| == 0 then "[]" else "[" + RolesFrom(roles, 0) + "]"
  }

  function RoleTexts(roles: seq<string>): (r: seq<string>)
    ensures |r| == |roles| && forall i :: 0 <= i < |roles| ==> r[i] == RoleText(roles[i])
  {
    seq(|roles|, i requires 0 <= i < |roles| => RoleText(roles[i]))
  }

  /** Reference definition: the list is the role texts joined with
      `", "` in brackets, the empty list included. */
  lemma RolesListJoin(roles: seq<string>)
    ensures RolesList(roles) == "[" + CommaJoin(RoleTexts(roles)) + "]"
  {
    if |roles| > 0 {
      RolesFromJoin(roles, 0);
    }
  }

  lemma {:induction false} RolesFromJoin(roles: seq<string>, i: nat)
    requires i <= |roles|
    ensures RolesFrom(roles, i) == CommaJoin(RoleTexts(roles[i..]))
    decreases |roles| - i
  {
    if i < |roles| {
      RolesFromJoin(roles, i + 1);
      var ts := RoleTexts(roles[i..]);
      assert roles[i..][1..] == roles[i + 1..];
      assert ts[1..] == RoleTexts(roles[i + 1..]);
      if i == |roles| - 1 {
        assert RolesFrom(roles, i + 1) == "";
        assert |ts| == 1;
      }
    }
  }

  /** The four lines that add one step to a phase. */
  function StepLines(phaseVar: string, s: StepDef): (r: seq<Line>)
    ensures |r| == 4
    ensures forall j :: 0 <= j < 4 ==> r[j].level >= 2
  {
    [ Line(2, phaseVar + ".add_step(GameStep("),
      Line(3, "name=\"" + s.name + "\","),
      Line(3, "roles_involved=" + RolesList(s.roles) + ","),
      Line(3, "action=" + MapActionToClassName(s.actionName) + "()))") ]
  }

  function StepsLines(phaseVar: string, steps: seq<StepDef>): (r: seq<Line>)
    ensures |r| == 4 * |steps|
    ensures forall i :: 0 <= i < |steps| ==> r[4 * i..4 * i + 4] == StepLines(phaseVar, steps[i])
    ensures forall j :: 0 <= j < |r| ==> r[j].level >= 2
  {
    if |steps| == 0 then []
    else
      var rest := StepsLines(phaseVar, steps[1..]);
      var r := StepLines(phaseVar, steps[0]) + rest;
      assert forall i :: 1 <= i < |steps| ==> r[4 * i..4 * i + 4] == rest[4 * (i - 1)..4 * (i - 1) + 4];
      r
  }

  /** One phase: a lower-cased variable for it, its steps, and its entry
      in `self.phases`. */
  function PhaseLines(p: PhaseDef): (r: seq<Line>)
    ensures |r| == 4 * |p.steps| + 3
    ensures r[0] == Line(2, LowerAll(p.name) + " = GamePhase(\"" + p.name + "\")")
    ensures r[|r| - 2] == Line(2, "self.phases.append(" + LowerAll(p.name) + ")")
    ensures r[1..|r| - 2] == StepsLines(LowerAll(p.name), p.steps)
    ensures forall j :: 0 <= j < |r| - 1 ==> r[j].level >= 2
    ensures r[|r| - 1] == Line(0, "")
  {
    var v := LowerAll(p.name);
    var steps := StepsLines(v, p.steps);
    var r := [Line(2, v + " = GamePhase(\"" + p.name + "\")")] + steps
             + [Line(2, "self.phases.append(" + v + ")"), Line(0, "")];
    assert r[1..|r| - 2] == steps;
    assert forall j :: 1 <= j < |r| - 2 ==> r[j] == steps[j - 1];
    r
  }

  function PhasesLines(phases: seq<PhaseDef>): seq<Line> {
    if |phases| == 0 then [] else PhaseLines(phases[0]) + PhasesLines(phases[1..])
  }

  /** `generateInitPhases` as written: the header, then every phase.
      Nothing is written under the header when there are no phases. */
  function GenerateInitPhasesAsWritten(phases: seq<PhaseDef>): (r: seq<Line>)
    ensures |r| > 0
    ensures r[0] == Line(1, "def _init_phases(self):")
    ensures |phases| > 0 ==> |r| > 1 && r[1] == PhaseLines(phases[0])[0]
  {
    [Line(1, "def _init_phases(self):")] + PhasesLines(phases)
  }

  /** With no phases the method is a header without a body: the line that
      follows it in the class is the next method at the same level, which
      Python rejects. */
  lemma EmptyPhasesHaveNoBody()
    ensures GenerateInitPhasesAsWritten([]) == [Line(1, "def _init_phases(self):")]
  {
  }

  /** `generateInitPhases` with the `pass` the base generator writes for
      no phases. */
  function GenerateInitPhases(phases: seq<PhaseDef>): (r: seq<Line>)
    ensures |r| > 0
    ensures r[0] == Line(1, "def _init_phases(self):")
    ensures |r| > 1 && r[1].level == 2
    ensures |phases| > 0 ==> r == GenerateInitPhasesAsWritten(phases)
  {
    if |phases| == 0 then [Line(1, "def _init_phases(self):"), Line(2, "pass")]
    else GenerateInitPhasesAsWritten(phases)
  }

  /** Every phase with `n` steps gives `4 n + 3` lines. */
  lemma {:induction false} PhasesLinesLength(phases: seq<PhaseDef>)
    ensures |PhasesLines(phases)| == 3 * |phases| + 4 * StepCount(phases)
    decreases |phases|
  {
    if |phases| > 0 {
      PhasesLinesLength(phases[1..]);
    }
  }

  function StepCount(phases: seq<PhaseDef>): nat {
    if |phases| == 0 then 0 else |phases[0].steps| + StepCount(phases[1..])
  }

  // --------------------------------------------------------- check_game_over

  /** The loop looking for a method named `check_game_over`. */
  function DefinesCheck(methods: seq<MethodDef>, i: nat): (found: bool)
    requires i <= |methods|
    ensures found <==> exists j :: i <= j < |methods| && methods[j].name == "check_game_over"
    decreases |methods| - i
  {
    if i == |methods| then false
    else if methods[i].name == "check_game_over" then true
    else DefinesCheck(methods, i + 1)
  }

  /** `generateCheckGameOver`: nothing when the script defines the method
      (it is generated with the script's methods), otherwise a default
      returning `self.game_over`. */
  function GenerateCheckGameOver(methods: seq<MethodDef>): (r: seq<Line>)
    ensures |r| == 0 <==> exists j :: 0 <= j < |methods| && methods[j].name == "check_game_over"
    ensures |r| > 0 ==> r == [Line(1, "def check_game_over(self) -> bool:"), Line(2, "return self.game_over"), Line(0, "")]
  {
    if DefinesCheck(methods, 0) then []
    else [Line(1, "def check_game_over(self) -> bool:"), Line(2, "return self.game_over"), Line(0, "")]
  }
}
