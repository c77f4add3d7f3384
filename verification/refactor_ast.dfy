/** The syntax tree of the game-description front end (LuduScript-refactor).
    A game declaration gathers an optional config, roles, variables, an
    optional setup block, actions and phases; action and setup bodies are
    statement blocks over a small expression language.  Pointers that may
    be null in the source are `Option`s here; the visitor interface becomes
    one `match` case per constructor. */
module RefactorAst {
  import opened Results

  datatype Expression =
    | Literal(value: string, ty: string)
    | Variable(name: string)
    | Binary(left: Expression, op: string, right: Expression)
    | Unary(op: string, operand: Expression)
    | Call(callName: string, args: seq<Expression>)
    | List(elements: seq<Expression>)
    | Member(obj: Expression, member: string)
    | Index(obj: Expression, index: Expression)

  /** Statements.  An assignment's target is any expression, not just a
      name; an `if` has an optional else branch, which `else if` fills with
      a nested `If`; a `return` may have no value. */
  datatype Statement =
    | Block(stmts: seq<Statement>)
    | Let(name: string, initial: Option<Expression>)
    | Assign(target: Expression, value: Expression)
    | If(condition: Expression, thenBranch: Statement, elseBranch: Option<Statement>)
    | For(iterName: string, iterable: Expression, body: seq<Statement>)
    | Return(result: Option<Expression>)
    | ExprStmt(expr: Expression)

  datatype RoleDecl = RoleDecl(name: string, displayName: string)

  datatype VarDecl = VarDecl(name: string, ty: string, initial: Option<Expression>)

  datatype ActionDecl = ActionDecl(name: string, displayName: string, description: string,
                                   body: Option<seq<Statement>>)

  datatype StepDecl = StepDecl(name: string, roles: seq<string>, actionName: string)

  datatype PhaseDecl = PhaseDecl(name: string, displayName: string, steps: seq<StepDecl>)

  datatype ConfigDecl = ConfigDecl(minPlayers: int, maxPlayers: int)

  /** A config block before any key has been read: both player counts 0. */
  const DefaultConfig: ConfigDecl := ConfigDecl(0, 0)

  datatype GameDecl = GameDecl(
    name: string,
    config: Option<ConfigDecl>,
    roles: seq<RoleDecl>,
    vars: seq<VarDecl>,
    setup: Option<seq<Statement>>,
    actions: seq<ActionDecl>,
    phases: seq<PhaseDecl>)

  /** A game with only its name, as the constructor leaves it. */
  function EmptyGame(name: string): GameDecl {
    GameDecl(name, None, [], [], None, [], [])
  }
}
