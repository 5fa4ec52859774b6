/**
 * The command-line parser of simulation/waf-tools/shellcmd.py: one pass over the tokens with a six-valued
 * state. It accepts exactly the token lists of a small grammar, with the node list that the grammar assigns.
 */
module ShellParser {
  import opened Lists
  import opened Wrappers

  /** What `>` and `|` leave in the stdout attribute. */
  datatype Stdout = Terminal | IntoPipe | OutFile(name: string)

  /** What `2>` and `2>&1` leave in the stderr attribute. */
  datatype Stderr = Unset | WithStdout | ErrFile(name: string)

  /** The command name is argv[0]. No environment variables and an empty dictionary behave alike. */
  datatype Command = Command(
    argv: seq<string>, stdin: Option<string>, stdout: Stdout, stderr: Stderr, env: map<string, string>)

  datatype Node = Cmd(cmd: Command) | Chdir(dir: Option<string>) | Pipe | And | Or

  // ---- Tokens ----

  const OPERATORS: set<string> := {">", "2>", "2>&1", "<", "|", "&&", "||"}

  predicate IsKeyChar(c: char) {
    'a' <= c <= 'z' || 'A' <= c <= 'Z' || '0' <= c <= '9' || c == '_'
  }

  predicate IsSpace(c: char) {
    c in {' ', '\t', '\n', '\r', 11 as char, 12 as char}
  }

  predicate HasBlank(text: string) {
    exists i :: 0 <= i < |text| && IsSpace(text[i])
  }

  function KeyLength(token: string): (n: nat)
    ensures n <= |token|
  {
    if token == "" || !IsKeyChar(token[0]) then 0 else 1 + KeyLength(token[1..])
  }

  /** KEY=value: a key of word characters and a value without blanks, one final newline apart. */
  function Assignment(token: string): Option<(string, string)> {
    var k := KeyLength(token);
    if k == 0 || k == |token| || token[k] != '=' then None
    else
      var rest := token[k + 1..];
      var value := if rest != "" && rest[|rest| - 1] == '\n' then rest[..|rest| - 1] else rest;
      if value == "" || HasBlank(value) then None
      else Some((token[..k], value))
  }

  /** The variables that a run of assignments sets; a later one replaces an earlier one. */
  function EnvOf(assigns: seq<string>): map<string, string> {
    if assigns == [] then map[]
    else
      var before := EnvOf(assigns[..|assigns| - 1]);
      match Assignment(assigns[|assigns| - 1])
      case None => before
      case Some((key, value)) => before[key := value]
  }

  lemma {:induction false} EnvIsEmpty(assigns: seq<string>)
    requires AreAssignments(assigns)
    ensures EnvOf(assigns) == map[] <==> assigns == []
  {
    if assigns != [] {
      var (key, value) := Assignment(assigns[|assigns| - 1]).value;
      assert key in EnvOf(assigns);
    }
  }

  // ---- The grammar ----

  /** What may follow a command name, in any order. */
  datatype Item = Word(text: string) | Input(file: string) | Output(file: string) | Errors(file: string) | Merge

  datatype Unit = Simple(assigns: seq<string>, name: string, items: seq<Item>) | Cd(dirs: seq<string>)

  datatype Op = PipeOp | AndOp | OrOp

  /** A redirection sign at the very end of the line is read and forgotten: `dangling`. */
  datatype Script = Final(unit: Unit, dangling: seq<string>) | Joined(unit: Unit, op: Op, rest: Script)

  function Words(items: seq<Item>): seq<string> {
    if items == [] then []
    else
      var n := |items| - 1;
      Words(items[..n]) + if items[n].Word? then [items[n].text] else []
  }

  function Inputs(items: seq<Item>): seq<string> {
    if items == [] then []
    else
      var n := |items| - 1;
      Inputs(items[..n]) + if items[n].Input? then [items[n].file] else []
  }

  function Outputs(items: seq<Item>): seq<string> {
    if items == [] then []
    else
      var n := |items| - 1;
      Outputs(items[..n]) + if items[n].Output? then [items[n].file] else []
  }

  function ErrorSinks(items: seq<Item>): (sinks: seq<Stderr>)
    ensures Unset !in sinks
  {
    if items == [] then []
    else
      var n := |items| - 1;
      ErrorSinks(items[..n])
      + match items[n] { case Errors(file) => [ErrFile(file)] case Merge => [WithStdout] case _ => [] }
  }

  predicate Ordinary(item: Item) {
    item.Word? ==> item.text !in OPERATORS
  }

  /** Words that are no operators, and each stream redirected at most once. */
  predicate ItemsFit(items: seq<Item>) {
    && (forall item :: item in items ==> Ordinary(item))
    && |Inputs(items)| <= 1 && |Outputs(items)| <= 1 && |ErrorSinks(items)| <= 1
  }

  predicate AreAssignments(tokens: seq<string>) {
    forall a :: a in tokens ==> Assignment(a).Some?
  }

  predicate ValidUnit(unit: Unit) {
    match unit
    case Simple(assigns, name, items) =>
      AreAssignments(assigns) && Assignment(name).None? && name != "cd" && ItemsFit(items)
    case Cd(dirs) => |dirs| <= 1 && "&&" !in dirs
  }

  /** `cd` is only ever followed by `&&`; a command with its output in a file cannot feed a pipe. */
  predicate CanJoin(unit: Unit, op: Op) {
    match unit
    case Cd(_) => op == AndOp
    case Simple(_, _, items) => op == PipeOp ==> Outputs(items) == []
  }

  predicate Valid(script: Script) {
    match script
    case Final(unit, dangling) =>
      && ValidUnit(unit)
      && (dangling == [] || (unit.Simple? && |dangling| == 1 && dangling[0] in {">", "2>", "<"}))
    case Joined(unit, op, rest) =>
      ValidUnit(unit) && CanJoin(unit, op) && Valid(rest)
  }

  function ItemTokens(item: Item): seq<string> {
    match item
    case Word(text) => [text]
    case Input(file) => ["<", file]
    case Output(file) => [">", file]
    case Errors(file) => ["2>", file]
    case Merge => ["2>&1"]
  }

  function ItemsTokens(items: seq<Item>): seq<string> {
    if items == [] then [] else ItemsTokens(items[..|items| - 1]) + ItemTokens(items[|items| - 1])
  }

  function UnitTokens(unit: Unit): seq<string> {
    match unit
    case Simple(assigns, name, items) => assigns + [name] + ItemsTokens(items)
    case Cd(dirs) => ["cd"] + dirs
  }

  function OpToken(op: Op): string {
    match op case PipeOp => "|" case AndOp => "&&" case OrOp => "||"
  }

  /** How a script is written down. */
  function Tokens(script: Script): seq<string> {
    match script
    case Final(unit, dangling) => UnitTokens(unit) + dangling
    case Joined(unit, op, rest) => UnitTokens(unit) + [OpToken(op)] + Tokens(rest)
  }

  function SimpleCommand(assigns: seq<string>, name: string, items: seq<Item>): Command {
    Command([name] + Words(items),
            if Inputs(items) == [] then None else Some(Inputs(items)[0]),
            if Outputs(items) == [] then Terminal else OutFile(Outputs(items)[0]),
            if ErrorSinks(items) == [] then Unset else ErrorSinks(items)[0],
            EnvOf(assigns))
  }

  function UnitNode(unit: Unit, piped: bool): Node {
    match unit
    case Cd(dirs) => Chdir(if dirs == [] then None else Some(dirs[0]))
    case Simple(assigns, name, items) =>
      var c := SimpleCommand(assigns, name, items);
      Cmd(if piped then c.(stdout := IntoPipe) else c)
  }

  function OpNode(op: Op): Node {
    match op case PipeOp => Pipe case AndOp => And case OrOp => Or
  }

  /** What a script means to the parser. */
  function Nodes(script: Script): seq<Node> {
    match script
    case Final(unit, _) => [UnitNode(unit, false)]
    case Joined(unit, op, rest) => [UnitNode(unit, op == PipeOp), OpNode(op)] + Nodes(rest)
  }

  // ---- One token at a time ----

  datatype State = AtBegin | InCommand | InChdir | WantStderr | WantStdout | WantStdin

  datatype Parser = Parser(state: State, env: map<string, string>, current: Option<Node>, nodes: seq<Node>)

  function Commit(p: Parser, op: Node): Option<Parser> {
    if p.current.None? then None else Some(Parser(AtBegin, p.env, None, p.nodes + [p.current.value, op]))
  }

  function InsideCommand(token: string, p: Parser, c: Command): Option<Parser> {
    if token == ">" then Some(p.(state := WantStdout))
    else if token == "2>" then Some(p.(state := WantStderr))
    else if token == "2>&1" then
      if c.stderr != Unset then None else Some(p.(current := Some(Cmd(c.(stderr := WithStdout)))))
    else if token == "<" then Some(p.(state := WantStdin))
    else if token == "|" then
      if c.stdout != Terminal then None else Commit(p.(current := Some(Cmd(c.(stdout := IntoPipe)))), Pipe)
    else if token == "&&" then Commit(p, And)
    else if token == "||" then Commit(p, Or)
    else Some(p.(current := Some(Cmd(c.(argv := c.argv + [token])))))
  }

  function AtStart(token: string, p: Parser): Option<Parser> {
    match Assignment(token)
    case Some((key, value)) => Some(p.(env := p.env[key := value]))
    case None =>
      if p.current.Some? then None
      else if token == "cd" then
        if p.env != map[] then None else Some(p.(state := InChdir, current := Some(Chdir(None))))
      else Some(Parser(InCommand, map[], Some(Cmd(Command([token], None, Terminal, Unset, p.env))), p.nodes))
  }

  /** None: an assertion of the parser fails. */
  function Step(token: string, p: Parser): Option<Parser> {
    match (p.state, p.current)
    case (AtBegin, _) => AtStart(token, p)
    case (InCommand, Some(Cmd(c))) => InsideCommand(token, p, c)
    case (InChdir, Some(Chdir(dir))) =>
      if token == "&&" then Commit(p, And)
      else if dir.Some? then None
      else Some(p.(current := Some(Chdir(Some(token)))))
    case (WantStdout, Some(Cmd(c))) =>
      if c.stdout != Terminal then None
      else Some(p.(state := InCommand, current := Some(Cmd(c.(stdout := OutFile(token))))))
    case (WantStderr, Some(Cmd(c))) =>
      if c.stderr != Unset then None
      else Some(p.(state := InCommand, current := Some(Cmd(c.(stderr := ErrFile(token))))))
    case (WantStdin, Some(Cmd(c))) =>
      if c.stdin.Some? then None
      else Some(p.(state := InCommand, current := Some(Cmd(c.(stdin := Some(token))))))
    case _ => None
  }

  function Steps(tokens: seq<string>, p: Parser): Option<Parser> {
    if tokens == [] then Some(p)
    else match Step(tokens[0], p)
         case None => None
         case Some(q) => Steps(tokens[1..], q)
  }

  /** The whole parse; the last command is committed when the tokens run out. */
  function ParseFrom(tokens: seq<string>, p: Parser): Option<seq<Node>> {
    match Steps(tokens, p)
    case None => None
    case Some(q) => if q.current.None? then None else Some(q.nodes + [q.current.value])
  }

  function Begin(env: map<string, string>, nodes: seq<Node>): Parser {
    Parser(AtBegin, env, None, nodes)
  }

  lemma {:induction false} StepsAppend(a: seq<string>, b: seq<string>, p: Parser)
    ensures Steps(a + b, p) == (match Steps(a, p) case None => None case Some(q) => Steps(b, q))
  {
    if a == [] {
      assert a + b == b;
    } else {
      assert (a + b)[0] == a[0] && (a + b)[1..] == a[1..] + b;
      if q :| Step(a[0], p) == Some(q) {
        StepsAppend(a[1..], b, q);
      }
    }
  }

  // ---- Every script of the grammar is accepted ----

  lemma {:induction false} AssignmentsRead(assigns: seq<string>, nodes: seq<Node>)
    requires AreAssignments(assigns)
    ensures Steps(assigns, Begin(map[], nodes)) == Some(Begin(EnvOf(assigns), nodes))
  {
    if assigns != [] {
      var n := |assigns| - 1;
      assert assigns == assigns[..n] + [assigns[n]];
      AssignmentsRead(assigns[..n], nodes);
      StepsAppend(assigns[..n], [assigns[n]], Begin(map[], nodes));
      OneStep(assigns[n], Begin(EnvOf(assigns[..n]), nodes));
    }
  }

  function Reading(assigns: seq<string>, name: string, items: seq<Item>, nodes: seq<Node>): Parser {
    Parser(InCommand, map[], Some(Cmd(SimpleCommand(assigns, name, items))), nodes)
  }

  lemma OneStep(token: string, p: Parser)
    ensures Steps([token], p) == Step(token, p)
  {
    assert [token][1..] == [];
  }

  lemma TwoSteps(first: string, second: string, p: Parser)
    ensures Steps([first, second], p) == (match Step(first, p) case None => None case Some(q) => Step(second, q))
  {
    assert [first, second] == [first] + [second];
    StepsAppend([first], [second], p);
    OneStep(first, p);
    if q :| Step(first, p) == Some(q) {
      OneStep(second, q);
    }
  }

  /** One item more for a command that still has room for it. */
  function Extended(c: Command, item: Item): Option<Command> {
    match item
    case Word(text) => Some(c.(argv := c.argv + [text]))
    case Input(file) => if c.stdin.Some? then None else Some(c.(stdin := Some(file)))
    case Output(file) => if c.stdout != Terminal then None else Some(c.(stdout := OutFile(file)))
    case Errors(file) => if c.stderr != Unset then None else Some(c.(stderr := ErrFile(file)))
    case Merge => if c.stderr != Unset then None else Some(c.(stderr := WithStdout))
  }

  lemma CommandExtends(assigns: seq<string>, name: string, items: seq<Item>, item: Item)
    requires ItemsFit(items) && Ordinary(item)
    ensures Extended(SimpleCommand(assigns, name, items), item)
         == if ItemsFit(items + [item]) then Some(SimpleCommand(assigns, name, items + [item])) else None
  {
    var more := items + [item];
    assert more[..|items|] == items && more[|items|] == item;
    var c, d := SimpleCommand(assigns, name, items), SimpleCommand(assigns, name, more);
    assert d.argv == c.argv + if item.Word? then [item.text] else [];
    if ItemsFit(more) {
      match item {
        case Word(text) =>
        case Input(file) => assert d == c.(stdin := Some(file));
        case Output(file) => assert d == c.(stdout := OutFile(file));
        case Errors(file) => assert d == c.(stderr := ErrFile(file));
        case Merge => assert d == c.(stderr := WithStdout);
      }
    }
  }

  /** One item more: it is read when it fits and stops the parser when it repeats a redirection. */
  lemma ItemRead(assigns: seq<string>, name: string, items: seq<Item>, item: Item, nodes: seq<Node>)
    requires ItemsFit(items) && Ordinary(item)
    ensures Steps(ItemTokens(item), Reading(assigns, name, items, nodes))
         == if ItemsFit(items + [item]) then Some(Reading(assigns, name, items + [item], nodes)) else None
  {
    CommandExtends(assigns, name, items, item);
    ItemSteps(Reading(assigns, name, items, nodes), SimpleCommand(assigns, name, items), item);
  }

  lemma ItemSteps(p: Parser, c: Command, item: Item)
    requires p.state == InCommand && p.current == Some(Cmd(c)) && Ordinary(item)
    ensures Steps(ItemTokens(item), p)
         == (match Extended(c, item) case None => None case Some(d) => Some(p.(current := Some(Cmd(d)))))
  {
    match item {
      case Word(text) => OneStep(text, p);
      case Merge => OneStep("2>&1", p);
      case Input(file) => TwoSteps("<", file, p);
      case Output(file) => TwoSteps(">", file, p);
      case Errors(file) => TwoSteps("2>", file, p);
    }
  }

  lemma {:induction false} ItemsRead(assigns: seq<string>, name: string, items: seq<Item>, nodes: seq<Node>)
    requires ItemsFit(items)
    ensures Steps(ItemsTokens(items), Reading(assigns, name, [], nodes)) == Some(Reading(assigns, name, items, nodes))
  {
    if items != [] {
      var n := |items| - 1;
      assert items == items[..n] + [items[n]];
      assert ItemsFit(items[..n]);
      ItemsRead(assigns, name, items[..n], nodes);
      ItemRead(assigns, name, items[..n], items[n], nodes);
      StepsAppend(ItemsTokens(items[..n]), ItemTokens(items[n]), Reading(assigns, name, [], nodes));
    }
  }

  function AfterUnit(unit: Unit, nodes: seq<Node>): Parser {
    match unit
    case Simple(assigns, name, items) => Reading(assigns, name, items, nodes)
    case Cd(dirs) => Parser(InChdir, map[], Some(UnitNode(unit, false)), nodes)
  }

  lemma UnitRead(unit: Unit, nodes: seq<Node>)
    requires ValidUnit(unit)
    ensures Steps(UnitTokens(unit), Begin(map[], nodes)) == Some(AfterUnit(unit, nodes))
  {
    var p := Begin(map[], nodes);
    match unit {
      case Simple(assigns, name, items) =>
        AssignmentsRead(assigns, nodes);
        StepsAppend(assigns, [name], p);
        OneStep(name, Begin(EnvOf(assigns), nodes));
        StepsAppend(assigns + [name], ItemsTokens(items), p);
        assert [name] + Words([]) == [name];
        ItemsRead(assigns, name, items, nodes);
      case Cd(dirs) =>
        assert KeyLength("cd") == 2 by {
          assert "cd"[1..] == "d" && "d"[1..] == "";
        }
        StepsAppend(["cd"], dirs, p);
        OneStep("cd", p);
        if dirs != [] {
          assert dirs == [dirs[0]];
          OneStep(dirs[0], Parser(InChdir, map[], Some(Chdir(None)), nodes));
        }
    }
  }

  /** What the parser has collected once a unit and the operator behind it are read. */
  function Committed(unit: Unit, op: Op, nodes: seq<Node>): seq<Node> {
    nodes + [UnitNode(unit, op == PipeOp), OpNode(op)]
  }

  lemma OperatorRead(unit: Unit, op: Op, nodes: seq<Node>)
    requires ValidUnit(unit) && (unit.Cd? ==> op == AndOp)
    ensures Step(OpToken(op), AfterUnit(unit, nodes))
         == if CanJoin(unit, op) then Some(Begin(map[], Committed(unit, op, nodes))) else None
  {
  }

  lemma JoinedRead(unit: Unit, op: Op, tail: seq<string>, nodes: seq<Node>)
    requires ValidUnit(unit) && CanJoin(unit, op)
    ensures Steps(UnitTokens(unit) + [OpToken(op)] + tail, Begin(map[], nodes))
         == Steps(tail, Begin(map[], Committed(unit, op, nodes)))
  {
    var p, token := Begin(map[], nodes), OpToken(op);
    UnitRead(unit, nodes);
    StepsAppend(UnitTokens(unit), [token], p);
    OneStep(token, AfterUnit(unit, nodes));
    OperatorRead(unit, op, nodes);
    StepsAppend(UnitTokens(unit) + [token], tail, p);
  }

  lemma FinalRead(unit: Unit, dangling: seq<string>, nodes: seq<Node>)
    requires Valid(Final(unit, dangling))
    ensures ParseFrom(UnitTokens(unit) + dangling, Begin(map[], nodes)) == Some(nodes + [UnitNode(unit, false)])
  {
    UnitRead(unit, nodes);
    StepsAppend(UnitTokens(unit), dangling, Begin(map[], nodes));
    if dangling != [] {
      assert dangling == [dangling[0]];
      OneStep(dangling[0], AfterUnit(unit, nodes));
    }
  }

  lemma {:induction false} ScriptRead(script: Script, nodes: seq<Node>)
    requires Valid(script)
    ensures ParseFrom(Tokens(script), Begin(map[], nodes)) == Some(nodes + Nodes(script))
  {
    match script
    case Final(unit, dangling) =>
      FinalRead(unit, dangling, nodes);
    case Joined(unit, op, rest) =>
      JoinedRead(unit, op, Tokens(rest), nodes);
      ScriptRead(rest, Committed(unit, op, nodes));
      Regroup(nodes, [UnitNode(unit, op == PipeOp), OpNode(op)], Nodes(rest));
  }

  // ---- Every accepted token list is a script of the grammar ----

  /** The tokens of a script, and the node list once it is read behind `nodes`. */
  function Sentence(script: Script, nodes: seq<Node>): Option<(seq<string>, seq<Node>)> {
    if Valid(script) then Some((Tokens(script), nodes + Nodes(script))) else None
  }

  lemma FirstToken(tokens: seq<string>, p: Parser)
    requires tokens != []
    ensures ParseFrom(tokens, p)
         == (match Step(tokens[0], p) case None => None case Some(q) => ParseFrom(tokens[1..], q))
  {
  }

  lemma JoinExplained(unit: Unit, op: Op, tail: Script, tokens: seq<string>, nodes: seq<Node>, result: seq<Node>)
    requires ValidUnit(unit) && CanJoin(unit, op)
    requires Sentence(tail, Committed(unit, op, nodes)) == Some((tokens, result))
    ensures Sentence(Joined(unit, op, tail), nodes) == Some((UnitTokens(unit) + [OpToken(op)] + tokens, result))
  {
    Regroup(nodes, [UnitNode(unit, op == PipeOp), OpNode(op)], Nodes(tail));
  }

  lemma OperatorAccepted(tokens: seq<string>, unit: Unit, op: Op, nodes: seq<Node>)
    requires ValidUnit(unit) && (unit.Cd? ==> op == AndOp)
    requires tokens != [] && tokens[0] == OpToken(op)
    requires ParseFrom(tokens, AfterUnit(unit, nodes)).Some?
    ensures CanJoin(unit, op)
    ensures ParseFrom(tokens, AfterUnit(unit, nodes))
         == ParseFrom(tokens[1..], Begin(EnvOf([]), Committed(unit, op, nodes)))
  {
    FirstToken(tokens, AfterUnit(unit, nodes));
    OperatorRead(unit, op, nodes);
  }

  lemma OperatorTokens(unit: Unit, op: Op, tokens: seq<string>)
    requires tokens != [] && tokens[0] == OpToken(op)
    ensures UnitTokens(unit) + [OpToken(op)] + ([] + tokens[1..]) == UnitTokens(unit) + tokens
  {
    assert tokens == [tokens[0]] + tokens[1..];
  }

  /** An operator ends the unit before it; the rest of the line is a script of its own. */
  lemma {:induction false} AcceptedOperator(tokens: seq<string>, unit: Unit, op: Op, nodes: seq<Node>)
    returns (script: Script)
    requires ValidUnit(unit) && (unit.Cd? ==> op == AndOp)
    requires tokens != [] && tokens[0] == OpToken(op)
    requires ParseFrom(tokens, AfterUnit(unit, nodes)).Some?
    ensures Sentence(script, nodes)
         == Some((UnitTokens(unit) + tokens, ParseFrom(tokens, AfterUnit(unit, nodes)).value))
    decreases |tokens|, 0
  {
    OperatorAccepted(tokens, unit, op, nodes);
    var tail := AcceptedAtBegin(tokens[1..], [], Committed(unit, op, nodes));
    script := Joined(unit, op, tail);
    JoinExplained(unit, op, tail, [] + tokens[1..], nodes, ParseFrom(tokens, AfterUnit(unit, nodes)).value);
    OperatorTokens(unit, op, tokens);
  }

  lemma {:induction false} AcceptedAtBegin(tokens: seq<string>, assigns: seq<string>, nodes: seq<Node>)
    returns (script: Script)
    requires AreAssignments(assigns)
    requires ParseFrom(tokens, Begin(EnvOf(assigns), nodes)).Some?
    ensures Sentence(script, nodes) == Some((assigns + tokens, ParseFrom(tokens, Begin(EnvOf(assigns), nodes)).value))
    decreases |tokens|, 1
  {
    var token, rest := tokens[0], tokens[1..];
    FirstToken(tokens, Begin(EnvOf(assigns), nodes));
    if Assignment(token).Some? {
      OneAssignmentMore(tokens, assigns);
      script := AcceptedAtBegin(rest, assigns + [token], nodes);
    } else {
      var unit := UnitStarted(tokens, assigns, nodes);
      if unit.Cd? {
        script := AcceptedInChdir(rest, [], nodes);
      } else {
        script := AcceptedInCommand(rest, assigns, token, [], nodes);
      }
    }
  }

  lemma OneAssignmentMore(tokens: seq<string>, assigns: seq<string>)
    requires tokens != [] && Assignment(tokens[0]).Some?
    ensures var (key, value) := Assignment(tokens[0]).value;
            EnvOf(assigns + [tokens[0]]) == EnvOf(assigns)[key := value]
    ensures assigns + [tokens[0]] + tokens[1..] == assigns + tokens
  {
    EnvMore(assigns, tokens[0]);
    HeadMoves(assigns, tokens);
  }

  lemma HeadMoves(front: seq<string>, tokens: seq<string>)
    requires tokens != []
    ensures front + [tokens[0]] + tokens[1..] == front + tokens
  {
  }

  lemma EnvMore(assigns: seq<string>, token: string)
    requires Assignment(token).Some?
    ensures EnvOf(assigns + [token]) == EnvOf(assigns)[Assignment(token).value.0 := Assignment(token).value.1]
  {
    var longer := assigns + [token];
    assert longer[..|longer| - 1] == assigns && longer[|longer| - 1] == token;
  }

  function StartedUnit(token: string, assigns: seq<string>): Unit {
    if token == "cd" then Cd([]) else Simple(assigns, token, [])
  }

  /** A token that is no assignment starts a unit. */
  lemma UnitStarted(tokens: seq<string>, assigns: seq<string>, nodes: seq<Node>) returns (unit: Unit)
    requires AreAssignments(assigns) && tokens != [] && Assignment(tokens[0]).None?
    requires ParseFrom(tokens, Begin(EnvOf(assigns), nodes)).Some?
    ensures unit == StartedUnit(tokens[0], assigns)
    ensures ValidUnit(unit) && UnitTokens(unit) + tokens[1..] == assigns + tokens
    ensures ParseFrom(tokens, Begin(EnvOf(assigns), nodes)) == ParseFrom(tokens[1..], AfterUnit(unit, nodes))
  {
    unit := StartedUnit(tokens[0], assigns);
    FirstToken(tokens, Begin(EnvOf(assigns), nodes));
    UnitStartStep(tokens[0], assigns, nodes);
    StartedTokens(tokens, assigns);
  }

  lemma StartedTokens(tokens: seq<string>, assigns: seq<string>)
    requires tokens != [] && (tokens[0] == "cd" ==> assigns == [])
    ensures UnitTokens(StartedUnit(tokens[0], assigns)) + tokens[1..] == assigns + tokens
  {
    HeadMoves(assigns, tokens);
    assert assigns + [tokens[0]] + ItemsTokens([]) == assigns + [tokens[0]];
    assert ["cd"] + [] == ["cd"];
  }

  lemma UnitStartStep(token: string, assigns: seq<string>, nodes: seq<Node>)
    requires AreAssignments(assigns) && Assignment(token).None?
    ensures Step(token, Begin(EnvOf(assigns), nodes))
         == if token == "cd" && assigns != [] then None else Some(AfterUnit(StartedUnit(token, assigns), nodes))
  {
    EnvIsEmpty(assigns);
    assert [token] + Words([]) == [token];
  }

  lemma {:induction false} AcceptedInChdir(tokens: seq<string>, dirs: seq<string>, nodes: seq<Node>)
    returns (script: Script)
    requires ValidUnit(Cd(dirs))
    requires ParseFrom(tokens, AfterUnit(Cd(dirs), nodes)).Some?
    ensures Sentence(script, nodes)
         == Some((UnitTokens(Cd(dirs)) + tokens, ParseFrom(tokens, AfterUnit(Cd(dirs), nodes)).value))
    decreases |tokens|, 1
  {
    if tokens == [] {
      script := Final(Cd(dirs), []);
    } else if tokens[0] == "&&" {
      script := AcceptedOperator(tokens, Cd(dirs), AndOp, nodes);
    } else {
      DirectoryAccepted(tokens, dirs, nodes);
      script := AcceptedInChdir(tokens[1..], [tokens[0]], nodes);
    }
  }

  lemma DirectoryAccepted(tokens: seq<string>, dirs: seq<string>, nodes: seq<Node>)
    requires tokens != [] && tokens[0] != "&&"
    requires ParseFrom(tokens, AfterUnit(Cd(dirs), nodes)).Some?
    ensures dirs == [] && UnitTokens(Cd([tokens[0]])) + tokens[1..] == UnitTokens(Cd([])) + tokens
    ensures ParseFrom(tokens, AfterUnit(Cd([]), nodes)) == ParseFrom(tokens[1..], AfterUnit(Cd([tokens[0]]), nodes))
  {
    FirstToken(tokens, AfterUnit(Cd(dirs), nodes));
  }

  lemma DanglingExplained(unit: Unit, token: string, nodes: seq<Node>)
    requires unit.Simple? && ValidUnit(unit) && token in {">", "2>", "<"}
    ensures ParseFrom([token], AfterUnit(unit, nodes)).Some?
    ensures Sentence(Final(unit, [token]), nodes)
         == Some((UnitTokens(unit) + [token], ParseFrom([token], AfterUnit(unit, nodes)).value))
  {
    OneStep(token, AfterUnit(unit, nodes));
  }

  lemma {:induction false} AcceptedInCommand(
    tokens: seq<string>, assigns: seq<string>, name: string, items: seq<Item>, nodes: seq<Node>)
    returns (script: Script)
    requires ValidUnit(Simple(assigns, name, items))
    requires ParseFrom(tokens, Reading(assigns, name, items, nodes)).Some?
    ensures Sentence(script, nodes)
         == Some((UnitTokens(Simple(assigns, name, items)) + tokens,
                  ParseFrom(tokens, Reading(assigns, name, items, nodes)).value))
    decreases |tokens|, 1
  {
    var unit := Simple(assigns, name, items);
    if tokens == [] {
      script := Final(unit, []);
    } else if op :| tokens[0] == OpToken(op) {
      script := AcceptedOperator(tokens, unit, op, nodes);
    } else if tokens[0] in {">", "2>", "<"} && |tokens| == 1 {
      DanglingExplained(unit, tokens[0], nodes);
      script := Final(unit, [tokens[0]]);
      assert tokens == [tokens[0]];
    } else {
      assert OpToken(PipeOp) == "|" && OpToken(AndOp) == "&&" && OpToken(OrOp) == "||";
      var item, rest := ItemAt(tokens, assigns, name, items, nodes);
      script := AcceptedInCommand(rest, assigns, name, items + [item], nodes);
    }
  }

  lemma ItemTokensMove(tokens: seq<string>, assigns: seq<string>, name: string, items: seq<Item>, item: Item)
    requires ItemTokens(item) <= tokens
    ensures UnitTokens(Simple(assigns, name, items + [item])) + tokens[|ItemTokens(item)|..]
         == UnitTokens(Simple(assigns, name, items)) + tokens
  {
    assert (items + [item])[..|items|] == items;
    assert tokens == ItemTokens(item) + tokens[|ItemTokens(item)|..];
  }

  function NextItem(tokens: seq<string>): (item: Item)
    requires tokens != [] && tokens[0] !in {"|", "&&", "||"}
    requires tokens[0] in {">", "2>", "<"} ==> |tokens| > 1
    ensures Ordinary(item) && ItemTokens(item) <= tokens
  {
    var token := tokens[0];
    if token == ">" then Output(tokens[1])
    else if token == "2>" then Errors(tokens[1])
    else if token == "<" then Input(tokens[1])
    else if token == "2>&1" then Merge
    else Word(token)
  }

  lemma ItemAccepted(
    assigns: seq<string>, name: string, items: seq<Item>, item: Item, rest: seq<string>, nodes: seq<Node>)
    requires ItemsFit(items) && Ordinary(item)
    ensures ParseFrom(ItemTokens(item) + rest, Reading(assigns, name, items, nodes))
         == if ItemsFit(items + [item]) then ParseFrom(rest, Reading(assigns, name, items + [item], nodes)) else None
  {
    ItemRead(assigns, name, items, item, nodes);
    StepsAppend(ItemTokens(item), rest, Reading(assigns, name, items, nodes));
  }

  /** The next word or redirection, when the parse goes on from here. */
  lemma ItemAt(tokens: seq<string>, assigns: seq<string>, name: string, items: seq<Item>, nodes: seq<Node>)
    returns (item: Item, rest: seq<string>)
    requires ValidUnit(Simple(assigns, name, items))
    requires tokens != [] && tokens[0] !in {"|", "&&", "||"}
    requires tokens[0] in {">", "2>", "<"} ==> |tokens| > 1
    requires ParseFrom(tokens, Reading(assigns, name, items, nodes)).Some?
    ensures |rest| < |tokens| && ValidUnit(Simple(assigns, name, items + [item]))
    ensures UnitTokens(Simple(assigns, name, items + [item])) + rest
         == UnitTokens(Simple(assigns, name, items)) + tokens
    ensures ParseFrom(tokens, Reading(assigns, name, items, nodes))
         == ParseFrom(rest, Reading(assigns, name, items + [item], nodes))
  {
    item := NextItem(tokens);
    rest := tokens[|ItemTokens(item)|..];
    ItemTokensMove(tokens, assigns, name, items, item);
    ItemTaken(tokens, assigns, name, items, item, nodes);
  }

  lemma ItemTaken(
    tokens: seq<string>, assigns: seq<string>, name: string, items: seq<Item>, item: Item, nodes: seq<Node>)
    requires ItemsFit(items) && Ordinary(item) && ItemTokens(item) <= tokens
    ensures ParseFrom(tokens, Reading(assigns, name, items, nodes))
         == if ItemsFit(items + [item])
            then ParseFrom(tokens[|ItemTokens(item)|..], Reading(assigns, name, items + [item], nodes))
            else None
  {
    ItemAccepted(assigns, name, items, item, tokens[|ItemTokens(item)|..], nodes);
    assert tokens == ItemTokens(item) + tokens[|ItemTokens(item)|..];
  }

  ghost predicate InGrammar(tokens: seq<string>) {
    exists script :: Valid(script) && Tokens(script) == tokens
  }

  /** The parser accepts the grammar and nothing else, and reads each sentence as the grammar does. */
  lemma ParserIsGrammar(tokens: seq<string>)
    ensures ParseFrom(tokens, Begin(map[], [])).Some? <==> InGrammar(tokens)
    ensures forall script {:trigger Tokens(script)} :: Valid(script) && Tokens(script) == tokens ==>
              ParseFrom(tokens, Begin(map[], [])) == Some(Nodes(script))
  {
    if ParseFrom(tokens, Begin(map[], [])).Some? {
      var script := AcceptedAtBegin(tokens, [], []);
      assert [] + tokens == tokens;
    }
    forall script {:trigger Tokens(script)} | Valid(script) && Tokens(script) == tokens
      ensures ParseFrom(tokens, Begin(map[], [])) == Some(Nodes(script))
    {
      ScriptRead(script, []);
      assert [] + Nodes(script) == Nodes(script);
    }
  }
}
