/** The mini shell's `Pipeline.parse` (waf-tools/shellcmd.py): the grammar of token lists it
    accepts, and where its six-state loop stands in that grammar. */
module ShellSyntax {
  import opened Options

  // The values of a command's stdout and stderr attributes.
  datatype Redirect = Inherit | ToPipe | ToStdout | ToFile(name: string)

  type EnvVars = map<string, string>

  datatype Node =
    | Command(name: string, argv: seq<string>, stdin: Option<string>, stdout: Redirect, stderr: Redirect,
              envVars: Option<EnvVars>)
    | Chdir(dir: Option<string>)
    | Pipe
    | And
    | Or

  // parse returns the node list or fails one of its assertions.
  datatype ParseResult = Parsed(nodes: seq<Node>) | AssertionError

  // ----- Environment assignments: ^([a-zA-Z0-9_]+)=(\S+)$

  predicate IsWordChar(c: char) {
    'a' <= c <= 'z' || 'A' <= c <= 'Z' || '0' <= c <= '9' || c == '_'
  }

  // The characters matched by \s in a Python string.
  predicate IsSpace(c: char) {
    var n := c as int;
    9 <= n <= 13 || 28 <= n <= 32 || n == 0x85 || n == 0xA0 || n == 0x1680 || 0x2000 <= n <= 0x200A
    || n == 0x2028 || n == 0x2029 || n == 0x202F || n == 0x205F || n == 0x3000
  }

  function WordLength(s: string): (n: nat)
    ensures n <= |s|
  {
    if s != [] && IsWordChar(s[0]) then 1 + WordLength(s[1..]) else 0
  }

  predicate NoSpace(s: string) {
    forall i :: 0 <= i < |s| ==> !IsSpace(s[i])
  }

  // $ also matches in front of a final newline.
  function DropNewline(s: string): string {
    if s != [] && s[|s| - 1] == '\n' then s[..|s| - 1] else s
  }

  function EnvVar(token: string): Option<(string, string)> {
    var n := WordLength(token);
    if n == 0 || n == |token| || token[n] != '=' then None
    else
      var value := DropNewline(token[n + 1..]);
      if value == [] || !NoSpace(value) then None else Some((token[..n], value))
  }

  predicate IsEnvName(s: string) {
    s != [] && forall i :: 0 <= i < |s| ==> IsWordChar(s[i])
  }

  predicate IsEnvValue(s: string) {
    s != [] && NoSpace(s)
  }

  lemma {:induction false} WordLengthIs(s: string, rest: string)
    requires (forall i :: 0 <= i < |s| ==> IsWordChar(s[i])) && rest != [] && !IsWordChar(rest[0])
    ensures WordLength(s + rest) == |s|
  {
    if s == [] {
      assert s + rest == rest;
    } else {
      assert (s + rest)[1..] == s[1..] + rest;
      WordLengthIs(s[1..], rest);
    }
  }

  lemma {:induction false} WordLengthWords(s: string)
    ensures forall i :: 0 <= i < WordLength(s) ==> IsWordChar(s[i])
  {
    if s != [] && IsWordChar(s[0]) {
      WordLengthWords(s[1..]);
      forall i | 0 <= i < WordLength(s) ensures IsWordChar(s[i]) {
        if i > 0 {
          assert s[i] == s[1..][i - 1];
        }
      }
    }
  }

  // An assignment token can be put together from its parts and is recognised again.
  lemma EnvVarRoundTrip(name: string, value: string)
    requires IsEnvName(name) && IsEnvValue(value)
    ensures EnvVar(name + "=" + value) == Some((name, value))
  {
    var token := name + "=" + value;
    assert token == name + ("=" + value);
    WordLengthIs(name, "=" + value);
    assert token[..|name|] == name && token[|name| + 1..] == value;
    assert IsSpace('\n');
  }

  lemma EnvVarParts(token: string)
    requires EnvVar(token).Some?
    ensures IsEnvName(EnvVar(token).value.0) && IsEnvValue(EnvVar(token).value.1)
  {
    WordLengthWords(token);
  }

  // ----- The grammar

  // What can follow a command name.
  datatype Item = Word(word: string) | Out(file: string) | Err(file: string) | ErrToOut | In(file: string)

  predicate IsOperator(token: string) {
    token == "|" || token == "&&" || token == "||"
  }

  // The items up to the next operator or the end, and what follows them.  A redirection sign
  // at the very end is ignored.
  function TakeItems(tokens: seq<string>): (r: (seq<Item>, seq<string>))
    ensures |r.1| <= |tokens| && (r.1 == [] || IsOperator(r.1[0]))
  {
    if tokens == [] || IsOperator(tokens[0]) then ([], tokens)
    else if tokens[0] == "2>&1" then
      var (items, rest) := TakeItems(tokens[1..]);
      ([ErrToOut] + items, rest)
    else if tokens[0] == ">" || tokens[0] == "2>" || tokens[0] == "<" then
      if |tokens| == 1 then ([], [])
      else
        var (items, rest) := TakeItems(tokens[2..]);
        var file := tokens[1];
        var item := if tokens[0] == ">" then Out(file) else if tokens[0] == "2>" then Err(file) else In(file);
        ([item] + items, rest)
    else
      var (items, rest) := TakeItems(tokens[1..]);
      ([Word(tokens[0])] + items, rest)
  }

  function AddItem(c: Node, item: Item): Option<Node>
    requires c.Command?
  {
    match item
    case Word(w) => Some(c.(argv := c.argv + [w]))
    case Out(f) => if c.stdout == Inherit then Some(c.(stdout := ToFile(f))) else None
    case Err(f) => if c.stderr == Inherit then Some(c.(stderr := ToFile(f))) else None
    case ErrToOut => if c.stderr == Inherit then Some(c.(stderr := ToStdout)) else None
    case In(f) => if c.stdin == None then Some(c.(stdin := Some(f))) else None
  }

  function AddItems(c: Node, items: seq<Item>): (r: Option<Node>)
    requires c.Command?
    ensures r.Some? ==> r.value.Command?
    decreases |items|
  {
    if items == [] then Some(c)
    else
      var c' := AddItem(c, items[0]);
      if c'.None? then None else AddItems(c'.value, items[1..])
  }

  function NewCommand(name: string, env: EnvVars): Node {
    Command(name, [name], None, Inherit, Inherit, if env == map[] then None else Some(env))
  }

  function Prepend(nodes: seq<Node>, rest: Option<seq<Node>>): Option<seq<Node>> {
    if rest.None? then None else Some(nodes + rest.value)
  }

  // A list: assignments seen so far, then a command or cd.
  function ParseList(env: EnvVars, tokens: seq<string>): Option<seq<Node>>
    decreases |tokens|, 0
  {
    if tokens == [] then None
    else if EnvVar(tokens[0]).Some? then
      var (name, value) := EnvVar(tokens[0]).value;
      ParseList(env[name := value], tokens[1..])
    else if tokens[0] == "cd" then
      if env != map[] then None else ParseCd(None, tokens[1..])
    else ParseCommand(NewCommand(tokens[0], env), tokens[1..])
  }

  function ParseCd(dir: Option<string>, tokens: seq<string>): Option<seq<Node>>
    decreases |tokens|, 1
  {
    if tokens == [] then Some([Chdir(dir)])
    else if tokens[0] == "&&" then Prepend([Chdir(dir), And], ParseList(map[], tokens[1..]))
    else if dir.Some? then None
    else ParseCd(Some(tokens[0]), tokens[1..])
  }

  // A command, the operator after it, and the rest of the list.
  function ParseCommand(c: Node, tokens: seq<string>): Option<seq<Node>>
    requires c.Command?
    decreases |tokens|, 1
  {
    var (items, rest) := TakeItems(tokens);
    var done := AddItems(c, items);
    if done.None? then None
    else if rest == [] then Some([done.value])
    else if rest[0] == "|" then
      if done.value.stdout != Inherit then None
      else Prepend([done.value.(stdout := ToPipe), Pipe], ParseList(map[], rest[1..]))
    else Prepend([done.value, if rest[0] == "&&" then And else Or], ParseList(map[], rest[1..]))
  }

  // ----- The six-state loop

  datatype State = BEGIN | COMMAND | CHDIR | STDERR | STDOUT | STDIN

  predicate StateFits(state: State, current: Option<Node>) {
    match state
    case BEGIN => current.None?
    case CHDIR => current.Some? && current.value.Chdir?
    case _ => current.Some? && current.value.Command?
  }

  function PendingItem(state: State, file: string): Item
    requires state.STDERR? || state.STDOUT? || state.STDIN?
  {
    if state.STDERR? then Err(file) else if state.STDOUT? then Out(file) else In(file)
  }

  // What the grammar makes of the tokens left, given where the loop stands.
  function Resume(state: State, current: Option<Node>, env: EnvVars, tokens: seq<string>): Option<seq<Node>>
    requires StateFits(state, current)
  {
    match state
    case BEGIN => ParseList(env, tokens)
    case COMMAND => ParseCommand(current.value, tokens)
    case CHDIR => ParseCd(current.value.dir, tokens)
    case _ =>
      if tokens == [] then ParseCommand(current.value, [])
      else
        var c := AddItem(current.value, PendingItem(state, tokens[0]));
        if c.None? then None else ParseCommand(c.value, tokens[1..])
  }

  lemma ItemStep(c: Node, tokens: seq<string>)
    requires c.Command? && tokens != [] && !IsOperator(tokens[0])
    ensures var item := if tokens[0] == "2>&1" then Some(ErrToOut)
      else if tokens[0] == ">" || tokens[0] == "2>" || tokens[0] == "<" then None else Some(Word(tokens[0]));
      item.Some? ==>
        ParseCommand(c, tokens) ==
          if AddItem(c, item.value).None? then None else ParseCommand(AddItem(c, item.value).value, tokens[1..])
    ensures tokens[0] == ">" ==> ParseCommand(c, tokens) == Resume(STDOUT, Some(c), map[], tokens[1..])
    ensures tokens[0] == "2>" ==> ParseCommand(c, tokens) == Resume(STDERR, Some(c), map[], tokens[1..])
    ensures tokens[0] == "<" ==> ParseCommand(c, tokens) == Resume(STDIN, Some(c), map[], tokens[1..])
  {
    var (items, rest) := TakeItems(tokens);
    if items != [] {
      assert items == [items[0]] + items[1..];
    }
    if |tokens| > 1 {
      assert tokens[1..][1..] == tokens[2..];
    }
  }

  lemma PrependTwice(a: seq<Node>, b: seq<Node>, r: Option<seq<Node>>)
    ensures Prepend(a, Prepend(b, r)) == Prepend(a + b, r)
  {
    if r.Some? {
      assert a + (b + r.value) == a + b + r.value;
    }
  }

  lemma PrependNothing(r: Option<seq<Node>>)
    ensures Prepend([], r) == r
  {
    if r.Some? {
      assert [] + r.value == r.value;
    }
  }
}
