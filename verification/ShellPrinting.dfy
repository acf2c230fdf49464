/** What the shell's parser can return: exactly the well-formed pipelines, each of which can be
    written as tokens and parsed back. */
module ShellPrinting {
  import opened Options
  import opened Sequences
  import opened ShellSyntax
  import opened ShellEval

  // ----- Well-formed pipelines

  predicate IsSign(token: string) {
    IsOperator(token) || token == ">" || token == "2>" || token == "2>&1" || token == "<"
  }

  predicate GoodEnv(env: Option<EnvVars>) {
    env.Some? ==> env.value != map[] && forall k :: k in env.value ==> IsEnvName(k) && IsEnvValue(env.value[k])
  }

  // A command, and whether a pipe follows it.
  predicate GoodCommand(c: Node, piped: bool) {
    && c.Command?
    && c.name != "cd" && EnvVar(c.name).None?
    && c.argv != [] && c.argv[0] == c.name
    && (forall i :: 1 <= i < |c.argv| ==> !IsSign(c.argv[i]))
    && GoodEnv(c.envVars)
    && !c.stdout.ToStdout? && (c.stdout.ToPipe? <==> piped)
    && !c.stderr.ToPipe?
  }

  predicate GoodChdir(c: Node) {
    c.Chdir? && (c.dir.Some? ==> c.dir.value != "&&")
  }

  // Commands and operators alternate, starting and ending with a command; a command writes to a
  // pipe exactly when a pipe follows it, and a directory change is last or followed by &&.
  predicate WellFormed(p: seq<Node>)
    decreases |p|
  {
    && p != []
    && (|p| == 1 || (IsOp(p[1]) && WellFormed(p[2..])))
    && (GoodCommand(p[0], |p| > 1 && p[1].Pipe?) || (GoodChdir(p[0]) && (|p| == 1 || p[1].And?)))
  }

  // The same by position.
  lemma {:induction false} WellFormedAlternates(p: seq<Node>, i: nat)
    requires WellFormed(p) && i < |p|
    ensures |p| % 2 == 1
    ensures i % 2 == 1 ==> IsOp(p[i])
    ensures i % 2 == 0 ==> p[i].Command? || p[i].Chdir?
    ensures p[i].Command? ==> (p[i].stdout.ToPipe? <==> i + 1 < |p| && p[i + 1].Pipe?)
    ensures p[i].Chdir? ==> i + 1 == |p| || p[i + 1].And?
    decreases |p|
  {
    if |p| > 1 {
      WellFormedAlternates(p[2..], if i < 2 then 0 else i - 2);
      if i >= 2 {
        assert p[i] == p[2..][i - 2];
      }
    }
  }

  // ----- What the items of a command amount to, in whatever order they come

  function WordsAmong(items: seq<Item>): seq<string> {
    if items == [] then [] else (if items[0].Word? then [items[0].word] else []) + WordsAmong(items[1..])
  }

  function OutsAmong(items: seq<Item>): seq<Redirect> {
    if items == [] then [] else (if items[0].Out? then [ToFile(items[0].file)] else []) + OutsAmong(items[1..])
  }

  function ErrsAmong(items: seq<Item>): seq<Redirect> {
    if items == [] then []
    else
      (if items[0].Err? then [ToFile(items[0].file)] else if items[0].ErrToOut? then [ToStdout] else [])
      + ErrsAmong(items[1..])
  }

  function InsAmong(items: seq<Item>): seq<string> {
    if items == [] then [] else (if items[0].In? then [items[0].file] else []) + InsAmong(items[1..])
  }

  // Each stream can be redirected once, if it is not redirected already.
  predicate Redirectable(c: Node, items: seq<Item>)
    requires c.Command?
  {
    && |OutsAmong(items)| <= (if c.stdout == Inherit then 1 else 0)
    && |ErrsAmong(items)| <= (if c.stderr == Inherit then 1 else 0)
    && |InsAmong(items)| <= (if c.stdin == None then 1 else 0)
  }

  function FirstOr(redirects: seq<Redirect>, otherwise: Redirect): Redirect {
    if redirects == [] then otherwise else redirects[0]
  }

  function Collected(c: Node, items: seq<Item>): Node
    requires c.Command?
  {
    c.(argv := c.argv + WordsAmong(items),
       stdout := FirstOr(OutsAmong(items), c.stdout),
       stderr := FirstOr(ErrsAmong(items), c.stderr),
       stdin := if InsAmong(items) == [] then c.stdin else Some(InsAmong(items)[0]))
  }

  // The words become arguments in order, wherever the redirections stand between them; a second
  // redirection of a stream, and nothing else, is an error.
  lemma {:induction false} ItemsCollected(c: Node, items: seq<Item>)
    requires c.Command?
    ensures AddItems(c, items) == if Redirectable(c, items) then Some(Collected(c, items)) else None
    decreases |items|
  {
    if items == [] {
      assert c.argv + [] == c.argv;
    } else if AddItem(c, items[0]).Some? {
      assert items == [items[0]] + items[1..];
      var c' := AddItem(c, items[0]).value;
      ItemsCollected(c', items[1..]);
      RedirectFirst(c, items[0], c', items[1..]);
      if Redirectable(c, items) {
        CollectFirst(c, items[0], c', items[1..]);
      }
    } else {
      assert !Redirectable(c, items);
    }
  }

  lemma RedirectFirst(c: Node, item: Item, c': Node, items: seq<Item>)
    requires c.Command? && AddItem(c, item) == Some(c')
    ensures Redirectable(c, [item] + items) <==> Redirectable(c', items)
  {
    AmongFirst(item, items);
    AddedFields(c, item, c');
  }

  lemma CollectFirst(c: Node, item: Item, c': Node, items: seq<Item>)
    requires c.Command? && AddItem(c, item) == Some(c') && Redirectable(c', items)
    ensures Collected(c, [item] + items) == Collected(c', items)
  {
    AmongFirst(item, items);
    AddedFields(c, item, c');
    if item.Word? {
      Reassociate(c.argv, [item.word], WordsAmong(items));
    }
  }

  lemma AddedFields(c: Node, item: Item, c': Node)
    requires c.Command? && AddItem(c, item) == Some(c')
    ensures c' == c.(argv := c'.argv, stdout := c'.stdout, stderr := c'.stderr, stdin := c'.stdin)
    ensures c'.argv == if item.Word? then c.argv + [item.word] else c.argv
    ensures if item.Out? then c.stdout == Inherit && c'.stdout == ToFile(item.file) else c'.stdout == c.stdout
    ensures if item.Err? then c.stderr == Inherit && c'.stderr == ToFile(item.file)
            else if item.ErrToOut? then c.stderr == Inherit && c'.stderr == ToStdout else c'.stderr == c.stderr
    ensures if item.In? then c.stdin == None && c'.stdin == Some(item.file) else c'.stdin == c.stdin
  {
  }

  lemma AmongFirst(item: Item, items: seq<Item>)
    ensures WordsAmong([item] + items) == if item.Word? then [item.word] + WordsAmong(items) else WordsAmong(items)
    ensures OutsAmong([item] + items) == if item.Out? then [ToFile(item.file)] + OutsAmong(items) else OutsAmong(items)
    ensures ErrsAmong([item] + items) ==
      if item.Err? then [ToFile(item.file)] + ErrsAmong(items)
      else if item.ErrToOut? then [ToStdout] + ErrsAmong(items) else ErrsAmong(items)
    ensures InsAmong([item] + items) == if item.In? then [item.file] + InsAmong(items) else InsAmong(items)
  {
    assert ([item] + items)[1..] == items;
  }

  // ----- Everything that parses is well formed

  predicate EnvOk(env: EnvVars) {
    forall k :: k in env ==> IsEnvName(k) && IsEnvValue(env[k])
  }

  // A command under construction: nothing after it yet.
  predicate GoodSoFar(c: Node) {
    GoodCommand(c, false)
  }

  // Only plain words count as arguments.
  predicate PlainItem(item: Item) {
    item.Word? ==> !IsSign(item.word)
  }

  predicate AllPlain(items: seq<Item>) {
    forall i :: 0 <= i < |items| ==> PlainItem(items[i])
  }

  lemma {:induction false} AddItemsGood(c: Node, items: seq<Item>)
    requires GoodSoFar(c) && AllPlain(items)
    ensures AddItems(c, items).Some? ==> GoodSoFar(AddItems(c, items).value)
    decreases |items|
  {
    if items != [] && AddItem(c, items[0]).Some? {
      assert PlainItem(items[0]);
      AddItemsGood(AddItem(c, items[0]).value, items[1..]);
    }
  }

  lemma {:induction false} ItemWords(tokens: seq<string>)
    ensures AllPlain(TakeItems(tokens).0)
    decreases |tokens|
  {
    if tokens != [] && !IsOperator(tokens[0]) {
      if tokens[0] == ">" || tokens[0] == "2>" || tokens[0] == "<" {
        if |tokens| > 1 {
          ItemWords(tokens[2..]);
        }
      } else {
        ItemWords(tokens[1..]);
      }
    }
  }

  lemma WellFormedPrepend(c: Node, op: Node, rest: seq<Node>)
    requires IsOp(op) && WellFormed(rest)
    requires GoodCommand(c, op.Pipe?) || (GoodChdir(c) && op.And?)
    ensures WellFormed([c, op] + rest)
  {
    assert ([c, op] + rest)[2..] == rest;
  }

  lemma {:induction false} ParsedWellFormed(env: EnvVars, tokens: seq<string>)
    requires EnvOk(env)
    ensures ParseList(env, tokens).Some? ==> WellFormed(ParseList(env, tokens).value)
    decreases |tokens|, 0
  {
    if tokens != [] {
      if EnvVar(tokens[0]).Some? {
        EnvVarParts(tokens[0]);
        var (name, value) := EnvVar(tokens[0]).value;
        ParsedWellFormed(env[name := value], tokens[1..]);
      } else if tokens[0] == "cd" {
        if env == map[] {
          ParsedCdWellFormed(None, tokens[1..]);
        }
      } else {
        ParsedCommandWellFormed(NewCommand(tokens[0], env), tokens[1..]);
      }
    }
  }

  lemma {:induction false} ParsedCdWellFormed(dir: Option<string>, tokens: seq<string>)
    requires dir.Some? ==> dir.value != "&&"
    ensures ParseCd(dir, tokens).Some? ==> WellFormed(ParseCd(dir, tokens).value)
    decreases |tokens|, 1
  {
    if tokens != [] {
      if tokens[0] == "&&" {
        ParsedWellFormed(map[], tokens[1..]);
        if ParseList(map[], tokens[1..]).Some? {
          WellFormedPrepend(Chdir(dir), And, ParseList(map[], tokens[1..]).value);
        }
      } else if dir.None? {
        ParsedCdWellFormed(Some(tokens[0]), tokens[1..]);
      }
    }
  }

  lemma {:induction false} ParsedCommandWellFormed(c: Node, tokens: seq<string>)
    requires GoodSoFar(c)
    ensures ParseCommand(c, tokens).Some? ==> WellFormed(ParseCommand(c, tokens).value)
    decreases |tokens|, 1
  {
    var (items, rest) := TakeItems(tokens);
    ItemWords(tokens);
    AddItemsGood(c, items);
    var done := AddItems(c, items);
    if done.Some? && rest != [] {
      ParsedWellFormed(map[], rest[1..]);
      var list := ParseList(map[], rest[1..]);
      if list.Some? {
        if rest[0] == "|" {
          if done.value.stdout == Inherit {
            WellFormedPrepend(done.value.(stdout := ToPipe), Pipe, list.value);
          }
        } else {
          WellFormedPrepend(done.value, if rest[0] == "&&" then And else Or, list.value);
        }
      }
    }
  }

  // ----- Printing

  // Assignment tokens, in some order of the names.
  ghost function EnvTokens(env: EnvVars): seq<string>
    decreases env.Keys
  {
    if env == map[] then []
    else
      assert env.Keys != {};
      var k :| k in env.Keys;
      [k + "=" + env[k]] + EnvTokens(env - {k})
  }

  function RedirectItems(c: Node): seq<Item>
    requires c.Command?
  {
    (if c.stdin.Some? then [In(c.stdin.value)] else [])
    + (if c.stdout.ToFile? then [Out(c.stdout.name)] else [])
    + (if c.stderr.ToFile? then [Err(c.stderr.name)] else if c.stderr.ToStdout? then [ErrToOut] else [])
  }

  function OneItem(item: Item): seq<string> {
    match item
    case Word(w) => [w]
    case Out(f) => [">", f]
    case Err(f) => ["2>", f]
    case ErrToOut => ["2>&1"]
    case In(f) => ["<", f]
  }

  function ItemTokens(items: seq<Item>): seq<string> {
    if items == [] then [] else OneItem(items[0]) + ItemTokens(items[1..])
  }

  function Words(args: seq<string>): seq<Item> {
    seq(|args|, i requires 0 <= i < |args| => Word(args[i]))
  }

  ghost function NodeTokens(n: Node): seq<string> {
    match n
    case Command(name, argv, _, _, _, env) =>
      EnvTokens(if env.Some? then env.value else map[]) + [name]
      + ItemTokens(Words(if argv == [] then [] else argv[1..]) + RedirectItems(n))
    case Chdir(dir) => ["cd"] + if dir.Some? then [dir.value] else []
    case Pipe => ["|"]
    case And => ["&&"]
    case Or => ["||"]
  }

  ghost function Tokens(p: seq<Node>): seq<string> {
    if p == [] then [] else NodeTokens(p[0]) + Tokens(p[1..])
  }

  // ----- Parsing back

  lemma {:induction false} TakeItemsBack(items: seq<Item>, rest: seq<string>)
    requires AllPlain(items)
    requires rest == [] || IsOperator(rest[0])
    ensures TakeItems(ItemTokens(items) + rest) == (items, rest)
  {
    if items == [] {
      assert ItemTokens(items) + rest == rest;
    } else {
      TakeItemsBack(items[1..], rest);
      Reassociate(OneItem(items[0]), ItemTokens(items[1..]), rest);
      TakeOneItem(items[0], ItemTokens(items[1..]) + rest, (items[1..], rest));
      FirstAndRest(items);
    }
  }

  lemma TakeOneItem(item: Item, tokens: seq<string>, taken: (seq<Item>, seq<string>))
    requires PlainItem(item) && TakeItems(tokens) == taken
    ensures TakeItems(OneItem(item) + tokens) == ([item] + taken.0, taken.1)
  {
    var all := OneItem(item) + tokens;
    if item.Word? || item.ErrToOut? {
      assert all[1..] == tokens;
    } else {
      assert all[2..] == tokens && all[1] == item.file;
    }
  }

  lemma {:induction false} AddWords(c: Node, args: seq<string>, more: seq<Item>)
    requires c.Command?
    ensures AddItems(c, Words(args) + more) == AddItems(c.(argv := c.argv + args), more)
    decreases |args|
  {
    if args == [] {
      assert Words(args) + more == more && c.argv + args == c.argv;
    } else {
      var c' := c.(argv := c.argv + [args[0]]);
      AddWords(c', args[1..], more);
      assert (Words(args) + more)[1..] == Words(args[1..]) + more;
      assert c'.argv + args[1..] == c.argv + args;
    }
  }

  // The bare command, before its redirections are added.
  function Bare(c: Node): Node
    requires c.Command?
  {
    Command(c.name, c.argv, None, Inherit, Inherit, c.envVars)
  }

  lemma AddRedirects(c: Node)
    requires c.Command? && !c.stdout.ToStdout? && !c.stderr.ToPipe?
    ensures AddItems(Bare(c), RedirectItems(c)) == Some(c.(stdout := if c.stdout.ToPipe? then Inherit else c.stdout))
  {
    var inp := if c.stdin.Some? then [In(c.stdin.value)] else [];
    var out := if c.stdout.ToFile? then [Out(c.stdout.name)] else [];
    var err := if c.stderr.ToFile? then [Err(c.stderr.name)] else if c.stderr.ToStdout? then [ErrToOut] else [];
    var b := Bare(c);
    var b1 := b.(stdin := c.stdin);
    var b2 := b1.(stdout := if c.stdout.ToFile? then c.stdout else Inherit);
    AddOptional(b, inp, out + err);
    assert AddItems(b, inp + (out + err)) == AddItems(b1, out + err);
    AddOptional(b1, out, err);
    assert AddItems(b1, out + err) == AddItems(b2, err);
    Reassociate(inp, out, err);
    AddLast(c, b2, err);
  }

  lemma AddLast(c: Node, b: Node, err: seq<Item>)
    requires c.Command? && b == c.(stdout := if c.stdout.ToFile? then c.stdout else Inherit, stderr := Inherit)
    requires !c.stderr.ToPipe?
    requires err == if c.stderr.ToFile? then [Err(c.stderr.name)] else if c.stderr.ToStdout? then [ErrToOut] else []
    ensures AddItems(b, err) == Some(b.(stderr := c.stderr))
  {
    AddOptional(b, err, []);
    assert err + [] == err;
  }

  lemma AddOptional(c: Node, item: seq<Item>, more: seq<Item>)
    requires c.Command? && |item| <= 1
    ensures AddItems(c, item + more) ==
      if item == [] then AddItems(c, more)
      else if AddItem(c, item[0]).None? then None else AddItems(AddItem(c, item[0]).value, more)
  {
    if item == [] {
      assert item + more == more;
    } else {
      assert (item + more)[1..] == more;
    }
  }

  lemma {:induction false} EnvTokensBack(seen: EnvVars, env: EnvVars, rest: seq<string>)
    requires EnvOk(env)
    ensures ParseList(seen, EnvTokens(env) + rest) == ParseList(seen + env, rest)
    decreases env.Keys
  {
    if env == map[] {
      assert EnvTokens(env) + rest == rest && seen + env == seen;
    } else {
      var k :| k in env.Keys && EnvTokens(env) == [k + "=" + env[k]] + EnvTokens(env - {k});
      var later := EnvTokens(env - {k}) + rest;
      assert EnvTokens(env) + rest == [k + "=" + env[k]] + later;
      OneAssignment(seen, k, env[k], later);
      EnvTokensBack(seen[k := env[k]], env - {k}, rest);
      MoveOne(seen, env, k);
    }
  }

  lemma MoveOne(seen: EnvVars, env: EnvVars, k: string)
    requires k in env
    ensures seen[k := env[k]] + (env - {k}) == seen + env
  {
  }

  lemma OneAssignment(seen: EnvVars, name: string, value: string, tokens: seq<string>)
    requires IsEnvName(name) && IsEnvValue(value)
    ensures ParseList(seen, [name + "=" + value] + tokens) == ParseList(seen[name := value], tokens)
  {
    EnvVarRoundTrip(name, value);
    assert ([name + "=" + value] + tokens)[1..] == tokens;
  }

  function EnvOf(c: Node): EnvVars
    requires c.Command?
  {
    if c.envVars.Some? then c.envVars.value else map[]
  }

  // The items of a command collect back into it; only the pipe mark comes later.
  lemma ItemsBack(c: Node, piped: bool)
    requires GoodCommand(c, piped)
    ensures AddItems(NewCommand(c.name, EnvOf(c)), Words(c.argv[1..]) + RedirectItems(c))
      == Some(c.(stdout := if piped then Inherit else c.stdout))
  {
    AddWords(NewCommand(c.name, EnvOf(c)), c.argv[1..], RedirectItems(c));
    assert [c.name] + c.argv[1..] == c.argv;
    AddRedirects(c);
  }

  lemma ItemsPlain(c: Node, piped: bool)
    requires GoodCommand(c, piped)
    ensures AllPlain(Words(c.argv[1..]) + RedirectItems(c))
  {
    var items, args := Words(c.argv[1..]) + RedirectItems(c), c.argv[1..];
    forall i | 0 <= i < |items| ensures PlainItem(items[i]) {
      if i < |args| {
        assert items[i] == Word(args[i]) && args[i] == c.argv[i + 1];
      } else {
        assert items[i] == RedirectItems(c)[i - |args|];
      }
    }
  }

  lemma CommandBack(c: Node, piped: bool, rest: seq<string>)
    requires GoodCommand(c, piped) && (rest == [] || IsOperator(rest[0])) && (piped <==> rest != [] && rest[0] == "|")
    ensures ParseList(map[], NodeTokens(c) + rest) ==
      if rest == [] then Some([c])
      else Prepend([c, if piped then Pipe else if rest[0] == "&&" then And else Or], ParseList(map[], rest[1..]))
  {
    var items := Words(c.argv[1..]) + RedirectItems(c);
    var tail := ItemTokens(items) + rest;
    CommandTokens(c, rest, tail);
    ItemsPlain(c, piped);
    TakeItemsBack(items, rest);
    ItemsBack(c, piped);
  }

  // Past the assignments and the name, the parser stands before the items.
  lemma CommandTokens(c: Node, rest: seq<string>, tail: seq<string>)
    requires c.Command? && c.argv != [] && c.name != "cd" && EnvVar(c.name).None? && EnvOk(EnvOf(c))
    requires tail == ItemTokens(Words(c.argv[1..]) + RedirectItems(c)) + rest
    ensures ParseList(map[], NodeTokens(c) + rest) == ParseCommand(NewCommand(c.name, EnvOf(c)), tail)
  {
    NodeTokensSplit(c, rest, tail);
    EnvTokensBack(map[], EnvOf(c), [c.name] + tail);
    assert map[] + EnvOf(c) == EnvOf(c);
  }

  lemma NodeTokensSplit(c: Node, rest: seq<string>, tail: seq<string>)
    requires c.Command? && c.argv != []
    requires tail == ItemTokens(Words(c.argv[1..]) + RedirectItems(c)) + rest
    ensures NodeTokens(c) + rest == EnvTokens(EnvOf(c)) + ([c.name] + tail)
  {
  }

  lemma ChdirBack(c: Node, rest: seq<string>)
    requires GoodChdir(c) && (rest == [] || rest[0] == "&&")
    ensures ParseList(map[], NodeTokens(c) + rest) ==
      if rest == [] then Some([c]) else Prepend([c, And], ParseList(map[], rest[1..]))
  {
    var tail := (if c.dir.Some? then [c.dir.value] else []) + rest;
    var tokens := NodeTokens(c) + rest;
    assert tokens == ["cd"] + tail;
    assert tokens[1..] == tail;
    assert ParseList(map[], tokens) == ParseCd(None, tail);
    if c.dir.Some? {
      assert tail[1..] == rest;
    }
    assert ParseCd(None, tail) == ParseCd(c.dir, rest);
  }

  // Printing a well-formed pipeline and parsing the tokens gives the pipeline back.
  lemma {:induction false} PrintThenParse(p: seq<Node>)
    requires WellFormed(p)
    ensures ParseList(map[], Tokens(p)) == Some(p)
    decreases |p|
  {
    if |p| == 1 {
      assert Tokens(p) == NodeTokens(p[0]) + [];
      if p[0].Command? {
        CommandBack(p[0], false, []);
      } else {
        ChdirBack(p[0], []);
      }
      assert [p[0]] == p;
    } else {
      PrintThenParse(p[2..]);
      var rest := NodeTokens(p[1]) + Tokens(p[2..]);
      TokensSplit(p, rest);
      if p[0].Command? {
        CommandBack(p[0], p[1].Pipe?, rest);
      } else {
        ChdirBack(p[0], rest);
      }
    }
  }

  lemma TokensSplit(p: seq<Node>, rest: seq<string>)
    requires |p| > 1 && IsOp(p[1]) && rest == NodeTokens(p[1]) + Tokens(p[2..])
    ensures Tokens(p) == NodeTokens(p[0]) + rest
    ensures rest != [] && rest[0] == NodeTokens(p[1])[0] && rest[1..] == Tokens(p[2..])
    ensures [p[0], p[1]] + p[2..] == p
  {
    assert p[1..][1..] == p[2..];
  }

  // A node list can come out of the parser if and only if it is well formed.
  lemma ParsableIffWellFormed(p: seq<Node>)
    ensures WellFormed(p) <==> exists tokens :: ParseList(map[], tokens) == Some(p)
  {
    if WellFormed(p) {
      PrintThenParse(p);
    }
    if tokens :| ParseList(map[], tokens) == Some(p) {
      ParsedWellFormed(map[], tokens);
    }
  }
}
