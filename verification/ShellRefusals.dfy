/** Which token lists the mini shell's parser refuses (waf-tools/shellcmd.py). */
module ShellRefusals {
  import opened Options
  import opened Sequences
  import opened ShellSyntax
  import opened ShellEval
  import opened ShellPrinting

  ghost predicate Accepted(tokens: seq<string>) {
    ParseList(map[], tokens).Some?
  }

  // Tokens like NAME=value.
  predicate Assignments(tokens: seq<string>) {
    forall i :: 0 <= i < |tokens| ==> EnvVar(tokens[i]).Some?
  }

  // A token is an assignment if and only if it can be put together as one; a final line feed is
  // not part of the value.
  lemma AssignmentIff(token: string)
    ensures EnvVar(token).Some? <==>
      exists name, value :: IsEnvName(name) && IsEnvValue(value)
        && (token == name + "=" + value || token == name + "=" + value + "\n")
  {
    if EnvVar(token).Some? {
      EnvVarParts(token);
      AssignmentAgain(token);
    }
    forall name, value | IsEnvName(name) && IsEnvValue(value)
      && (token == name + "=" + value || token == name + "=" + value + "\n")
      ensures EnvVar(token).Some?
    {
      if token == name + "=" + value {
        EnvVarRoundTrip(name, value);
      } else {
        EnvVarWithNewline(name, value);
      }
    }
  }

  lemma AssignmentAgain(token: string)
    requires EnvVar(token).Some?
    ensures var (name, value) := EnvVar(token).value;
      token == name + "=" + value || token == name + "=" + value + "\n"
  {
    var n := WordLength(token);
    var tail := token[n + 1..];
    assert token == token[..n] + "=" + tail;
    if tail != "" && tail[|tail| - 1] == '\n' {
      SplitLast(tail);
      assert token == token[..n] + "=" + tail[..|tail| - 1] + "\n";
    }
  }

  lemma EnvVarWithNewline(name: string, value: string)
    requires IsEnvName(name) && IsEnvValue(value)
    ensures EnvVar(name + "=" + value + "\n") == Some((name, value))
  {
    var token := name + "=" + value + "\n";
    assert token == name + ("=" + value + "\n");
    WordLengthIs(name, "=" + value + "\n");
    assert token[..|name|] == name && token[|name| + 1..] == value + "\n";
    assert (value + "\n")[..|value|] == value;
  }

  predicate AssignsName(token: string, name: string) {
    EnvVar(token).Some? && EnvVar(token).value.0 == name
  }

  // The last of the assignments of the name.
  predicate IsLast(assigns: seq<string>, i: nat, name: string) {
    && i < |assigns| && AssignsName(assigns[i], name)
    && forall j :: i < j < |assigns| ==> !AssignsName(assigns[j], name)
  }

  // Each name assigned has the value of its last assignment, and there are no others.
  ghost predicate AssignedBy(assigns: seq<string>, env: EnvVars) {
    && (forall name :: name in env ==> exists i :: IsLast(assigns, i, name))
    && forall name, i: nat :: IsLast(assigns, i, name) ==> name in env && env[name] == EnvVar(assigns[i]).value.1
  }

  // One more assignment is the last one of its name, and changes nothing for the others.
  lemma LastOfMore(assigns: seq<string>, token: string, more: seq<string>, name: string, i: nat)
    requires EnvVar(token).Some? && more == assigns + [token]
    ensures IsLast(more, i, name) <==>
      if AssignsName(token, name) then i == |assigns| else IsLast(assigns, i, name)
  {
    assert more[|assigns|] == token;
    assert forall j :: 0 <= j < |assigns| ==> more[j] == assigns[j];
  }

  lemma OneMoreAssignment(assigns: seq<string>, env: EnvVars, token: string)
    requires AssignedBy(assigns, env) && EnvVar(token).Some?
    ensures AssignedBy(assigns + [token], env[EnvVar(token).value.0 := EnvVar(token).value.1])
  {
    var more, env' := assigns + [token], env[EnvVar(token).value.0 := EnvVar(token).value.1];
    assert more[|assigns|] == token;
    forall name | name in env' ensures exists i :: IsLast(more, i, name) {
      if AssignsName(token, name) {
        LastOfMore(assigns, token, more, name, |assigns|);
      } else {
        var i :| IsLast(assigns, i, name);
        LastOfMore(assigns, token, more, name, i);
      }
    }
    forall name, i: nat | IsLast(more, i, name) ensures name in env' && env'[name] == EnvVar(more[i]).value.1 {
      LastOfMore(assigns, token, more, name, i);
    }
  }

  lemma {:induction false} AssignmentsRead(done: seq<string>, env: EnvVars, assigns: seq<string>, tokens: seq<string>)
    returns (env': EnvVars)
    requires Assignments(assigns) && AssignedBy(done, env)
    ensures AssignedBy(done + assigns, env')
    ensures ParseList(env, assigns + tokens) == ParseList(env', tokens)
    decreases |assigns|
  {
    if assigns == [] {
      env' := env;
      assert assigns + tokens == tokens && done + assigns == done;
    } else {
      var (name, value) := EnvVar(assigns[0]).value;
      OneMoreAssignment(done, env, assigns[0]);
      assert (assigns + tokens)[1..] == assigns[1..] + tokens;
      assert done + [assigns[0]] + assigns[1..] == done + assigns;
      env' := AssignmentsRead(done + [assigns[0]], env[name := value], assigns[1..], tokens);
    }
  }

  lemma EnvIsEmptyIff(assigns: seq<string>, env: EnvVars)
    requires Assignments(assigns) && AssignedBy(assigns, env)
    ensures env == map[] <==> assigns == []
  {
    if assigns != [] {
      var n := |assigns| - 1;
      assert IsLast(assigns, n, EnvVar(assigns[n]).value.0);
    }
    if env != map[] {
      var name :| name in env;
      var i :| IsLast(assigns, i, name);
    }
  }

  lemma AssignmentsTaken(assigns: seq<string>, tokens: seq<string>) returns (env: EnvVars)
    requires Assignments(assigns)
    ensures ParseList(map[], assigns + tokens) == ParseList(env, tokens)
    ensures AssignedBy(assigns, env) && (env == map[] <==> assigns == [])
  {
    env := AssignmentsRead([], map[], assigns, tokens);
    assert [] + assigns == assigns;
    EnvIsEmptyIff(assigns, env);
  }

  // Nothing but assignments is no command.
  lemma OnlyAssignmentsRefused(assigns: seq<string>)
    requires Assignments(assigns)
    ensures !Accepted(assigns)
  {
    var env := AssignmentsTaken(assigns, []);
    assert assigns + [] == assigns;
  }

  // A directory change takes no assignments, at most one directory, and nothing but && after it.
  lemma CdAcceptedIff(assigns: seq<string>, tail: seq<string>)
    requires Assignments(assigns)
    ensures Accepted(assigns + (["cd"] + tail)) <==>
      assigns == [] &&
      if tail == [] then true
      else if tail[0] == "&&" then Accepted(tail[1..])
      else |tail| == 1 || (tail[1] == "&&" && Accepted(tail[2..]))
  {
    var tokens := ["cd"] + tail;
    var env := AssignmentsTaken(assigns, tokens);
    CdIsNoAssignment();
    assert tokens[0] == "cd" && tokens[1..] == tail;
    CdTail(tail);
  }

  lemma CdTail(tail: seq<string>)
    ensures ParseCd(None, tail).Some? <==>
      if tail == [] then true
      else if tail[0] == "&&" then Accepted(tail[1..])
      else |tail| == 1 || (tail[1] == "&&" && Accepted(tail[2..]))
  {
    if tail != [] && tail[0] != "&&" {
      CdGiven(tail[0], tail[1..]);
      if |tail| > 1 {
        assert tail[1..][0] == tail[1] && tail[1..][1..] == tail[2..];
      }
    }
  }

  lemma CdGiven(dir: string, tail: seq<string>)
    ensures ParseCd(Some(dir), tail).Some? <==> tail == [] || (tail[0] == "&&" && Accepted(tail[1..]))
  {
  }

  lemma CdIsNoAssignment()
    ensures EnvVar("cd").None?
  {
    assert WordLength("cd"[2..]) == 0;
    assert "cd"[1..][1..] == "cd"[2..];
    assert WordLength("cd"[1..]) == 1;
  }

  // At most one redirection of each stream.
  ghost predicate RedirectedOnce(items: seq<Item>) {
    forall i, j :: 0 <= i < j < |items| ==>
      && !(items[i].Out? && items[j].Out?) && !(items[i].In? && items[j].In?)
      && !((items[i].Err? || items[i].ErrToOut?) && (items[j].Err? || items[j].ErrToOut?))
  }

  ghost predicate SomeOut(items: seq<Item>) {
    exists i :: 0 <= i < |items| && items[i].Out?
  }

  // A command is refused for a second redirection of a stream, for a pipe after its output was
  // redirected, and for what follows its operator.
  lemma CommandAcceptedIff(assigns: seq<string>, name: string, items: seq<Item>, rest: seq<string>)
    requires Assignments(assigns) && EnvVar(name).None? && name != "cd" && AllPlain(items)
    requires rest == [] || IsOperator(rest[0])
    ensures Accepted(assigns + ([name] + (ItemTokens(items) + rest))) <==>
      && RedirectedOnce(items)
      && (rest != [] ==> (rest[0] == "|" ==> !SomeOut(items)) && Accepted(rest[1..]))
  {
    var tokens := [name] + (ItemTokens(items) + rest);
    var env := AssignmentsTaken(assigns, tokens);
    assert tokens[0] == name && tokens[1..] == ItemTokens(items) + rest;
    TakeItemsBack(items, rest);
    NewCommandAccepted(NewCommand(name, env), tokens[1..], items, rest);
  }

  lemma NewCommandAccepted(c: Node, tokens: seq<string>, items: seq<Item>, rest: seq<string>)
    requires c.Command? && c.stdin == None && c.stdout == Inherit && c.stderr == Inherit
    requires TakeItems(tokens) == (items, rest)
    ensures ParseCommand(c, tokens).Some? <==>
      && RedirectedOnce(items)
      && (rest != [] ==> (rest[0] == "|" ==> !SomeOut(items)) && Accepted(rest[1..]))
  {
    ItemsCollected(c, items);
    OnceIff(items);
    OutIff(items);
    assert Redirectable(c, items) <==> RedirectedOnce(items);
    assert Redirectable(c, items) ==> (AddItems(c, items).value.stdout == Inherit <==> OutsAmong(items) == []) by {
      OutsAreFiles(items);
      assert OutsAmong(items) != [] ==> OutsAmong(items)[0] in OutsAmong(items);
    }
  }

  lemma {:induction false} OutsAreFiles(items: seq<Item>)
    ensures forall r :: r in OutsAmong(items) ==> r.ToFile?
    decreases |items|
  {
    if items != [] {
      OutsAreFiles(items[1..]);
    }
  }

  // A redirection sign at the very end is ignored.
  lemma LastSignIgnored(assigns: seq<string>, name: string, items: seq<Item>, sign: string)
    requires Assignments(assigns) && EnvVar(name).None? && name != "cd" && AllPlain(items)
    requires sign == ">" || sign == "2>" || sign == "<"
    ensures Accepted(assigns + ([name] + (ItemTokens(items) + [sign]))) <==> RedirectedOnce(items)
  {
    var tokens := [name] + (ItemTokens(items) + [sign]);
    var env := AssignmentsTaken(assigns, tokens);
    assert tokens[0] == name && tokens[1..] == ItemTokens(items) + [sign];
    TakeItemsToSign(items, sign);
    NewCommandAccepted(NewCommand(name, env), tokens[1..], items, []);
  }

  lemma {:induction false} TakeItemsToSign(items: seq<Item>, sign: string)
    requires AllPlain(items) && (sign == ">" || sign == "2>" || sign == "<")
    ensures TakeItems(ItemTokens(items) + [sign]) == (items, [])
  {
    if items == [] {
      assert ItemTokens(items) + [sign] == [sign];
    } else {
      TakeItemsToSign(items[1..], sign);
      Reassociate(OneItem(items[0]), ItemTokens(items[1..]), [sign]);
      TakeOneItem(items[0], ItemTokens(items[1..]) + [sign], (items[1..], []));
      FirstAndRest(items);
    }
  }

  // What follows a command name is always of one of these two forms.
  lemma {:induction false} ItemsOrSign(tokens: seq<string>)
    ensures var (items, rest) := TakeItems(tokens);
      AllPlain(items) &&
      (|| (tokens == ItemTokens(items) + rest && (rest == [] || IsOperator(rest[0])))
       || (rest == [] && tokens != [] && tokens == ItemTokens(items) + [tokens[|tokens| - 1]]
           && (tokens[|tokens| - 1] == ">" || tokens[|tokens| - 1] == "2>" || tokens[|tokens| - 1] == "<")))
    decreases |tokens|
  {
    ItemWords(tokens);
    if tokens == [] || IsOperator(tokens[0]) {
      assert ItemTokens([]) + tokens == tokens;
    } else if tokens[0] == ">" || tokens[0] == "2>" || tokens[0] == "<" {
      if |tokens| == 1 {
        assert tokens == [] + [tokens[0]];
      } else {
        ItemsOrSign(tokens[2..]);
        PutFirst(tokens, tokens[..2], tokens[2..]);
      }
    } else {
      ItemsOrSign(tokens[1..]);
      PutFirst(tokens, tokens[..1], tokens[1..]);
    }
  }

  lemma PutFirst(tokens: seq<string>, front: seq<string>, later: seq<string>)
    requires tokens == front + later && front != [] && TakeItems(tokens).0 != []
    requires OneItem(TakeItems(tokens).0[0]) == front && TakeItems(tokens).0[1..] == TakeItems(later).0
    requires TakeItems(tokens).1 == TakeItems(later).1
    ensures var (items, rest) := TakeItems(later);
      && (later == ItemTokens(items) + rest ==> tokens == ItemTokens(TakeItems(tokens).0) + rest)
      && (later != [] && later == ItemTokens(items) + [later[|later| - 1]] ==>
            tokens[|tokens| - 1] == later[|later| - 1]
            && tokens == ItemTokens(TakeItems(tokens).0) + [tokens[|tokens| - 1]])
  {
    var (items, rest) := TakeItems(later);
    Reassociate(front, ItemTokens(items), rest);
    if later != [] {
      Reassociate(front, ItemTokens(items), [later[|later| - 1]]);
    }
  }

  lemma {:induction false} OnceIff(items: seq<Item>)
    ensures RedirectedOnce(items) <==> |OutsAmong(items)| <= 1 && |ErrsAmong(items)| <= 1 && |InsAmong(items)| <= 1
    decreases |items|
  {
    if items != [] {
      var rest := items[1..];
      OnceIff(rest);
      NoneIff(rest);
      assert forall i :: 0 < i < |items| ==> items[i] == rest[i - 1];
      assert forall i :: 0 <= i < |rest| ==> rest[i] == items[i + 1];
    }
  }

  lemma {:induction false} NoneIff(items: seq<Item>)
    ensures OutsAmong(items) == [] <==> forall i :: 0 <= i < |items| ==> !items[i].Out?
    ensures InsAmong(items) == [] <==> forall i :: 0 <= i < |items| ==> !items[i].In?
    ensures ErrsAmong(items) == [] <==> forall i :: 0 <= i < |items| ==> !items[i].Err? && !items[i].ErrToOut?
    decreases |items|
  {
    if items != [] {
      NoneIff(items[1..]);
      assert forall i :: 0 < i < |items| ==> items[i] == items[1..][i - 1];
      assert forall i :: 0 <= i < |items[1..]| ==> items[1..][i] == items[i + 1];
    }
  }

  lemma OutIff(items: seq<Item>)
    ensures SomeOut(items) <==> OutsAmong(items) != []
  {
    NoneIff(items);
  }
}
