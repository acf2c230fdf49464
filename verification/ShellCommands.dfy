/** What the mini shell's parser makes of the tokens of one command (waf-tools/shellcmd.py). */
module ShellCommands {
  import opened Options
  import opened Sequences
  import opened ShellSyntax
  import opened ShellPrinting
  import opened ShellRefusals

  ghost function WordPlaces(items: seq<Item>): set<nat> {
    set i: nat | i < |items| && items[i].Word?
  }

  // The words among the items, in order.
  ghost predicate WordsAt(items: seq<Item>, words: seq<string>, at: seq<nat>) {
    && Places(at, WordPlaces(items)) && |words| == |at|
    && forall i :: 0 <= i < |at| ==> at[i] < |items| && items[at[i]] == Word(words[i])
  }

  lemma {:induction false} WordsOneMore(items: seq<Item>, item: Item)
    ensures WordsAmong(items + [item]) == WordsAmong(items) + if item.Word? then [item.word] else []
    decreases |items|
  {
    var more := items + [item];
    if items == [] {
      assert more[1..] == [] && WordsAmong(more) == (if item.Word? then [item.word] else []) + [];
    } else {
      var first, last := if items[0].Word? then [items[0].word] else [], if item.Word? then [item.word] else [];
      assert more[0] == items[0] && more[1..] == items[1..] + [item];
      WordsOneMore(items[1..], item);
      Reassociate(first, WordsAmong(items[1..]), last);
    }
  }

  lemma {:induction false} WordsInOrder(items: seq<Item>) returns (at: seq<nat>)
    ensures WordsAt(items, WordsAmong(items), at)
    decreases |items|
  {
    if items == [] {
      at := [];
    } else {
      var n := |items| - 1;
      var front, last := items[..n], items[n];
      at := WordsInOrder(front);
      SplitLast(items);
      WordsOneMore(front, last);
      assert forall i :: 0 <= i < n ==> items[i] == front[i];
      if last.Word? {
        assert WordPlaces(items) == WordPlaces(front) + {n};
        PlacesAppend(at, WordPlaces(front), n, WordPlaces(items));
        at := at + [n];
      } else {
        assert WordPlaces(items) == WordPlaces(front);
      }
    }
  }

  // The streams are those of the one redirection of each, or inherited.
  ghost predicate StreamsFrom(items: seq<Item>, c: Node)
    requires c.Command?
  {
    && (forall i :: 0 <= i < |items| ==>
         match items[i]
         case Word(_) => true
         case Out(file) => c.stdout == ToFile(file)
         case Err(file) => c.stderr == ToFile(file)
         case ErrToOut => c.stderr == ToStdout
         case In(file) => c.stdin == Some(file))
    && ((forall i :: 0 <= i < |items| ==> !items[i].Out?) ==> c.stdout == Inherit)
    && ((forall i :: 0 <= i < |items| ==> !items[i].Err? && !items[i].ErrToOut?) ==> c.stderr == Inherit)
    && ((forall i :: 0 <= i < |items| ==> !items[i].In?) ==> c.stdin == None)
  }

  lemma {:induction false} AmongHas(items: seq<Item>, i: nat)
    requires i < |items|
    ensures items[i].Out? ==> ToFile(items[i].file) in OutsAmong(items)
    ensures items[i].Err? ==> ToFile(items[i].file) in ErrsAmong(items)
    ensures items[i].ErrToOut? ==> ToStdout in ErrsAmong(items)
    ensures items[i].In? ==> items[i].file in InsAmong(items)
    decreases |items|
  {
    if i > 0 {
      AmongHas(items[1..], i - 1);
    }
  }

  lemma OnlyOne<T>(s: seq<T>, x: T)
    requires |s| <= 1 && x in s
    ensures s != [] && s[0] == x
  {
  }

  // One redirection decides its stream.
  lemma StreamFrom(c: Node, items: seq<Item>, i: nat)
    requires c.Command? && Redirectable(c, items) && i < |items|
    ensures items[i].Out? ==> Collected(c, items).stdout == ToFile(items[i].file)
    ensures items[i].Err? ==> Collected(c, items).stderr == ToFile(items[i].file)
    ensures items[i].ErrToOut? ==> Collected(c, items).stderr == ToStdout
    ensures items[i].In? ==> Collected(c, items).stdin == Some(items[i].file)
  {
    AmongHas(items, i);
    match items[i] {
      case Word(_) =>
      case Out(file) => OnlyOne(OutsAmong(items), ToFile(file));
      case Err(file) => OnlyOne(ErrsAmong(items), ToFile(file));
      case ErrToOut => OnlyOne(ErrsAmong(items), ToStdout);
      case In(file) => OnlyOne(InsAmong(items), file);
    }
  }

  lemma CollectedStreams(c: Node, items: seq<Item>, c': Node)
    requires c.Command? && c.stdout == Inherit && c.stderr == Inherit && c.stdin == None
    requires Redirectable(c, items) && c' == Collected(c, items)
    ensures StreamsFrom(items, c')
  {
    forall i | 0 <= i < |items|
      ensures items[i].Out? ==> c'.stdout == ToFile(items[i].file)
      ensures items[i].Err? ==> c'.stderr == ToFile(items[i].file)
      ensures items[i].ErrToOut? ==> c'.stderr == ToStdout
      ensures items[i].In? ==> c'.stdin == Some(items[i].file)
    {
      StreamFrom(c, items, i);
    }
    NoneIff(items);
  }

  // A command as a whole: its name and words become its arguments in order, its redirections its
  // streams, and of several assignments of a name the last one counts.
  lemma CommandRead(assigns: seq<string>, name: string, items: seq<Item>) returns (c: Node, at: seq<nat>)
    requires Assignments(assigns) && EnvVar(name).None? && name != "cd" && AllPlain(items) && RedirectedOnce(items)
    ensures ParseList(map[], assigns + ([name] + ItemTokens(items))) == Some([c]) && c.Command?
    ensures c.name == name && c.argv != [] && c.argv[0] == name && WordsAt(items, c.argv[1..], at)
    ensures StreamsFrom(items, c)
    ensures if assigns == [] then c.envVars == None else c.envVars.Some? && AssignedBy(assigns, c.envVars.value)
  {
    var tokens := [name] + ItemTokens(items);
    var env := AssignmentsTaken(assigns, tokens);
    assert tokens[0] == name && tokens[1..] == ItemTokens(items);
    c, at := ItemsRead(NewCommand(name, env), items);
  }

  // The words and redirections of a new command.
  lemma ItemsRead(start: Node, items: seq<Item>) returns (c: Node, at: seq<nat>)
    requires start.Command? && start.stdout == Inherit && start.stderr == Inherit && start.stdin == None
    requires AllPlain(items) && RedirectedOnce(items)
    ensures ParseCommand(start, ItemTokens(items)) == Some([c]) && c.Command? && StreamsFrom(items, c)
    ensures c.name == start.name && c.envVars == start.envVars
    ensures start.argv <= c.argv && WordsAt(items, c.argv[|start.argv|..], at)
  {
    assert ItemTokens(items) == ItemTokens(items) + [];
    TakeItemsBack(items, []);
    OnceIff(items);
    ItemsCollected(start, items);
    c := Collected(start, items);
    CollectedStreams(start, items, c);
    at := WordsInOrder(items);
    assert c.argv[|start.argv|..] == WordsAmong(items);
  }
}
