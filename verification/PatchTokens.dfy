/** What `parse_patchset` (utils/check-style.py) makes of any text: what its lines mean, where
    chunks and lines end up, and which texts it refuses. */
module PatchTokens {
  import opened Options
  import opened PatchText
  import opened PatchRoundTrip
  import opened Sequences

  // ----- What a line of text means

  // A number followed by `end`.
  ghost predicate StartsWithNumber(s: string, end: string, n: nat, rest: string) {
    exists digits :: digits != "" && AllDigits(digits) && Number(digits) == n && s == digits + (end + rest)
  }

  lemma TakeNumberIff(s: string, end: string, n: nat, rest: string)
    requires end != "" && !IsDigit(end[0])
    ensures TakeNumber(s, end) == Some((n, rest)) <==> StartsWithNumber(s, end, n, rest)
  {
    if TakeNumber(s, end) == Some((n, rest)) {
      var k := DigitsLength(s);
      assert s == s[..k] + s[k..] && s[k..] == end + s[k..][|end|..] && s[k..][|end|..] == s[k + |end|..];
    }
    if StartsWithNumber(s, end, n, rest) {
      var digits :| digits != "" && AllDigits(digits) && Number(digits) == n && s == digits + (end + rest);
      DigitsThen(digits, end + rest);
      assert s[..|digits|] == digits && s[|digits|..] == end + rest;
      assert s[|digits| + |end|..] == rest;
    }
  }

  // "@@ -a,b +c,d @@", whatever follows.
  ghost predicate IsHeader(s: string, a: nat, b: nat, c: nat, d: nat) {
    exists s1, s2, s3, s4 :: HeaderParts(s, a, b, c, d, s1, s2, s3, s4)
  }

  ghost predicate HeaderParts(s: string, a: nat, b: nat, c: nat, d: nat, s1: string, s2: string, s3: string,
                              s4: string)
  {
    && "@@ -" <= s && StartsWithNumber(s[4..], ",", a, s1) && StartsWithNumber(s1, " +", b, s2)
    && StartsWithNumber(s2, ",", c, s3) && StartsWithNumber(s3, " @@", d, s4)
  }

  lemma HeaderIff(s: string, a: nat, b: nat, c: nat, d: nat)
    ensures ChunkStart(s) == Some((a, b, c, d)) <==> IsHeader(s, a, b, c, d)
  {
    if ChunkStart(s) == Some((a, b, c, d)) {
      var n1 := TakeNumber(s[4..], ",").value;
      var n2 := TakeNumber(n1.1, " +").value;
      var n3 := TakeNumber(n2.1, ",").value;
      var n4 := TakeNumber(n3.1, " @@").value;
      TakeNumberIff(s[4..], ",", a, n1.1);
      TakeNumberIff(n1.1, " +", b, n2.1);
      TakeNumberIff(n2.1, ",", c, n3.1);
      TakeNumberIff(n3.1, " @@", d, n4.1);
      assert HeaderParts(s, a, b, c, d, n1.1, n2.1, n3.1, n4.1);
    }
    if IsHeader(s, a, b, c, d) {
      var s1, s2, s3, s4 :| HeaderParts(s, a, b, c, d, s1, s2, s3, s4);
      TakeNumberIff(s[4..], ",", a, s1);
      TakeNumberIff(s1, " +", b, s2);
      TakeNumberIff(s2, ",", c, s3);
      TakeNumberIff(s3, " @@", d, s4);
    }
  }

  // Every line is what it is read as, printed; what is not read starts with none of the signs.
  lemma TokenText(s: string)
    ensures match Classify(s) {
      case SrcFile(name) => s == "--- " + name
      case DstFile(name) => s == "+++ " + name
      case StartChunk(a, c) => exists b, d :: IsHeader(s, a, b, c, d)
      case Body(l) => s == LineText(l) && GoodLine(l)
      case Unknown => !("-" <= s) && !("+" <= s) && !(" " <= s) && forall a, b, c, d :: !IsHeader(s, a, b, c, d)
    }
  {
    match Classify(s) {
      case StartChunk(_, _) =>
        var h := ChunkStart(s).value;
        HeaderIff(s, h.0, h.1, h.2, h.3);
      case Body(l) => LineAgain(s, l);
      case Unknown =>
        forall a, b, c, d ensures !IsHeader(s, a, b, c, d) {
          HeaderIff(s, a, b, c, d);
        }
      case _ =>
    }
  }

  lemma LineAgain(s: string, l: Line)
    requires Classify(s) == Body(l)
    ensures s == LineText(l) && GoodLine(l)
  {
    assert s == s[..1] + s[1..];
    assert s[..1] == "-" || s[..1] == "+" || s[..1] == " ";
    LineToken(l);
  }

  // ----- Where chunks and lines end up

  // The chunk headers and lines of a text, in order.
  function BodyTokens(text: seq<string>): seq<Token> {
    if text == [] then []
    else
      var last := Classify(text[|text| - 1]);
      BodyTokens(text[..|text| - 1]) + if last.StartChunk? || last.Body? then [last] else []
  }

  // The source file headers and chunk headers of a text, in order.
  function HeadTokens(text: seq<string>): seq<Token> {
    if text == [] then []
    else
      var last := Classify(text[|text| - 1]);
      HeadTokens(text[..|text| - 1]) + if last.SrcFile? || last.StartChunk? then [last] else []
  }

  function LinesTokens(lines: seq<Line>): seq<Token> {
    if lines == [] then [] else LinesTokens(lines[..|lines| - 1]) + [Body(lines[|lines| - 1])]
  }

  function ChunksTokens(chunks: seq<Chunk>): seq<Token> {
    if chunks == [] then []
    else
      var last := chunks[|chunks| - 1];
      ChunksTokens(chunks[..|chunks| - 1]) + ([StartChunk(last.srcPos, last.dstPos)] + LinesTokens(last.lines))
  }

  // The chunks of all patches one after the other, each with its lines.
  function PatchesTokens(ps: seq<Patch>): seq<Token> {
    if ps == [] then [] else PatchesTokens(ps[..|ps| - 1]) + ChunksTokens(ps[|ps| - 1].chunks)
  }

  function ChunkHeads(chunks: seq<Chunk>): seq<Token> {
    if chunks == [] then []
    else
      var last := chunks[|chunks| - 1];
      ChunkHeads(chunks[..|chunks| - 1]) + [StartChunk(last.srcPos, last.dstPos)]
  }

  // The patches one after the other, each with the headers of its chunks.
  function PatchesHeads(ps: seq<Patch>): seq<Token> {
    if ps == [] then []
    else PatchesHeads(ps[..|ps| - 1]) + ([SrcFile(ps[|ps| - 1].src)] + ChunkHeads(ps[|ps| - 1].chunks))
  }

  // The current chunk is the last one of all.
  ghost predicate CurrentIsLast(st: ParseState)
    requires ValidState(st)
  {
    && (st.chunk.None? ==> forall i :: 0 <= i < |st.patches| ==> st.patches[i].chunks == [])
    && (st.chunk.Some? ==>
          && st.chunk.value.1 == |st.patches[st.chunk.value.0].chunks| - 1
          && forall i :: st.chunk.value.0 < i < |st.patches| ==> st.patches[i].chunks == [])
  }

  lemma {:induction false} LineAdded(ps: seq<Patch>, i: nat, j: nat, l: Line)
    requires i < |ps| && j == |ps[i].chunks| - 1 && forall k :: i < k < |ps| ==> ps[k].chunks == []
    ensures PatchesTokens(AddLineAt(ps, i, j, l)) == PatchesTokens(ps) + [Body(l)]
    ensures PatchesHeads(AddLineAt(ps, i, j, l)) == PatchesHeads(ps)
    decreases |ps|
  {
    var n := |ps| - 1;
    var more := AddLineAt(ps, i, j, l);
    if i == n {
      assert more[..n] == ps[..n];
      ChunkLineAdded(ps[n].chunks, l);
      Reassociate(PatchesTokens(ps[..n]), ChunksTokens(ps[n].chunks), [Body(l)]);
    } else {
      assert more[..n] == AddLineAt(ps[..n], i, j, l) && more[n] == ps[n] && ps[n].chunks == [];
      LineAdded(ps[..n], i, j, l);
    }
  }

  lemma ChunkLineAdded(chunks: seq<Chunk>, l: Line)
    requires chunks != []
    ensures var n := |chunks| - 1;
      var more := chunks[n := chunks[n].(lines := chunks[n].lines + [l])];
      ChunksTokens(more) == ChunksTokens(chunks) + [Body(l)] && ChunkHeads(more) == ChunkHeads(chunks)
  {
    var n := |chunks| - 1;
    var c := chunks[n];
    var more := chunks[n := c.(lines := c.lines + [l])];
    assert more[..n] == chunks[..n];
    assert (c.lines + [l])[..|c.lines|] == c.lines;
    var start := [StartChunk(c.srcPos, c.dstPos)];
    Reassociate(start, LinesTokens(c.lines), [Body(l)]);
    Reassociate(ChunksTokens(chunks[..n]), start + LinesTokens(c.lines), [Body(l)]);
  }

  lemma ChunkAdded(ps: seq<Patch>, srcPos: nat, dstPos: nat)
    requires ps != []
    ensures var n := |ps| - 1;
      var more := ps[n := ps[n].(chunks := ps[n].chunks + [Chunk(srcPos, dstPos, [])])];
      && PatchesTokens(more) == PatchesTokens(ps) + [StartChunk(srcPos, dstPos)]
      && PatchesHeads(more) == PatchesHeads(ps) + [StartChunk(srcPos, dstPos)]
  {
    var n := |ps| - 1;
    var chunks, token := ps[n].chunks, [StartChunk(srcPos, dstPos)];
    var chunks' := chunks + [Chunk(srcPos, dstPos, [])];
    assert ps[n := ps[n].(chunks := chunks')][..n] == ps[..n];
    assert chunks'[..|chunks|] == chunks;
    assert token + [] == token;
    Reassociate(PatchesTokens(ps[..n]), ChunksTokens(chunks), token);
    Reassociate([SrcFile(ps[n].src)], ChunkHeads(chunks), token);
    Reassociate(PatchesHeads(ps[..n]), [SrcFile(ps[n].src)] + ChunkHeads(chunks), token);
  }

  lemma PatchAdded(ps: seq<Patch>, name: string)
    ensures var more := ps + [Patch(name, "", [])];
      PatchesTokens(more) == PatchesTokens(ps) && PatchesHeads(more) == PatchesHeads(ps) + [SrcFile(name)]
  {
    assert (ps + [Patch(name, "", [])])[..|ps|] == ps;
  }

  lemma NameSet(ps: seq<Patch>, name: string)
    requires ps != []
    ensures var n := |ps| - 1;
      var more := ps[n := ps[n].(dst := name)];
      PatchesTokens(more) == PatchesTokens(ps) && PatchesHeads(more) == PatchesHeads(ps)
  {
    var n := |ps| - 1;
    assert ps[n := ps[n].(dst := name)][..n] == ps[..n];
  }

  // One line more.
  lemma StepTokens(st: ParseState, token: Token)
    requires ValidState(st) && CurrentIsLast(st) && Step(st, token).Some?
    ensures var ps, ps' := st.patches, Step(st, token).value.patches;
      && PatchesTokens(ps') == PatchesTokens(ps) + (if token.StartChunk? || token.Body? then [token] else [])
      && PatchesHeads(ps') == PatchesHeads(ps) + if token.SrcFile? || token.StartChunk? then [token] else []
  {
    var ps := st.patches;
    match token {
      case SrcFile(name) => PatchAdded(ps, name);
      case DstFile(name) => NameSet(ps, name);
      case StartChunk(srcPos, dstPos) => ChunkAdded(ps, srcPos, dstPos);
      case Body(l) => LineAdded(ps, st.chunk.value.0, st.chunk.value.1, l);
      case Unknown =>
    }
  }

  lemma StepKeepsLast(st: ParseState, token: Token)
    requires ValidState(st) && CurrentIsLast(st) && Step(st, token).Some?
    ensures CurrentIsLast(Step(st, token).value)
  {
  }

  const NOTHING_READ := ParseState([], None)

  lemma ReadOneMore(text: seq<string>)
    requires text != []
    ensures var front, last := text[..|text| - 1], text[|text| - 1];
      ParseFrom(NOTHING_READ, text) ==
        if ParseFrom(NOTHING_READ, front).None? then None
        else Step(ParseFrom(NOTHING_READ, front).value, Classify(last))
  {
    var front, last := text[..|text| - 1], text[|text| - 1];
    SplitLast(text);
    ParseConcat(NOTHING_READ, front, [last]);
    if ParseFrom(NOTHING_READ, front).Some? {
      var st := ParseFrom(NOTHING_READ, front).value;
      assert [last][1..] == [];
      assert ParseFrom(st, [last]) == Step(st, Classify(last));
    }
  }

  // Whatever is read: chunks and lines stay in the order of the text, every line in the last chunk
  // begun before it, and every chunk in the last patch begun before it.
  lemma {:induction false} ReadInOrder(text: seq<string>)
    requires ParseFrom(NOTHING_READ, text).Some?
    ensures CurrentIsLast(ParseFrom(NOTHING_READ, text).value)
    ensures PatchesTokens(ParseFrom(NOTHING_READ, text).value.patches) == BodyTokens(text)
    ensures PatchesHeads(ParseFrom(NOTHING_READ, text).value.patches) == HeadTokens(text)
    decreases |text|
  {
    if text != [] {
      ReadOneMore(text);
      ReadInOrder(text[..|text| - 1]);
      StepTokens(ParseFrom(NOTHING_READ, text[..|text| - 1]).value, Classify(text[|text| - 1]));
      StepKeepsLast(ParseFrom(NOTHING_READ, text[..|text| - 1]).value, Classify(text[|text| - 1]));
    }
  }

  // ----- Which texts are refused

  // A source file header, or a chunk header.
  predicate Begins(line: string, srcFile: bool) {
    if srcFile then Classify(line).SrcFile? else Classify(line).StartChunk?
  }

  ghost predicate SomeBefore(text: seq<string>, n: nat, srcFile: bool)
    requires n <= |text|
  {
    exists k :: 0 <= k < n && Begins(text[k], srcFile)
  }

  // A line that is none, a destination or chunk header before any source header, or a body line
  // before any chunk header.
  ghost predicate Refused(text: seq<string>, i: nat)
    requires i < |text|
  {
    match Classify(text[i])
    case SrcFile(_) => false
    case DstFile(_) => !SomeBefore(text, i, true)
    case StartChunk(_, _) => !SomeBefore(text, i, true)
    case Body(_) => !SomeBefore(text, i, false)
    case Unknown => true
  }

  ghost predicate NoneRefused(text: seq<string>) {
    forall i :: 0 <= i < |text| ==> !Refused(text, i)
  }

  lemma RefusedLast(text: seq<string>)
    requires text != []
    ensures NoneRefused(text) <==> NoneRefused(text[..|text| - 1]) && !Refused(text, |text| - 1)
  {
    var n := |text| - 1;
    var front := text[..n];
    forall i | 0 <= i < n ensures Refused(text, i) <==> Refused(front, i) {
      SameBefore(text, n, i);
      assert text[i] == front[i];
    }
  }

  lemma {:induction false} ReadState(text: seq<string>)
    ensures ParseFrom(NOTHING_READ, text).Some? <==> NoneRefused(text)
    ensures ParseFrom(NOTHING_READ, text).Some? ==>
      var st := ParseFrom(NOTHING_READ, text).value;
      && (st.patches != [] <==> SomeBefore(text, |text|, true))
      && (st.chunk.Some? <==> SomeBefore(text, |text|, false))
    decreases |text|
  {
    if text != [] {
      var n := |text| - 1;
      ReadOneMore(text);
      ReadState(text[..n]);
      RefusedLast(text);
      SameBefore(text, n, n);
      BeforeGrows(text, true);
      BeforeGrows(text, false);
    }
  }

  lemma SameBefore(text: seq<string>, n: nat, i: nat)
    requires i <= n <= |text|
    ensures SomeBefore(text, i, true) == SomeBefore(text[..n], i, true)
    ensures SomeBefore(text, i, false) == SomeBefore(text[..n], i, false)
  {
    assert forall k :: 0 <= k < n ==> text[k] == text[..n][k];
  }

  lemma BeforeGrows(text: seq<string>, srcFile: bool)
    requires text != []
    ensures SomeBefore(text, |text|, srcFile) <==>
      SomeBefore(text, |text| - 1, srcFile) || Begins(text[|text| - 1], srcFile)
  {
    var n := |text| - 1;
    if SomeBefore(text, n, srcFile) {
      var k :| 0 <= k < n && Begins(text[k], srcFile);
      assert 0 <= k < |text|;
    } else if SomeBefore(text, |text|, srcFile) {
      var k :| 0 <= k < |text| && Begins(text[k], srcFile);
      assert k == n;
    }
  }

  // A text is refused if and only if one of its lines is, by the lines before it.
  lemma RefusedIff(text: seq<string>)
    ensures ParsePatchSet(text).None? <==> exists i :: 0 <= i < |text| && Refused(text, i)
  {
    ReadState(text);
  }
}
