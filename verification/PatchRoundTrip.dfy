/** Reading printed patches back (`parse_patchset` and `write`, utils/check-style.py), on values:
    when the text gives the same patch set, and that it never does otherwise. */
module PatchRoundTrip {
  import opened Options
  import opened PatchText
  import opened Sequences

  // The patches so far, and which chunk of which patch is current_chunk: a new file header does
  // not change it.
  datatype ParseState = ParseState(patches: seq<Patch>, chunk: Option<(nat, nat)>)

  predicate ValidState(st: ParseState) {
    st.chunk.Some? ==> st.chunk.value.0 < |st.patches| && st.chunk.value.1 < |st.patches[st.chunk.value.0].chunks|
  }

  function AddLineAt(patches: seq<Patch>, i: nat, j: nat, l: Line): seq<Patch>
    requires i < |patches| && j < |patches[i].chunks|
  {
    var c := patches[i].chunks[j];
    patches[i := patches[i].(chunks := patches[i].chunks[j := c.(lines := c.lines + [l])])]
  }

  // One line of text; None is an exception.
  function Step(st: ParseState, token: Token): (r: Option<ParseState>)
    requires ValidState(st)
    ensures r.Some? ==> ValidState(r.value)
  {
    var n := |st.patches|;
    match token
    case SrcFile(name) => Some(st.(patches := st.patches + [Patch(name, "", [])]))
    case DstFile(name) =>
      if n == 0 then None else Some(st.(patches := st.patches[n - 1 := st.patches[n - 1].(dst := name)]))
    case StartChunk(srcPos, dstPos) =>
      if n == 0 then None
      else
        var p := st.patches[n - 1];
        var p' := p.(chunks := p.chunks + [Chunk(srcPos, dstPos, [])]);
        Some(ParseState(st.patches[n - 1 := p'], Some((n - 1, |p.chunks|))))
    case Body(l) =>
      if st.chunk.None? then None
      else Some(st.(patches := AddLineAt(st.patches, st.chunk.value.0, st.chunk.value.1, l)))
    case Unknown => None
  }

  function ParseFrom(st: ParseState, lines: seq<string>): (r: Option<ParseState>)
    requires ValidState(st)
    ensures r.Some? ==> ValidState(r.value)
    decreases |lines|
  {
    if lines == [] then Some(st)
    else
      var next := Step(st, Classify(lines[0]));
      if next.None? then None else ParseFrom(next.value, lines[1..])
  }

  // The patch set read from a text, or None for an exception.
  function ParsePatchSet(lines: seq<string>): Option<seq<Patch>> {
    var r := ParseFrom(ParseState([], None), lines);
    if r.None? then None else Some(r.value.patches)
  }

  lemma {:induction false} ParseConcat(st: ParseState, a: seq<string>, b: seq<string>)
    requires ValidState(st)
    ensures ParseFrom(st, a + b) ==
      if ParseFrom(st, a).None? then None else ParseFrom(ParseFrom(st, a).value, b)
    decreases |a|
  {
    if a == [] {
      assert a + b == b;
    } else {
      assert (a + b)[1..] == a[1..] + b;
      var next := Step(st, Classify(a[0]));
      if next.Some? {
        ParseConcat(next.value, a[1..], b);
      }
    }
  }

  // ----- Good patches come back

  predicate GoodLines(lines: seq<Line>) {
    forall i :: 0 <= i < |lines| ==> GoodLine(lines[i])
  }

  predicate GoodChunk(c: Chunk) {
    GoodLines(c.lines)
  }

  predicate GoodChunks(chunks: seq<Chunk>) {
    forall i :: 0 <= i < |chunks| ==> GoodChunk(chunks[i])
  }

  predicate GoodPatch(p: Patch) {
    GoodChunks(p.chunks)
  }

  predicate GoodPatchSet(ps: seq<Patch>) {
    forall i :: 0 <= i < |ps| ==> GoodPatch(ps[i])
  }

  // The state in which `patches` plus a last patch were read and its last chunk is current.
  function AtChunk(before: seq<Patch>, p: Patch): ParseState
    requires p.chunks != []
  {
    ParseState(before + [p], Some((|before|, |p.chunks| - 1)))
  }

  function WithLines(p: Patch, lines: seq<Line>): Patch
    requires p.chunks != []
  {
    var j := |p.chunks| - 1;
    p.(chunks := p.chunks[j := p.chunks[j].(lines := lines)])
  }

  lemma {:induction false} LinesBack(before: seq<Patch>, p: Patch, lines: seq<Line>)
    requires p.chunks != [] && p.chunks[|p.chunks| - 1].lines == []
    requires forall i :: 0 <= i < |lines| ==> GoodLine(lines[i])
    ensures ParseFrom(AtChunk(before, p), LineTexts(lines)) == Some(AtChunk(before, WithLines(p, lines)))
    decreases |lines|
  {
    if lines == [] {
      assert WithLines(p, []) == p;
    } else {
      var front, last := lines[..|lines| - 1], lines[|lines| - 1];
      LinesBack(before, p, front);
      ParseConcat(AtChunk(before, p), LineTexts(front), [LineText(last)]);
      TakeLine(lines);
      LineBack(before, WithLines(p, front), last);
      WithLinesTwice(p, front, lines);
    }
  }

  lemma TakeLine(lines: seq<Line>)
    requires lines != []
    ensures lines == lines[..|lines| - 1] + [lines[|lines| - 1]]
    ensures LineTexts(lines) == LineTexts(lines[..|lines| - 1]) + [LineText(lines[|lines| - 1])]
  {
  }

  lemma WithLinesTwice(p: Patch, a: seq<Line>, b: seq<Line>)
    requires p.chunks != []
    ensures WithLines(WithLines(p, a), b) == WithLines(p, b)
  {
  }

  lemma LineBack(before: seq<Patch>, p: Patch, l: Line)
    requires p.chunks != [] && GoodLine(l)
    ensures ParseFrom(AtChunk(before, p), [LineText(l)]) ==
      Some(AtChunk(before, WithLines(p, p.chunks[|p.chunks| - 1].lines + [l])))
  {
    LineToken(l);
    var st := AtChunk(before, p);
    var q := WithLines(p, p.chunks[|p.chunks| - 1].lines + [l]);
    assert AddLineAt(st.patches, |before|, |p.chunks| - 1, l) == before + [q];
    OneLine(st, LineText(l));
  }

  lemma OneLine(st: ParseState, s: string)
    requires ValidState(st)
    ensures ParseFrom(st, [s]) == Step(st, Classify(s))
  {
    assert [s][1..] == [];
  }

  lemma {:induction false} ChunksBack(before: seq<Patch>, p: Patch, chunk: Option<(nat, nat)>, n: nat)
    returns (chunk': Option<(nat, nat)>)
    requires n <= |p.chunks| && GoodPatch(p) && ValidState(ParseState(before + [p.(chunks := [])], chunk))
    ensures ValidState(ParseState(before + [p.(chunks := p.chunks[..n])], chunk'))
    ensures ParseFrom(ParseState(before + [p.(chunks := [])], chunk), ChunksTexts(p.chunks[..n])) ==
      Some(ParseState(before + [p.(chunks := p.chunks[..n])], chunk'))
  {
    var start := ParseState(before + [p.(chunks := [])], chunk);
    if n == 0 {
      chunk' := chunk;
      assert p.chunks[..0] == [];
    } else {
      var c, soFar, upTo := p.chunks[n - 1], p.chunks[..n - 1], p.chunks[..n];
      var mid := ChunksBack(before, p, chunk, n - 1);
      TakeChunk(p.chunks, n);
      ParseConcat(start, ChunksTexts(soFar), ChunkTexts(c));
      ChunkBack(before, p.(chunks := soFar), mid, c);
      chunk' := Some((|before|, n - 1));
      assert AtChunk(before, p.(chunks := upTo)) == ParseState(before + [p.(chunks := upTo)], chunk');
    }
  }

  lemma TakeChunk(chunks: seq<Chunk>, n: nat)
    requires 0 < n <= |chunks|
    ensures chunks[..n] == chunks[..n - 1] + [chunks[n - 1]]
    ensures ChunksTexts(chunks[..n]) == ChunksTexts(chunks[..n - 1]) + ChunkTexts(chunks[n - 1])
  {
    assert chunks[..n][..n - 1] == chunks[..n - 1];
  }

  lemma ChunkBack(before: seq<Patch>, p: Patch, chunk: Option<(nat, nat)>, c: Chunk)
    requires GoodChunk(c) && ValidState(ParseState(before + [p], chunk))
    ensures ParseFrom(ParseState(before + [p], chunk), ChunkTexts(c)) ==
      Some(AtChunk(before, p.(chunks := p.chunks + [c])))
  {
    ParseConcat(ParseState(before + [p], chunk), [Header(c)], LineTexts(c.lines));
    HeaderOpens(before, p, chunk, c);
    var begun := p.(chunks := p.chunks + [Chunk(c.srcPos, c.dstPos, [])]);
    LinesBack(before, begun, c.lines);
    assert WithLines(begun, c.lines) == p.(chunks := p.chunks + [c]);
  }

  lemma HeaderOpens(before: seq<Patch>, p: Patch, chunk: Option<(nat, nat)>, c: Chunk)
    requires ValidState(ParseState(before + [p], chunk))
    ensures ParseFrom(ParseState(before + [p], chunk), [Header(c)]) ==
      Some(AtChunk(before, p.(chunks := p.chunks + [Chunk(c.srcPos, c.dstPos, [])])))
  {
    var st := ParseState(before + [p], chunk);
    OneLine(st, Header(c));
    HeaderToken(c);
    var begun := p.(chunks := p.chunks + [Chunk(c.srcPos, c.dstPos, [])]);
    ReplaceLast(before, p, begun);
  }

  lemma ReplaceLast<T>(before: seq<T>, x: T, y: T)
    ensures (before + [x])[|before| := y] == before + [y]
  {
  }

  lemma PatchBack(before: seq<Patch>, p: Patch, chunk: Option<(nat, nat)>) returns (chunk': Option<(nat, nat)>)
    requires GoodPatch(p) && ValidState(ParseState(before, chunk))
    ensures ValidState(ParseState(before + [p], chunk'))
    ensures ParseFrom(ParseState(before, chunk), PatchTexts(p)) == Some(ParseState(before + [p], chunk'))
  {
    var st := ParseState(before, chunk);
    var heads := ["--- " + p.src, "+++ " + p.dst];
    HeadsBack(before, p, chunk);
    ParseConcat(st, heads, ChunksTexts(p.chunks));
    chunk' := ChunksBack(before, p, chunk, |p.chunks|);
    assert p.chunks[..|p.chunks|] == p.chunks;
  }

  lemma HeadsBack(before: seq<Patch>, p: Patch, chunk: Option<(nat, nat)>)
    requires ValidState(ParseState(before, chunk))
    ensures ValidState(ParseState(before + [p.(chunks := [])], chunk))
    ensures ParseFrom(ParseState(before, chunk), ["--- " + p.src, "+++ " + p.dst]) ==
      Some(ParseState(before + [p.(chunks := [])], chunk))
  {
    var st := ParseState(before, chunk);
    var first, second := "--- " + p.src, "+++ " + p.dst;
    assert first[4..] == p.src && second[4..] == p.dst && second[0] == '+';
    assert [first, second] == [first] + [second];
    ParseConcat(st, [first], [second]);
    OneLine(st, first);
    var mid := ParseState(before + [Patch(p.src, "", [])], chunk);
    OneLine(mid, second);
    assert mid.patches[|before| := p.(chunks := [])] == before + [p.(chunks := [])];
  }

  lemma {:induction false} PatchSetBack(ps: seq<Patch>) returns (chunk: Option<(nat, nat)>)
    requires GoodPatchSet(ps)
    ensures ValidState(ParseState(ps, chunk))
    ensures ParseFrom(ParseState([], None), PatchSetTexts(ps)) == Some(ParseState(ps, chunk))
    decreases |ps|
  {
    if ps == [] {
      chunk := None;
    } else {
      var front, last := ps[..|ps| - 1], ps[|ps| - 1];
      GoodPatchSetSplit(ps);
      var mid := PatchSetBack(front);
      ParseConcat(ParseState([], None), PatchSetTexts(front), PatchTexts(last));
      chunk := PatchBack(front, last, mid);
    }
  }

  lemma GoodPatchSetSplit(ps: seq<Patch>)
    requires ps != []
    ensures GoodPatchSet(ps) <==> GoodPatchSet(ps[..|ps| - 1]) && GoodPatch(ps[|ps| - 1])
    ensures ps == ps[..|ps| - 1] + [ps[|ps| - 1]]
  {
    assert forall i :: 0 <= i < |ps| - 1 ==> ps[..|ps| - 1][i] == ps[i];
  }

  lemma GoodChunksSplit(chunks: seq<Chunk>)
    requires chunks != []
    ensures GoodChunks(chunks) <==> GoodChunks(chunks[..|chunks| - 1]) && GoodChunk(chunks[|chunks| - 1])
  {
    assert forall i :: 0 <= i < |chunks| - 1 ==> chunks[..|chunks| - 1][i] == chunks[i];
  }

  // ----- Bad lines are lost

  function ChunkSizes(chunks: seq<Chunk>): nat {
    if chunks == [] then 0 else ChunkSizes(chunks[..|chunks| - 1]) + |chunks[|chunks| - 1].lines|
  }

  // How many lines a patch set has.
  function Size(ps: seq<Patch>): nat {
    if ps == [] then 0 else Size(ps[..|ps| - 1]) + ChunkSizes(ps[|ps| - 1].chunks)
  }

  // How many lines of the text are lines of a chunk.
  function Bodies(lines: seq<string>): nat {
    if lines == [] then 0 else Bodies(lines[..|lines| - 1]) + if Classify(lines[|lines| - 1]).Body? then 1 else 0
  }

  lemma {:induction false} ChunkSizesChange(chunks: seq<Chunk>, j: nat, c: Chunk)
    requires j < |chunks|
    ensures ChunkSizes(chunks[j := c]) == ChunkSizes(chunks) - |chunks[j].lines| + |c.lines|
    decreases |chunks|
  {
    var n := |chunks| - 1;
    if j < n {
      ChunkSizesChange(chunks[..n], j, c);
      assert chunks[j := c][..n] == chunks[..n][j := c];
    } else {
      assert chunks[j := c][..n] == chunks[..n];
    }
  }

  lemma {:induction false} SizeChange(ps: seq<Patch>, i: nat, p: Patch)
    requires i < |ps|
    ensures Size(ps[i := p]) == Size(ps) - ChunkSizes(ps[i].chunks) + ChunkSizes(p.chunks)
    decreases |ps|
  {
    var n := |ps| - 1;
    if i < n {
      SizeChange(ps[..n], i, p);
      assert ps[i := p][..n] == ps[..n][i := p];
    } else {
      assert ps[i := p][..n] == ps[..n];
    }
  }

  lemma StepSize(st: ParseState, token: Token)
    requires ValidState(st) && Step(st, token).Some?
    ensures Size(Step(st, token).value.patches) == Size(st.patches) + if token.Body? then 1 else 0
  {
    var n := |st.patches|;
    match token {
      case SrcFile(name) => assert (st.patches + [Patch(name, "", [])])[..n] == st.patches;
      case DstFile(name) => SizeChange(st.patches, n - 1, st.patches[n - 1].(dst := name));
      case StartChunk(srcPos, dstPos) =>
        var p := st.patches[n - 1];
        var c := Chunk(srcPos, dstPos, []);
        SizeChange(st.patches, n - 1, p.(chunks := p.chunks + [c]));
        assert (p.chunks + [c])[..|p.chunks|] == p.chunks;
      case Body(l) =>
        var i, j := st.chunk.value.0, st.chunk.value.1;
        var p, c := st.patches[i], st.patches[i].chunks[j];
        var c' := c.(lines := c.lines + [l]);
        ChunkSizesChange(p.chunks, j, c');
        SizeChange(st.patches, i, p.(chunks := p.chunks[j := c']));
      case Unknown =>
    }
  }

  // Reading loses no chunk line and invents none.
  lemma {:induction false} ParseSize(st: ParseState, lines: seq<string>)
    requires ValidState(st) && ParseFrom(st, lines).Some?
    ensures Size(ParseFrom(st, lines).value.patches) == Size(st.patches) + Bodies(lines)
    decreases |lines|
  {
    if lines != [] {
      var front, last := lines[..|lines| - 1], lines[|lines| - 1];
      SplitLast(lines);
      ParseConcat(st, front, [last]);
      ParseSize(st, front);
      var mid := ParseFrom(st, front).value;
      OneLine(mid, last);
      StepSize(mid, Classify(last));
    }
  }

  lemma {:induction false} BodiesConcat(a: seq<string>, b: seq<string>)
    ensures Bodies(a + b) == Bodies(a) + Bodies(b)
    decreases |b|
  {
    if b == [] {
      assert a + b == a;
    } else {
      var n := |b| - 1;
      BodiesConcat(a, b[..n]);
      assert (a + b)[..|a + b| - 1] == a + b[..n];
    }
  }

  // At each level: of the printed lines no more than there are read as chunk lines, and all of
  // them do if and only if all are good.
  lemma {:induction false} LinesKept(lines: seq<Line>)
    ensures Bodies(LineTexts(lines)) <= |lines|
    ensures Bodies(LineTexts(lines)) == |lines| <==> GoodLines(lines)
    decreases |lines|
  {
    if lines != [] {
      var front, last := lines[..|lines| - 1], lines[|lines| - 1];
      LinesKept(front);
      TakeLine(lines);
      BodiesConcat(LineTexts(front), [LineText(last)]);
      OneBody(LineText(last));
      LineToken(last);
    }
  }

  lemma ChunkKept(c: Chunk)
    ensures Bodies(ChunkTexts(c)) <= |c.lines|
    ensures Bodies(ChunkTexts(c)) == |c.lines| <==> GoodChunk(c)
  {
    BodiesConcat([Header(c)], LineTexts(c.lines));
    HeaderToken(c);
    OneBody(Header(c));
    LinesKept(c.lines);
  }

  lemma {:induction false} ChunksKept(chunks: seq<Chunk>)
    ensures Bodies(ChunksTexts(chunks)) <= ChunkSizes(chunks)
    ensures Bodies(ChunksTexts(chunks)) == ChunkSizes(chunks) <==> GoodChunks(chunks)
    decreases |chunks|
  {
    if chunks != [] {
      var front, last := chunks[..|chunks| - 1], chunks[|chunks| - 1];
      ChunksKept(front);
      ChunkKept(last);
      BodiesConcat(ChunksTexts(front), ChunkTexts(last));
      GoodChunksSplit(chunks);
    }
  }

  lemma PatchKept(p: Patch)
    ensures Bodies(PatchTexts(p)) <= ChunkSizes(p.chunks)
    ensures Bodies(PatchTexts(p)) == ChunkSizes(p.chunks) <==> GoodPatch(p)
  {
    BodiesConcat(["--- " + p.src, "+++ " + p.dst], ChunksTexts(p.chunks));
    HeadBodies(p.src, p.dst);
    ChunksKept(p.chunks);
  }

  lemma {:induction false} PatchSetKept(ps: seq<Patch>)
    ensures Bodies(PatchSetTexts(ps)) <= Size(ps)
    ensures Bodies(PatchSetTexts(ps)) == Size(ps) <==> GoodPatchSet(ps)
    decreases |ps|
  {
    if ps != [] {
      var front, last := ps[..|ps| - 1], ps[|ps| - 1];
      PatchSetKept(front);
      PatchKept(last);
      BodiesConcat(PatchSetTexts(front), PatchTexts(last));
      GoodPatchSetSplit(ps);
    }
  }

  lemma OneBody(s: string)
    ensures Bodies([s]) == if Classify(s).Body? then 1 else 0
  {
    assert [s][..0] == [];
  }

  lemma HeadBodies(src: string, dst: string)
    ensures Bodies(["--- " + src, "+++ " + dst]) == 0
  {
    var a, b := "--- " + src, "+++ " + dst;
    assert [a, b] == [a] + [b];
    BodiesConcat([a], [b]);
    OneBody(a);
    OneBody(b);
    assert b[0] == '+';
  }

  // A printed patch set reads back as itself exactly when no removed line starts with "-- " and
  // no added line with "++ ".
  lemma RoundTripIff(ps: seq<Patch>)
    ensures ParsePatchSet(PatchSetTexts(ps)) == Some(ps) <==> GoodPatchSet(ps)
  {
    if GoodPatchSet(ps) {
      var chunk := PatchSetBack(ps);
    }
    if ParsePatchSet(PatchSetTexts(ps)) == Some(ps) {
      ParseSize(ParseState([], None), PatchSetTexts(ps));
      PatchSetKept(ps);
    }
  }

  // A removed line that reads "-- x" does not come back.
  lemma HeaderLineLost()
    ensures var ps := [Patch("a", "b", [Chunk(1, 1, [Line(Src, "-- x")])])];
      ParsePatchSet(PatchSetTexts(ps)) != Some(ps)
  {
    var lines := [Line(Src, "-- x")];
    var p := Patch("a", "b", [Chunk(1, 1, lines)]);
    RoundTripIff([p]);
    assert lines[0].text[..3] == "-- " && !GoodLine(lines[0]);
    assert !GoodLines(lines) && p.chunks[0].lines == lines;
    assert !GoodChunk(p.chunks[0]) && !GoodPatch(p);
    assert [p][0] == p;
  }

  // The counts in the header of a written chunk are the numbers of source and of destination lines
  // in what is read back, and of the lines printed after it with the signs of these.
  lemma CountsReadBack(c: Chunk)
    requires GoodChunk(c)
    ensures ParsePatchSet(PatchTexts(Patch("", "", [c]))) == Some([Patch("", "", [c])])
    ensures var text := PatchTexts(Patch("", "", [c]));
      && |text| == |c.lines| + 3
      && ChunkStart(text[2]) == Some((
           c.srcPos, |set i | 0 <= i < |c.lines| && (c.lines[i].kind.Src? || c.lines[i].kind.Both?)|,
           c.dstPos, |set i | 0 <= i < |c.lines| && (c.lines[i].kind.Dst? || c.lines[i].kind.Both?)|))
      && ChunkStart(text[2]) == Some((c.srcPos, |Signed(text[3..], '-')|, c.dstPos, |Signed(text[3..], '+')|))
  {
    var p := Patch("", "", [c]);
    var chunk := PatchBack([], p, None);
    assert [] + [p] == [p];
    HeaderMeans(c);
    HeaderCounts(c);
    OneChunkText(c);
  }

  lemma OneChunkText(c: Chunk)
    ensures PatchTexts(Patch("", "", [c])) == ["--- ", "+++ "] + ChunkTexts(c)
    ensures PatchTexts(Patch("", "", [c]))[3..] == ChunkTexts(c)[1..]
  {
    assert ChunksTexts([c]) == [] + ChunkTexts(c);
    assert "--- " + "" == "--- " && "+++ " + "" == "+++ ";
  }
}
