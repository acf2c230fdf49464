/** A written patch set as one file (utils/check-style.py): every printed line ends in a line feed,
    and whoever reads the file cuts it at its line breaks.  In universal mode, the default of
    `open`, a carriage return is a line break too, alone or before a line feed. */
module PatchFile {
  import opened Options
  import opened PatchText
  import opened PatchRoundTrip

  predicate IsBreak(c: char, universal: bool) {
    c == '\n' || (universal && c == '\r')
  }

  predicate Unbroken(s: string, universal: bool) {
    forall i :: 0 <= i < |s| ==> !IsBreak(s[i], universal)
  }

  predicate AllUnbroken(lines: seq<string>, universal: bool) {
    forall i :: 0 <= i < |lines| ==> Unbroken(lines[i], universal)
  }

  function FileText(lines: seq<string>): string {
    if lines == [] then "" else lines[0] + ("\n" + FileText(lines[1..]))
  }

  lemma {:induction false} FileTextConcat(a: seq<string>, b: seq<string>)
    ensures FileText(a + b) == FileText(a) + FileText(b)
    decreases |a|
  {
    if a == [] {
      assert a + b == b;
    } else {
      FileTextConcat(a[1..], b);
      assert (a + b)[1..] == a[1..] + b;
    }
  }

  function LineLength(file: string, universal: bool): (n: nat)
    ensures n <= |file| && Unbroken(file[..n], universal) && (n < |file| ==> IsBreak(file[n], universal))
  {
    if file == "" || IsBreak(file[0], universal) then 0
    else
      var n := LineLength(file[1..], universal);
      assert file[..n + 1] == [file[0]] + file[1..][..n];
      n + 1
  }

  function BreakLength(rest: string): nat {
    if |rest| > 1 && rest[0] == '\r' && rest[1] == '\n' then 2 else if rest == "" then 0 else 1
  }

  // The lines of a file, without their line breaks.
  function ReadLines(file: string, universal: bool): (lines: seq<string>)
    ensures AllUnbroken(lines, universal)
    decreases |file|
  {
    if file == "" then []
    else
      var n := LineLength(file, universal);
      var rest := file[n..];
      [file[..n]] + ReadLines(rest[BreakLength(rest)..], universal)
  }

  // ----- Lines without line breaks are read as they were written

  lemma {:induction false} LineLengthBack(line: string, more: string, universal: bool)
    requires Unbroken(line, universal)
    ensures LineLength(line + ("\n" + more), universal) == |line|
    decreases |line|
  {
    var file := line + ("\n" + more);
    if line == "" {
      assert file[0] == '\n';
    } else {
      assert file[0] == line[0] && file[1..] == line[1..] + ("\n" + more);
      LineLengthBack(line[1..], more, universal);
    }
  }

  lemma FirstLineBack(line: string, more: string, universal: bool)
    requires Unbroken(line, universal)
    ensures ReadLines(line + ("\n" + more), universal) == [line] + ReadLines(more, universal)
  {
    var file := line + ("\n" + more);
    LineLengthBack(line, more, universal);
    assert file[..|line|] == line && file[|line|..] == "\n" + more;
    assert ("\n" + more)[BreakLength("\n" + more)..] == more;
  }

  lemma {:induction false} LinesBackFromFile(lines: seq<string>, universal: bool)
    requires AllUnbroken(lines, universal)
    ensures ReadLines(FileText(lines), universal) == lines
    decreases |lines|
  {
    if lines != [] {
      LinesBackFromFile(lines[1..], universal);
      FirstLineBack(lines[0], FileText(lines[1..]), universal);
    }
  }

  // ----- Patch sets without line breaks

  predicate UnbrokenLines(lines: seq<Line>, universal: bool) {
    forall i :: 0 <= i < |lines| ==> Unbroken(lines[i].text, universal)
  }

  predicate UnbrokenChunks(chunks: seq<Chunk>, universal: bool) {
    forall i :: 0 <= i < |chunks| ==> UnbrokenLines(chunks[i].lines, universal)
  }

  predicate UnbrokenPatch(p: Patch, universal: bool) {
    Unbroken(p.src, universal) && Unbroken(p.dst, universal) && UnbrokenChunks(p.chunks, universal)
  }

  predicate UnbrokenPatchSet(ps: seq<Patch>, universal: bool) {
    forall i :: 0 <= i < |ps| ==> UnbrokenPatch(ps[i], universal)
  }

  // Nothing read from lines without line breaks contains one.
  lemma StepUnbroken(st: ParseState, line: string, universal: bool)
    requires ValidState(st) && UnbrokenPatchSet(st.patches, universal) && Unbroken(line, universal)
    requires Step(st, Classify(line)).Some?
    ensures UnbrokenPatchSet(Step(st, Classify(line)).value.patches, universal)
  {
    var next := Step(st, Classify(line)).value;
    match Classify(line)
    case SrcFile(name) =>
      TextUnbroken(line, 4, universal);
      assert UnbrokenPatch(Patch(name, "", []), universal);
    case DstFile(name) =>
      TextUnbroken(line, 4, universal);
      assert UnbrokenPatch(next.patches[|st.patches| - 1], universal);
    case StartChunk(_, _) =>
      assert UnbrokenPatch(next.patches[|st.patches| - 1], universal);
    case Body(l) =>
      TextUnbroken(line, 1, universal);
      var (i, j) := st.chunk.value;
      assert UnbrokenLines(next.patches[i].chunks[j].lines, universal);
      assert UnbrokenPatch(next.patches[i], universal);
    case Unknown =>
  }

  lemma TextUnbroken(line: string, n: nat, universal: bool)
    requires Unbroken(line, universal) && n <= |line|
    ensures Unbroken(line[n..], universal)
  {
  }

  lemma {:induction false} ParsedUnbroken(st: ParseState, lines: seq<string>, universal: bool)
    requires ValidState(st) && UnbrokenPatchSet(st.patches, universal) && AllUnbroken(lines, universal)
    requires ParseFrom(st, lines).Some?
    ensures UnbrokenPatchSet(ParseFrom(st, lines).value.patches, universal)
    decreases |lines|
  {
    if lines != [] {
      StepUnbroken(st, lines[0], universal);
      ParsedUnbroken(Step(st, Classify(lines[0])).value, lines[1..], universal);
    }
  }

  // What is printed of a patch set without line breaks contains none inside a line.
  lemma HeaderUnbroken(c: Chunk, universal: bool)
    ensures Unbroken(Header(c), universal)
  {
    DecimalNumber(c.srcPos);
    DecimalNumber(CountSrc(c.lines));
    DecimalNumber(c.dstPos);
    DecimalNumber(CountDst(c.lines));
  }

  lemma ChunkUnbroken(c: Chunk, universal: bool)
    requires UnbrokenLines(c.lines, universal)
    ensures AllUnbroken(ChunkTexts(c), universal)
  {
    HeaderUnbroken(c, universal);
  }

  lemma {:induction false} ChunksUnbroken(chunks: seq<Chunk>, universal: bool)
    requires UnbrokenChunks(chunks, universal)
    ensures AllUnbroken(ChunksTexts(chunks), universal)
    decreases |chunks|
  {
    if chunks != [] {
      ChunksUnbroken(chunks[..|chunks| - 1], universal);
      ChunkUnbroken(chunks[|chunks| - 1], universal);
    }
  }

  lemma {:induction false} PatchSetUnbroken(ps: seq<Patch>, universal: bool)
    requires UnbrokenPatchSet(ps, universal)
    ensures AllUnbroken(PatchSetTexts(ps), universal)
    decreases |ps|
  {
    if ps != [] {
      PatchSetUnbroken(ps[..|ps| - 1], universal);
      ChunksUnbroken(ps[|ps| - 1].chunks, universal);
    }
  }

  // A patch set written to a file reads back as itself if and only if no removed line starts
  // with "-- ", no added line with "++ ", and no line or file name contains a line break.
  lemma FileRoundTripIff(ps: seq<Patch>, universal: bool)
    ensures ParsePatchSet(ReadLines(FileText(PatchSetTexts(ps)), universal)) == Some(ps) <==>
      GoodPatchSet(ps) && UnbrokenPatchSet(ps, universal)
  {
    var lines := ReadLines(FileText(PatchSetTexts(ps)), universal);
    if ParsePatchSet(lines) == Some(ps) {
      ParsedUnbroken(ParseState([], None), lines, universal);
    }
    if UnbrokenPatchSet(ps, universal) {
      PatchSetUnbroken(ps, universal);
      LinesBackFromFile(PatchSetTexts(ps), universal);
      RoundTripIff(ps);
    }
  }

  // A removed line with a line feed in it is good, and yet does not come back.
  lemma BrokenLineLost(universal: bool)
    ensures var ps := [Patch("a", "b", [Chunk(1, 1, [Line(Src, "x\ny")])])];
      GoodPatchSet(ps) && ParsePatchSet(ReadLines(FileText(PatchSetTexts(ps)), universal)) != Some(ps)
  {
    var lines := [Line(Src, "x\ny")];
    var p := Patch("a", "b", [Chunk(1, 1, lines)]);
    FileRoundTripIff([p], universal);
    assert lines[0].text[1] == '\n' && !Unbroken(lines[0].text, universal);
    assert !UnbrokenLines(lines, universal);
    assert p.chunks[0].lines == lines && !UnbrokenPatch(p, universal);
    assert [p][0] == p && !UnbrokenPatchSet([p], universal);
  }
}
