/** The patch objects of utils/check-style.py: a patch holds chunks, a chunk holds lines, and
    `parse_patchset` builds them while two variables point at the patch and the chunk being
    filled. */
module PatchObjects {
  import opened Options
  import opened PatchFile
  import opened PatchText
  import opened PatchRoundTrip
  import opened Sequences

  class PatchChunk {
    var lines: seq<Line>
    var srcPos: nat
    var dstPos: nat
    // where the chunk hangs: number of its patch, number in the patch
    ghost const at: (nat, nat)

    ghost function Value(): Chunk
      reads this
    {
      Chunk(srcPos, dstPos, lines)
    }

    constructor (srcPos: nat, dstPos: nat, ghost at: (nat, nat))
      ensures Value() == Chunk(srcPos, dstPos, []) && this.at == at
    {
      this.lines, this.srcPos, this.dstPos := [], srcPos, dstPos;
      this.at := at;
    }

    method AddLine(line: Line)
      modifies this
      ensures Value() == old(Value()).(lines := old(lines) + [line])
    {
      lines := lines + [line];
    }

    method SrcLen() returns (n: nat)
      ensures n == CountSrc(lines)
      ensures n == |set i | 0 <= i < |lines| && (lines[i].kind.Src? || lines[i].kind.Both?)|
    {
      CountsAre(lines);
      n := 0;
      for i := 0 to |lines|
        invariant n == CountSrc(lines[..i])
      {
        assert lines[..i + 1][..i] == lines[..i];
        if lines[i].kind.Src? || lines[i].kind.Both? {
          n := n + 1;
        }
      }
      assert lines[..|lines|] == lines;
    }

    method DstLen() returns (n: nat)
      ensures n == CountDst(lines)
      ensures n == |set i | 0 <= i < |lines| && (lines[i].kind.Dst? || lines[i].kind.Both?)|
    {
      CountsAre(lines);
      n := 0;
      for i := 0 to |lines|
        invariant n == CountDst(lines[..i])
      {
        assert lines[..i + 1][..i] == lines[..i];
        if lines[i].kind.Dst? || lines[i].kind.Both? {
          n := n + 1;
        }
      }
      assert lines[..|lines|] == lines;
    }

    method Write() returns (text: seq<string>)
      ensures text == ChunkTexts(Value())
      ensures ChunkStart(text[0]) == Some((srcPos, |Signed(text[1..], '-')|, dstPos, |Signed(text[1..], '+')|))
    {
      var srcLen := SrcLen();
      var dstLen := DstLen();
      text := ["@@ -" + (Decimal(srcPos) + ("," + (Decimal(srcLen) +
               (" +" + (Decimal(dstPos) + ("," + (Decimal(dstLen) + " @@")))))))];
      for i := 0 to |lines|
        invariant text == [Header(Value())] + LineTexts(lines[..i])
      {
        TakeLineAt(lines, i);
        text := text + [LineText(lines[i])];
      }
      assert lines[..|lines|] == lines;
      HeaderCounts(Value());
    }
  }

  lemma TakeLineAt(lines: seq<Line>, i: nat)
    requires i < |lines|
    ensures LineTexts(lines[..i + 1]) == LineTexts(lines[..i]) + [LineText(lines[i])]
  {
  }

  ghost function ChunkValues(chunks: seq<PatchChunk>): (values: seq<Chunk>)
    reads chunks
    ensures |values| == |chunks| && forall j :: 0 <= j < |chunks| ==> values[j] == chunks[j].Value()
  {
    if chunks == [] then [] else ChunkValues(chunks[..|chunks| - 1]) + [chunks[|chunks| - 1].Value()]
  }

  class PatchObject {
    var src: string
    var dst: string
    var chunks: seq<PatchChunk>
    // number of the patch in its patch set
    ghost const at: nat

    ghost function Value(): Patch
      reads this, chunks
    {
      Patch(src, dst, ChunkValues(chunks))
    }

    constructor (ghost at: nat)
      ensures src == "" && dst == "" && chunks == [] && this.at == at
    {
      src, dst, chunks := "", "", [];
      this.at := at;
    }

    method AddChunk(chunk: PatchChunk)
      modifies this
      ensures src == old(src) && dst == old(dst) && chunks == old(chunks) + [chunk]
    {
      chunks := chunks + [chunk];
    }

    method SetSrc(src: string)
      modifies this
      ensures this.src == src && dst == old(dst) && chunks == old(chunks)
    {
      this.src := src;
    }

    method SetDst(dst: string)
      modifies this
      ensures this.dst == dst && src == old(src) && chunks == old(chunks)
    {
      this.dst := dst;
    }

    method Write() returns (text: seq<string>)
      ensures text == PatchTexts(Value())
    {
      text := ["--- " + src, "+++ " + dst];
      ghost var headers, values := text, ChunkValues(chunks);
      for i := 0 to |chunks|
        invariant text == headers + ChunksTexts(values[..i])
      {
        var part := chunks[i].Write();
        TakeChunk(values, i + 1);
        Reassociate(headers, ChunksTexts(values[..i]), part);
        text := text + part;
      }
      TakeAll(values);
    }
  }

  // The object is patch number i and holds the given value.
  ghost predicate PatchIs(o: PatchObject, i: nat, p: Patch)
    reads o, o.chunks
  {
    && o.at == i && o.src == p.src && o.dst == p.dst && |o.chunks| == |p.chunks|
    && forall j :: 0 <= j < |p.chunks| ==> o.chunks[j].at == (i, j) && o.chunks[j].Value() == p.chunks[j]
  }

  ghost predicate PatchesAre(patchset: seq<PatchObject>, patches: seq<Patch>)
    reads patchset, set i, j | 0 <= i < |patchset| && 0 <= j < |patchset[i].chunks| :: patchset[i].chunks[j]
  {
    && |patchset| == |patches|
    && forall i :: 0 <= i < |patches| ==> patchset[i] in patchset && PatchIs(patchset[i], i, patches[i])
  }

  // What the two variables point at.
  ghost predicate Points(patchset: seq<PatchObject>, patch: PatchObject?, chunk: PatchChunk?, st: ParseState)
    reads patchset
    requires |patchset| == |st.patches| && ValidState(st)
  {
    && patch == (if patchset == [] then null else patchset[|patchset| - 1])
    && match st.chunk {
         case None => chunk == null
         case Some((i, j)) => j < |patchset[i].chunks| && chunk == patchset[i].chunks[j]
       }
  }

  ghost predicate Represents(patchset: seq<PatchObject>, patch: PatchObject?, chunk: PatchChunk?, st: ParseState)
    reads patchset, set i, j | 0 <= i < |patchset| && 0 <= j < |patchset[i].chunks| :: patchset[i].chunks[j]
  {
    ValidState(st) && PatchesAre(patchset, st.patches) && Points(patchset, patch, chunk, st)
  }

  lemma ValuesAre(patchset: seq<PatchObject>, patches: seq<Patch>, i: nat)
    requires PatchesAre(patchset, patches) && i < |patches|
    ensures patchset[i].Value() == patches[i]
  {
    assert PatchIs(patchset[i], i, patches[i]);
    assert ChunkValues(patchset[i].chunks) == patches[i].chunks;
  }

  method NewPatch(ghost at: nat, name: string) returns (patch: PatchObject)
    ensures fresh(patch) && PatchIs(patch, at, Patch(name, "", []))
  {
    patch := new PatchObject(at);
    patch.SetSrc(name);
  }

  // A source file header starts a new patch; current_chunk stays where it was.
  method BeginPatch(patchset: seq<PatchObject>, patch: PatchObject?, chunk: PatchChunk?, ghost st: ParseState,
                    name: string)
    returns (patchset': seq<PatchObject>, patch': PatchObject)
    requires Represents(patchset, patch, chunk, st)
    ensures Represents(patchset', patch', chunk, Step(st, SrcFile(name)).value)
    ensures fresh(patch') && patchset' == patchset + [patch'] && patch'.chunks == []
  {
    patch' := NewPatch(|patchset|, name);
    patchset' := patchset + [patch'];
    ghost var next := Step(st, SrcFile(name)).value;
    assert PatchesAre(patchset', next.patches);
    assert Points(patchset', patch', chunk, next);
  }

  // A destination file header.
  method NameDestination(patchset: seq<PatchObject>, patch: PatchObject, chunk: PatchChunk?, ghost st: ParseState,
                         name: string)
    requires Represents(patchset, patch, chunk, st)
    modifies patch
    ensures Step(st, DstFile(name)).Some? && Represents(patchset, patch, chunk, Step(st, DstFile(name)).value)
    ensures patch.chunks == old(patch.chunks)
  {
    patch.SetDst(name);
  }

  // A chunk header adds a chunk to the current patch.
  method BeginChunk(patchset: seq<PatchObject>, patch: PatchObject, chunk: PatchChunk?, ghost st: ParseState,
                    srcPos: nat, dstPos: nat)
    returns (chunk': PatchChunk)
    requires Represents(patchset, patch, chunk, st)
    modifies patch
    ensures Step(st, StartChunk(srcPos, dstPos)).Some?
    ensures Represents(patchset, patch, chunk', Step(st, StartChunk(srcPos, dstPos)).value)
    ensures fresh(chunk') && patch.chunks == old(patch.chunks) + [chunk']
  {
    chunk' := new PatchChunk(srcPos, dstPos, (|patchset| - 1, |patch.chunks|));
    patch.AddChunk(chunk');
  }

  // A line goes to the current chunk, whatever patch it belongs to.
  method AddBody(patchset: seq<PatchObject>, patch: PatchObject?, chunk: PatchChunk, ghost st: ParseState, line: Line)
    requires Represents(patchset, patch, chunk, st)
    modifies chunk
    ensures Step(st, Body(line)).Some? && Represents(patchset, patch, chunk, Step(st, Body(line)).value)
  {
    chunk.AddLine(line);
  }

  // One line of text; false is an exception.
  method ReadLine(patchset0: seq<PatchObject>, patch0: PatchObject?, chunk0: PatchChunk?, ghost st: ParseState,
                  line: string)
    returns (ok: bool, patchset: seq<PatchObject>, patch: PatchObject?, chunk: PatchChunk?)
    requires Represents(patchset0, patch0, chunk0, st)
    modifies patch0, chunk0
    ensures ok <==> Step(st, Classify(line)).Some?
    ensures ok ==> Represents(patchset, patch, chunk, Step(st, Classify(line)).value)
    ensures (patch == patch0 || (patch != null && fresh(patch))) && (chunk == chunk0 || (chunk != null && fresh(chunk)))
  {
    ok, patchset, patch, chunk := true, patchset0, patch0, chunk0;
    match Classify(line)
    case SrcFile(name) =>
      patchset, patch := BeginPatch(patchset, patch, chunk, st, name);
    case DstFile(name) =>
      if patch == null {
        ok := false;
      } else {
        NameDestination(patchset, patch, chunk, st, name);
      }
    case StartChunk(srcPos, dstPos) =>
      if patch == null {
        ok := false;
      } else {
        chunk := BeginChunk(patchset, patch, chunk, st, srcPos, dstPos);
      }
    case Body(l) =>
      if chunk == null {
        ok := false;
      } else {
        AddBody(patchset, patch, chunk, st, l);
      }
    case Unknown =>
      ok := false;
  }

  // The patch set read from the lines of a text; false is an exception.
  method ParsePatchset(lines: seq<string>) returns (ok: bool, patchset: seq<PatchObject>)
    ensures ok <==> ParsePatchSet(lines).Some?
    ensures ok ==> PatchesAre(patchset, ParsePatchSet(lines).value)
  {
    patchset := [];
    var patch: PatchObject?, chunk: PatchChunk? := null, null;
    ghost var st := ParseState([], None);
    for i := 0 to |lines|
      invariant Represents(patchset, patch, chunk, st)
      invariant (patch != null ==> fresh(patch)) && (chunk != null ==> fresh(chunk))
      invariant ParseFrom(ParseState([], None), lines) == ParseFrom(st, lines[i..])
    {
      ok, patchset, patch, chunk := ReadLine(patchset, patch, chunk, st, lines[i]);
      if !ok {
        return;
      }
      st := Step(st, Classify(lines[i])).value;
    }
    ok := true;
  }

  method WriteOne(patchset: seq<PatchObject>, ghost patches: seq<Patch>, i: nat) returns (text: seq<string>)
    requires PatchesAre(patchset, patches) && i < |patches|
    ensures text == PatchTexts(patches[i])
  {
    ValuesAre(patchset, patches, i);
    text := patchset[i].Write();
  }

  // Write all patches to one file.
  method WritePatchset(patchset: seq<PatchObject>, ghost patches: seq<Patch>) returns (file: string)
    requires PatchesAre(patchset, patches)
    ensures file == FileText(PatchSetTexts(patches))
  {
    file := "";
    for i := 0 to |patchset|
      invariant file == FileText(PatchSetTexts(patches[..i]))
    {
      var part := WriteOne(patchset, patches, i);
      FileGrows(patches, i);
      file := file + FileText(part);
    }
    TakeAll(patches);
  }

  lemma FileGrows(ps: seq<Patch>, i: nat)
    requires i < |ps|
    ensures FileText(PatchSetTexts(ps[..i + 1])) == FileText(PatchSetTexts(ps[..i])) + FileText(PatchTexts(ps[i]))
  {
    TakePatch(ps, i);
    FileTextConcat(PatchSetTexts(ps[..i]), PatchTexts(ps[i]));
  }

  lemma TakePatch(ps: seq<Patch>, i: nat)
    requires i < |ps|
    ensures PatchSetTexts(ps[..i + 1]) == PatchSetTexts(ps[..i]) + PatchTexts(ps[i])
  {
    assert ps[..i + 1][..i] == ps[..i];
  }

  // Writing a patch set and parsing the lines of the file makes objects that hold the same patch
  // set exactly when no line imitates a file header and no text has a line break in it.
  method WriteThenParse(patchset: seq<PatchObject>, ghost patches: seq<Patch>, universal: bool)
    returns (ok: bool, copy: seq<PatchObject>)
    requires PatchesAre(patchset, patches)
    ensures ok && PatchesAre(copy, patches) <==> GoodPatchSet(patches) && UnbrokenPatchSet(patches, universal)
  {
    var file := WritePatchset(patchset, patches);
    var lines := ReadLines(file, universal);
    ok, copy := ParsePatchset(lines);
    FileRoundTripIff(patches, universal);
    if ok && PatchesAre(copy, patches) {
      OneValue(copy, patches, ParsePatchSet(lines).value);
    }
  }

  lemma OneValue(patchset: seq<PatchObject>, a: seq<Patch>, b: seq<Patch>)
    requires PatchesAre(patchset, a) && PatchesAre(patchset, b)
    ensures a == b
  {
    forall i | 0 <= i < |a| ensures a[i] == b[i] {
      ValuesAre(patchset, a, i);
      ValuesAre(patchset, b, i);
    }
  }
}
