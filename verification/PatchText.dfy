/** Patches as values and as text (utils/check-style.py): what `write` prints and what one line
    of text means to `parse_patchset`.

    A line of text is given without its final newline.  The regular expressions of the reader
    become functions that say what they match at the start of a line. */
module PatchText {
  import opened Options
  import opened Sequences

  datatype Kind = Src | Dst | Both

  datatype Line = Line(kind: Kind, text: string)

  datatype Chunk = Chunk(srcPos: nat, dstPos: nat, lines: seq<Line>)

  datatype Patch = Patch(src: string, dst: string, chunks: seq<Chunk>)

  // ----- Decimal numbers

  function Digit(n: nat): char
    requires n < 10
  {
    '0' + n as char
  }

  predicate IsDigit(c: char) {
    '0' <= c <= '9'
  }

  function Value(c: char): nat
    requires IsDigit(c)
  {
    (c - '0') as nat
  }

  // %d
  function Decimal(n: nat): string {
    if n < 10 then [Digit(n)] else Decimal(n / 10) + [Digit(n % 10)]
  }

  predicate AllDigits(s: string) {
    forall i :: 0 <= i < |s| ==> IsDigit(s[i])
  }

  // int(...)
  function Number(s: string): nat
    requires AllDigits(s)
  {
    if s == [] then 0 else 10 * Number(s[..|s| - 1]) + Value(s[|s| - 1])
  }

  lemma {:induction false} DecimalNumber(n: nat)
    ensures Decimal(n) != [] && AllDigits(Decimal(n)) && Number(Decimal(n)) == n
  {
    if n < 10 {
      assert Decimal(n)[..0] == [];
    } else {
      DecimalNumber(n / 10);
      assert Decimal(n)[..|Decimal(n)| - 1] == Decimal(n / 10);
    }
  }

  // ----- Printing

  function CountSrc(lines: seq<Line>): nat {
    if lines == [] then 0 else CountSrc(lines[..|lines| - 1]) + if lines[|lines| - 1].kind.Dst? then 0 else 1
  }

  function CountDst(lines: seq<Line>): nat {
    if lines == [] then 0 else CountDst(lines[..|lines| - 1]) + if lines[|lines| - 1].kind.Src? then 0 else 1
  }

  function Header(c: Chunk): string {
    "@@ -" + (Decimal(c.srcPos) + ("," + (Decimal(CountSrc(c.lines)) + (" +"
    + (Decimal(c.dstPos) + ("," + (Decimal(CountDst(c.lines)) + " @@")))))))
  }

  function LineText(l: Line): string {
    match l.kind
    case Src => "-" + l.text
    case Dst => "+" + l.text
    case Both => " " + l.text
  }

  function LineTexts(lines: seq<Line>): seq<string> {
    seq(|lines|, i requires 0 <= i < |lines| => LineText(lines[i]))
  }

  function ChunkTexts(c: Chunk): seq<string> {
    [Header(c)] + LineTexts(c.lines)
  }

  function ChunksTexts(chunks: seq<Chunk>): seq<string> {
    if chunks == [] then [] else ChunksTexts(chunks[..|chunks| - 1]) + ChunkTexts(chunks[|chunks| - 1])
  }

  function PatchTexts(p: Patch): seq<string> {
    ["--- " + p.src, "+++ " + p.dst] + ChunksTexts(p.chunks)
  }

  function PatchSetTexts(ps: seq<Patch>): seq<string> {
    if ps == [] then [] else PatchSetTexts(ps[..|ps| - 1]) + PatchTexts(ps[|ps| - 1])
  }

  // ----- Recognising a line of text

  function DigitsLength(s: string): (n: nat)
    ensures n <= |s| && AllDigits(s[..n])
  {
    if s != [] && IsDigit(s[0]) then
      var n := DigitsLength(s[1..]);
      assert s[..n + 1] == [s[0]] + s[1..][..n];
      n + 1
    else 0
  }

  // One or more digits and then `end`: the number, and what follows.
  function TakeNumber(s: string, end: string): Option<(nat, string)> {
    var n := DigitsLength(s);
    if n > 0 && end <= s[n..] then Some((Number(s[..n]), s[n + |end|..])) else None
  }

  // ^@@ -([0-9]+),([0-9]+) \+([0-9]+),([0-9]+) @@
  function ChunkStart(s: string): Option<(nat, nat, nat, nat)> {
    if !("@@ -" <= s) then None
    else
      var a := TakeNumber(s[4..], ",");
      if a.None? then None
      else
        var b := TakeNumber(a.value.1, " +");
        if b.None? then None
        else
          var c := TakeNumber(b.value.1, ",");
          if c.None? then None
          else
            var d := TakeNumber(c.value.1, " @@");
            if d.None? then None else Some((a.value.0, b.value.0, c.value.0, d.value.0))
  }

  datatype Token =
    | SrcFile(name: string)
    | DstFile(name: string)
    | StartChunk(srcPos: nat, dstPos: nat)
    | Body(line: Line)
    | Unknown

  // The regular expressions, in the order in which they are tried.
  function Classify(s: string): Token {
    if "--- " <= s then SrcFile(s[4..])
    else if "+++ " <= s then DstFile(s[4..])
    else if ChunkStart(s).Some? then StartChunk(ChunkStart(s).value.0, ChunkStart(s).value.2)
    else if "-" <= s then Body(Line(Src, s[1..]))
    else if "+" <= s then Body(Line(Dst, s[1..]))
    else if " " <= s then Body(Line(Both, s[1..]))
    else Unknown
  }

  lemma {:induction false} DigitsThen(digits: string, rest: string)
    requires AllDigits(digits) && (rest == [] || !IsDigit(rest[0]))
    ensures DigitsLength(digits + rest) == |digits|
    decreases |digits|
  {
    if digits == [] {
      assert digits + rest == rest;
    } else {
      assert (digits + rest)[1..] == digits[1..] + rest;
      DigitsThen(digits[1..], rest);
    }
  }

  lemma TakeNumberBack(n: nat, end: string, rest: string)
    requires end != [] && !IsDigit(end[0])
    ensures TakeNumber(Decimal(n) + (end + rest), end) == Some((n, rest))
  {
    DecimalNumber(n);
    DigitsThen(Decimal(n), end + rest);
    var s := Decimal(n) + (end + rest);
    assert s[..|Decimal(n)|] == Decimal(n);
    assert s[|Decimal(n)|..] == end + rest;
    assert s[|Decimal(n)| + |end|..] == rest;
  }

  // ----- What the counts of a header count

  lemma {:induction false} CountsAre(lines: seq<Line>)
    ensures CountSrc(lines) == |set i | 0 <= i < |lines| && (lines[i].kind.Src? || lines[i].kind.Both?)|
    ensures CountDst(lines) == |set i | 0 <= i < |lines| && (lines[i].kind.Dst? || lines[i].kind.Both?)|
    decreases |lines|
  {
    if lines != [] {
      var n := |lines| - 1;
      var front := lines[..n];
      CountsAre(front);
      OneMorePlace(set i | 0 <= i < n && (front[i].kind.Src? || front[i].kind.Both?),
                   (set i | 0 <= i < |lines| && (lines[i].kind.Src? || lines[i].kind.Both?)), n, !lines[n].kind.Dst?);
      OneMorePlace(set i | 0 <= i < n && (front[i].kind.Dst? || front[i].kind.Both?),
                   (set i | 0 <= i < |lines| && (lines[i].kind.Dst? || lines[i].kind.Both?)), n, !lines[n].kind.Src?);
    }
  }

  // Which lines of text start with the sign or a blank.
  ghost function Signed(text: seq<string>, sign: char): set<int> {
    set i | 0 <= i < |text| && text[i] != "" && (text[i][0] == sign || text[i][0] == ' ')
  }

  lemma SignsOf(lines: seq<Line>)
    ensures Signed(LineTexts(lines), '-') == set i | 0 <= i < |lines| && (lines[i].kind.Src? || lines[i].kind.Both?)
    ensures Signed(LineTexts(lines), '+') == set i | 0 <= i < |lines| && (lines[i].kind.Dst? || lines[i].kind.Both?)
  {
  }

  // The second number of a printed header is the number of lines printed after it that start with
  // '-' or ' ', the fourth the number of those that start with '+' or ' '.
  lemma HeaderCounts(c: Chunk)
    ensures var text := ChunkTexts(c);
      ChunkStart(text[0]) == Some((c.srcPos, |Signed(text[1..], '-')|, c.dstPos, |Signed(text[1..], '+')|))
  {
    HeaderBack(c);
    CountsAre(c.lines);
    SignsOf(c.lines);
    assert ChunkTexts(c)[1..] == LineTexts(c.lines);
  }

  // The printed header reads back as the positions and the numbers of source and destination lines.
  lemma HeaderMeans(c: Chunk)
    ensures ChunkStart(Header(c)) == Some((
      c.srcPos, |set i | 0 <= i < |c.lines| && (c.lines[i].kind.Src? || c.lines[i].kind.Both?)|,
      c.dstPos, |set i | 0 <= i < |c.lines| && (c.lines[i].kind.Dst? || c.lines[i].kind.Both?)|))
  {
    HeaderBack(c);
    CountsAre(c.lines);
  }

  lemma HeaderBack(c: Chunk)
    ensures ChunkStart(Header(c)) == Some((c.srcPos, CountSrc(c.lines), c.dstPos, CountDst(c.lines)))
  {
    var d3 := Decimal(CountDst(c.lines)) + " @@";
    var d2 := Decimal(c.dstPos) + ("," + d3);
    var d1 := Decimal(CountSrc(c.lines)) + (" +" + d2);
    var d0 := Decimal(c.srcPos) + ("," + d1);
    assert Header(c)[4..] == d0;
    TakeNumberBack(c.srcPos, ",", d1);
    TakeNumberBack(CountSrc(c.lines), " +", d2);
    TakeNumberBack(c.dstPos, ",", d3);
    TakeNumberBack(CountDst(c.lines), " @@", "");
    assert " @@" + "" == " @@";
  }

  lemma AtToken(s: string, header: (nat, nat, nat, nat))
    requires s != [] && s[0] == '@' && ChunkStart(s) == Some(header)
    ensures Classify(s) == StartChunk(header.0, header.2)
  {
    StartsApart("--- ", s);
    StartsApart("+++ ", s);
  }

  lemma StartsApart(a: string, s: string)
    requires a != "" && s != "" && a[0] != s[0]
    ensures !(a <= s)
  {
  }

  lemma HeaderStart(c: Chunk)
    ensures Header(c) != [] && Header(c)[0] == '@'
  {
    assert "@@ -"[0] == '@';
  }

  lemma HeaderToken(c: Chunk)
    ensures Classify(Header(c)) == StartChunk(c.srcPos, c.dstPos)
  {
    HeaderBack(c);
    HeaderStart(c);
    AtToken(Header(c), (c.srcPos, CountSrc(c.lines), c.dstPos, CountDst(c.lines)));
  }

  // A removed line that reads "-- ..." or an added line that reads "++ ..." looks like a file header.
  predicate GoodLine(l: Line) {
    !(l.kind.Src? && "-- " <= l.text) && !(l.kind.Dst? && "++ " <= l.text)
  }

  lemma LineToken(l: Line)
    ensures if GoodLine(l) then Classify(LineText(l)) == Body(l) else !Classify(LineText(l)).Body?
  {
    var s := LineText(l);
    assert s[1..] == l.text;
    assert s[0] != '@';
    if l.kind.Src? {
      assert "--- " <= s <==> "-- " <= l.text by {
        assert "--- " == "-" + "-- ";
      }
    } else if l.kind.Dst? {
      assert "+++ " <= s <==> "++ " <= l.text by {
        assert "+++ " == "+" + "++ ";
      }
    }
  }
}
