/** Printing a patch set and parsing it again gives it back exactly when it is plain. */
module PatchRoundTrip {
  import opened Lists
  import opened PatchText
  import opened Wrappers

  // ---- Whatever is parsed is plain ----

  lemma ChompLater(s: string, n: nat)
    requires n <= |Chomp(s)|
    ensures Chomp(s[n..]) == Chomp(s)[n..]
  {
  }

  /** A longer prefix matches whenever the captured text goes on like it. */
  lemma MatchLonger(line: string, prefix: string, more: string)
    requires Match(line, prefix).Some? && more <= Match(line, prefix).value
    ensures Match(line, prefix + more).Some?
  {
    var rest := line[|prefix|..];
    ChompLater(rest, |more|);
    assert more <= rest;
    assert line == prefix + rest && rest == more + rest[|more|..];
    assert line == prefix + more + rest[|more|..];
    assert line[|prefix + more|..] == rest[|more|..];
  }

  /** Whatever a line contributes is plain. */
  predicate PlainForm(form: Form) {
    match form
    case SrcFile(name) => '\n' !in name
    case DstFile(name) => '\n' !in name
    case NewChunk(_, _) => true
    case Text(line) => Plain(line)
    case NoForm => true
  }

  lemma FormIsPlain(line: string)
    ensures PlainForm(FormOf(line))
  {
    assert "-" + "-- " == "--- " && "+" + "++ " == "+++ ";
    if Match(line, "-").Some? && "-- " <= Match(line, "-").value {
      MatchLonger(line, "-", "-- ");
    }
    if Match(line, "+").Some? && "++ " <= Match(line, "+").value {
      MatchLonger(line, "+", "++ ");
    }
  }

  lemma {:induction false} AddLineIsPlain(ps: seq<Patch>, line: Line)
    requires PlainSet(ps) && Plain(line) && AddLine(ps, line).Some?
    ensures PlainSet(AddLine(ps, line).value)
  {
    var n := |ps| - 1;
    assert PlainPatch(ps[n]);
    assert PlainSet(ps[..n]);
    if ps[n].chunks == [] {
      AddLineIsPlain(ps[..n], line);
    } else {
      assert PlainChunk(ps[n].chunks[|ps[n].chunks| - 1]);
    }
  }

  lemma LastIsPlain(ps: seq<Patch>, p: Patch)
    requires PlainSet(ps) && ps != []
    requires PlainPatch(ps[|ps| - 1]) ==> PlainPatch(p)
    ensures PlainSet(ps[..|ps| - 1] + [p])
  {
    assert PlainPatch(ps[|ps| - 1]);
  }

  lemma NewChunkIsPlain(p: Patch, srcPos: nat, dstPos: nat)
    requires PlainPatch(p)
    ensures PlainPatch(p.(chunks := p.chunks + [Chunk(srcPos, dstPos, [])]))
  {
    assert PlainChunk(Chunk(srcPos, dstPos, []));
  }

  lemma TakeIsPlain(form: Form, ps: seq<Patch>)
    requires PlainForm(form) && PlainSet(ps) && Take(form, ps).Some?
    ensures PlainSet(Take(form, ps).value)
  {
    match form
    case SrcFile(name) =>
      assert PlainPatch(Patch(name, "", []));
    case DstFile(name) =>
      LastIsPlain(ps, ps[|ps| - 1].(dst := name));
    case NewChunk(srcPos, dstPos) =>
      var p := ps[|ps| - 1].(chunks := ps[|ps| - 1].chunks + [Chunk(srcPos, dstPos, [])]);
      NewChunkIsPlain(ps[|ps| - 1], srcPos, dstPos);
      LastIsPlain(ps, p);
    case Text(line) =>
      AddLineIsPlain(ps, line);
  }

  lemma {:induction false} ParseIsPlain(lines: seq<string>, ps: seq<Patch>)
    requires PlainSet(ps) && ParseFrom(lines, ps).Some?
    ensures PlainSet(ParseFrom(lines, ps).value)
  {
    if lines != [] {
      FormIsPlain(lines[0]);
      TakeIsPlain(FormOf(lines[0]), ps);
      ParseIsPlain(lines[1..], Step(lines[0], ps).value);
    }
  }

  // ---- Whatever is plain is parsed back: one line ----

  lemma Matches(prefix: string, text: string)
    requires '\n' !in text
    ensures Match(prefix + text + "\n", prefix) == Some(text)
  {
    var line := prefix + text + "\n";
    assert line[|prefix|..] == text + "\n";
    assert (text + "\n")[..|text|] == text;
  }

  /** The current chunk is the last one of the last patch. */
  function Open(ps: seq<Patch>, p: Patch, c: Chunk): seq<Patch> {
    ps + [p.(chunks := p.chunks + [c])]
  }

  lemma AddLineToOpen(ps: seq<Patch>, p: Patch, c: Chunk, line: Line)
    ensures AddLine(Open(ps, p, c), line) == Some(Open(ps, p, c.(lines := c.lines + [line])))
  {
    var all := Open(ps, p, c);
    assert all[..|all| - 1] == ps;
    var chunks := p.chunks + [c];
    assert chunks[..|chunks| - 1] == p.chunks;
  }

  /** A prefix of a written line is its sign and a prefix of its text. */
  lemma BehindSign(sign: string, text: string, prefix: string)
    requires |sign| == 1 && |prefix| > 1 && '\n' !in prefix
    ensures prefix <= sign + text + "\n" ==> prefix[0] == sign[0] && prefix[1..] <= text
  {
    var line := sign + text + "\n";
    if prefix <= line {
      assert line[|text| + 1] == '\n' && forall k :: 0 <= k < |prefix| ==> prefix[k] == line[k];
      assert |prefix| <= |text| + 1;
      assert line[1..] == text + "\n" && prefix[1..] <= line[1..];
    }
  }

  lemma LineForm(line: Line)
    requires Plain(line)
    ensures FormOf(Sign(line.kind) + line.text + "\n") == Text(line)
  {
    var sign := Sign(line.kind);
    var text := sign + line.text + "\n";
    BehindSign(sign, line.text, "--- ");
    BehindSign(sign, line.text, "+++ ");
    BehindSign(sign, line.text, "@@ -");
    assert "--- "[1..] == "-- " && "+++ "[1..] == "++ ";
    Matches(sign, line.text);
    assert text[0] == sign[0];
  }

  lemma LineRead(line: Line, ps: seq<Patch>, p: Patch, c: Chunk)
    requires Plain(line)
    ensures Step(Sign(line.kind) + line.text + "\n", Open(ps, p, c)) == Some(Open(ps, p, c.(lines := c.lines + [line])))
  {
    LineForm(line);
    AddLineToOpen(ps, p, c, line);
  }

  lemma HeadAndTail<T>(a: seq<T>, b: seq<T>)
    requires b != []
    ensures a + [b[0]] + b[1..] == a + b
  {
  }

  lemma FirstRead(line: string, pieces: seq<string>, more: seq<string>, ps: seq<Patch>, next: seq<Patch>)
    requires Step(line, ps) == Some(next)
    ensures ParseFrom([line] + pieces + more, ps) == ParseFrom(pieces + more, next)
  {
    assert ([line] + pieces + more)[1..] == pieces + more;
  }

  lemma FirstLineRead(lines: seq<Line>, ps: seq<Patch>, p: Patch, c: Chunk, more: seq<string>)
    requires lines != [] && Plain(lines[0]) && LinePieces(lines).Some?
    ensures LinePieces(lines[1..]).Some?
    ensures ParseFrom(LinePieces(lines).value + more, Open(ps, p, c))
         == ParseFrom(LinePieces(lines[1..]).value + more, Open(ps, p, c.(lines := c.lines + [lines[0]])))
  {
    LineRead(lines[0], ps, p, c);
    FirstRead(Sign(lines[0].kind) + lines[0].text + "\n", LinePieces(lines[1..]).value, more,
              Open(ps, p, c), Open(ps, p, c.(lines := c.lines + [lines[0]])));
  }

  lemma {:induction false} LinesRead(lines: seq<Line>, ps: seq<Patch>, p: Patch, c: Chunk, more: seq<string>)
    requires PlainLines(lines) && LinePieces(lines).Some?
    ensures ParseFrom(LinePieces(lines).value + more, Open(ps, p, c))
         == ParseFrom(more, Open(ps, p, c.(lines := c.lines + lines)))
  {
    if lines == [] {
      assert [] + more == more;
      assert c.lines + [] == c.lines;
    } else {
      FirstLineRead(lines, ps, p, c, more);
      LinesRead(lines[1..], ps, p, c.(lines := c.lines + [lines[0]]), more);
      HeadAndTail(c.lines, lines);
    }
  }

  // ---- One chunk ----

  lemma {:induction false} DigitRunIs(digits: string, behind: string)
    requires forall c :: c in digits ==> IsDigit(c)
    requires behind == "" || !IsDigit(behind[0])
    ensures DigitRun(digits + behind) == |digits|
  {
    if digits == "" {
      assert digits + behind == behind;
    } else {
      assert (digits + behind)[1..] == digits[1..] + behind;
      DigitRunIs(digits[1..], behind);
    }
  }

  lemma NumberRead(n: nat, behind: string, rest: string)
    requires behind != "" && !IsDigit(behind[0])
    ensures Number(Decimal(n) + (behind + rest), behind) == Some((n, rest))
  {
    DigitsRead(n);
    DigitRunIs(Digits(n), behind + rest);
    var s := Digits(n) + (behind + rest);
    assert s[..|Digits(n)|] == Digits(n);
    assert s[|Digits(n)|..] == behind + rest;
    assert (behind + rest)[|behind|..] == rest;
  }

  lemma HeaderRead(c: Chunk)
    requires 0 <= c.srcPos && 0 <= c.dstPos
    ensures HeaderMatch(Header(c)) == Some((c.srcPos, c.dstPos))
  {
    var srcLen, dstLen := LengthOn(c.lines, Src), LengthOn(c.lines, Dst);
    var end := HeaderEnd(srcLen, c.dstPos, dstLen);
    NumberRead(c.srcPos, ",", end);
    HeaderEndRead(c.srcPos, srcLen, c.dstPos, dstLen);
    var body := Decimal(c.srcPos) + ("," + end);
    assert ("@@ -" + body)[4..] == body;
  }

  lemma HeaderEndRead(srcPos: nat, srcLen: nat, dstPos: nat, dstLen: nat)
    ensures HeaderTail(srcPos, HeaderEnd(srcLen, dstPos, dstLen)) == Some((srcPos, dstPos))
  {
    var u := Decimal(dstLen) + (" @@" + "\n");
    var t := Decimal(dstPos) + ("," + u);
    NumberRead(srcLen, " +", t);
    NumberRead(dstPos, ",", u);
    NumberRead(dstLen, " @@", "\n");
  }

  /** The lines of one side among what is written for a chunk: those with its sign and the unchanged ones. */
  function LinesWith(pieces: seq<string>, sign: string): set<nat> {
    set i: nat | i < |pieces| && (sign <= pieces[i] || " " <= pieces[i])
  }

  lemma {:induction false} PiecesAre(lines: seq<Line>)
    requires LinePieces(lines).Some?
    ensures var pieces := LinePieces(lines).value;
            && |pieces| == |lines|
            && forall i :: 0 <= i < |lines| ==>
                 lines[i].kind != Unset && pieces[i] == Sign(lines[i].kind) + lines[i].text + "\n"
  {
    if lines != [] {
      PiecesAre(lines[1..]);
    }
  }

  lemma SideOfPiece(line: Line, side: Kind)
    requires line.kind != Unset && side in {Src, Dst}
    ensures var piece := Sign(line.kind) + line.text + "\n";
            Sign(side) <= piece || " " <= piece <==> IsOnSide(line, side)
  {
    var piece := Sign(line.kind) + line.text + "\n";
    assert piece[0] == Sign(line.kind)[0];
  }

  predicate IsOnSide(line: Line, side: Kind) {
    line.kind == side || line.kind == Both
  }

  function OnSide(lines: seq<Line>, side: Kind): set<nat> {
    set i: nat | i < |lines| && IsOnSide(lines[i], side)
  }

  lemma OnSideNext(lines: seq<Line>, line: Line, side: Kind)
    ensures OnSide(lines + [line], side) == OnSide(lines, side) + if IsOnSide(line, side) then {|lines|} else {}
  {
  }

  lemma {:induction false} LengthIsCount(lines: seq<Line>, side: Kind)
    ensures LengthOn(lines, side) == |OnSide(lines, side)|
  {
    if lines != [] {
      var n := |lines| - 1;
      LengthIsCount(lines[..n], side);
      OnSideNext(lines[..n], lines[n], side);
      assert lines == lines[..n] + [lines[n]];
    }
  }

  /** The two lengths in the header of a chunk are the numbers of lines that are written below it for the old side
      and for the new side. */
  lemma LengthsAreRight(c: Chunk, side: Kind)
    requires LinePieces(c.lines).Some? && side in {Src, Dst}
    ensures LengthOn(c.lines, side) == |LinesWith(LinePieces(c.lines).value, Sign(side))|
  {
    var pieces := LinePieces(c.lines).value;
    PiecesAre(c.lines);
    LengthIsCount(c.lines, side);
    forall i: nat | i < |pieces|
      ensures Sign(side) <= pieces[i] || " " <= pieces[i] <==> IsOnSide(c.lines[i], side)
    {
      SideOfPiece(c.lines[i], side);
    }
    assert LinesWith(pieces, Sign(side)) == OnSide(c.lines, side);
  }

  /** The header of a chunk: the lengths count the lines written below it with "-" or " ", and with "+" or " ". */
  lemma HeaderCounts(c: Chunk)
    requires LinePieces(c.lines).Some?
    ensures var pieces := LinePieces(c.lines).value;
            Header(c) == "@@ -" + (Decimal(c.srcPos) + ("," + HeaderEnd(|LinesWith(pieces, "-")|, c.dstPos,
                                                                        |LinesWith(pieces, "+")|)))
  {
    LengthsAreRight(c, Src);
    LengthsAreRight(c, Dst);
  }

  lemma HeaderForm(line: string, srcPos: nat, dstPos: nat)
    requires line != "" && line[0] == '@' && HeaderMatch(line) == Some((srcPos, dstPos))
    ensures FormOf(line) == NewChunk(srcPos, dstPos)
  {
  }

  lemma ChunkTaken(srcPos: nat, dstPos: nat, ps: seq<Patch>, p: Patch)
    ensures Take(NewChunk(srcPos, dstPos), ps + [p]) == Some(Open(ps, p, Chunk(srcPos, dstPos, [])))
  {
    assert (ps + [p])[..|ps + [p]| - 1] == ps;
  }

  lemma HeaderStep(c: Chunk, ps: seq<Patch>, p: Patch)
    requires 0 <= c.srcPos && 0 <= c.dstPos
    ensures Step(Header(c), ps + [p]) == Some(Open(ps, p, c.(lines := [])))
  {
    HeaderRead(c);
    assert Header(c)[0] == '@';
    HeaderForm(Header(c), c.srcPos, c.dstPos);
    ChunkTaken(c.srcPos, c.dstPos, ps, p);
  }

  lemma ChunkRead(c: Chunk, ps: seq<Patch>, p: Patch, more: seq<string>)
    requires PlainChunk(c) && LinePieces(c.lines).Some?
    ensures ParseFrom([Header(c)] + LinePieces(c.lines).value + more, ps + [p]) == ParseFrom(more, Open(ps, p, c))
  {
    var empty := c.(lines := []);
    HeaderStep(c, ps, p);
    FirstRead(Header(c), LinePieces(c.lines).value, more, ps + [p], Open(ps, p, empty));
    LinesRead(c.lines, ps, p, empty, more);
    assert empty.(lines := [] + c.lines) == c;
  }

  lemma FirstChunkRead(chunks: seq<Chunk>, ps: seq<Patch>, p: Patch, more: seq<string>)
    requires chunks != [] && PlainChunk(chunks[0]) && ChunkPieces(chunks).Some?
    ensures ChunkPieces(chunks[1..]).Some?
    ensures ParseFrom(ChunkPieces(chunks).value + more, ps + [p])
         == ParseFrom(ChunkPieces(chunks[1..]).value + more, Open(ps, p, chunks[0]))
  {
    var rest := ChunkPieces(chunks[1..]).value;
    ChunkRead(chunks[0], ps, p, rest + more);
    Regroup([Header(chunks[0])] + LinePieces(chunks[0].lines).value, rest, more);
  }

  lemma {:induction false} ChunksRead(chunks: seq<Chunk>, ps: seq<Patch>, p: Patch, more: seq<string>)
    requires PlainChunks(chunks) && ChunkPieces(chunks).Some?
    ensures ParseFrom(ChunkPieces(chunks).value + more, ps + [p])
         == ParseFrom(more, ps + [p.(chunks := p.chunks + chunks)])
  {
    if chunks == [] {
      assert [] + more == more;
      assert p.chunks + [] == p.chunks;
    } else {
      FirstChunkRead(chunks, ps, p, more);
      ChunksRead(chunks[1..], ps, p.(chunks := p.chunks + [chunks[0]]), more);
      HeadAndTail(p.chunks, chunks);
    }
  }

  // ---- All patches ----

  lemma NamesRead(src: string, dst: string, ps: seq<Patch>, more: seq<string>)
    requires '\n' !in src && '\n' !in dst
    ensures ParseFrom(["--- " + src + "\n", "+++ " + dst + "\n"] + more, ps)
         == ParseFrom(more, ps + [Patch(src, dst, [])])
  {
    var first, second := "--- " + src + "\n", "+++ " + dst + "\n";
    var lines := [first, second] + more;
    assert lines[1..] == [second] + more;
    assert ([second] + more)[1..] == more;
    Matches("--- ", src);
    Matches("+++ ", dst);
    assert second[0] == '+';
    var started := ps + [Patch(src, "", [])];
    assert started[..|started| - 1] == ps;
  }

  lemma FirstPatchRead(ps: seq<Patch>, done: seq<Patch>)
    requires ps != [] && PlainPatch(ps[0]) && PatchPieces(ps).Some?
    ensures PatchPieces(ps[1..]).Some?
    ensures ParseFrom(PatchPieces(ps).value, done) == ParseFrom(PatchPieces(ps[1..]).value, done + [ps[0]])
  {
    var p := ps[0];
    var chunks, rest := ChunkPieces(p.chunks).value, PatchPieces(ps[1..]).value;
    Regroup(["--- " + p.src + "\n", "+++ " + p.dst + "\n"], chunks, rest);
    NamesRead(p.src, p.dst, done, chunks + rest);
    ChunksRead(p.chunks, done, Patch(p.src, p.dst, []), rest);
    assert Patch(p.src, p.dst, []).(chunks := [] + p.chunks) == p;
  }

  lemma {:induction false} PatchesRead(ps: seq<Patch>, done: seq<Patch>)
    requires PlainSet(ps) && PatchPieces(ps).Some?
    ensures ParseFrom(PatchPieces(ps).value, done) == Some(done + ps)
  {
    if ps == [] {
      assert done + [] == done;
    } else {
      assert PlainPatch(ps[0]);
      FirstPatchRead(ps, done);
      PatchesRead(ps[1..], done + [ps[0]]);
      HeadAndTail(done, ps);
    }
  }

  // ---- The text falls into the lines that were written ----

  predicate OneLine(piece: string) {
    piece != "" && piece[|piece| - 1] == '\n' && '\n' !in piece[..|piece| - 1]
  }

  lemma {:induction false} LineLengthIs(piece: string, rest: string)
    requires OneLine(piece)
    ensures LineLength(piece + rest) == |piece|
  {
    if |piece| > 1 {
      assert piece[0] in piece[..|piece| - 1];
      assert (piece + rest)[1..] == piece[1..] + rest;
      assert piece[1..][..|piece| - 2] == piece[..|piece| - 1][1..];
      LineLengthIs(piece[1..], rest);
    }
  }

  lemma {:induction false} SplitFlatten(pieces: seq<string>)
    requires forall i :: 0 <= i < |pieces| ==> OneLine(pieces[i])
    ensures SplitLines(Flatten(pieces)) == pieces
  {
    if pieces != [] {
      var rest := Flatten(pieces[1..]);
      LineLengthIs(pieces[0], rest);
      assert (pieces[0] + rest)[..|pieces[0]|] == pieces[0];
      assert (pieces[0] + rest)[|pieces[0]|..] == rest;
      SplitFlatten(pieces[1..]);
    }
  }

  lemma TextIsOneLine(sign: string, text: string)
    requires '\n' !in sign && '\n' !in text
    ensures OneLine(sign + text + "\n")
  {
    var piece := sign + text + "\n";
    assert piece[..|piece| - 1] == sign + text;
  }

  lemma HeaderIsOneLine(c: Chunk)
    requires 0 <= c.srcPos && 0 <= c.dstPos
    ensures OneLine(Header(c))
  {
    var srcLen, dstLen := LengthOn(c.lines, Src), LengthOn(c.lines, Dst);
    DigitsRead(c.srcPos);
    HeaderEndIsOneLine(srcLen, c.dstPos, dstLen);
    var end := HeaderEnd(srcLen, c.dstPos, dstLen);
    OneLineBehind(",", end);
    OneLineBehind(Decimal(c.srcPos), "," + end);
    OneLineBehind("@@ -", Decimal(c.srcPos) + ("," + end));
  }

  lemma HeaderEndIsOneLine(srcLen: nat, dstPos: nat, dstLen: nat)
    ensures OneLine(HeaderEnd(srcLen, dstPos, dstLen))
  {
    DigitsRead(srcLen);
    DigitsRead(dstPos);
    DigitsRead(dstLen);
    var u := Decimal(dstLen) + (" @@" + "\n");
    OneLineBehind(" @@", "\n");
    OneLineBehind(Decimal(dstLen), " @@" + "\n");
    OneLineBehind(",", u);
    OneLineBehind(Decimal(dstPos), "," + u);
    OneLineBehind(" +", Decimal(dstPos) + ("," + u));
    OneLineBehind(Decimal(srcLen), " +" + (Decimal(dstPos) + ("," + u)));
  }

  lemma OneLineBehind(front: string, piece: string)
    requires '\n' !in front && OneLine(piece)
    ensures OneLine(front + piece)
  {
    assert (front + piece)[..|front + piece| - 1] == front + piece[..|piece| - 1];
  }

  lemma {:induction false} LinesAreLines(lines: seq<Line>)
    requires PlainLines(lines)
    ensures LinePieces(lines).Some?
    ensures forall i :: 0 <= i < |LinePieces(lines).value| ==> OneLine(LinePieces(lines).value[i])
  {
    if lines != [] {
      LinesAreLines(lines[1..]);
      TextIsOneLine(Sign(lines[0].kind), lines[0].text);
    }
  }

  lemma {:induction false} ChunksAreLines(chunks: seq<Chunk>)
    requires PlainChunks(chunks)
    ensures ChunkPieces(chunks).Some?
    ensures forall i :: 0 <= i < |ChunkPieces(chunks).value| ==> OneLine(ChunkPieces(chunks).value[i])
  {
    if chunks != [] {
      ChunksAreLines(chunks[1..]);
      LinesAreLines(chunks[0].lines);
      HeaderIsOneLine(chunks[0]);
    }
  }

  lemma {:induction false} PatchesAreLines(ps: seq<Patch>)
    requires PlainSet(ps)
    ensures PatchPieces(ps).Some?
    ensures forall i :: 0 <= i < |PatchPieces(ps).value| ==> OneLine(PatchPieces(ps).value[i])
  {
    if ps != [] {
      PatchesAreLines(ps[1..]);
      assert PlainPatch(ps[0]);
      ChunksAreLines(ps[0].chunks);
      TextIsOneLine("--- ", ps[0].src);
      TextIsOneLine("+++ ", ps[0].dst);
    }
  }

  // ---- The round trip ----

  /**
   * A patch set survives printing and parsing exactly when no text or file name holds a newline, no removed text
   * starts with `-- `, no added text starts with `++ `, no position is negative and no line is unset.
   */
  lemma RoundTripExactlyWhenPlain(ps: seq<Patch>)
    ensures PlainSet(ps) <==> Write(ps).Some? && Parse(SplitLines(Write(ps).value)) == Some(ps)
  {
    if PlainSet(ps) {
      PatchesAreLines(ps);
      PatchesRead(ps, []);
      SplitFlatten(PatchPieces(ps).value);
      assert [] + ps == ps;
    } else if Write(ps).Some? && Parse(SplitLines(Write(ps).value)).Some? {
      ParseIsPlain(SplitLines(Write(ps).value), []);
    }
  }
}
