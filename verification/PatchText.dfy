/**
 * Patch sets as text (simulation/utils/check-style.py): the printer, the parser as a function of the lines, and
 * exactly which patch sets survive being printed and parsed.
 */
module PatchText {
  import opened Wrappers

  /** A new line object has no kind until one of its setters is called. */
  datatype Kind = Unset | Src | Dst | Both

  datatype Line = Line(kind: Kind, text: string)

  datatype Chunk = Chunk(srcPos: int, dstPos: int, lines: seq<Line>)

  datatype Patch = Patch(src: string, dst: string, chunks: seq<Chunk>)

  // ---- Decimal numbers ----

  predicate IsDigit(c: char) {
    '0' <= c <= '9'
  }

  function Digits(n: nat): string {
    if n < 10 then [('0' as int + n) as char] else Digits(n / 10) + [('0' as int + n % 10) as char]
  }

  function ValueOf(digits: string): nat
    requires forall c :: c in digits ==> IsDigit(c)
  {
    if digits == "" then 0
    else
      var n := |digits| - 1;
      assert IsDigit(digits[n]);
      10 * ValueOf(digits[..n]) + (digits[n] as int - '0' as int)
  }

  /** %d */
  function Decimal(n: int): string {
    if n < 0 then "-" + Digits(-n) else Digits(n)
  }

  lemma {:induction false} DigitsRead(n: nat)
    ensures Digits(n) != "" && forall c :: c in Digits(n) ==> IsDigit(c)
    ensures ValueOf(Digits(n)) == n
  {
    if n >= 10 {
      DigitsRead(n / 10);
      var d := ('0' as int + n % 10) as char;
      assert (Digits(n / 10) + [d])[..|Digits(n / 10)|] == Digits(n / 10);
    } else {
      assert Digits(n)[..0] == "";
    }
  }

  // ---- Regular expressions ----

  /** `$` also matches in front of a final newline. */
  function Chomp(s: string): string {
    if s != "" && s[|s| - 1] == '\n' then s[..|s| - 1] else s
  }

  /** `^prefix(.*)$`: the rest of the line without its final newline; a newline elsewhere defeats the match. */
  function Match(line: string, prefix: string): Option<string> {
    if !(prefix <= line) then None
    else
      var text := Chomp(line[|prefix|..]);
      if '\n' in text then None else Some(text)
  }

  function DigitRun(s: string): (n: nat)
    ensures n <= |s| && forall c :: c in s[..n] ==> IsDigit(c)
    ensures n < |s| ==> !IsDigit(s[n])
  {
    if s == "" || !IsDigit(s[0]) then 0
    else
      var n := DigitRun(s[1..]);
      assert s[..n + 1] == [s[0]] + s[1..][..n];
      n + 1
  }

  /** `([0-9]+)` and the literal text behind it: the number and what follows. */
  function Number(s: string, behind: string): Option<(nat, string)> {
    var n := DigitRun(s);
    if n == 0 || !(behind <= s[n..]) then None else Some((ValueOf(s[..n]), s[n..][|behind|..]))
  }

  /** The two positions in a chunk header; the two lengths are read and forgotten. */
  function HeaderMatch(line: string): Option<(nat, nat)> {
    if !("@@ -" <= line) then None
    else match Number(line[4..], ",")
         case None => None
         case Some((srcPos, s)) => HeaderTail(srcPos, s)
  }

  function HeaderTail(srcPos: nat, s: string): Option<(nat, nat)> {
    match Number(s, " +")
    case None => None
    case Some((_, t)) =>
      match Number(t, ",")
      case None => None
      case Some((dstPos, u)) =>
        match Number(u, " @@")
        case None => None
        case Some(_) => Some((srcPos, dstPos))
  }

  // ---- The printer ----

  function LengthOn(lines: seq<Line>, side: Kind): nat {
    if lines == [] then 0
    else
      var n := |lines| - 1;
      LengthOn(lines[..n], side) + if lines[n].kind == side || lines[n].kind == Both then 1 else 0
  }

  function Header(c: Chunk): string {
    "@@ -" + (Decimal(c.srcPos) + ("," + HeaderEnd(LengthOn(c.lines, Src), c.dstPos, LengthOn(c.lines, Dst))))
  }

  function HeaderEnd(srcLen: nat, dstPos: int, dstLen: nat): string {
    Decimal(srcLen) + (" +" + (Decimal(dstPos) + ("," + (Decimal(dstLen) + (" @@" + "\n")))))
  }

  function Sign(kind: Kind): string
    requires kind != Unset
  {
    match kind case Src => "-" case Dst => "+" case Both => " "
  }

  /** One piece for each call of write; an unset line raises 'invalid patch' (None). */
  function LinePieces(lines: seq<Line>): Option<seq<string>> {
    if lines == [] then Some([])
    else if lines[0].kind == Unset then None
    else match LinePieces(lines[1..])
         case None => None
         case Some(rest) => Some([Sign(lines[0].kind) + lines[0].text + "\n"] + rest)
  }

  function ChunkPieces(chunks: seq<Chunk>): Option<seq<string>> {
    if chunks == [] then Some([])
    else match (LinePieces(chunks[0].lines), ChunkPieces(chunks[1..]))
         case (Some(lines), Some(rest)) => Some([Header(chunks[0])] + lines + rest)
         case _ => None
  }

  function PatchPieces(ps: seq<Patch>): Option<seq<string>> {
    if ps == [] then Some([])
    else match (ChunkPieces(ps[0].chunks), PatchPieces(ps[1..]))
         case (Some(chunks), Some(rest)) =>
           Some(["--- " + ps[0].src + "\n", "+++ " + ps[0].dst + "\n"] + chunks + rest)
         case _ => None
  }

  function Flatten(pieces: seq<string>): string {
    if pieces == [] then "" else pieces[0] + Flatten(pieces[1..])
  }

  /** Everything that ends up in the file. */
  function Write(ps: seq<Patch>): Option<string> {
    match PatchPieces(ps) case None => None case Some(pieces) => Some(Flatten(pieces))
  }

  // ---- The parser ----

  function LineLength(text: string): (n: nat)
    requires text != ""
    ensures 0 < n <= |text|
  {
    if text[0] == '\n' || |text| == 1 then 1 else 1 + LineLength(text[1..])
  }

  /** Iterating over a file: lines keep their newline. */
  function SplitLines(text: string): seq<string> {
    if text == "" then [] else [text[..LineLength(text)]] + SplitLines(text[LineLength(text)..])
  }

  /** The current chunk is the one added last, even when a new patch has begun since. */
  function AddLine(ps: seq<Patch>, line: Line): Option<seq<Patch>> {
    if ps == [] then None
    else
      var n := |ps| - 1;
      var chunks := ps[n].chunks;
      if chunks != [] then
        var m := |chunks| - 1;
        Some(ps[..n] + [ps[n].(chunks := chunks[..m] + [chunks[m].(lines := chunks[m].lines + [line])])])
      else match AddLine(ps[..n], line)
           case None => None
           case Some(before) => Some(before + [ps[n]])
  }

  /** What a line is, by the first pattern that matches it. */
  datatype Form =
    | SrcFile(name: string)
    | DstFile(name: string)
    | NewChunk(srcPos: nat, dstPos: nat)
    | Text(line: Line)
    | NoForm

  function FormOf(line: string): Form {
    if Match(line, "--- ").Some? then SrcFile(Match(line, "--- ").value)
    else if Match(line, "+++ ").Some? then DstFile(Match(line, "+++ ").value)
    else if HeaderMatch(line).Some? then NewChunk(HeaderMatch(line).value.0, HeaderMatch(line).value.1)
    else if Match(line, "-").Some? then Text(Line(Src, Match(line, "-").value))
    else if Match(line, "+").Some? then Text(Line(Dst, Match(line, "+").value))
    else if Match(line, " ").Some? then Text(Line(Both, Match(line, " ").value))
    else NoForm
  }

  /** The last patch is the current one. */
  function WithLast(ps: seq<Patch>, p: Patch): seq<Patch>
    requires ps != []
  {
    ps[..|ps| - 1] + [p]
  }

  function Take(form: Form, ps: seq<Patch>): Option<seq<Patch>> {
    match form
    case SrcFile(name) => Some(ps + [Patch(name, "", [])])
    case DstFile(name) => if ps == [] then None else Some(WithLast(ps, ps[|ps| - 1].(dst := name)))
    case NewChunk(srcPos, dstPos) =>
      if ps == [] then None
      else Some(WithLast(ps, ps[|ps| - 1].(chunks := ps[|ps| - 1].chunks + [Chunk(srcPos, dstPos, [])])))
    case Text(line) => AddLine(ps, line)
    case NoForm => None
  }

  /** None: an exception, either the parser's own or the use of a patch or chunk that is not there. */
  function Step(line: string, ps: seq<Patch>): Option<seq<Patch>> {
    Take(FormOf(line), ps)
  }

  function ParseFrom(lines: seq<string>, ps: seq<Patch>): Option<seq<Patch>> {
    if lines == [] then Some(ps)
    else match Step(lines[0], ps)
         case None => None
         case Some(next) => ParseFrom(lines[1..], next)
  }

  function Parse(lines: seq<string>): Option<seq<Patch>> {
    ParseFrom(lines, [])
  }

  // ---- Which patch sets survive ----

  /** A line that the parser can tell from a file name. */
  predicate Plain(line: Line) {
    && line.kind != Unset && '\n' !in line.text
    && (line.kind == Src ==> !("-- " <= line.text))
    && (line.kind == Dst ==> !("++ " <= line.text))
  }

  predicate PlainLines(lines: seq<Line>) {
    forall i :: 0 <= i < |lines| ==> Plain(lines[i])
  }

  predicate PlainChunk(c: Chunk) {
    0 <= c.srcPos && 0 <= c.dstPos && PlainLines(c.lines)
  }

  predicate PlainChunks(chunks: seq<Chunk>) {
    forall i :: 0 <= i < |chunks| ==> PlainChunk(chunks[i])
  }

  predicate PlainPatch(p: Patch) {
    '\n' !in p.src && '\n' !in p.dst && PlainChunks(p.chunks)
  }

  predicate PlainSet(ps: seq<Patch>) {
    forall i :: 0 <= i < |ps| ==> PlainPatch(ps[i])
  }
}
