/** The JSONC comment stripper: a byte-at-a-time machine, checked against a token grammar. */
module Jsonc {
  import opened Wrappers

  newtype byte = x: int | 0 <= x < 256

  const NEWLINE: byte := 10
  const QUOTE: byte := 34
  const STAR: byte := 42
  const SLASH: byte := 47
  const BACKSLASH: byte := 92

  datatype Outcome = Stripped(bytes: seq<byte>) | UnterminatedString | UnterminatedBlockComment

  function Prepend(front: seq<byte>, r: Outcome): Outcome {
    if r.Stripped? then Stripped(front + r.bytes) else r
  }

  lemma PrependTwice(a: seq<byte>, b: seq<byte>, r: Outcome)
    ensures Prepend(a, Prepend(b, r)) == Prepend(a + b, r)
  {
    if r.Stripped? {
      assert a + (b + r.bytes) == (a + b) + r.bytes;
    }
  }

  lemma Regroup(a: seq<byte>, b: seq<byte>, c: seq<byte>)
    ensures a + b + c == a + (b + c)
  {
  }

  lemma AfterByte(a: byte, y: seq<byte>)
    ensures ([a] + y)[0] == a && ([a] + y)[1..] == y
  {
  }

  lemma AfterMarker(a: byte, b: byte, y: seq<byte>)
    ensures ([a, b] + y)[0] == a && ([a, b] + y)[1] == b && ([a, b] + y)[2..] == y
  {
  }

  // ---------------------------------------------------------------- the machine

  datatype Mode = InCode | InString(escaped: bool) | InLine | InBlock(depth: nat)

  /** What is still to be emitted when the machine is in `mode` with `x` unread. */
  function Run(mode: Mode, x: seq<byte>): Outcome
    decreases |x|
  {
    if x == [] then
      match mode
      case InString(_) => UnterminatedString
      case InBlock(_) => UnterminatedBlockComment
      case _ => Stripped([])
    else
      match mode
      case InCode =>
        if |x| > 1 && x[0] == SLASH && x[1] == SLASH then Run(InLine, x[2..])
        else if |x| > 1 && x[0] == SLASH && x[1] == STAR then Run(InBlock(1), x[2..])
        else if x[0] == QUOTE then Prepend([x[0]], Run(InString(false), x[1..]))
        else Prepend([x[0]], Run(InCode, x[1..]))
      case InString(escaped) =>
        Prepend([x[0]], Run(if escaped then InString(false)
                            else if x[0] == BACKSLASH then InString(true)
                            else if x[0] == QUOTE then InCode
                            else InString(false), x[1..]))
      case InLine =>
        if x[0] == NEWLINE then Prepend([x[0]], Run(InCode, x[1..])) else Run(InLine, x[1..])
      case InBlock(depth) =>
        if |x| > 1 && x[0] == SLASH && x[1] == STAR then Run(InBlock(depth + 1), x[2..])
        else if |x| > 1 && x[0] == STAR && x[1] == SLASH then
          Run(if depth <= 1 then InCode else InBlock(depth - 1), x[2..])
        else Run(InBlock(depth), x[1..])
  }

  // ---------------------------------------------------------------- the grammar

  /** The inside of a string up to and including its closing quote. */
  datatype Str = Close | Plain(b: byte, rest: Str) | Escape(b: byte, rest: Str)

  /** A string body that the input ends in: cut off, possibly right after a backslash. */
  datatype OpenStr = Cut | CutAfterBackslash | OpenPlain(b: byte, rest: OpenStr) | OpenEscape(b: byte, rest: OpenStr)

  /** The inside of a block comment up to and including its closing marker. */
  datatype Block = End | Text(b: byte, rest: Block) | Nested(inner: Block, rest: Block)

  /** A block comment body that the input ends in. */
  datatype OpenBlock =
    | CutBlock
    | OpenText(b: byte, rest: OpenBlock)
    | OpenNested(inner: Block, rest: OpenBlock)
    | OpenInside(deep: OpenBlock)

  datatype Doc =
    | Eof
    | Code(b: byte, rest: Doc)
    | String(str: Str, rest: Doc)
    | Line(body: seq<byte>, rest: Doc)
    | Comment(block: Block, rest: Doc)
    | LastLine(body: seq<byte>)
    | OpenString(open: OpenStr)
    | OpenComment(openBlock: OpenBlock)

  function RenderStr(s: Str): (r: seq<byte>)
    ensures r != []
  {
    match s
    case Close => [QUOTE]
    case Plain(b, rest) => [b] + RenderStr(rest)
    case Escape(b, rest) => [BACKSLASH, b] + RenderStr(rest)
  }

  function RenderOpenStr(s: OpenStr): seq<byte> {
    match s
    case Cut => []
    case CutAfterBackslash => [BACKSLASH]
    case OpenPlain(b, rest) => [b] + RenderOpenStr(rest)
    case OpenEscape(b, rest) => [BACKSLASH, b] + RenderOpenStr(rest)
  }

  function RenderBlock(b: Block): (r: seq<byte>)
    ensures |r| >= 2
  {
    match b
    case End => [STAR, SLASH]
    case Text(c, rest) => [c] + RenderBlock(rest)
    case Nested(inner, rest) => [SLASH, STAR] + RenderBlock(inner) + RenderBlock(rest)
  }

  function RenderOpenBlock(b: OpenBlock): seq<byte> {
    match b
    case CutBlock => []
    case OpenText(c, rest) => [c] + RenderOpenBlock(rest)
    case OpenNested(inner, rest) => [SLASH, STAR] + RenderBlock(inner) + RenderOpenBlock(rest)
    case OpenInside(inner) => [SLASH, STAR] + RenderOpenBlock(inner)
  }

  function Render(d: Doc): seq<byte> {
    match d
    case Eof => []
    case Code(b, rest) => [b] + Render(rest)
    case String(s, rest) => [QUOTE] + RenderStr(s) + Render(rest)
    case Line(body, rest) => [SLASH, SLASH] + body + [NEWLINE] + Render(rest)
    case Comment(b, rest) => [SLASH, STAR] + RenderBlock(b) + Render(rest)
    case LastLine(body) => [SLASH, SLASH] + body
    case OpenString(s) => [QUOTE] + RenderOpenStr(s)
    case OpenComment(b) => [SLASH, STAR] + RenderOpenBlock(b)
  }

  predicate PlainByte(b: byte) { b != QUOTE && b != BACKSLASH }

  predicate StrOk(s: Str) {
    match s
    case Close => true
    case Plain(b, rest) => PlainByte(b) && StrOk(rest)
    case Escape(_, rest) => StrOk(rest)
  }

  predicate OpenStrOk(s: OpenStr) {
    match s
    case Cut => true
    case CutAfterBackslash => true
    case OpenPlain(b, rest) => PlainByte(b) && OpenStrOk(rest)
    case OpenEscape(_, rest) => OpenStrOk(rest)
  }

  /** `b` followed by `next` is not the two-byte marker that opens or closes a block comment. */
  predicate NoMarker(b: byte, next: seq<byte>) {
    next == [] || (!(b == SLASH && next[0] == STAR) && !(b == STAR && next[0] == SLASH))
  }

  predicate BlockOk(b: Block) {
    match b
    case End => true
    case Text(c, rest) => NoMarker(c, RenderBlock(rest)) && BlockOk(rest)
    case Nested(inner, rest) => BlockOk(inner) && BlockOk(rest)
  }

  predicate OpenBlockOk(b: OpenBlock) {
    match b
    case CutBlock => true
    case OpenText(c, rest) => NoMarker(c, RenderOpenBlock(rest)) && OpenBlockOk(rest)
    case OpenNested(inner, rest) => BlockOk(inner) && OpenBlockOk(rest)
    case OpenInside(inner) => OpenBlockOk(inner)
  }

  predicate CodeByte(b: byte, next: seq<byte>) {
    b != QUOTE && !(b == SLASH && next != [] && (next[0] == SLASH || next[0] == STAR))
  }

  predicate WellFormed(d: Doc) {
    match d
    case Eof => true
    case Code(b, rest) => CodeByte(b, Render(rest)) && WellFormed(rest)
    case String(s, rest) => StrOk(s) && WellFormed(rest)
    case Line(body, rest) => NEWLINE !in body && WellFormed(rest)
    case Comment(b, rest) => BlockOk(b) && WellFormed(rest)
    case LastLine(body) => NEWLINE !in body
    case OpenString(s) => OpenStrOk(s)
    case OpenComment(b) => OpenBlockOk(b)
  }

  /** The document without its comments; a line comment leaves its newline behind. */
  function Drop(d: Doc): Doc {
    match d
    case Code(b, rest) => Code(b, Drop(rest))
    case String(s, rest) => String(s, Drop(rest))
    case Line(_, rest) => Code(NEWLINE, Drop(rest))
    case Comment(_, rest) => Drop(rest)
    case LastLine(_) => Eof
    case _ => d
  }

  /** The last token of the document. */
  function Last(d: Doc): Doc {
    match d
    case Code(_, rest) => Last(rest)
    case String(_, rest) => Last(rest)
    case Line(_, rest) => Last(rest)
    case Comment(_, rest) => Last(rest)
    case _ => d
  }

  /** What stripping a document means, read off its tokens. */
  function Meaning(d: Doc): Outcome {
    if Last(d).OpenString? then UnterminatedString
    else if Last(d).OpenComment? then UnterminatedBlockComment
    else Stripped(Render(Drop(d)))
  }

  // ---------------------------------------------------------------- machine against grammar

  lemma {:induction false} RunStr(s: Str, t: seq<byte>)
    requires StrOk(s)
    ensures Run(InString(false), RenderStr(s) + t) == Prepend(RenderStr(s), Run(InCode, t))
  {
    var x := RenderStr(s) + t;
    match s
    case Close =>
      assert x[1..] == t;
    case Plain(b, rest) =>
      assert x[1..] == RenderStr(rest) + t;
      RunStr(rest, t);
      PrependTwice([b], RenderStr(rest), Run(InCode, t));
    case Escape(b, rest) =>
      assert x[1..] == [b] + (RenderStr(rest) + t);
      assert x[1..][1..] == RenderStr(rest) + t;
      RunStr(rest, t);
      PrependTwice([b], RenderStr(rest), Run(InCode, t));
      PrependTwice([BACKSLASH], [b] + RenderStr(rest), Run(InCode, t));
      assert [BACKSLASH] + ([b] + RenderStr(rest)) == RenderStr(s);
  }

  lemma {:induction false} RunOpenStr(s: OpenStr)
    requires OpenStrOk(s)
    ensures Run(InString(false), RenderOpenStr(s)) == UnterminatedString
  {
    var x := RenderOpenStr(s);
    match s
    case Cut =>
    case CutAfterBackslash =>
      assert x[1..] == [];
    case OpenPlain(b, rest) =>
      assert x[1..] == RenderOpenStr(rest);
      RunOpenStr(rest);
    case OpenEscape(b, rest) =>
      assert x[1..][1..] == RenderOpenStr(rest);
      RunOpenStr(rest);
  }

  lemma {:induction false} RunLine(body: seq<byte>, t: seq<byte>)
    requires NEWLINE !in body
    ensures Run(InLine, body + t) == Run(InLine, t)
  {
    if body == [] {
      assert body + t == t;
    } else {
      assert (body + t)[1..] == body[1..] + t;
      RunLine(body[1..], t);
    }
  }

  // ---------------------------------------------------------------- the bytes, by their codes

  /** From two slashes (47) up to a newline (10) everything goes, and the newline stays. */
  lemma LineCommentGoes(body: seq<byte>, rest: seq<byte>)
    requires 10 !in body
    ensures Run(InCode, [47, 47] + body + [10] + rest) == Prepend([10], Run(InCode, rest))
  {
    var x := [47, 47] + body + [10] + rest;
    assert x[2..] == body + ([10] + rest);
    RunLine(body, [10] + rest);
    assert ([10] + rest)[1..] == rest;
  }

  lemma {:induction false} InsideBlock(body: seq<byte>, depth: nat, rest: seq<byte>)
    requires 42 !in body && 47 !in body && depth >= 1
    ensures Run(InBlock(depth), body + [42, 47] + rest) == Run(Outside(depth), rest)
  {
    var x := body + [42, 47] + rest;
    if body == [] {
      assert x[2..] == rest;
    } else {
      assert x[1..] == body[1..] + [42, 47] + rest;
      InsideBlock(body[1..], depth, rest);
    }
  }

  /** From a slash and a star (42) up to a star and a slash everything goes, a nested comment included. */
  lemma BlockCommentGoes(body: seq<byte>, rest: seq<byte>)
    requires 42 !in body && 47 !in body
    ensures Run(InCode, [47, 42] + body + [42, 47] + rest) == Run(InCode, rest)
    ensures Run(InCode, [47, 42, 47, 42] + body + [42, 47, 42, 47] + rest) == Run(InCode, rest)
  {
    var x := [47, 42] + body + [42, 47] + rest;
    assert x[2..] == body + [42, 47] + rest;
    InsideBlock(body, 1, rest);
    var y := [47, 42, 47, 42] + body + [42, 47, 42, 47] + rest;
    assert y[2..][2..] == body + [42, 47] + ([42, 47] + rest);
    InsideBlock(body, 2, [42, 47] + rest);
    assert ([42, 47] + rest)[2..] == rest;
  }

  lemma {:induction false} InsideString(body: seq<byte>, rest: seq<byte>)
    requires 34 !in body && 92 !in body
    ensures Run(InString(false), body + [34] + rest) == Prepend(body + [34], Run(InCode, rest))
  {
    var x := body + [34] + rest;
    if body == [] {
      assert x[1..] == rest && [] + [34] == [34];
    } else {
      assert x[1..] == body[1..] + [34] + rest;
      InsideString(body[1..], rest);
      PrependTwice([body[0]], body[1..] + [34], Run(InCode, rest));
      assert [body[0]] + (body[1..] + [34]) == body + [34];
    }
  }

  /** From a quote (34) to the next one everything stays, comment markers included. */
  lemma StringStays(body: seq<byte>, rest: seq<byte>)
    requires 34 !in body && 92 !in body
    ensures Run(InCode, [34] + body + [34] + rest) == Prepend([34] + body + [34], Run(InCode, rest))
  {
    var x := [34] + body + [34] + rest;
    assert x[1..] == body + [34] + rest;
    InsideString(body, rest);
    PrependTwice([34], body + [34], Run(InCode, rest));
    assert [34] + (body + [34]) == [34] + body + [34];
  }

  /** Inside a string a backslash (92) takes the next byte along, whatever it is. */
  lemma EscapeStays(b: byte, rest: seq<byte>)
    ensures Run(InString(false), [92, b] + rest) == Prepend([92, b], Run(InString(false), rest))
  {
    var x := [92, b] + rest;
    assert x[1..] == [b] + rest && x[1..][1..] == rest;
    PrependTwice([92], [b], Run(InString(false), rest));
    assert [92] + [b] == [92, b];
  }

  /** Any other byte of code stays. */
  lemma CodeStays(b: byte, rest: seq<byte>)
    requires b != 34 && b != 47
    ensures Run(InCode, [b] + rest) == Prepend([b], Run(InCode, rest))
  {
    assert ([b] + rest)[1..] == rest;
  }

  function Outside(depth: nat): Mode {
    if depth <= 1 then InCode else InBlock(depth - 1)
  }

  lemma {:induction false} RunBlock(b: Block, depth: nat, t: seq<byte>)
    requires BlockOk(b) && depth >= 1
    ensures Run(InBlock(depth), RenderBlock(b) + t) == Run(Outside(depth), t)
    decreases b
  {
    var x := RenderBlock(b) + t;
    match b
    case End =>
      assert x[2..] == t;
    case Text(c, rest) =>
      assert x[1..] == RenderBlock(rest) + t;
      assert x[1] == RenderBlock(rest)[0];
      RunBlock(rest, depth, t);
    case Nested(inner, rest) =>
      var after := RenderBlock(rest) + t;
      Regroup([SLASH, STAR] + RenderBlock(inner), RenderBlock(rest), t);
      Regroup([SLASH, STAR], RenderBlock(inner), after);
      AfterMarker(SLASH, STAR, RenderBlock(inner) + after);
      RunBlock(inner, depth + 1, after);
      RunBlock(rest, depth, t);
  }

  lemma {:induction false} RunOpenBlock(b: OpenBlock, depth: nat)
    requires OpenBlockOk(b) && depth >= 1
    ensures Run(InBlock(depth), RenderOpenBlock(b)) == UnterminatedBlockComment
    decreases b
  {
    var x := RenderOpenBlock(b);
    match b
    case CutBlock =>
    case OpenText(c, rest) =>
      assert x[1..] == RenderOpenBlock(rest);
      RunOpenBlock(rest, depth);
    case OpenNested(inner, rest) =>
      assert x[2..] == RenderBlock(inner) + RenderOpenBlock(rest);
      RunBlock(inner, depth + 1, RenderOpenBlock(rest));
      RunOpenBlock(rest, depth);
    case OpenInside(inner) =>
      assert x[2..] == RenderOpenBlock(inner);
      RunOpenBlock(inner, depth + 1);
  }

  /** The machine computes the meaning of every well-formed document. */
  lemma {:induction false} MachineMeetsGrammar(d: Doc)
    requires WellFormed(d)
    ensures Run(InCode, Render(d)) == Meaning(d)
    decreases d, 1
  {
    match d
    case Eof =>
    case Code(b, rest) => MachineOnCode(b, rest);
    case String(s, rest) => MachineOnString(s, rest);
    case Line(body, rest) => MachineOnLine(body, rest);
    case Comment(b, rest) =>
      assert Render(d)[2..] == RenderBlock(b) + Render(rest);
      RunBlock(b, 1, Render(rest));
      MachineMeetsGrammar(rest);
    case LastLine(body) =>
      assert Render(d)[2..] == body + [];
      RunLine(body, []);
    case OpenString(s) =>
      assert Render(d)[1..] == RenderOpenStr(s);
      RunOpenStr(s);
    case OpenComment(b) =>
      assert Render(d)[2..] == RenderOpenBlock(b);
      RunOpenBlock(b, 1);
  }

  lemma {:induction false} MachineOnCode(b: byte, rest: Doc)
    requires WellFormed(Code(b, rest))
    ensures Run(InCode, Render(Code(b, rest))) == Meaning(Code(b, rest))
    decreases rest, 2
  {
    var x := Render(Code(b, rest));
    assert x[1..] == Render(rest);
    assert |x| > 1 ==> x[1] == Render(rest)[0];
    MachineMeetsGrammar(rest);
  }

  lemma {:induction false} MachineOnString(s: Str, rest: Doc)
    requires WellFormed(String(s, rest))
    ensures Run(InCode, Render(String(s, rest))) == Meaning(String(s, rest))
    decreases rest, 2
  {
    var y := RenderStr(s) + Render(rest);
    Regroup([QUOTE], RenderStr(s), Render(rest));
    AfterByte(QUOTE, y);
    RunStr(s, Render(rest));
    MachineMeetsGrammar(rest);
    PrependTwice([QUOTE], RenderStr(s), Meaning(rest));
  }

  lemma {:induction false} MachineOnLine(body: seq<byte>, rest: Doc)
    requires WellFormed(Line(body, rest))
    ensures Run(InCode, Render(Line(body, rest))) == Meaning(Line(body, rest))
    decreases rest, 2
  {
    assert Render(Line(body, rest))[2..] == body + ([NEWLINE] + Render(rest));
    RunLine(body, [NEWLINE] + Render(rest));
    assert ([NEWLINE] + Render(rest))[1..] == Render(rest);
    MachineMeetsGrammar(rest);
  }

  // ---------------------------------------------------------------- every input is a document, in one way

  datatype StrLex = StrClosed(s: Str, tail: seq<byte>) | StrOpen(o: OpenStr)

  function LexStr(x: seq<byte>): (r: StrLex)
    ensures r.StrClosed? ==> |r.tail| < |x|
  {
    if x == [] then StrOpen(Cut)
    else if x[0] == QUOTE then StrClosed(Close, x[1..])
    else if x[0] == BACKSLASH then
      if |x| == 1 then StrOpen(CutAfterBackslash)
      else
        match LexStr(x[2..])
        case StrClosed(s, tail) => StrClosed(Escape(x[1], s), tail)
        case StrOpen(o) => StrOpen(OpenEscape(x[1], o))
    else
      match LexStr(x[1..])
      case StrClosed(s, tail) => StrClosed(Plain(x[0], s), tail)
      case StrOpen(o) => StrOpen(OpenPlain(x[0], o))
  }

  ghost predicate LexedStr(x: seq<byte>, r: StrLex) {
    match r
    case StrClosed(s, tail) => StrOk(s) && RenderStr(s) + tail == x
    case StrOpen(o) => OpenStrOk(o) && RenderOpenStr(o) == x
  }

  lemma {:induction false} LexStrCorrect(x: seq<byte>)
    ensures LexedStr(x, LexStr(x))
  {
    if x == [] {
    } else if x[0] == QUOTE {
      assert [QUOTE] + x[1..] == x;
    } else if x[0] == BACKSLASH {
      if |x| > 1 {
        assert [BACKSLASH, x[1]] + x[2..] == x;
        LexStrCorrect(x[2..]);
        var r := LexStr(x[2..]);
        if r.StrClosed? {
          Regroup([BACKSLASH, x[1]], RenderStr(r.s), r.tail);
        }
      }
    } else {
      assert [x[0]] + x[1..] == x;
      LexStrCorrect(x[1..]);
      var r := LexStr(x[1..]);
      if r.StrClosed? {
        Regroup([x[0]], RenderStr(r.s), r.tail);
      }
    }
  }

  datatype BlockLex = BlockClosed(b: Block, tail: seq<byte>) | BlockOpen(o: OpenBlock)

  function LexBlock(x: seq<byte>): (r: BlockLex)
    ensures r.BlockClosed? ==> |r.tail| < |x|
    decreases |x|
  {
    if x == [] then BlockOpen(CutBlock)
    else if |x| > 1 && x[0] == STAR && x[1] == SLASH then BlockClosed(End, x[2..])
    else if |x| > 1 && x[0] == SLASH && x[1] == STAR then
      match LexBlock(x[2..])
      case BlockOpen(o) => BlockOpen(OpenInside(o))
      case BlockClosed(inner, tail) =>
        match LexBlock(tail)
        case BlockOpen(o) => BlockOpen(OpenNested(inner, o))
        case BlockClosed(rest, tail') => BlockClosed(Nested(inner, rest), tail')
    else
      match LexBlock(x[1..])
      case BlockOpen(o) => BlockOpen(OpenText(x[0], o))
      case BlockClosed(b, tail) => BlockClosed(Text(x[0], b), tail)
  }

  ghost predicate LexedBlock(x: seq<byte>, r: BlockLex) {
    match r
    case BlockClosed(b, tail) => BlockOk(b) && RenderBlock(b) + tail == x
    case BlockOpen(o) => OpenBlockOk(o) && RenderOpenBlock(o) == x
  }

  lemma {:induction false} LexBlockCorrect(x: seq<byte>)
    ensures LexedBlock(x, LexBlock(x))
    decreases |x|, 1
  {
    if x == [] {
    } else if |x| > 1 && x[0] == STAR && x[1] == SLASH {
      assert [STAR, SLASH] + x[2..] == x;
    } else if |x| > 1 && x[0] == SLASH && x[1] == STAR {
      LexNestedCorrect(x);
    } else {
      assert [x[0]] + x[1..] == x;
      LexBlockCorrect(x[1..]);
      var r := LexBlock(x[1..]);
      if r.BlockClosed? {
        assert [x[0]] + RenderBlock(r.b) + r.tail == [x[0]] + (RenderBlock(r.b) + r.tail);
        assert x[1] == RenderBlock(r.b)[0];
      }
    }
  }

  lemma {:induction false} LexNestedCorrect(x: seq<byte>)
    requires |x| > 1 && x[0] == SLASH && x[1] == STAR
    ensures LexedBlock(x, LexBlock(x))
    decreases |x|, 0
  {
    assert [SLASH, STAR] + x[2..] == x;
    LexBlockCorrect(x[2..]);
    var r := LexBlock(x[2..]);
    if r.BlockClosed? {
      LexBlockCorrect(r.tail);
      var r' := LexBlock(r.tail);
      if r'.BlockClosed? {
        Regroup([SLASH, STAR] + RenderBlock(r.b), RenderBlock(r'.b), r'.tail);
        Regroup([SLASH, STAR], RenderBlock(r.b), r.tail);
      } else {
        Regroup([SLASH, STAR], RenderBlock(r.b), r.tail);
      }
    }
  }

  /** The bytes before the first newline. */
  function LineBody(x: seq<byte>): (r: seq<byte>)
    ensures NEWLINE !in r && r <= x
    ensures r == x || x[|r|] == NEWLINE
  {
    if x == [] || x[0] == NEWLINE then [] else [x[0]] + LineBody(x[1..])
  }

  /** A lexer for the grammar; it never fails, and rendering undoes it. */
  function Lex(x: seq<byte>): Doc
    decreases |x|
  {
    if x == [] then Eof
    else if |x| > 1 && x[0] == SLASH && x[1] == SLASH then LexLine(x[2..])
    else if |x| > 1 && x[0] == SLASH && x[1] == STAR then
      match LexBlock(x[2..])
      case BlockOpen(o) => OpenComment(o)
      case BlockClosed(b, tail) => Comment(b, Lex(tail))
    else if x[0] == QUOTE then
      match LexStr(x[1..])
      case StrOpen(o) => OpenString(o)
      case StrClosed(s, tail) => String(s, Lex(tail))
    else Code(x[0], Lex(x[1..]))
  }

  /** The document that starts with a line comment whose body begins `x`. */
  function LexLine(x: seq<byte>): Doc
    decreases |x|, 1
  {
    var body := LineBody(x);
    if body == x then LastLine(body) else Line(body, Lex(x[|body| + 1..]))
  }

  lemma {:induction false} LexCorrect(x: seq<byte>)
    ensures WellFormed(Lex(x)) && Render(Lex(x)) == x
    decreases |x|
  {
    if x == [] {
    } else if |x| > 1 && x[0] == SLASH && x[1] == SLASH {
      LexLineCorrect(x[2..]);
      assert [SLASH, SLASH] + x[2..] == x;
    } else if |x| > 1 && x[0] == SLASH && x[1] == STAR {
      assert [SLASH, STAR] + x[2..] == x;
      LexBlockCorrect(x[2..]);
      var r := LexBlock(x[2..]);
      if r.BlockClosed? {
        LexCorrect(r.tail);
        Regroup([SLASH, STAR], RenderBlock(r.b), r.tail);
      }
    } else if x[0] == QUOTE {
      assert [QUOTE] + x[1..] == x;
      LexStrCorrect(x[1..]);
      var r := LexStr(x[1..]);
      if r.StrClosed? {
        LexCorrect(r.tail);
        Regroup([QUOTE], RenderStr(r.s), r.tail);
      }
    } else {
      assert [x[0]] + x[1..] == x;
      LexCorrect(x[1..]);
    }
  }

  lemma CutAtNewline(x: seq<byte>, body: seq<byte>)
    requires body <= x && |body| < |x| && x[|body|] == NEWLINE
    ensures [SLASH, SLASH] + body + [NEWLINE] + x[|body| + 1..] == [SLASH, SLASH] + x
  {
    assert x == body + [NEWLINE] + x[|body| + 1..];
  }

  lemma {:induction false} LexLineCorrect(x: seq<byte>)
    ensures WellFormed(LexLine(x)) && Render(LexLine(x)) == [SLASH, SLASH] + x
    decreases |x|, 1
  {
    var body := LineBody(x);
    if body != x {
      var tail := x[|body| + 1..];
      LexCorrect(tail);
      CutAtNewline(x, body);
    }
  }

  lemma {:induction false} LexRenderStr(s: Str, t: seq<byte>)
    requires StrOk(s)
    ensures LexStr(RenderStr(s) + t) == StrClosed(s, t)
  {
    var x := RenderStr(s) + t;
    match s
    case Close => assert x[1..] == t;
    case Plain(b, rest) =>
      assert x[1..] == RenderStr(rest) + t;
      LexRenderStr(rest, t);
    case Escape(b, rest) =>
      assert x[2..] == RenderStr(rest) + t;
      LexRenderStr(rest, t);
  }

  lemma {:induction false} LexRenderOpenStr(s: OpenStr)
    requires OpenStrOk(s)
    ensures LexStr(RenderOpenStr(s)) == StrOpen(s)
  {
    var x := RenderOpenStr(s);
    match s
    case Cut =>
    case CutAfterBackslash =>
    case OpenPlain(b, rest) =>
      assert x[1..] == RenderOpenStr(rest);
      LexRenderOpenStr(rest);
    case OpenEscape(b, rest) =>
      assert x[2..] == RenderOpenStr(rest);
      LexRenderOpenStr(rest);
  }

  lemma {:induction false} LexRenderBlock(b: Block, t: seq<byte>)
    requires BlockOk(b)
    ensures LexBlock(RenderBlock(b) + t) == BlockClosed(b, t)
    decreases b
  {
    var x := RenderBlock(b) + t;
    match b
    case End => assert x[2..] == t;
    case Text(c, rest) =>
      assert x[1..] == RenderBlock(rest) + t;
      assert x[1] == RenderBlock(rest)[0];
      LexRenderBlock(rest, t);
    case Nested(inner, rest) =>
      var after := RenderBlock(rest) + t;
      Regroup([SLASH, STAR] + RenderBlock(inner), RenderBlock(rest), t);
      Regroup([SLASH, STAR], RenderBlock(inner), after);
      AfterMarker(SLASH, STAR, RenderBlock(inner) + after);
      LexRenderBlock(inner, after);
      LexRenderBlock(rest, t);
  }

  lemma {:induction false} LexRenderOpenBlock(b: OpenBlock)
    requires OpenBlockOk(b)
    ensures LexBlock(RenderOpenBlock(b)) == BlockOpen(b)
    decreases b
  {
    var x := RenderOpenBlock(b);
    match b
    case CutBlock =>
    case OpenText(c, rest) =>
      assert x[1..] == RenderOpenBlock(rest);
      LexRenderOpenBlock(rest);
    case OpenNested(inner, rest) =>
      assert x[2..] == RenderBlock(inner) + RenderOpenBlock(rest);
      LexRenderBlock(inner, RenderOpenBlock(rest));
      LexRenderOpenBlock(rest);
    case OpenInside(inner) =>
      assert x[2..] == RenderOpenBlock(inner);
      LexRenderOpenBlock(inner);
  }

  lemma {:induction false} LineBodyOf(body: seq<byte>, t: seq<byte>)
    requires NEWLINE !in body && (t == [] || t[0] == NEWLINE)
    ensures LineBody(body + t) == body
  {
    if body != [] {
      assert (body + t)[1..] == body[1..] + t;
      LineBodyOf(body[1..], t);
    }
  }

  /** The grammar is unambiguous: a well-formed document is the only one with its rendering. */
  lemma {:induction false} Unambiguous(d: Doc)
    requires WellFormed(d)
    ensures Lex(Render(d)) == d
    decreases d, 1
  {
    match d
    case Eof =>
    case Code(b, rest) => UnambiguousCode(b, rest);
    case String(s, rest) =>
      assert Render(d)[1..] == RenderStr(s) + Render(rest);
      LexRenderStr(s, Render(rest));
      Unambiguous(rest);
    case Line(body, rest) => UnambiguousLine(body, rest);
    case Comment(b, rest) =>
      Regroup([SLASH, STAR], RenderBlock(b), Render(rest));
      AfterMarker(SLASH, STAR, RenderBlock(b) + Render(rest));
      LexRenderBlock(b, Render(rest));
      Unambiguous(rest);
    case LastLine(body) =>
      assert Render(d)[2..] == body + [];
      LineBodyOf(body, []);
    case OpenString(s) =>
      assert Render(d)[1..] == RenderOpenStr(s);
      LexRenderOpenStr(s);
    case OpenComment(b) =>
      AfterMarker(SLASH, STAR, RenderOpenBlock(b));
      LexRenderOpenBlock(b);
  }

  lemma {:induction false} UnambiguousLine(body: seq<byte>, rest: Doc)
    requires WellFormed(Line(body, rest))
    ensures Lex(Render(Line(body, rest))) == Line(body, rest)
    decreases rest, 2
  {
    var y := body + ([NEWLINE] + Render(rest));
    assert Render(Line(body, rest)) == [SLASH, SLASH] + y;
    AfterMarker(SLASH, SLASH, y);
    LineBodyOf(body, [NEWLINE] + Render(rest));
    assert y[|body| + 1..] == Render(rest);
    Unambiguous(rest);
  }

  lemma {:induction false} UnambiguousCode(b: byte, rest: Doc)
    requires WellFormed(Code(b, rest))
    ensures Lex(Render(Code(b, rest))) == Code(b, rest)
    decreases rest, 2
  {
    var x := Render(Code(b, rest));
    assert x[1..] == Render(rest);
    assert |x| > 1 ==> x[1] == Render(rest)[0];
    Unambiguous(rest);
  }

  // ---------------------------------------------------------------- main results

  /** On every input the machine's answer is the meaning of the one document it spells. */
  lemma EveryInput(x: seq<byte>)
    ensures exists d :: WellFormed(d) && Render(d) == x && Run(InCode, x) == Meaning(d)
    ensures forall d :: WellFormed(d) && Render(d) == x ==> d == Lex(x) && Run(InCode, x) == Meaning(d)
  {
    var d := Lex(x);
    LexCorrect(x);
    MachineMeetsGrammar(d);
    forall d' | WellFormed(d') && Render(d') == x
      ensures d' == d
    {
      Unambiguous(d');
    }
  }

  /** The two errors are raised exactly on inputs that end inside a string, or inside a block comment. */
  lemma {:induction false} ErrorsExactly(x: seq<byte>)
    ensures Run(InCode, x) == UnterminatedString <==>
            exists d :: WellFormed(d) && Render(d) == x && Last(d).OpenString?
    ensures Run(InCode, x) == UnterminatedBlockComment <==>
            exists d :: WellFormed(d) && Render(d) == x && Last(d).OpenComment?
  {
    EveryInput(x);
  }

  predicate CommentFree(d: Doc) {
    match d
    case Eof => true
    case Code(_, rest) => CommentFree(rest)
    case String(_, rest) => CommentFree(rest)
    case _ => false
  }

  lemma {:induction false} DropKeepsFirst(d: Doc)
    requires WellFormed(d) && Render(d) != [] && Render(d)[0] != SLASH
    ensures Render(Drop(d)) != [] && Render(Drop(d))[0] == Render(d)[0]
  {
  }

  /** Taking the comments out never lets a slash meet a slash or a star it was not next to before. */
  lemma {:induction false} DropWellFormed(d: Doc)
    requires WellFormed(d) && !Last(d).OpenString? && !Last(d).OpenComment?
    ensures WellFormed(Drop(d)) && CommentFree(Drop(d)) && Drop(Drop(d)) == Drop(d)
  {
    match d
    case Eof =>
    case LastLine(_) =>
    case Code(b, rest) =>
      DropWellFormed(rest);
      if b == SLASH && Render(rest) != [] {
        DropKeepsFirst(rest);
      }
    case String(_, rest) => DropWellFormed(rest);
    case Line(_, rest) => DropWellFormed(rest);
    case Comment(_, rest) => DropWellFormed(rest);
  }

  lemma {:induction false} CommentFreeEnds(d: Doc)
    requires CommentFree(d)
    ensures Last(d) == Eof
  {
    match d
    case Eof =>
    case Code(_, rest) => CommentFreeEnds(rest);
    case String(_, rest) => CommentFreeEnds(rest);
  }

  /** Stripping is idempotent: it succeeds on its own output and returns it unchanged. */
  lemma StripIdempotent(x: seq<byte>)
    requires Run(InCode, x).Stripped?
    ensures Run(InCode, Run(InCode, x).bytes) == Run(InCode, x)
  {
    var d := Lex(x);
    LexCorrect(x);
    MachineMeetsGrammar(d);
    DropWellFormed(d);
    MachineMeetsGrammar(Drop(d));
    CommentFreeEnds(Drop(d));
  }

  lemma {:induction false} DropIsNoLonger(d: Doc)
    ensures |Render(Drop(d))| <= |Render(d)|
  {
    match d
    case Code(_, rest) => DropIsNoLonger(rest);
    case String(_, rest) => DropIsNoLonger(rest);
    case Line(_, rest) => DropIsNoLonger(rest);
    case Comment(_, rest) => DropIsNoLonger(rest);
    case _ =>
  }

  // ---------------------------------------------------------------- the loop

  datatype State = CODE | STRING | LINE_COMMENT | BLOCK_COMMENT

  function ModeOf(state: State, blockDepth: int, escaped: bool): Mode {
    match state
    case CODE => InCode
    case STRING => InString(escaped)
    case LINE_COMMENT => InLine
    case BLOCK_COMMENT => InBlock(if blockDepth < 0 then 0 else blockDepth)
  }

  /** The machine's next move: what it emits, the mode it goes on in, and how many bytes it takes. */
  datatype Turn = Turn(emitted: seq<byte>, next: Mode, taken: nat)

  function TurnOf(mode: Mode, b: byte, nxt: Option<byte>): Turn {
    match mode
    case InCode =>
      if b == SLASH && nxt == Some(SLASH) then Turn([], InLine, 2)
      else if b == SLASH && nxt == Some(STAR) then Turn([], InBlock(1), 2)
      else Turn([b], if b == QUOTE then InString(false) else InCode, 1)
    case InString(escaped) =>
      Turn([b], if escaped then InString(false) else if b == BACKSLASH then InString(true)
                else if b == QUOTE then InCode else InString(false), 1)
    case InLine => if b == NEWLINE then Turn([b], InCode, 1) else Turn([], InLine, 1)
    case InBlock(depth) =>
      if b == SLASH && nxt == Some(STAR) then Turn([], InBlock(depth + 1), 2)
      else if b == STAR && nxt == Some(SLASH) then Turn([], if depth <= 1 then InCode else InBlock(depth - 1), 2)
      else Turn([], InBlock(depth), 1)
  }

  function Peek(x: seq<byte>): Option<byte> { if |x| > 1 then Some(x[1]) else None }

  lemma RunTurn(mode: Mode, x: seq<byte>)
    requires x != []
    ensures var turn := TurnOf(mode, x[0], Peek(x));
            turn.taken <= |x| && Run(mode, x) == Prepend(turn.emitted, Run(turn.next, x[turn.taken..]))
  {
    var turn := TurnOf(mode, x[0], Peek(x));
    NothingInFront(Run(turn.next, x[turn.taken..]));
  }

  lemma NothingInFront(r: Outcome)
    ensures Prepend([], r) == r
  {
    if r.Stripped? {
      assert [] + r.bytes == r.bytes;
    }
  }

  /** After a turn the machine still has the promised result ahead of it. */
  lemma TurnKeeps(data: seq<byte>, i: nat, mode: Mode, out: seq<byte>, total: Outcome)
    requires i < |data| && total == Prepend(out, Run(mode, data[i..]))
    ensures var turn := TurnOf(mode, data[i], if i + 1 < |data| then Some(data[i + 1]) else None);
            && i + turn.taken <= |data|
            && total == Prepend(out + turn.emitted, Run(turn.next, data[i + turn.taken..]))
  {
    hide Run, TurnOf;
    var x := data[i..];
    RunTurn(mode, x);
    var turn := TurnOf(mode, x[0], Peek(x));
    assert x[turn.taken..] == data[i + turn.taken..];
    PrependTwice(out, turn.emitted, Run(turn.next, x[turn.taken..]));
  }

  lemma RunAtEnd(mode: Mode)
    ensures Run(mode, []) ==
            match mode
            case InString(_) => UnterminatedString
            case InBlock(_) => UnterminatedBlockComment
            case _ => Stripped([])
  {
  }

  /** What the loop promises, told of the machine. */
  lemma {:induction false} StripPromises(data: seq<byte>)
    ensures forall d :: WellFormed(d) && Render(d) == data ==> Run(InCode, data) == Meaning(d)
    ensures Run(InCode, data).Stripped? ==> |Run(InCode, data).bytes| <= |data|
  {
    hide Run, Lex;
    EveryInput(data);
    LexCorrect(data);
    DropIsNoLonger(Lex(data));
  }

  method StripComments(data: seq<byte>) returns (r: Outcome)
    ensures forall d :: WellFormed(d) && Render(d) == data ==> r == Meaning(d)
    ensures r == Run(InCode, data)
    ensures r.Stripped? ==> |r.bytes| <= |data|
  {
    hide Render, WellFormed, Meaning, Run;
    var out: seq<byte> := [];
    var state := CODE;
    var blockDepth := 0;
    var escaped := false;
    var i := 0;
    var n := |data|;
    ghost var total := Run(InCode, data);
    assert data[0..] == data;
    NothingInFront(total);
    while i < n
      invariant 0 <= i <= n
      invariant state == BLOCK_COMMENT ==> blockDepth >= 1
      invariant total == Prepend(out, Run(ModeOf(state, blockDepth, escaped), data[i..]))
      decreases n - i
    {
      var b := data[i];
      TurnKeeps(data, i, ModeOf(state, blockDepth, escaped), out, total);
      assert out + [] == out;
      match state {
        case CODE =>
          if b == SLASH && i + 1 < n {
            var nxt := data[i + 1];
            if nxt == SLASH {
              state := LINE_COMMENT;
              i := i + 2;
              continue;
            }
            if nxt == STAR {
              state := BLOCK_COMMENT;
              blockDepth := 1;
              i := i + 2;
              continue;
            }
          }
          if b == QUOTE {
            state := STRING;
            escaped := false;
          }
          out := out + [b];
          i := i + 1;
        case STRING =>
          if escaped {
            escaped := false;
          } else if b == BACKSLASH {
            escaped := true;
          } else if b == QUOTE {
            state := CODE;
          }
          out := out + [b];
          i := i + 1;
        case LINE_COMMENT =>
          if b == NEWLINE {
            state := CODE;
            out := out + [b];
          }
          i := i + 1;
        case BLOCK_COMMENT =>
          if b == SLASH && i + 1 < n && data[i + 1] == STAR {
            blockDepth := blockDepth + 1;
            i := i + 2;
            continue;
          }
          if b == STAR && i + 1 < n && data[i + 1] == SLASH {
            blockDepth := blockDepth - 1;
            i := i + 2;
            if blockDepth == 0 {
              state := CODE;
            }
            continue;
          }
          i := i + 1;
      }
    }
    assert data[i..] == [];
    RunAtEnd(ModeOf(state, blockDepth, escaped));
    assert out + [] == out;
    r := match state
         case STRING => UnterminatedString
         case BLOCK_COMMENT => UnterminatedBlockComment
         case _ => Stripped(out);
    StripPromises(data);
  }
}
