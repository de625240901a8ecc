/** Requests as clients write them, fed to a receiver, are reported as they were written. */
module ReceiverRoundTrip {
  import opened Wrappers
  import opened Decimal
  import opened Sequences
  import opened ImapReceiver

  // ---- Writing ----

  /** What an argument line is made of. Literals are announced (`{3}`), not announced (`{3+}`), or binary (`~{3}`). */
  datatype Piece =
    | Blank(blank: byte)
    | Mark(token: Token)
    | Atom(bytes: seq<byte>)
    | QuotedString(bytes: seq<byte>)
    | LiteralString(bytes: seq<byte>, sync: bool, binary: bool)

  predicate BlankByte(b: byte) {
    b == 32 || b == 9 || b == 12 || b == 13
  }

  function MarkByte(t: Token): byte {
    match t
    case ParenthesisOpen => 40
    case ParenthesisClose => 41
    case BracketOpen => 91
    case BracketClose => 93
    case Lt => 60
    case Gt => 62
    case _ => 46
  }

  predicate AtomByte(b: byte, brackets: bool) {
    && !BlankByte(b) && b != 10 && b != 40 && b != 41
    && (brackets ==> b != 91 && b != 93 && b != 60 && b != 62 && b != 46)
  }

  // An atom begins no literal and, where a string may stand, no quoted string. Within it quotes and braces are bytes.
  predicate IsAtom(b: seq<byte>, spaced: bool, brackets: bool) {
    && b != [] && (spaced ==> b[0] != 34 && b[0] != 123) && !(|b| > 1 && b[0] == 126 && b[1] == 123)
    && forall i | 0 <= i < |b| :: AtomByte(b[i], brackets)
  }

  /** What may follow: after an atom no other atom, and a string only after a blank or another string, marks aside. */
  predicate Follows(p: Piece, afterAtom: bool, spaced: bool, brackets: bool) {
    match p
    case Blank(b) => BlankByte(b)
    case Mark(t) =>
      || t.ParenthesisOpen? || t.ParenthesisClose?
      || (brackets && (t.BracketOpen? || t.BracketClose? || t.Lt? || t.Gt? || t.Dot?))
    case Atom(b) => !afterAtom && IsAtom(b, spaced, brackets)
    case QuotedString(b) => spaced && |b| <= 1024 && 10 !in b
    case LiteralString(b, _, binary) => (if binary then !afterAtom else spaced) && |b| < 0x1_0000_0000
  }

  function SpacedAfter(p: Piece, spaced: bool): bool {
    match p
    case Mark(_) => spaced
    case Atom(_) => false
    case _ => true
  }

  predicate Writable(ps: seq<Piece>, afterAtom: bool, spaced: bool, brackets: bool) {
    ps != [] ==>
      && Follows(ps[0], afterAtom, spaced, brackets)
      && Writable(ps[1..], ps[0].Atom?, SpacedAfter(ps[0], spaced), brackets)
  }

  function TokensOf(p: Piece): seq<Token> {
    match p
    case Blank(_) => []
    case Mark(t) => [t]
    case Atom(b) => [Argument(b)]
    case QuotedString(b) => [if b == [] then Nil else Argument(b)]
    case LiteralString(b, _, _) => [if b == [] then Nil else Argument(b)]
  }

  function AllTokens(ps: seq<Piece>): seq<Token> {
    if ps == [] then [] else TokensOf(ps[0]) + AllTokens(ps[1..])
  }

  // A literal that is announced is asked for, with its length.
  function Prompts<T>(p: Piece): seq<Event<T>> {
    if p.LiteralString? && p.sync then [NeedsLiteral(|p.bytes|)] else []
  }

  function AllPrompts<T>(ps: seq<Piece>): seq<Event<T>> {
    if ps == [] then [] else Prompts(ps[0]) + AllPrompts(ps[1..])
  }

  // What a piece adds to the request size.
  function SizeOf(p: Piece): nat {
    match p
    case Blank(_) => 0
    case Mark(_) => 1
    case Atom(b) => |b|
    case QuotedString(b) => |b|
    case LiteralString(b, _, _) => if b == [] then 1 else |b|
  }

  function TotalSize(ps: seq<Piece>): nat {
    if ps == [] then 0 else SizeOf(ps[0]) + TotalSize(ps[1..])
  }

  function Escape(b: seq<byte>): seq<byte> {
    if b == [] then []
    else (if b[0] == 34 || b[0] == 92 then [92, b[0]] else [b[0]]) + Escape(b[1..])
  }

  // The header of a literal up to its closing brace.
  function Header(n: nat, sync: bool, binary: bool): seq<byte> {
    (if binary then [126, 123] else [123]) + (Decimal.Print(n) + if sync then [] else [43])
  }

  function Write(p: Piece): seq<byte> {
    match p
    case Blank(b) => [b]
    case Mark(t) => [MarkByte(t)]
    case Atom(b) => b
    case QuotedString(b) => [34] + Escape(b) + [34]
    case LiteralString(b, sync, binary) => Header(|b|, sync, binary) + [125, 13, 10] + b
  }

  function WriteAll(ps: seq<Piece>): seq<byte> {
    if ps == [] then [] else Write(ps[0]) + WriteAll(ps[1..])
  }

  // ---- Feeding ----

  // The bytes take r to r' and report the events.
  ghost predicate Fed<T>(cfg: Config<T>, r: Receiver<T>, bytes: seq<byte>, r': Receiver<T>, events: seq<Event<T>>)
    requires ValidStart(cfg)
  {
    Valid(cfg, r) && Valid(cfg, r') && Feed(cfg, r, bytes) == (r', events)
  }

  lemma FedThen<T>(cfg: Config<T>, r: Receiver<T>, a: seq<byte>, r1: Receiver<T>, e1: seq<Event<T>>,
                   b: seq<byte>, r2: Receiver<T>, e2: seq<Event<T>>)
    requires ValidStart(cfg) && Fed(cfg, r, a, r1, e1) && Fed(cfg, r1, b, r2, e2)
    ensures Fed(cfg, r, a + b, r2, e1 + e2)
  {
    FeedConcat(cfg, r, a, b);
  }

  // The bytes take r to r' and nothing is reported.
  ghost predicate Silent<T>(cfg: Config<T>, r: Receiver<T>, bytes: seq<byte>, r': Receiver<T>)
    requires ValidStart(cfg)
  {
    Fed(cfg, r, bytes, r', [])
  }

  lemma SilentThen<T>(cfg: Config<T>, r: Receiver<T>, a: seq<byte>, r1: Receiver<T>, b: seq<byte>, r2: Receiver<T>)
    requires ValidStart(cfg) && Silent(cfg, r, a, r1) && Silent(cfg, r1, b, r2)
    ensures Silent(cfg, r, a + b, r2)
  {
    FedThen(cfg, r, a, r1, [], b, r2, []);
    var none: seq<Event<T>> := [];
    assert none + none == none;
  }

  lemma FedAfter<T>(cfg: Config<T>, r: Receiver<T>, a: seq<byte>, r1: Receiver<T>, b: seq<byte>, r2: Receiver<T>, events: seq<Event<T>>)
    requires ValidStart(cfg) && Silent(cfg, r, a, r1) && Fed(cfg, r1, b, r2, events)
    ensures Fed(cfg, r, a + b, r2, events)
  {
    FedThen(cfg, r, a, r1, [], b, r2, events);
    assert [] + events == events;
  }

  lemma SilentNone<T>(cfg: Config<T>, r: Receiver<T>)
    requires ValidStart(cfg) && Valid(cfg, r)
    ensures Silent(cfg, r, [], r)
  {
  }

  lemma FedStep<T>(cfg: Config<T>, r: Receiver<T>, ch: byte)
    requires ValidStart(cfg) && Valid(cfg, r)
    ensures var o := Step(cfg, r, ch); Fed(cfg, r, [ch], o.next, if o.Stop? then [o.event] else [])
  {
    StepKeeps(cfg, r, ch);
    var o := Step(cfg, r, ch);
    assert [ch][1..] == [];
    assert Feed(cfg, o.next, [ch][1..]) == (o.next, []);
    var head := if o.Stop? then [o.event] else [];
    assert head + [] == head;
  }

  lemma SilentStep<T>(cfg: Config<T>, r: Receiver<T>, ch: byte, r': Receiver<T>)
    requires ValidStart(cfg) && Valid(cfg, r) && Step(cfg, r, ch) == More(r')
    ensures Silent(cfg, r, [ch], r')
  {
    FedStep(cfg, r, ch);
  }

  // Bytes that are each appended to the buffer.
  lemma {:induction false} QuotedRun<T>(cfg: Config<T>, r: Receiver<T>, b: seq<byte>)
    requires ValidStart(cfg) && Valid(cfg, r) && r.state == InQuoted(false)
    requires |r.buf| + |b| <= 1024 && 10 !in b
    ensures Silent(cfg, r, Escape(b), r.(buf := r.buf + b))
    decreases |b|
  {
    if b == [] {
      assert r.buf + [] == r.buf;
      SilentNone(cfg, r);
    } else {
      var r1 := r.(buf := r.buf + [b[0]]);
      var head := if b[0] == 34 || b[0] == 92 then [92, b[0]] else [b[0]];
      QuotedByte(cfg, r, b[0]);
      QuotedRun(cfg, r1, b[1..]);
      assert r1.buf + b[1..] == r.buf + b;
      SilentThen(cfg, r, head, r1, Escape(b[1..]), r.(buf := r.buf + b));
    }
  }

  lemma QuotedByte<T>(cfg: Config<T>, r: Receiver<T>, b: byte)
    requires ValidStart(cfg) && Valid(cfg, r) && r.state == InQuoted(false) && |r.buf| < 1024 && b != 10
    ensures Silent(cfg, r, if b == 34 || b == 92 then [92, b] else [b], r.(buf := r.buf + [b]))
  {
    var r2 := r.(buf := r.buf + [b]);
    if b == 34 || b == 92 {
      var r1 := r.(state := InQuoted(true));
      SilentStep(cfg, r, 92, r1);
      SilentStep(cfg, r1, b, r2);
      SilentThen(cfg, r, [92], r1, [b], r2);
      assert [92] + [b] == [92, b];
    } else {
      SilentStep(cfg, r, b, r2);
    }
  }

  /** A backslash before any other byte stays. */
  lemma StrayEscape<T>(cfg: Config<T>, r: Receiver<T>, b: byte)
    requires ValidStart(cfg) && Valid(cfg, r) && r.state == InQuoted(false) && |r.buf| < 1024 && b !in {34, 92, 10}
    ensures Silent(cfg, r, [92, b], r.(buf := r.buf + [92, b]))
  {
    var r1 := r.(state := InQuoted(true));
    SilentStep(cfg, r, 92, r1);
    SilentStep(cfg, r1, b, r.(buf := r.buf + [92, b]));
    SilentThen(cfg, r, [92], r1, [b], r.(buf := r.buf + [92, b]));
    assert [92] + [b] == [92, b];
  }

  lemma {:induction false} DigitRun<T>(cfg: Config<T>, r: Receiver<T>, b: seq<byte>)
    requires ValidStart(cfg) && Valid(cfg, r) && r.state == Literal(false) && AllDigits(b)
    ensures Silent(cfg, r, b, r.(buf := r.buf + b))
    decreases |b|
  {
    if b == [] {
      assert r.buf + [] == r.buf;
      SilentNone(cfg, r);
    } else {
      var r1 := r.(buf := r.buf + [b[0]]);
      SilentStep(cfg, r, b[0], r1);
      DigitRun(cfg, r1, b[1..]);
      assert r1.buf + b[1..] == r.buf + b && [b[0]] + b[1..] == b;
      SilentThen(cfg, r, [b[0]], r1, b[1..], r.(buf := r.buf + b));
    }
  }

  lemma {:induction false} DataRun<T>(cfg: Config<T>, r: Receiver<T>, b: seq<byte>)
    requires ValidStart(cfg) && Valid(cfg, r) && b != [] && r.state == LiteralData(|b|)
    ensures Silent(cfg, r, b, AddToken(r, Argument(r.buf + b)).(buf := [], state := InArgument(32), size := r.size + |r.buf| + |b|))
    decreases |b|
  {
    var end := AddToken(r, Argument(r.buf + b)).(buf := [], state := InArgument(32), size := r.size + |r.buf| + |b|);
    if |b| == 1 {
      assert b == [b[0]] && r.buf + [b[0]] == r.buf + b;
      SilentStep(cfg, r, b[0], end);
    } else {
      var r1 := r.(buf := r.buf + [b[0]], state := LiteralData(|b| - 1));
      SilentStep(cfg, r, b[0], r1);
      DataRun(cfg, r1, b[1..]);
      assert r1.buf + b[1..] == r.buf + b && [b[0]] + b[1..] == b;
      SilentThen(cfg, r, [b[0]], r1, b[1..], end);
    }
  }

  lemma AtomByteIs(b: byte, brackets: bool)
    requires AtomByte(b, brackets)
    ensures Punctuation(b, brackets) == None && !IsWhitespace(b)
  {
  }

  // The rest of an atom.
  lemma {:induction false} AtomTail<T>(cfg: Config<T>, r: Receiver<T>, b: seq<byte>) returns (r': Receiver<T>)
    requires ValidStart(cfg) && Valid(cfg, r) && r.state.InArgument? && !IsWhitespace(r.state.lastCh) && r.buf != []
    requires forall i | 0 <= i < |b| :: AtomByte(b[i], cfg.tokenizeBrackets(r.request.command))
    requires b != [] && b[0] == 123 && |r.buf| == 1 ==> r.state.lastCh != 126
    ensures Silent(cfg, r, b, r')
    ensures r'.state.InArgument? && !IsWhitespace(r'.state.lastCh) && r' == r.(buf := r.buf + b, state := r'.state)
    decreases |b|
  {
    if b == [] {
      r' := r;
      assert r.buf + [] == r.buf;
      SilentNone(cfg, r);
    } else {
      AtomByteIs(b[0], cfg.tokenizeBrackets(r.request.command));
      var r1 := r.(buf := r.buf + [b[0]], state := InArgument(b[0]));
      SilentStep(cfg, r, b[0], r1);
      r' := AtomTail(cfg, r1, b[1..]);
      assert r1.buf + b[1..] == r.buf + b && [b[0]] + b[1..] == b;
      SilentThen(cfg, r, [b[0]], r1, b[1..], r');
    }
  }

  // ---- One piece ----

  // Nothing is buffered.
  function Ready<T>(request: Request<T>, size: nat, lastCh: byte): Receiver<T> {
    Receiver([], request, InArgument(lastCh), size)
  }

  function Extend<T>(request: Request<T>, ts: seq<Token>): Request<T> {
    request.(tokens := request.tokens + ts)
  }

  /** Between two pieces, with an atom still in the buffer or none. */
  ghost predicate At<T>(cfg: Config<T>, r: Receiver<T>, request: Request<T>, size: nat, afterAtom: bool, spaced: bool) {
    && r.state.InArgument? && (spaced <==> IsWhitespace(r.state.lastCh)) && !(spaced && afterAtom)
    && (afterAtom <==> r.buf != [])
    && request == Extend(r.request, if r.buf == [] then [] else [Argument(r.buf)])
    && size == r.size + |r.buf| <= cfg.maxRequestSize
  }

  lemma ReadyAt<T>(cfg: Config<T>, request: Request<T>, size: nat, ch: byte)
    requires size <= cfg.maxRequestSize
    ensures At(cfg, Ready(request, size, ch), request, size, false, IsWhitespace(ch))
  {
    assert request.tokens + [] == request.tokens;
  }

  lemma AtReady<T>(cfg: Config<T>, r: Receiver<T>, request: Request<T>, size: nat, spaced: bool)
    requires At(cfg, r, request, size, false, spaced)
    ensures r == Ready(request, size, r.state.lastCh)
  {
    assert r.request.tokens + [] == r.request.tokens;
  }

  lemma BlankRun<T>(cfg: Config<T>, r: Receiver<T>, request: Request<T>, size: nat, afterAtom: bool, spaced: bool, b: byte)
    requires ValidStart(cfg) && Valid(cfg, r) && At(cfg, r, request, size, afterAtom, spaced) && BlankByte(b)
    ensures Silent(cfg, r, [b], Ready(request, size, b))
  {
    assert r.request.tokens + [] == r.request.tokens;
    SilentStep(cfg, r, b, Ready(request, size, b));
  }

  lemma MarkByteIs(t: Token, brackets: bool)
    requires Follows(Mark(t), false, false, brackets)
    ensures Punctuation(MarkByte(t), brackets) == Some(t) && MarkByte(t) != 34 && MarkByte(t) != 123
  {
  }

  lemma MarkRun<T>(cfg: Config<T>, r: Receiver<T>, request: Request<T>, size: nat, afterAtom: bool, spaced: bool, t: Token)
    requires ValidStart(cfg) && Valid(cfg, r) && At(cfg, r, request, size, afterAtom, spaced)
    requires Follows(Mark(t), afterAtom, spaced, cfg.tokenizeBrackets(request.command)) && size + 1 <= cfg.maxRequestSize
    ensures Silent(cfg, r, [MarkByte(t)], Ready(Extend(request, [t]), size + 1, r.state.lastCh))
  {
    MarkByteIs(t, cfg.tokenizeBrackets(request.command));
    assert r.request.tokens + [] == r.request.tokens;
    SilentStep(cfg, r, MarkByte(t), Ready(Extend(request, [t]), size + 1, r.state.lastCh));
  }

  lemma AtomRun<T>(cfg: Config<T>, request: Request<T>, size: nat, lastCh: byte, b: seq<byte>) returns (r': Receiver<T>)
    requires ValidStart(cfg) && Valid(cfg, Ready(request, size, lastCh))
    requires IsAtom(b, IsWhitespace(lastCh), cfg.tokenizeBrackets(request.command)) && size + |b| <= cfg.maxRequestSize
    ensures Silent(cfg, Ready(request, size, lastCh), b, r')
    ensures At(cfg, r', Extend(request, [Argument(b)]), size + |b|, true, false)
  {
    var r := Ready(request, size, lastCh);
    var r1 := r.(buf := [b[0]], state := InArgument(b[0]));
    AtomByteIs(b[0], cfg.tokenizeBrackets(request.command));
    SilentStep(cfg, r, b[0], r1);
    r' := AtomTail(cfg, r1, b[1..]);
    assert [b[0]] + b[1..] == b;
    SilentThen(cfg, r, [b[0]], r1, b[1..], r');
  }

  function Text(b: seq<byte>): Token {
    if b == [] then Nil else Argument(b)
  }

  lemma OpenQuote<T>(cfg: Config<T>, request: Request<T>, size: nat, lastCh: byte, b: seq<byte>)
    requires ValidStart(cfg) && Valid(cfg, Ready(request, size, lastCh)) && IsWhitespace(lastCh)
    requires |b| <= 1024 && 10 !in b
    ensures Silent(cfg, Ready(request, size, lastCh), [34] + Escape(b), Receiver(b, request, InQuoted(false), size))
  {
    var r, r1 := Ready(request, size, lastCh), Receiver([], request, InQuoted(false), size);
    SilentStep(cfg, r, 34, r1);
    QuotedRun(cfg, r1, b);
    assert [] + b == b;
    SilentThen(cfg, r, [34], r1, Escape(b), Receiver(b, request, InQuoted(false), size));
  }

  lemma CloseQuote<T>(cfg: Config<T>, request: Request<T>, size: nat, b: seq<byte>)
    requires ValidStart(cfg) && Valid(cfg, Receiver(b, request, InQuoted(false), size))
    requires size + |b| <= cfg.maxRequestSize
    ensures Silent(cfg, Receiver(b, request, InQuoted(false), size), [34], Ready(Extend(request, [Text(b)]), size + |b|, 32))
  {
    SilentStep(cfg, Receiver(b, request, InQuoted(false), size), 34, Ready(Extend(request, [Text(b)]), size + |b|, 32));
  }

  lemma QuotedToken<T>(cfg: Config<T>, request: Request<T>, size: nat, lastCh: byte, b: seq<byte>)
    requires ValidStart(cfg) && Valid(cfg, Ready(request, size, lastCh)) && IsWhitespace(lastCh)
    requires |b| <= 1024 && 10 !in b && size + |b| <= cfg.maxRequestSize
    ensures Silent(cfg, Ready(request, size, lastCh), [34] + Escape(b) + [34], Ready(Extend(request, [Text(b)]), size + |b|, 32))
  {
    OpenQuote(cfg, request, size, lastCh, b);
    CloseQuote(cfg, request, size, b);
    SilentThen(cfg, Ready(request, size, lastCh), [34] + Escape(b), Receiver(b, request, InQuoted(false), size),
               [34], Ready(Extend(request, [Text(b)]), size + |b|, 32));
  }

  // The brace, with a tilde before it or not.
  lemma OpenBrace<T>(cfg: Config<T>, request: Request<T>, size: nat, lastCh: byte, binary: bool)
    requires ValidStart(cfg) && Valid(cfg, Ready(request, size, lastCh)) && (binary || IsWhitespace(lastCh))
    ensures Silent(cfg, Ready(request, size, lastCh), if binary then [126, 123] else [123],
                   Receiver([], request, Literal(false), size))
  {
    var r, end := Ready(request, size, lastCh), Receiver([], request, Literal(false), size);
    if binary {
      var r1 := Receiver([126], request, InArgument(126), size);
      assert [] + [126] == [126];
      SilentStep(cfg, r, 126, r1);
      SilentStep(cfg, r1, 123, end);
      SilentThen(cfg, r, [126], r1, [123], end);
      assert [126] + [123] == [126, 123];
    } else {
      SilentStep(cfg, r, 123, end);
    }
  }

  // The digits and the plus sign of a literal that is not announced.
  lemma SizeRun<T>(cfg: Config<T>, request: Request<T>, size: nat, n: nat, sync: bool)
    requires ValidStart(cfg) && Valid(cfg, Receiver([], request, Literal(false), size))
    ensures Silent(cfg, Receiver([], request, Literal(false), size), Decimal.Print(n) + (if sync then [] else [43]),
                   Receiver(Decimal.Print(n), request, Literal(!sync), size))
  {
    var digits, r := Decimal.Print(n), Receiver([], request, Literal(false), size);
    var r1 := Receiver(digits, request, Literal(false), size);
    DigitRun(cfg, r, digits);
    assert [] + digits == digits;
    if sync {
      assert digits + [] == digits;
    } else {
      var r2 := r1.(state := Literal(true));
      SilentStep(cfg, r1, 43, r2);
      SilentThen(cfg, r, digits, r1, [43], r2);
    }
  }

  lemma HeaderRun<T>(cfg: Config<T>, request: Request<T>, size: nat, lastCh: byte, n: nat, sync: bool, binary: bool)
    requires ValidStart(cfg) && Valid(cfg, Ready(request, size, lastCh)) && (binary || IsWhitespace(lastCh))
    ensures Silent(cfg, Ready(request, size, lastCh), Header(n, sync, binary),
                   Receiver(Decimal.Print(n), request, Literal(!sync), size))
  {
    OpenBrace(cfg, request, size, lastCh, binary);
    SizeRun(cfg, request, size, n, sync);
    SilentThen(cfg, Ready(request, size, lastCh), if binary then [126, 123] else [123],
               Receiver([], request, Literal(false), size), Decimal.Print(n) + (if sync then [] else [43]),
               Receiver(Decimal.Print(n), request, Literal(!sync), size));
  }

  // What stands after the line break of the header.
  function Counting<T>(request: Request<T>, size: nat, n: nat): Receiver<T> {
    if n > 0 then Receiver([], request, LiteralData(n), size) else Ready(Extend(request, [Nil]), size + 1, 32)
  }

  lemma BraceClosed<T>(cfg: Config<T>, request: Request<T>, size: nat, n: nat, sync: bool)
    requires ValidStart(cfg) && Valid(cfg, Receiver(Decimal.Print(n), request, Literal(!sync), size))
    requires n < 0x1_0000_0000 && size + n <= cfg.maxRequestSize
    ensures Silent(cfg, Receiver(Decimal.Print(n), request, Literal(!sync), size), [125, 13],
                   Receiver([], request, LiteralSeek(n, !sync), size))
  {
    var r, r1 := Receiver(Decimal.Print(n), request, Literal(!sync), size), Receiver([], request, LiteralSeek(n, !sync), size);
    ParsePrinted(n);
    SilentStep(cfg, r, 125, r1);
    SilentStep(cfg, r1, 13, r1);
    SilentThen(cfg, r, [125], r1, [13], r1);
    assert [125] + [13] == [125, 13];
  }

  lemma LineBroken<T>(cfg: Config<T>, request: Request<T>, size: nat, n: nat, sync: bool)
    requires ValidStart(cfg) && Valid(cfg, Receiver([], request, LiteralSeek(n, !sync), size))
    requires size + (if n > 0 then n else 1) <= cfg.maxRequestSize
    ensures Fed(cfg, Receiver([], request, LiteralSeek(n, !sync), size), [10], Counting(request, size, n),
                if sync then [NeedsLiteral(n)] else [])
  {
    FedStep(cfg, Receiver([], request, LiteralSeek(n, !sync), size), 10);
  }

  lemma BreakRun<T>(cfg: Config<T>, request: Request<T>, size: nat, n: nat, sync: bool)
    requires ValidStart(cfg) && Valid(cfg, Receiver(Decimal.Print(n), request, Literal(!sync), size))
    requires n < 0x1_0000_0000 && size + (if n > 0 then n else 1) <= cfg.maxRequestSize
    ensures Fed(cfg, Receiver(Decimal.Print(n), request, Literal(!sync), size), [125, 13, 10], Counting(request, size, n),
                if sync then [NeedsLiteral(n)] else [])
  {
    BraceClosed(cfg, request, size, n, sync);
    LineBroken(cfg, request, size, n, sync);
    var events: seq<Event<T>> := if sync then [NeedsLiteral(n)] else [];
    FedThen(cfg, Receiver(Decimal.Print(n), request, Literal(!sync), size), [125, 13], Receiver([], request, LiteralSeek(n, !sync), size), [],
            [10], Counting(request, size, n), events);
    assert [125, 13] + [10] == [125, 13, 10] && [] + events == events;
  }

  lemma BodyRun<T>(cfg: Config<T>, request: Request<T>, size: nat, b: seq<byte>)
    requires ValidStart(cfg) && Valid(cfg, Counting(request, size, |b|))
    ensures Silent(cfg, Counting(request, size, |b|), b,
                   Ready(Extend(request, [Text(b)]), size + (if b == [] then 1 else |b|), 32))
  {
    if b == [] {
      SilentNone(cfg, Counting(request, size, 0));
    } else {
      DataRun(cfg, Receiver([], request, LiteralData(|b|), size), b);
      assert [] + b == b;
    }
  }

  lemma LiteralHead<T>(cfg: Config<T>, request: Request<T>, size: nat, lastCh: byte, n: nat, sync: bool, binary: bool)
    requires ValidStart(cfg) && Valid(cfg, Ready(request, size, lastCh)) && (binary || IsWhitespace(lastCh))
    requires n < 0x1_0000_0000 && size + (if n > 0 then n else 1) <= cfg.maxRequestSize
    ensures Fed(cfg, Ready(request, size, lastCh), Header(n, sync, binary) + [125, 13, 10], Counting(request, size, n),
                if sync then [NeedsLiteral(n)] else [])
  {
    HeaderRun(cfg, request, size, lastCh, n, sync, binary);
    BreakRun(cfg, request, size, n, sync);
    FedAfter(cfg, Ready(request, size, lastCh), Header(n, sync, binary), Receiver(Decimal.Print(n), request, Literal(!sync), size),
             [125, 13, 10], Counting(request, size, n), if sync then [NeedsLiteral(n)] else []);
  }

  lemma FedUntil<T>(cfg: Config<T>, r: Receiver<T>, a: seq<byte>, r1: Receiver<T>, events: seq<Event<T>>, b: seq<byte>, r2: Receiver<T>)
    requires ValidStart(cfg) && Fed(cfg, r, a, r1, events) && Silent(cfg, r1, b, r2)
    ensures Fed(cfg, r, a + b, r2, events)
  {
    FedThen(cfg, r, a, r1, events, b, r2, []);
    assert events + [] == events;
  }

  /** A literal is asked for after its header if it is announced, and read whole. */
  lemma LiteralToken<T>(cfg: Config<T>, request: Request<T>, size: nat, lastCh: byte, b: seq<byte>, sync: bool, binary: bool)
    requires ValidStart(cfg) && Valid(cfg, Ready(request, size, lastCh)) && (binary || IsWhitespace(lastCh))
    requires |b| < 0x1_0000_0000 && size + (if b == [] then 1 else |b|) <= cfg.maxRequestSize
    ensures Fed(cfg, Ready(request, size, lastCh), Write(LiteralString(b, sync, binary)),
                Ready(Extend(request, [Text(b)]), size + (if b == [] then 1 else |b|), 32),
                if sync then [NeedsLiteral(|b|)] else [])
  {
    LiteralHead(cfg, request, size, lastCh, |b|, sync, binary);
    BodyRun(cfg, request, size, b);
    FedUntil(cfg, Ready(request, size, lastCh), Header(|b|, sync, binary) + [125, 13, 10], Counting(request, size, |b|),
             if sync then [NeedsLiteral(|b|)] else [],
             b, Ready(Extend(request, [Text(b)]), size + (if b == [] then 1 else |b|), 32));
  }

  // What PieceRun states of one piece.
  ghost predicate Read<T>(cfg: Config<T>, r: Receiver<T>, r': Receiver<T>, request: Request<T>, size: nat, spaced: bool, p: Piece)
    requires ValidStart(cfg)
  {
    && Fed(cfg, r, Write(p), r', Prompts(p))
    && At(cfg, r', Extend(request, TokensOf(p)), size + SizeOf(p), p.Atom?, SpacedAfter(p, spaced))
  }

  lemma BlankPiece<T>(cfg: Config<T>, r: Receiver<T>, request: Request<T>, size: nat, afterAtom: bool, spaced: bool, b: byte)
    requires ValidStart(cfg) && Valid(cfg, r) && At(cfg, r, request, size, afterAtom, spaced) && BlankByte(b)
    ensures Read(cfg, r, Ready(request, size, b), request, size, spaced, Blank(b))
  {
    BlankRun(cfg, r, request, size, afterAtom, spaced, b);
    ReadyAt(cfg, request, size, b);
    assert request.tokens + [] == request.tokens;
  }

  lemma MarkPiece<T>(cfg: Config<T>, r: Receiver<T>, request: Request<T>, size: nat, afterAtom: bool, spaced: bool, t: Token)
    requires ValidStart(cfg) && Valid(cfg, r) && At(cfg, r, request, size, afterAtom, spaced)
    requires Follows(Mark(t), afterAtom, spaced, cfg.tokenizeBrackets(request.command)) && size + 1 <= cfg.maxRequestSize
    ensures Read(cfg, r, Ready(Extend(request, [t]), size + 1, r.state.lastCh), request, size, spaced, Mark(t))
  {
    MarkRun(cfg, r, request, size, afterAtom, spaced, t);
    ReadyAt(cfg, Extend(request, [t]), size + 1, r.state.lastCh);
  }

  lemma QuotedPiece<T>(cfg: Config<T>, request: Request<T>, size: nat, lastCh: byte, b: seq<byte>)
    requires ValidStart(cfg) && Valid(cfg, Ready(request, size, lastCh)) && IsWhitespace(lastCh)
    requires |b| <= 1024 && 10 !in b && size + |b| <= cfg.maxRequestSize
    ensures Read(cfg, Ready(request, size, lastCh), Ready(Extend(request, [Text(b)]), size + |b|, 32), request, size, true, QuotedString(b))
  {
    QuotedToken(cfg, request, size, lastCh, b);
    ReadyAt(cfg, Extend(request, [Text(b)]), size + |b|, 32);
  }

  lemma LiteralPiece<T>(cfg: Config<T>, request: Request<T>, size: nat, lastCh: byte, spaced: bool, p: Piece)
    requires ValidStart(cfg) && Valid(cfg, Ready(request, size, lastCh)) && p.LiteralString? && (p.binary || IsWhitespace(lastCh))
    requires |p.bytes| < 0x1_0000_0000 && size + SizeOf(p) <= cfg.maxRequestSize
    ensures Read(cfg, Ready(request, size, lastCh), Ready(Extend(request, [Text(p.bytes)]), size + SizeOf(p), 32), request, size, spaced, p)
  {
    LiteralToken(cfg, request, size, lastCh, p.bytes, p.sync, p.binary);
    ReadyAt(cfg, Extend(request, [Text(p.bytes)]), size + SizeOf(p), 32);
  }

  // Pieces that need an empty buffer.
  lemma StringRun<T>(cfg: Config<T>, request: Request<T>, size: nat, lastCh: byte, p: Piece) returns (r': Receiver<T>)
    requires ValidStart(cfg) && Valid(cfg, Ready(request, size, lastCh)) && (p.Atom? || p.QuotedString? || p.LiteralString?)
    requires Follows(p, false, IsWhitespace(lastCh), cfg.tokenizeBrackets(request.command)) && size + SizeOf(p) <= cfg.maxRequestSize
    ensures Read(cfg, Ready(request, size, lastCh), r', request, size, IsWhitespace(lastCh), p)
  {
    match p
    case Atom(b) => r' := AtomRun(cfg, request, size, lastCh, b);
    case QuotedString(b) =>
      r' := Ready(Extend(request, [Text(b)]), size + |b|, 32);
      QuotedPiece(cfg, request, size, lastCh, b);
    case LiteralString(b, _, _) =>
      r' := Ready(Extend(request, [Text(b)]), size + SizeOf(p), 32);
      LiteralPiece(cfg, request, size, lastCh, IsWhitespace(lastCh), p);
  }

  /** Any piece, from any place it may follow: its tokens, its size and its prompts are added. */
  lemma PieceRun<T>(cfg: Config<T>, r: Receiver<T>, request: Request<T>, size: nat, afterAtom: bool, spaced: bool, p: Piece)
    returns (r': Receiver<T>)
    requires ValidStart(cfg) && Valid(cfg, r) && At(cfg, r, request, size, afterAtom, spaced)
    requires Follows(p, afterAtom, spaced, cfg.tokenizeBrackets(request.command)) && size + SizeOf(p) <= cfg.maxRequestSize
    ensures Read(cfg, r, r', request, size, spaced, p)
  {
    match p
    case Blank(b) =>
      r' := Ready(request, size, b);
      BlankPiece(cfg, r, request, size, afterAtom, spaced, b);
    case Mark(t) =>
      r' := Ready(Extend(request, [t]), size + 1, r.state.lastCh);
      MarkPiece(cfg, r, request, size, afterAtom, spaced, t);
    case _ =>
      AtReady(cfg, r, request, size, spaced);
      r' := StringRun(cfg, request, size, r.state.lastCh, p);
  }

  lemma ExtendTwice<T>(request: Request<T>, a: seq<Token>, b: seq<Token>)
    ensures Extend(Extend(request, a), b) == Extend(request, a + b)
  {
    Associate(request.tokens, a, b);
  }

  lemma {:induction false} PiecesRun<T>(cfg: Config<T>, r: Receiver<T>, request: Request<T>, size: nat, afterAtom: bool, spaced: bool,
                                        ps: seq<Piece>)
    returns (r': Receiver<T>, lastAtom: bool, lastSpaced: bool)
    requires ValidStart(cfg) && Valid(cfg, r) && At(cfg, r, request, size, afterAtom, spaced)
    requires Writable(ps, afterAtom, spaced, cfg.tokenizeBrackets(request.command)) && size + TotalSize(ps) <= cfg.maxRequestSize
    ensures Fed(cfg, r, WriteAll(ps), r', AllPrompts(ps))
    ensures At(cfg, r', Extend(request, AllTokens(ps)), size + TotalSize(ps), lastAtom, lastSpaced)
    decreases |ps|
  {
    if ps == [] {
      r', lastAtom, lastSpaced := r, afterAtom, spaced;
      SilentNone(cfg, r);
      assert request.tokens + [] == request.tokens;
    } else {
      var p, rest := ps[0], ps[1..];
      var r1 := PieceRun(cfg, r, request, size, afterAtom, spaced, p);
      var extended := Extend(request, TokensOf(p));
      r', lastAtom, lastSpaced := PiecesRun(cfg, r1, extended, size + SizeOf(p), p.Atom?, SpacedAfter(p, spaced), rest);
      FedThen(cfg, r, Write(p), r1, Prompts(p), WriteAll(rest), r', AllPrompts(rest));
      ExtendTwice(request, TokensOf(p), AllTokens(rest));
    }
  }

  // ---- The beginning of a request ----

  predicate WhiteByte(b: byte) {
    BlankByte(b) || b == 10
  }

  predicate AllWhite(s: seq<byte>) {
    forall i | 0 <= i < |s| :: WhiteByte(s[i])
  }

  predicate TagByte(b: byte) {
    b != 32 && b != 9 && b != 13 && b != 10
  }

  predicate LetterOrDigit(b: byte) {
    48 <= b <= 57 || 65 <= b <= 90 || 97 <= b <= 122
  }

  function Upper(name: seq<byte>): (r: seq<byte>)
    ensures |r| == |name|
  {
    seq(|name|, i requires 0 <= i < |name| => if 97 <= name[i] <= 122 then name[i] - 32 else name[i])
  }

  lemma {:induction false} StartRun<T>(cfg: Config<T>, white: seq<byte>)
    requires cfg.startState == Start && AllWhite(white)
    ensures Silent(cfg, Fresh(cfg), white, Fresh(cfg))
    decreases |white|
  {
    FreshValid(cfg);
    if white == [] {
      SilentNone(cfg, Fresh(cfg));
    } else {
      SilentStep(cfg, Fresh(cfg), white[0], Fresh(cfg));
      StartRun(cfg, white[1..]);
      assert [white[0]] + white[1..] == white;
      SilentThen(cfg, Fresh(cfg), [white[0]], Fresh(cfg), white[1..], Fresh(cfg));
    }
  }

  lemma {:induction false} TagRun<T>(cfg: Config<T>, r: Receiver<T>, b: seq<byte>)
    requires ValidStart(cfg) && Valid(cfg, r) && r.state == Tag && |r.buf| + |b| <= 128
    requires forall i | 0 <= i < |b| :: TagByte(b[i])
    ensures Silent(cfg, r, b, r.(buf := r.buf + b))
    decreases |b|
  {
    if b == [] {
      assert r.buf + [] == r.buf;
      SilentNone(cfg, r);
    } else {
      var r1 := r.(buf := r.buf + [b[0]]);
      SilentStep(cfg, r, b[0], r1);
      TagRun(cfg, r1, b[1..]);
      assert r1.buf + b[1..] == r.buf + b && [b[0]] + b[1..] == b;
      SilentThen(cfg, r, [b[0]], r1, b[1..], r.(buf := r.buf + b));
    }
  }

  // Without the tabs and carriage returns.
  function Solid(b: seq<byte>): seq<byte> {
    if b == [] then [] else (if b[0] == 9 || b[0] == 13 then [] else [b[0]]) + Solid(b[1..])
  }

  /** Tabs and carriage returns inside a tag are not part of it. */
  lemma {:induction false} BlanksInTag<T>(cfg: Config<T>, r: Receiver<T>, b: seq<byte>)
    requires ValidStart(cfg) && Valid(cfg, r) && r.state == Tag && |r.buf| + |Solid(b)| <= 128
    requires forall i | 0 <= i < |b| :: b[i] != 32 && b[i] != 10
    ensures Silent(cfg, r, b, r.(buf := r.buf + Solid(b)))
    decreases |b|
  {
    if b == [] {
      assert r.buf + [] == r.buf;
      SilentNone(cfg, r);
    } else {
      var first := if b[0] == 9 || b[0] == 13 then [] else [b[0]];
      var r1 := r.(buf := r.buf + first);
      assert r.buf + [] == r.buf;
      SilentStep(cfg, r, b[0], r1);
      BlanksInTag(cfg, r1, b[1..]);
      assert r1.buf + Solid(b[1..]) == r.buf + Solid(b) && [b[0]] + b[1..] == b;
      SilentThen(cfg, r, [b[0]], r1, b[1..], r.(buf := r.buf + Solid(b)));
    }
  }

  // A receiver that is about to read a command name.
  function Tagged<T>(cfg: Config<T>, tag: seq<byte>, isUid: bool): Receiver<T> {
    Receiver([], Request(tag, cfg.defaultCommand, []), Command(isUid), 0)
  }

  predicate IsTag<T>(cfg: Config<T>, tag: seq<byte>) {
    1 <= |tag| <= 128 && !WhiteByte(tag[0]) && cfg.validUtf8(tag) && forall i | 0 <= i < |tag| :: TagByte(tag[i])
  }

  lemma WholeTag<T>(cfg: Config<T>, tag: seq<byte>)
    requires cfg.startState == Start && IsTag(cfg, tag)
    ensures Silent(cfg, Fresh(cfg), tag + [32], Tagged(cfg, tag, false))
  {
    FreshValid(cfg);
    var r := Fresh(cfg);
    var r1 := r.(buf := [tag[0]], state := Tag);
    SilentStep(cfg, r, tag[0], r1);
    TagRun(cfg, r1, tag[1..]);
    var r2 := r1.(buf := tag);
    assert [tag[0]] + tag[1..] == tag;
    SilentThen(cfg, r, [tag[0]], r1, tag[1..], r2);
    SilentStep(cfg, r2, 32, Tagged(cfg, tag, false));
    SilentThen(cfg, r, tag, r2, [32], Tagged(cfg, tag, false));
  }

  lemma {:induction false} WhiteRun<T>(cfg: Config<T>, r: Receiver<T>, white: seq<byte>)
    requires ValidStart(cfg) && Valid(cfg, r) && r.state.Command? && r.buf == [] && AllWhite(white)
    ensures Silent(cfg, r, white, r)
    decreases |white|
  {
    if white == [] {
      SilentNone(cfg, r);
    } else {
      SilentStep(cfg, r, white[0], r);
      WhiteRun(cfg, r, white[1..]);
      assert [white[0]] + white[1..] == white;
      SilentThen(cfg, r, [white[0]], r, white[1..], r);
    }
  }

  lemma {:induction false} NameRun<T>(cfg: Config<T>, r: Receiver<T>, b: seq<byte>)
    requires ValidStart(cfg) && Valid(cfg, r) && r.state.Command? && |r.buf| + |b| <= 15
    requires forall i | 0 <= i < |b| :: LetterOrDigit(b[i])
    ensures Silent(cfg, r, b, r.(buf := r.buf + Upper(b)))
    decreases |b|
  {
    if b == [] {
      assert r.buf + Upper(b) == r.buf;
      SilentNone(cfg, r);
    } else {
      var r1 := r.(buf := r.buf + [Upper(b)[0]]);
      SilentStep(cfg, r, b[0], r1);
      NameRun(cfg, r1, b[1..]);
      assert Upper(b) == [Upper(b)[0]] + Upper(b[1..]);
      assert r1.buf + Upper(b[1..]) == r.buf + Upper(b) && [b[0]] + b[1..] == b;
      SilentThen(cfg, r, [b[0]], r1, b[1..], r.(buf := r.buf + Upper(b)));
    }
  }

  lemma UidRun<T>(cfg: Config<T>, tag: seq<byte>, uid: seq<byte>)
    requires ValidStart(cfg) && Valid(cfg, Tagged(cfg, tag, false)) && Upper(uid) == [85, 73, 68]
    ensures Silent(cfg, Tagged(cfg, tag, false), uid + [32], Tagged(cfg, tag, true))
  {
    var r := Tagged(cfg, tag, false);
    assert forall i | 0 <= i < |uid| :: Upper(uid)[i] in {85, 73, 68} && LetterOrDigit(uid[i]);
    NameRun(cfg, r, uid);
    assert [] + Upper(uid) == UID;
    SilentStep(cfg, r.(buf := UID), 32, Tagged(cfg, tag, true));
    SilentThen(cfg, r, uid, r.(buf := UID), [32], Tagged(cfg, tag, true));
  }

  predicate IsName(name: seq<byte>) {
    1 <= |name| <= 15 && Upper(name) != [85, 73, 68] && forall i | 0 <= i < |name| :: LetterOrDigit(name[i])
  }

  // A blank after a command name selects the command; a line feed also ends the request.
  lemma CommandEnd<T>(cfg: Config<T>, tag: seq<byte>, isUid: bool, name: seq<byte>, command: T, ch: byte)
    requires ValidStart(cfg) && Valid(cfg, Tagged(cfg, tag, isUid)) && IsName(name) && WhiteByte(ch)
    requires cfg.parse(Upper(name), isUid) == Some(command)
    ensures var request := Request(tag, command, []);
      if ch == 10 then Fed(cfg, Tagged(cfg, tag, isUid), name + [ch], Fresh(cfg), [Complete(request)])
      else Silent(cfg, Tagged(cfg, tag, isUid), name + [ch], Ready(request, 0, 32))
  {
    var r := Tagged(cfg, tag, isUid);
    var r1 := r.(buf := Upper(name));
    NameRun(cfg, r, name);
    assert [] + Upper(name) == Upper(name);
    FedStep(cfg, r1, ch);
    var o := Step(cfg, r1, ch);
    FedThen(cfg, r, name, r1, [], [ch], o.next, if o.Stop? then [o.event] else []);
    assert [] + [Complete(Request(tag, command, []))] == [Complete(Request(tag, command, []))];
  }

  // ---- Requests ----

  // What follows the command name: the line feed, or a blank and an argument line.
  datatype Line = Bare | Spaced(gap: byte, pieces: seq<Piece>)

  /** A request with the white space before its tag and its command, and its command name in any case. */
  datatype Printed = Printed(lead: seq<byte>, tag: seq<byte>, mid: seq<byte>, uid: seq<byte>, name: seq<byte>, line: Line)

  function WriteLine(line: Line): seq<byte> {
    match line
    case Bare => [10]
    case Spaced(gap, ps) => [gap] + (WriteAll(ps) + [10])
  }

  function WriteHead(p: Printed, tagged: bool): seq<byte> {
    (if tagged then p.lead + (p.tag + [32]) else []) + (p.mid + (if p.uid != [] then p.uid + [32] else []))
  }

  function WriteRequest(p: Printed, tagged: bool): seq<byte> {
    WriteHead(p, tagged) + (p.name + WriteLine(p.line))
  }

  predicate LineFits(line: Line, brackets: bool, maximum: nat) {
    line.Spaced? ==>
      BlankByte(line.gap) && Writable(line.pieces, false, true, brackets) && TotalSize(line.pieces) <= maximum
  }

  /** Requests a client may send: a valid tag, or none where none is expected, a known command and pieces that may
      follow each other, within the limit. */
  predicate Sendable<T>(cfg: Config<T>, p: Printed) {
    && (if cfg.startState == Start then AllWhite(p.lead) && IsTag(cfg, p.tag) else p.tag == [])
    && AllWhite(p.mid) && (p.uid == [] || Upper(p.uid) == [85, 73, 68]) && IsName(p.name)
    && var command := cfg.parse(Upper(p.name), p.uid != []);
       command.Some? && LineFits(p.line, cfg.tokenizeBrackets(command.value), cfg.maxRequestSize)
  }

  function LineTokens(line: Line): seq<Token> {
    if line.Bare? then [] else AllTokens(line.pieces)
  }

  function LinePrompts<T>(line: Line): seq<Event<T>> {
    if line.Bare? then [] else AllPrompts(line.pieces)
  }

  function RequestOf<T>(cfg: Config<T>, p: Printed): Request<T>
    requires Sendable(cfg, p)
  {
    Request(p.tag, cfg.parse(Upper(p.name), p.uid != []).value, LineTokens(p.line))
  }

  // The prompts for its literals, and then the request.
  function Reported<T>(cfg: Config<T>, p: Printed): seq<Event<T>>
    requires Sendable(cfg, p)
  {
    LinePrompts(p.line) + [Complete(RequestOf(cfg, p))]
  }

  lemma TagPart<T>(cfg: Config<T>, p: Printed)
    requires ValidStart(cfg) && Sendable(cfg, p)
    ensures Silent(cfg, Fresh(cfg), if cfg.startState == Start then p.lead + (p.tag + [32]) else [], Tagged(cfg, p.tag, false))
  {
    FreshValid(cfg);
    if cfg.startState == Start {
      StartRun(cfg, p.lead);
      WholeTag(cfg, p.tag);
      SilentThen(cfg, Fresh(cfg), p.lead, Fresh(cfg), p.tag + [32], Tagged(cfg, p.tag, false));
    } else {
      SilentNone(cfg, Fresh(cfg));
    }
  }

  lemma UidPart<T>(cfg: Config<T>, tag: seq<byte>, mid: seq<byte>, uid: seq<byte>)
    requires ValidStart(cfg) && Valid(cfg, Tagged(cfg, tag, false)) && AllWhite(mid) && (uid == [] || Upper(uid) == [85, 73, 68])
    ensures Silent(cfg, Tagged(cfg, tag, false), mid + (if uid != [] then uid + [32] else []), Tagged(cfg, tag, uid != []))
  {
    WhiteRun(cfg, Tagged(cfg, tag, false), mid);
    if uid == [] {
      assert mid + [] == mid;
    } else {
      UidRun(cfg, tag, uid);
      SilentThen(cfg, Tagged(cfg, tag, false), mid, Tagged(cfg, tag, false), uid + [32], Tagged(cfg, tag, true));
    }
  }

  lemma HeadRun<T>(cfg: Config<T>, p: Printed)
    requires ValidStart(cfg) && Sendable(cfg, p)
    ensures Silent(cfg, Fresh(cfg), WriteHead(p, cfg.startState == Start), Tagged(cfg, p.tag, p.uid != []))
  {
    TagPart(cfg, p);
    UidPart(cfg, p.tag, p.mid, p.uid);
    SilentThen(cfg, Fresh(cfg), if cfg.startState == Start then p.lead + (p.tag + [32]) else [], Tagged(cfg, p.tag, false),
               p.mid + (if p.uid != [] then p.uid + [32] else []), Tagged(cfg, p.tag, p.uid != []));
  }

  lemma LineEnd<T>(cfg: Config<T>, r: Receiver<T>, request: Request<T>, size: nat, afterAtom: bool, spaced: bool)
    requires ValidStart(cfg) && Valid(cfg, r) && At(cfg, r, request, size, afterAtom, spaced)
    ensures Fed(cfg, r, [10], Fresh(cfg), [Complete(request)])
  {
    FedStep(cfg, r, 10);
    assert r.request.tokens + [] == r.request.tokens;
  }

  lemma LineRun<T>(cfg: Config<T>, request: Request<T>, ps: seq<Piece>)
    requires ValidStart(cfg) && Valid(cfg, Ready(request, 0, 32))
    requires Writable(ps, false, true, cfg.tokenizeBrackets(request.command)) && TotalSize(ps) <= cfg.maxRequestSize
    ensures Fed(cfg, Ready(request, 0, 32), WriteAll(ps) + [10], Fresh(cfg),
                AllPrompts(ps) + [Complete(Extend(request, AllTokens(ps)))])
  {
    ReadyAt(cfg, request, 0, 32);
    var r, afterAtom, spaced := PiecesRun(cfg, Ready(request, 0, 32), request, 0, false, true, ps);
    LineEnd(cfg, r, Extend(request, AllTokens(ps)), TotalSize(ps), afterAtom, spaced);
    FedThen(cfg, Ready(request, 0, 32), WriteAll(ps), r, AllPrompts(ps), [10], Fresh(cfg), [Complete(Extend(request, AllTokens(ps)))]);
  }

  lemma CommandRun<T>(cfg: Config<T>, tag: seq<byte>, isUid: bool, name: seq<byte>, command: T, line: Line)
    requires ValidStart(cfg) && Valid(cfg, Tagged(cfg, tag, isUid)) && IsName(name) && cfg.parse(Upper(name), isUid) == Some(command)
    requires LineFits(line, cfg.tokenizeBrackets(command), cfg.maxRequestSize)
    ensures Fed(cfg, Tagged(cfg, tag, isUid), name + WriteLine(line), Fresh(cfg),
                LinePrompts(line) + [Complete(Request(tag, command, LineTokens(line)))])
  {
    match line
    case Bare =>
      CommandEnd(cfg, tag, isUid, name, command, 10);
      assert [] + [Complete(Request(tag, command, []))] == [Complete(Request(tag, command, []))];
    case Spaced(gap, ps) =>
      var request := Request(tag, command, []);
      CommandEnd(cfg, tag, isUid, name, command, gap);
      LineRun(cfg, request, ps);
      assert [] + AllTokens(ps) == AllTokens(ps);
      FedAfter(cfg, Tagged(cfg, tag, isUid), name + [gap], Ready(request, 0, 32), WriteAll(ps) + [10], Fresh(cfg),
               AllPrompts(ps) + [Complete(Request(tag, command, AllTokens(ps)))]);
      Associate(name, [gap], WriteAll(ps) + [10]);
  }

  /** One request: each announced literal is asked for with its length, in order, and then the request is reported
      with its tokens in the order they were written; the receiver is left as it was. */
  lemma RequestRoundTrip<T>(cfg: Config<T>, p: Printed)
    requires ValidStart(cfg) && Sendable(cfg, p)
    ensures FeedFresh(cfg, WriteRequest(p, cfg.startState == Start)) == (Fresh(cfg), Reported(cfg, p))
  {
    var isUid := p.uid != [];
    HeadRun(cfg, p);
    CommandRun(cfg, p.tag, isUid, p.name, cfg.parse(Upper(p.name), isUid).value, p.line);
    FedAfter(cfg, Fresh(cfg), WriteHead(p, cfg.startState == Start), Tagged(cfg, p.tag, isUid),
             p.name + WriteLine(p.line), Fresh(cfg), Reported(cfg, p));
  }

  function WriteRequests(ps: seq<Printed>, tagged: bool): seq<byte> {
    if ps == [] then [] else WriteRequest(ps[0], tagged) + WriteRequests(ps[1..], tagged)
  }

  function AllReported<T>(cfg: Config<T>, ps: seq<Printed>): seq<Event<T>>
    requires forall i | 0 <= i < |ps| :: Sendable(cfg, ps[i])
  {
    if ps == [] then [] else Reported(cfg, ps[0]) + AllReported(cfg, ps[1..])
  }

  /** Any list of requests is reported in order, and leaves the receiver as it was. */
  lemma {:induction false} RoundTrip<T>(cfg: Config<T>, ps: seq<Printed>)
    requires ValidStart(cfg) && forall i | 0 <= i < |ps| :: Sendable(cfg, ps[i])
    ensures FeedFresh(cfg, WriteRequests(ps, cfg.startState == Start)) == (Fresh(cfg), AllReported(cfg, ps))
    decreases |ps|
  {
    FreshValid(cfg);
    if ps != [] {
      RequestRoundTrip(cfg, ps[0]);
      RoundTrip(cfg, ps[1..]);
      var tagged := cfg.startState == Start;
      FeedConcat(cfg, Fresh(cfg), WriteRequest(ps[0], tagged), WriteRequests(ps[1..], tagged));
    }
  }
}
