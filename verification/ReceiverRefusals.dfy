/** What a receiver refuses, and with which error. */
module ReceiverRefusals {
  import opened Wrappers
  import opened Decimal
  import opened ImapReceiver
  import opened ReceiverRoundTrip

  // The bytes are refused: the error names the tag if one was read, and the receiver is as new.
  ghost predicate Refuses<T>(cfg: Config<T>, r: Receiver<T>, bytes: seq<byte>, tag: seq<byte>, kind: ErrorKind)
    requires ValidStart(cfg)
  {
    Fed(cfg, r, bytes, Fresh(cfg), [Failed(if tag == [] then None else Some(tag), kind)])
  }

  lemma RefusedStep<T>(cfg: Config<T>, r: Receiver<T>, ch: byte, kind: ErrorKind)
    requires ValidStart(cfg) && Valid(cfg, r) && Step(cfg, r, ch) == ErrorReset(cfg, r, kind)
    ensures Refuses(cfg, r, [ch], r.request.tag, kind)
  {
    FedStep(cfg, r, ch);
  }

  lemma RefusedAfter<T>(cfg: Config<T>, r: Receiver<T>, bytes: seq<byte>, r1: Receiver<T>, ch: byte, kind: ErrorKind)
    requires ValidStart(cfg) && Silent(cfg, r, bytes, r1) && Step(cfg, r1, ch) == ErrorReset(cfg, r1, kind)
    ensures Refuses(cfg, r, bytes + [ch], r1.request.tag, kind)
  {
    RefusedStep(cfg, r1, ch, kind);
    FedAfter(cfg, r, bytes, r1, [ch], Fresh(cfg), [Failed(if r1.request.tag == [] then None else Some(r1.request.tag), kind)]);
  }

  // ---- Tags ----

  lemma TagRead<T>(cfg: Config<T>, tag: seq<byte>)
    requires cfg.startState == Start
    requires 1 <= |tag| <= 128 && !WhiteByte(tag[0]) && forall i | 0 <= i < |tag| :: TagByte(tag[i])
    ensures Silent(cfg, Fresh(cfg), tag, Fresh(cfg).(buf := tag, state := Tag))
  {
    FreshValid(cfg);
    var r := Fresh(cfg);
    var r1 := r.(buf := [tag[0]], state := Tag);
    SilentStep(cfg, r, tag[0], r1);
    TagRun(cfg, r1, tag[1..]);
    assert [tag[0]] + tag[1..] == tag;
    SilentThen(cfg, r, [tag[0]], r1, tag[1..], r.(buf := tag, state := Tag));
  }

  /** A tag of more than 128 bytes, one that is not UTF-8, and one with no command. */
  lemma TagRefused<T>(cfg: Config<T>, tag: seq<byte>, ch: byte)
    requires cfg.startState == Start
    requires 1 <= |tag| <= 128 && !WhiteByte(tag[0]) && forall i | 0 <= i < |tag| :: TagByte(tag[i])
    ensures |tag| == 128 && TagByte(ch) ==> Refuses(cfg, Fresh(cfg), tag + [ch], [], TagTooLong)
    ensures !cfg.validUtf8(tag) ==> Refuses(cfg, Fresh(cfg), tag + [32], [], TagNotUtf8)
    ensures Refuses(cfg, Fresh(cfg), tag + [10], [], MissingCommand)
  {
    TagRead(cfg, tag);
    var r := Fresh(cfg).(buf := tag, state := Tag);
    if |tag| == 128 && TagByte(ch) {
      RefusedAfter(cfg, Fresh(cfg), tag, r, ch, TagTooLong);
    }
    if !cfg.validUtf8(tag) {
      RefusedAfter(cfg, Fresh(cfg), tag, r, 32, TagNotUtf8);
    }
    RefusedAfter(cfg, Fresh(cfg), tag, r, 10, MissingCommand);
  }

  // ---- Commands ----

  /** A command name of more than 15 letters and digits, one that no command has, and any other character. */
  lemma CommandRefused<T>(cfg: Config<T>, tag: seq<byte>, isUid: bool, name: seq<byte>, ch: byte)
    requires ValidStart(cfg) && Valid(cfg, Tagged(cfg, tag, isUid)) && |name| <= 15
    requires forall i | 0 <= i < |name| :: LetterOrDigit(name[i])
    ensures |name| == 15 && LetterOrDigit(ch) ==> Refuses(cfg, Tagged(cfg, tag, isUid), name + [ch], tag, CommandTooLong)
    ensures IsName(name) && cfg.parse(Upper(name), isUid) == None && WhiteByte(ch) ==>
              Refuses(cfg, Tagged(cfg, tag, isUid), name + [ch], tag, UnrecognizedCommand)
    ensures !LetterOrDigit(ch) && !WhiteByte(ch) ==> Refuses(cfg, Tagged(cfg, tag, isUid), name + [ch], tag, InvalidCommandCharacter)
  {
    var r := Tagged(cfg, tag, isUid);
    var r1 := r.(buf := Upper(name));
    NameRun(cfg, r, name);
    assert [] + Upper(name) == Upper(name);
    if |name| == 15 && LetterOrDigit(ch) {
      RefusedAfter(cfg, r, name, r1, ch, CommandTooLong);
    }
    if IsName(name) && cfg.parse(Upper(name), isUid) == None && WhiteByte(ch) {
      RefusedAfter(cfg, r, name, r1, ch, UnrecognizedCommand);
    }
    if !LetterOrDigit(ch) && !WhiteByte(ch) {
      RefusedAfter(cfg, r, name, r1, ch, InvalidCommandCharacter);
    }
  }

  // ---- Strings ----

  /** A quoted string of more than 1024 bytes. */
  lemma QuotedRefused<T>(cfg: Config<T>, request: Request<T>, size: nat, lastCh: byte, b: seq<byte>, ch: byte)
    requires ValidStart(cfg) && Valid(cfg, Ready(request, size, lastCh)) && BlankByte(lastCh)
    requires |b| == 1024 && 10 !in b && ch != 34 && ch != 92 && ch != 10
    ensures Refuses(cfg, Ready(request, size, lastCh), [34] + Escape(b) + [ch], request.tag, QuotedTooLong)
  {
    OpenQuote(cfg, request, size, lastCh, b);
    FullBuffer(cfg, Ready(request, size, lastCh), [34] + Escape(b), Receiver(b, request, InQuoted(false), size), ch);
  }

  lemma FullBuffer<T>(cfg: Config<T>, r: Receiver<T>, bytes: seq<byte>, r1: Receiver<T>, ch: byte)
    requires ValidStart(cfg) && Silent(cfg, r, bytes, r1) && r1.state == InQuoted(false) && |r1.buf| == 1024
    requires ch != 34 && ch != 92 && ch != 10
    ensures Refuses(cfg, r, bytes + [ch], r1.request.tag, QuotedTooLong)
  {
    RefusedAfter(cfg, r, bytes, r1, ch, QuotedTooLong);
  }

  /** A quoted string with a line feed. */
  lemma UnclosedRefused<T>(cfg: Config<T>, request: Request<T>, size: nat, lastCh: byte, b: seq<byte>)
    requires ValidStart(cfg) && Valid(cfg, Ready(request, size, lastCh)) && BlankByte(lastCh) && |b| <= 1024 && 10 !in b
    ensures Refuses(cfg, Ready(request, size, lastCh), [34] + Escape(b) + [10], request.tag, UnterminatedQuoted)
  {
    OpenQuote(cfg, request, size, lastCh, b);
    FedInQuotes(cfg, Ready(request, size, lastCh), [34] + Escape(b), Receiver(b, request, InQuoted(false), size));
  }

  lemma FedInQuotes<T>(cfg: Config<T>, r: Receiver<T>, bytes: seq<byte>, r1: Receiver<T>)
    requires ValidStart(cfg) && Silent(cfg, r, bytes, r1) && r1.state == InQuoted(false)
    ensures Refuses(cfg, r, bytes + [10], r1.request.tag, UnterminatedQuoted)
  {
    RefusedAfter(cfg, r, bytes, r1, 10, UnterminatedQuoted);
  }

  /** A literal whose size does not fit in 32 bits or in what is left of the request. */
  lemma LiteralRefused<T>(cfg: Config<T>, request: Request<T>, size: nat, lastCh: byte, n: nat, sync: bool, binary: bool)
    requires ValidStart(cfg) && Valid(cfg, Ready(request, size, lastCh)) && (binary || BlankByte(lastCh))
    requires n >= 0x1_0000_0000 || size + n > cfg.maxRequestSize
    ensures Refuses(cfg, Ready(request, size, lastCh), Header(n, sync, binary) + [125], request.tag,
                    if n >= 0x1_0000_0000 then LiteralSizeInvalid else LiteralTooLarge)
  {
    var r1 := Receiver(Decimal.Print(n), request, Literal(!sync), size);
    HeaderRun(cfg, request, size, lastCh, n, sync, binary);
    ParsePrinted(n);
    BraceRefused(cfg, r1, if n < 0x1_0000_0000 then Some(n) else None);
    RefusedAfter(cfg, Ready(request, size, lastCh), Header(n, sync, binary), r1, 125,
                 if n >= 0x1_0000_0000 then LiteralSizeInvalid else LiteralTooLarge);
  }

  lemma BraceRefused<T>(cfg: Config<T>, r: Receiver<T>, n: Option<nat>)
    requires r.state.Literal? && r.buf != [] && AllDigits(r.buf) && ParseU32(r.buf) == n
    requires n.None? || r.size + n.value > cfg.maxRequestSize
    ensures Step(cfg, r, 125) == ErrorReset(cfg, r, if n.None? then LiteralSizeInvalid else LiteralTooLarge)
  {
  }

  /** A literal whose header is not followed by a line break. */
  lemma BreakRefused<T>(cfg: Config<T>, request: Request<T>, size: nat, lastCh: byte, n: nat, sync: bool, binary: bool, ch: byte)
    requires ValidStart(cfg) && Valid(cfg, Ready(request, size, lastCh)) && (binary || BlankByte(lastCh))
    requires n < 0x1_0000_0000 && size + n <= cfg.maxRequestSize && !WhiteByte(ch)
    ensures Refuses(cfg, Ready(request, size, lastCh), Header(n, sync, binary) + [125, 13] + [ch], request.tag, ExpectedCrLf)
  {
    var r, r1 := Ready(request, size, lastCh), Receiver(Decimal.Print(n), request, Literal(!sync), size);
    var r2 := Receiver([], request, LiteralSeek(n, !sync), size);
    HeaderRun(cfg, request, size, lastCh, n, sync, binary);
    BraceClosed(cfg, request, size, n, sync);
    SilentThen(cfg, r, Header(n, sync, binary), r1, [125, 13], r2);
    RefusedAfter(cfg, r, Header(n, sync, binary) + [125, 13], r2, ch, ExpectedCrLf);
  }

  /** A literal with no size, with a digit after its plus sign, or with any other character. */
  lemma HeaderRefused<T>(cfg: Config<T>, request: Request<T>, size: nat, lastCh: byte, n: nat, sync: bool, binary: bool, ch: byte)
    requires ValidStart(cfg) && Valid(cfg, Ready(request, size, lastCh)) && (binary || BlankByte(lastCh))
    ensures var brace := if binary then [126, 123] else [123];
      && Refuses(cfg, Ready(request, size, lastCh), brace + [125], request.tag, EmptyLiteral)
      && Refuses(cfg, Ready(request, size, lastCh), brace + [43], request.tag, InvalidNonSync)
    ensures !sync && 48 <= ch <= 57 ==>
              Refuses(cfg, Ready(request, size, lastCh), Header(n, sync, binary) + [ch], request.tag, InvalidLiteral)
    ensures !(48 <= ch <= 57) && ch != 43 && ch != 125 ==>
              Refuses(cfg, Ready(request, size, lastCh), Header(n, sync, binary) + [ch], request.tag, InvalidLiteralCharacter)
  {
    var r, r0 := Ready(request, size, lastCh), Receiver([], request, Literal(false), size);
    var brace, r1 := if binary then [126, 123] else [123], Receiver(Decimal.Print(n), request, Literal(!sync), size);
    OpenBrace(cfg, request, size, lastCh, binary);
    RefusedAfter(cfg, r, brace, r0, 125, EmptyLiteral);
    RefusedAfter(cfg, r, brace, r0, 43, InvalidNonSync);
    HeaderRun(cfg, request, size, lastCh, n, sync, binary);
    if !sync && 48 <= ch <= 57 {
      RefusedAfter(cfg, r, Header(n, sync, binary), r1, ch, InvalidLiteral);
    }
    if !(48 <= ch <= 57) && ch != 43 && ch != 125 {
      RefusedAfter(cfg, r, Header(n, sync, binary), r1, ch, InvalidLiteralCharacter);
    }
  }

  // ---- Sizes ----

  /** An atom that passes the maximum is refused when it ends, and a mark at once; so is an atom that leaves no room
      for the mark after it. */
  lemma SizeRefused<T>(cfg: Config<T>, r: Receiver<T>, ch: byte, t: Token)
    requires ValidStart(cfg) && Valid(cfg, r) && r.state.InArgument? && WhiteByte(ch)
    requires Follows(Mark(t), false, false, cfg.tokenizeBrackets(r.request.command))
    ensures r.buf != [] && r.size + |r.buf| > cfg.maxRequestSize ==> Refuses(cfg, r, [ch], r.request.tag, RequestTooLarge)
    ensures r.size + |r.buf| + 1 > cfg.maxRequestSize ==> Refuses(cfg, r, [MarkByte(t)], r.request.tag, RequestTooLarge)
  {
    if r.buf != [] && r.size + |r.buf| > cfg.maxRequestSize {
      RefusedStep(cfg, r, ch, RequestTooLarge);
    }
    if r.size + |r.buf| + 1 > cfg.maxRequestSize {
      MarkByteIs(t, cfg.tokenizeBrackets(r.request.command));
      RefusedStep(cfg, r, MarkByte(t), RequestTooLarge);
    }
  }
}
