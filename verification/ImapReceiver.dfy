/** The incremental receiver of IMAP requests: one byte at a time, with tags, commands, atoms,
    quoted strings and literals (section 4.3 of RFC 9051, RFC 7888). */
module ImapReceiver {
  import opened Wrappers
  import opened Decimal

  datatype Token =
    | Argument(bytes: seq<byte>)
    | ParenthesisOpen
    | ParenthesisClose
    | BracketOpen
    | BracketClose
    | Lt
    | Gt
    | Dot
    | Nil

  datatype State =
    | Start
    | Tag
    | Command(isUid: bool)
    | InArgument(lastCh: byte)
    | InQuoted(escaped: bool)
    | Literal(nonSync: bool)
    | LiteralSeek(size: nat, seekNonSync: bool)
    | LiteralData(remaining: nat)

  datatype Request<T> = Request(tag: seq<byte>, command: T, tokens: seq<Token>)

  datatype ErrorKind =
    | TagNotUtf8 | MissingCommand | TagTooLong
    | CommandTooLong | UnrecognizedCommand | InvalidCommandCharacter
    | QuotedTooLong | UnterminatedQuoted
    | LiteralSizeInvalid | LiteralTooLarge | EmptyLiteral | InvalidNonSync | InvalidLiteral
    | InvalidLiteralCharacter | ExpectedCrLf
    | RequestTooLarge

  datatype Event<T> =
    | Complete(request: Request<T>)
    | NeedsLiteral(size: nat)
    | Failed(tag: Option<seq<byte>>, kind: ErrorKind)

  /** The command parser the receiver is generic in, UTF-8 validation and the size limit. */
  datatype Config<!T> = Config(
    parse: (seq<byte>, bool) -> Option<T>,
    tokenizeBrackets: T -> bool,
    defaultCommand: T,
    validUtf8: seq<byte> -> bool,
    maxRequestSize: nat,
    startState: State)

  datatype Receiver<T> = Receiver(buf: seq<byte>, request: Request<T>, state: State, size: nat)

  datatype Outcome<T> = More(next: Receiver<T>) | Stop(next: Receiver<T>, event: Event<T>)

  predicate IsWhitespace(b: byte) {
    b == 32 || b == 9 || b == 10 || b == 12 || b == 13
  }

  predicate IsAlphanumeric(b: byte) {
    48 <= b <= 57 || 65 <= b <= 90 || 97 <= b <= 122
  }

  function ToUpper(b: byte): byte {
    if 97 <= b <= 122 then b - 32 else b
  }

  const UID: seq<byte> := [85, 73, 68]

  function EmptyRequest<T>(cfg: Config<T>): Request<T> {
    Request([], cfg.defaultCommand, [])
  }

  // A receiver as `new` makes it, and as every completed or failed request leaves it.
  function Fresh<T>(cfg: Config<T>): Receiver<T> {
    Receiver([], EmptyRequest(cfg), cfg.startState, 0)
  }

  function ErrorReset<T>(cfg: Config<T>, r: Receiver<T>, kind: ErrorKind): Outcome<T> {
    Stop(Fresh(cfg), Failed(if r.request.tag != [] then Some(r.request.tag) else None, kind))
  }

  function AddToken<T>(r: Receiver<T>, t: Token): Receiver<T> {
    r.(request := r.request.(tokens := r.request.tokens + [t]))
  }

  function PushArgument<T>(cfg: Config<T>, r: Receiver<T>, inQuote: bool): Outcome<T> {
    if r.buf != [] then
      var size := r.size + |r.buf|;
      if size > cfg.maxRequestSize then ErrorReset(cfg, r, RequestTooLarge)
      else More(AddToken(r, Argument(r.buf)).(buf := [], size := size))
    else if inQuote then More(AddToken(r, Nil))
    else More(r)
  }

  function PushToken<T>(cfg: Config<T>, r: Receiver<T>, t: Token): Outcome<T> {
    if r.size + 1 > cfg.maxRequestSize then ErrorReset(cfg, r, RequestTooLarge)
    else More(AddToken(r, t).(size := r.size + 1))
  }

  function PushArgumentThen<T>(cfg: Config<T>, r: Receiver<T>, inQuote: bool, state: State): Outcome<T> {
    var o := PushArgument(cfg, r, inQuote);
    if o.Stop? then o else More(o.next.(state := state))
  }

  function PushBoth<T>(cfg: Config<T>, r: Receiver<T>, t: Token): Outcome<T> {
    var o := PushArgument(cfg, r, false);
    if o.Stop? then o else PushToken(cfg, o.next, t)
  }

  function Finish<T>(cfg: Config<T>, r: Receiver<T>): Outcome<T> {
    Stop(Fresh(cfg).(buf := r.buf), Complete(r.request))
  }

  function StepTag<T>(cfg: Config<T>, r: Receiver<T>, ch: byte): Outcome<T> {
    if ch == 32 then
      if r.buf == [] then More(r)
      else if cfg.validUtf8(r.buf) then
        More(r.(request := r.request.(tag := r.buf), buf := [], state := Command(false)))
      else ErrorReset(cfg, r, TagNotUtf8)
    else if ch == 9 || ch == 13 then More(r)
    else if ch == 10 then ErrorReset(cfg, r, MissingCommand)
    else if |r.buf| < 128 then More(r.(buf := r.buf + [ch]))
    else ErrorReset(cfg, r, TagTooLong)
  }

  function StepCommand<T>(cfg: Config<T>, r: Receiver<T>, isUid: bool, ch: byte): Outcome<T> {
    if IsAlphanumeric(ch) then
      if |r.buf| < 15 then More(r.(buf := r.buf + [ToUpper(ch)]))
      else ErrorReset(cfg, r, CommandTooLong)
    else if IsWhitespace(ch) then
      if r.buf == [] then More(r)
      else if r.buf == UID then More(r.(buf := [], state := Command(true)))
      else
        var command := cfg.parse(r.buf, isUid);
        if command.None? then ErrorReset(cfg, r, UnrecognizedCommand)
        else
          var r' := r.(request := r.request.(command := command.value), buf := []);
          if ch != 10 then More(r'.(state := InArgument(32))) else Finish(cfg, r')
    else ErrorReset(cfg, r, InvalidCommandCharacter)
  }

  // The token a punctuation byte stands for, brackets only where the command tokenizes them.
  function Punctuation(ch: byte, brackets: bool): (r: Option<Token>)
    ensures r.Some? ==> !r.value.Argument? && !r.value.Nil?
  {
    if ch == 40 then Some(ParenthesisOpen)
    else if ch == 41 then Some(ParenthesisClose)
    else if !brackets then None
    else if ch == 91 then Some(BracketOpen)
    else if ch == 93 then Some(BracketClose)
    else if ch == 60 then Some(Lt)
    else if ch == 62 then Some(Gt)
    else if ch == 46 then Some(Dot)
    else None
  }

  function StepArgument<T>(cfg: Config<T>, r: Receiver<T>, lastCh: byte, ch: byte): Outcome<T> {
    if ch == 34 && IsWhitespace(lastCh) then PushArgumentThen(cfg, r, false, InQuoted(false))
    else if ch == 123 && (IsWhitespace(lastCh) || (lastCh == 126 && |r.buf| == 1)) then
      if lastCh != 126 then PushArgumentThen(cfg, r, false, Literal(false))
      else More(r.(buf := [], state := Literal(false)))
    else
      var p := Punctuation(ch, cfg.tokenizeBrackets(r.request.command));
      if p.Some? then PushBoth(cfg, r, p.value)
      else if ch == 10 then
        var o := PushArgument(cfg, r, false);
        if o.Stop? then o else Finish(cfg, o.next)
      else if IsWhitespace(ch) then PushArgumentThen(cfg, r, false, InArgument(ch))
      else More(r.(buf := r.buf + [ch], state := InArgument(ch)))
  }

  function StepQuoted<T>(cfg: Config<T>, r: Receiver<T>, escaped: bool, ch: byte): Outcome<T> {
    if ch == 34 && !escaped then PushArgumentThen(cfg, r, true, InArgument(32))
    else if ch == 92 then
      More(r.(buf := if escaped then r.buf + [ch] else r.buf, state := InQuoted(!escaped)))
    else if ch == 10 then ErrorReset(cfg, r, UnterminatedQuoted)
    else if |r.buf| >= 1024 then ErrorReset(cfg, r, QuotedTooLong)
    else if ch == 34 || !escaped then More(r.(buf := r.buf + [ch], state := InQuoted(false)))
    else More(r.(buf := r.buf + [92, ch], state := InQuoted(false)))
  }

  function StepLiteral<T>(cfg: Config<T>, r: Receiver<T>, nonSync: bool, ch: byte): Outcome<T>
    requires AllDigits(r.buf)
  {
    if ch == 125 then
      if r.buf == [] then ErrorReset(cfg, r, EmptyLiteral)
      else
        var size := ParseU32(r.buf);
        if size.None? then ErrorReset(cfg, r, LiteralSizeInvalid)
        else if r.size + size.value > cfg.maxRequestSize then ErrorReset(cfg, r, LiteralTooLarge)
        else More(r.(state := LiteralSeek(size.value, nonSync), buf := []))
    else if ch == 43 then
      if r.buf != [] then More(r.(state := Literal(true))) else ErrorReset(cfg, r, InvalidNonSync)
    else if IsDigit(ch) then
      if !nonSync then More(r.(buf := r.buf + [ch])) else ErrorReset(cfg, r, InvalidLiteral)
    else ErrorReset(cfg, r, InvalidLiteralCharacter)
  }

  function StepSeek<T>(cfg: Config<T>, r: Receiver<T>, size: nat, nonSync: bool, ch: byte): Outcome<T> {
    if ch == 10 then
      var o := if size > 0 then More(r.(state := LiteralData(size)))
               else PushToken(cfg, r.(state := InArgument(32)), Nil);
      if o.Stop? || nonSync then o else Stop(o.next, NeedsLiteral(size))
    else if IsWhitespace(ch) then More(r)
    else ErrorReset(cfg, r, ExpectedCrLf)
  }

  function StepData<T>(cfg: Config<T>, r: Receiver<T>, remaining: nat, ch: byte): Outcome<T> {
    var r' := r.(buf := r.buf + [ch]);
    if remaining > 1 then More(r'.(state := LiteralData(remaining - 1)))
    else PushArgumentThen(cfg, r', false, InArgument(32))
  }

  // The literal-size buffer is read as UTF-8 text holding only digits.
  predicate DigitsOnly<T>(r: Receiver<T>) {
    r.state.Literal? ==> AllDigits(r.buf)
  }

  function Step<T>(cfg: Config<T>, r: Receiver<T>, ch: byte): Outcome<T>
    requires DigitsOnly(r)
  {
    match r.state
    case Start => More(if IsWhitespace(ch) then r else r.(buf := r.buf + [ch], state := Tag))
    case Tag => StepTag(cfg, r, ch)
    case Command(isUid) => StepCommand(cfg, r, isUid, ch)
    case InArgument(lastCh) => StepArgument(cfg, r, lastCh, ch)
    case InQuoted(escaped) => StepQuoted(cfg, r, escaped, ch)
    case Literal(nonSync) => StepLiteral(cfg, r, nonSync, ch)
    case LiteralSeek(size, nonSync) => StepSeek(cfg, r, size, nonSync, ch)
    case LiteralData(remaining) => StepData(cfg, r, remaining, ch)
  }

  function ArgumentBytes(tokens: seq<Token>): nat {
    if tokens == [] then 0
    else
      var t := tokens[|tokens| - 1];
      ArgumentBytes(tokens[..|tokens| - 1]) + (if t.Argument? then |t.bytes| else 0)
  }

  /** What holds of a receiver between any two bytes. */
  ghost predicate Valid<T>(cfg: Config<T>, r: Receiver<T>) {
    && ArgumentBytes(r.request.tokens) <= r.size <= cfg.maxRequestSize
    && match r.state
       case Start => r == Fresh(cfg)
       case Tag => 1 <= |r.buf| <= 128 && r.request == EmptyRequest(cfg) && r.size == 0
       case Command(_) => |r.buf| <= 15 && r.request.tokens == [] && r.size == 0
       case InArgument(_) | InQuoted(_) => true
       case Literal(_) => AllDigits(r.buf)
       case LiteralSeek(size, _) => r.buf == [] && r.size + size <= cfg.maxRequestSize
       case LiteralData(remaining) => remaining >= 1 && r.size + |r.buf| + remaining <= cfg.maxRequestSize
  }

  // Start states in use: tagged requests, and untagged ones (ManageSieve).
  predicate ValidStart<T>(cfg: Config<T>) {
    cfg.startState == Start || cfg.startState == Command(false)
  }

  lemma FreshValid<T>(cfg: Config<T>)
    requires ValidStart(cfg)
    ensures Valid(cfg, Fresh(cfg))
  {
  }

  lemma AddTokenBytes(tokens: seq<Token>, t: Token)
    ensures ArgumentBytes(tokens + [t]) == ArgumentBytes(tokens) + (if t.Argument? then |t.bytes| else 0)
  {
    assert (tokens + [t])[..|tokens|] == tokens;
  }

  // A step's result keeps the invariant, and one that ends a request leaves a fresh receiver.
  ghost predicate Keeps<T>(cfg: Config<T>, o: Outcome<T>) {
    && Valid(cfg, o.next)
    && (o.Stop? && !o.event.NeedsLiteral? ==> o.next == Fresh(cfg))
  }

  // Pushing keeps the byte count below the size and the size below the maximum.
  lemma PushArgumentKeeps<T>(cfg: Config<T>, r: Receiver<T>, inQuote: bool)
    requires ValidStart(cfg) && ArgumentBytes(r.request.tokens) <= r.size <= cfg.maxRequestSize
    ensures var o := PushArgument(cfg, r, inQuote);
            && (o.More? ==> o.next.buf == [] && o.next.state == r.state
                            && ArgumentBytes(o.next.request.tokens) <= o.next.size <= cfg.maxRequestSize)
            && (o.Stop? ==> o.next == Fresh(cfg) && !o.event.NeedsLiteral?)
            && (o.Stop? <==> r.buf != [] && r.size + |r.buf| > cfg.maxRequestSize)
  {
    AddTokenBytes(r.request.tokens, Argument(r.buf));
    AddTokenBytes(r.request.tokens, Nil);
  }

  lemma PushTokenKeeps<T>(cfg: Config<T>, r: Receiver<T>, t: Token)
    requires ValidStart(cfg) && !t.Argument? && ArgumentBytes(r.request.tokens) <= r.size <= cfg.maxRequestSize
    ensures var o := PushToken(cfg, r, t);
            && (o.More? ==> o.next.buf == r.buf && o.next.state == r.state
                            && ArgumentBytes(o.next.request.tokens) <= o.next.size <= cfg.maxRequestSize)
            && (o.Stop? ==> o.next == Fresh(cfg) && !o.event.NeedsLiteral?)
  {
    AddTokenBytes(r.request.tokens, t);
  }

  lemma PushArgumentThenKeeps<T>(cfg: Config<T>, r: Receiver<T>, inQuote: bool, state: State)
    requires ValidStart(cfg) && ArgumentBytes(r.request.tokens) <= r.size <= cfg.maxRequestSize
    requires state.InArgument? || state.InQuoted? || state.Literal?
    ensures Keeps(cfg, PushArgumentThen(cfg, r, inQuote, state))
  {
    FreshValid(cfg);
    PushArgumentKeeps(cfg, r, inQuote);
  }

  lemma PushBothKeeps<T>(cfg: Config<T>, r: Receiver<T>, t: Token)
    requires ValidStart(cfg) && Valid(cfg, r) && r.state.InArgument? && !t.Argument?
    ensures Keeps(cfg, PushBoth(cfg, r, t))
  {
    FreshValid(cfg);
    PushArgumentKeeps(cfg, r, false);
    var o := PushArgument(cfg, r, false);
    if o.More? {
      PushTokenKeeps(cfg, o.next, t);
    }
  }

  lemma StepArgumentKeeps<T>(cfg: Config<T>, r: Receiver<T>, ch: byte)
    requires ValidStart(cfg) && Valid(cfg, r) && r.state.InArgument?
    ensures Keeps(cfg, StepArgument(cfg, r, r.state.lastCh, ch))
  {
    var lastCh := r.state.lastCh;
    var p := Punctuation(ch, cfg.tokenizeBrackets(r.request.command));
    if ch == 34 && IsWhitespace(lastCh) {
      PushArgumentThenKeeps(cfg, r, false, InQuoted(false));
    } else if ch == 123 && (IsWhitespace(lastCh) || (lastCh == 126 && |r.buf| == 1)) {
      PushArgumentThenKeeps(cfg, r, false, Literal(false));
    } else if p.Some? {
      PushBothKeeps(cfg, r, p.value);
    } else if ch == 10 {
      FreshValid(cfg);
      PushArgumentKeeps(cfg, r, false);
    } else if IsWhitespace(ch) {
      PushArgumentThenKeeps(cfg, r, false, InArgument(ch));
    }
  }

  lemma StepSeekKeeps<T>(cfg: Config<T>, r: Receiver<T>, ch: byte)
    requires ValidStart(cfg) && Valid(cfg, r) && r.state.LiteralSeek?
    ensures Keeps(cfg, StepSeek(cfg, r, r.state.size, r.state.seekNonSync, ch))
  {
    FreshValid(cfg);
    PushTokenKeeps(cfg, r.(state := InArgument(32)), Nil);
  }

  lemma StepDataKeeps<T>(cfg: Config<T>, r: Receiver<T>, ch: byte)
    requires ValidStart(cfg) && Valid(cfg, r) && r.state.LiteralData?
    ensures Keeps(cfg, StepData(cfg, r, r.state.remaining, ch))
    ensures StepData(cfg, r, r.state.remaining, ch).More?
  {
    FreshValid(cfg);
    PushArgumentKeeps(cfg, r.(buf := r.buf + [ch]), false);
  }

  lemma StepQuotedKeeps<T>(cfg: Config<T>, r: Receiver<T>, ch: byte)
    requires ValidStart(cfg) && Valid(cfg, r) && r.state.InQuoted?
    ensures Keeps(cfg, StepQuoted(cfg, r, r.state.escaped, ch))
  {
    FreshValid(cfg);
    PushArgumentKeeps(cfg, r, true);
  }

  /** Every byte keeps the invariant; a completed or failed request leaves the receiver in its start
      state with buffer, tokens and counter cleared; literal data admitted at the closing brace is
      never rejected for its size. */
  lemma StepKeeps<T>(cfg: Config<T>, r: Receiver<T>, ch: byte)
    requires ValidStart(cfg) && Valid(cfg, r)
    ensures Keeps(cfg, Step(cfg, r, ch))
    ensures r.state.LiteralData? ==> Step(cfg, r, ch).More?
  {
    FreshValid(cfg);
    match r.state
    case InArgument(_) => StepArgumentKeeps(cfg, r, ch);
    case InQuoted(_) => StepQuotedKeeps(cfg, r, ch);
    case LiteralSeek(_, _) => StepSeekKeeps(cfg, r, ch);
    case LiteralData(_) => StepDataKeeps(cfg, r, ch);
    case _ =>
  }

  /** Feeding bytes one at a time, collecting what the receiver reports. */
  function Feed<T>(cfg: Config<T>, r: Receiver<T>, bytes: seq<byte>): (res: (Receiver<T>, seq<Event<T>>))
    requires ValidStart(cfg) && Valid(cfg, r)
    ensures Valid(cfg, res.0)
    decreases |bytes|
  {
    if bytes == [] then (r, [])
    else
      StepKeeps(cfg, r, bytes[0]);
      var o := Step(cfg, r, bytes[0]);
      var (r', events) := Feed(cfg, o.next, bytes[1..]);
      (r', (if o.Stop? then [o.event] else []) + events)
  }

  lemma {:induction false} FeedConcat<T>(cfg: Config<T>, r: Receiver<T>, a: seq<byte>, b: seq<byte>)
    requires ValidStart(cfg) && Valid(cfg, r)
    ensures var (r1, e1) := Feed(cfg, r, a);
            var (r2, e2) := Feed(cfg, r1, b);
            Feed(cfg, r, a + b) == (r2, e1 + e2)
    decreases |a|
  {
    if a == [] {
      assert a + b == b;
      assert [] + Feed(cfg, r, b).1 == Feed(cfg, r, b).1;
    } else {
      StepKeeps(cfg, r, a[0]);
      assert (a + b)[1..] == a[1..] + b;
      var o := Step(cfg, r, a[0]);
      FeedConcat(cfg, o.next, a[1..], b);
      var head := if o.Stop? then [o.event] else [];
      var (r1, e1) := Feed(cfg, o.next, a[1..]);
      var (r2, e2) := Feed(cfg, r1, b);
      assert head + (e1 + e2) == head + e1 + e2;
    }
  }

  lemma FeedSnoc<T>(cfg: Config<T>, r: Receiver<T>, bytes: seq<byte>, ch: byte)
    requires ValidStart(cfg) && Valid(cfg, r)
    ensures Feed(cfg, r, bytes + [ch]).0 == Step(cfg, Feed(cfg, r, bytes).0, ch).next
  {
    FeedConcat(cfg, r, bytes, [ch]);
    var r1 := Feed(cfg, r, bytes).0;
    StepKeeps(cfg, r1, ch);
    var o := Step(cfg, r1, ch);
    assert [ch][1..] == [];
    assert Feed(cfg, o.next, [ch][1..]).0 == o.next;
  }

  function Flatten(chunks: seq<seq<byte>>): seq<byte> {
    if chunks == [] then [] else chunks[0] + Flatten(chunks[1..])
  }

  // Feeding a stream chunk by chunk.
  function FeedChunks<T>(cfg: Config<T>, r: Receiver<T>, chunks: seq<seq<byte>>): (res: (Receiver<T>, seq<Event<T>>))
    requires ValidStart(cfg) && Valid(cfg, r)
    ensures Valid(cfg, res.0)
    decreases |chunks|
  {
    if chunks == [] then (r, [])
    else
      var (r1, e1) := Feed(cfg, r, chunks[0]);
      var (r2, e2) := FeedChunks(cfg, r1, chunks[1..]);
      (r2, e1 + e2)
  }

  /** Where a stream is cut changes neither the events nor the final receiver. */
  lemma {:induction false} SplitIndependence<T>(cfg: Config<T>, r: Receiver<T>, chunks: seq<seq<byte>>)
    requires ValidStart(cfg) && Valid(cfg, r)
    ensures FeedChunks(cfg, r, chunks) == Feed(cfg, r, Flatten(chunks))
    decreases |chunks|
  {
    if chunks != [] {
      FeedConcat(cfg, r, chunks[0], Flatten(chunks[1..]));
      SplitIndependence(cfg, Feed(cfg, r, chunks[0]).0, chunks[1..]);
    }
  }

  // A whole stream, from a new receiver.
  function FeedFresh<T>(cfg: Config<T>, bytes: seq<byte>): (Receiver<T>, seq<Event<T>>)
    requires ValidStart(cfg)
  {
    FreshValid(cfg);
    Feed(cfg, Fresh(cfg), bytes)
  }

  predicate AllPlus(s: seq<byte>) {
    forall i | 0 <= i < |s| :: s[i] == 43
  }

  predicate NoBreak(s: seq<byte>) {
    forall i | 0 <= i < |s| :: IsWhitespace(s[i]) && s[i] != 10
  }

  // The stream ends in an open brace, digits, and plus signs if any.
  predicate OpenedAs(bytes: seq<byte>, before: seq<byte>, digits: seq<byte>, plus: seq<byte>) {
    bytes == before + [123] + digits + plus && AllDigits(digits) && AllPlus(plus)
  }

  ghost predicate Opened(bytes: seq<byte>, digits: seq<byte>, nonSync: bool) {
    exists before, plus :: OpenedAs(bytes, before, digits, plus) && (plus != [] <==> nonSync)
  }

  // The stream ends in a literal header: a size between braces, then no line break yet.
  ghost predicate DeclaredAs(bytes: seq<byte>, header: seq<byte>, digits: seq<byte>, nonSync: bool, gap: seq<byte>, size: nat) {
    && bytes == header + [125] + gap && NoBreak(gap)
    && Opened(header, digits, nonSync) && AllDigits(digits) && ParseU32(digits) == Some(size)
  }

  ghost predicate Declared(bytes: seq<byte>, size: nat) {
    exists header, digits, nonSync, gap :: DeclaredAs(bytes, header, digits, nonSync, gap, size)
  }

  // The buffer is what came since the line break after a header that declares the size.
  ghost predicate LiteralOrigin(bytes: seq<byte>, buf: seq<byte>, size: nat) {
    exists header :: bytes == header + [10] + buf && Declared(header, size)
  }

  // What the stream so far must have been.
  ghost predicate Explains<T>(bytes: seq<byte>, r: Receiver<T>) {
    match r.state
    case Literal(nonSync) => Opened(bytes, r.buf, nonSync)
    case LiteralSeek(size, _) => Declared(bytes, size)
    case LiteralData(remaining) => LiteralOrigin(bytes, r.buf, |r.buf| + remaining)
    case _ => true
  }

  // The only ways into a literal, past its brace, and into its data.
  lemma LiteralFrom<T>(cfg: Config<T>, r: Receiver<T>, ch: byte)
    requires ValidStart(cfg) && Valid(cfg, r) && Step(cfg, r, ch).next.state.Literal?
    ensures var r' := Step(cfg, r, ch).next;
      || (ch == 123 && r'.buf == [] && r'.state == Literal(false))
      || (r.state == Literal(false) && IsDigit(ch) && r'.buf == r.buf + [ch] && r'.state == Literal(false))
      || (r.state.Literal? && ch == 43 && r'.buf == r.buf && r'.state == Literal(true))
  {
  }

  lemma SeekFrom<T>(cfg: Config<T>, r: Receiver<T>, ch: byte)
    requires ValidStart(cfg) && Valid(cfg, r) && Step(cfg, r, ch).next.state.LiteralSeek?
    ensures var r' := Step(cfg, r, ch).next;
      || (r.state.Literal? && ch == 125 && ParseU32(r.buf) == Some(r'.state.size))
      || (r.state == r'.state && IsWhitespace(ch) && ch != 10)
  {
  }

  lemma LiteralDataFrom<T>(cfg: Config<T>, r: Receiver<T>, ch: byte)
    requires ValidStart(cfg) && Valid(cfg, r) && Step(cfg, r, ch).next.state.LiteralData?
    ensures var r' := Step(cfg, r, ch).next;
      || (r.state == LiteralData(r'.state.remaining + 1) && r'.buf == r.buf + [ch])
      || (r.state.LiteralSeek? && ch == 10 && r.state.size == r'.state.remaining && r'.buf == [])
  {
  }

  lemma OpenedDigit(bytes: seq<byte>, digits: seq<byte>, ch: byte)
    requires Opened(bytes, digits, false) && IsDigit(ch)
    ensures Opened(bytes + [ch], digits + [ch], false)
  {
    var before, plus :| OpenedAs(bytes, before, digits, plus) && (plus != [] <==> false);
    assert bytes + [ch] == before + [123] + (digits + [ch]) + [];
    assert OpenedAs(bytes + [ch], before, digits + [ch], []);
  }

  lemma OpenedPlus(bytes: seq<byte>, digits: seq<byte>, nonSync: bool)
    requires Opened(bytes, digits, nonSync)
    ensures Opened(bytes + [43], digits, true)
  {
    var before, plus :| OpenedAs(bytes, before, digits, plus) && (plus != [] <==> nonSync);
    assert bytes + [43] == before + [123] + digits + (plus + [43]);
    assert OpenedAs(bytes + [43], before, digits, plus + [43]);
  }

  lemma LiteralExplained<T>(cfg: Config<T>, bytes: seq<byte>, r: Receiver<T>, ch: byte)
    requires ValidStart(cfg) && Valid(cfg, r) && Explains(bytes, r) && Step(cfg, r, ch).next.state.Literal?
    ensures Explains(bytes + [ch], Step(cfg, r, ch).next)
  {
    LiteralFrom(cfg, r, ch);
    var r' := Step(cfg, r, ch).next;
    if ch == 123 {
      assert bytes + [123] == bytes + [123] + [] + [];
      assert OpenedAs(bytes + [123], bytes, [], []);
    } else if ch == 43 {
      OpenedPlus(bytes, r.buf, r.state.nonSync);
    } else {
      OpenedDigit(bytes, r.buf, ch);
    }
  }

  lemma SeekExplained<T>(cfg: Config<T>, bytes: seq<byte>, r: Receiver<T>, ch: byte)
    requires ValidStart(cfg) && Valid(cfg, r) && Explains(bytes, r) && Step(cfg, r, ch).next.state.LiteralSeek?
    ensures Explains(bytes + [ch], Step(cfg, r, ch).next)
  {
    SeekFrom(cfg, r, ch);
    var size := Step(cfg, r, ch).next.state.size;
    if r.state.Literal? {
      assert bytes + [125] == bytes + [125] + [];
      assert DeclaredAs(bytes + [125], bytes, r.buf, r.state.nonSync, [], size);
    } else {
      var header, digits, nonSync, gap :| DeclaredAs(bytes, header, digits, nonSync, gap, size);
      assert bytes + [ch] == header + [125] + (gap + [ch]);
      assert DeclaredAs(bytes + [ch], header, digits, nonSync, gap + [ch], size);
    }
  }

  lemma DataExplained<T>(cfg: Config<T>, bytes: seq<byte>, r: Receiver<T>, ch: byte)
    requires ValidStart(cfg) && Valid(cfg, r) && Explains(bytes, r) && Step(cfg, r, ch).next.state.LiteralData?
    ensures Explains(bytes + [ch], Step(cfg, r, ch).next)
  {
    LiteralDataFrom(cfg, r, ch);
    if r.state.LiteralData? {
      var header :| bytes == header + [10] + r.buf && Declared(header, |r.buf| + r.state.remaining);
      assert bytes + [ch] == header + [10] + (r.buf + [ch]);
    } else {
      assert bytes + [10] == bytes + [10] + [];
    }
  }

  lemma StepExplained<T>(cfg: Config<T>, bytes: seq<byte>, r: Receiver<T>, ch: byte)
    requires ValidStart(cfg) && Valid(cfg, r) && Explains(bytes, r)
    ensures Explains(bytes + [ch], Step(cfg, r, ch).next)
  {
    var next := Step(cfg, r, ch).next;
    if next.state.Literal? {
      LiteralExplained(cfg, bytes, r, ch);
    } else if next.state.LiteralSeek? {
      SeekExplained(cfg, bytes, r, ch);
    } else if next.state.LiteralData? {
      DataExplained(cfg, bytes, r, ch);
    }
  }

  lemma {:induction false} HistoryExplained<T>(cfg: Config<T>, bytes: seq<byte>)
    requires ValidStart(cfg)
    ensures Explains(bytes, FeedFresh(cfg, bytes).0)
    decreases |bytes|
  {
    FreshValid(cfg);
    if bytes != [] {
      var init, ch := bytes[..|bytes| - 1], bytes[|bytes| - 1];
      assert init + [ch] == bytes;
      HistoryExplained(cfg, init);
      FeedSnoc(cfg, Fresh(cfg), init, ch);
      StepExplained(cfg, init, FeedFresh(cfg, init).0, ch);
    }
  }

  /** While literal data is read, the stream ends in a literal header, a line break and what is buffered, and buffered
      plus remaining bytes are the number written between the braces of that header. */
  lemma LiteralHistory<T>(cfg: Config<T>, bytes: seq<byte>)
    requires ValidStart(cfg)
    ensures var r := FeedFresh(cfg, bytes).0;
      r.state.LiteralData? ==> LiteralOrigin(bytes, r.buf, |r.buf| + r.state.remaining)
  {
    HistoryExplained(cfg, bytes);
  }
}
