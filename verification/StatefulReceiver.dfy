/** The receiver as the mutable object it is, proved against the step function, and the driver that
    keeps calling `Parse` on each chunk. */
module StatefulReceiver {
  import opened Wrappers
  import opened Decimal
  import opened ImapReceiver

  class Connection<T> {
    const cfg: Config<T>
    var buf: seq<byte>
    var request: Request<T>
    var state: State
    var currentRequestSize: nat

    ghost function Value(): (r: Receiver<T>)
      reads this
    {
      Receiver(buf, request, state, currentRequestSize)
    }

    // The result of an operation, as the step function states it.
    ghost predicate Did(o: Outcome<T>, event: Option<Event<T>>)
      reads this
    {
      Value() == o.next && event == if o.Stop? then Some(o.event) else None
    }

    constructor (cfg: Config<T>)
      ensures this.cfg == cfg && Value() == Fresh(cfg)
    {
      this.cfg := cfg;
      buf := [];
      request := EmptyRequest(cfg);
      state := cfg.startState;
      currentRequestSize := 0;
    }

    method Reset(kind: ErrorKind) returns (event: Option<Event<T>>)
      modifies this
      ensures Did(ErrorReset(cfg, old(Value()), kind), event)
    {
      var tag := request.tag;
      request := EmptyRequest(cfg);
      buf := [];
      state := cfg.startState;
      currentRequestSize := 0;
      event := Some(Failed(if tag != [] then Some(tag) else None, kind));
    }

    method PushArgument(inQuote: bool) returns (event: Option<Event<T>>)
      modifies this
      ensures Did(ImapReceiver.PushArgument(cfg, old(Value()), inQuote), event)
    {
      event := None;
      if buf != [] {
        if currentRequestSize + |buf| > cfg.maxRequestSize {
          event := Reset(RequestTooLarge);
          return;
        }
        currentRequestSize := currentRequestSize + |buf|;
        request := request.(tokens := request.tokens + [Argument(buf)]);
        buf := [];
      } else if inQuote {
        request := request.(tokens := request.tokens + [Nil]);
      }
    }

    method PushToken(token: Token) returns (event: Option<Event<T>>)
      modifies this
      ensures Did(ImapReceiver.PushToken(cfg, old(Value()), token), event)
    {
      event := None;
      if currentRequestSize + 1 > cfg.maxRequestSize {
        event := Reset(RequestTooLarge);
        return;
      }
      currentRequestSize := currentRequestSize + 1;
      request := request.(tokens := request.tokens + [token]);
    }

    method TakeRequest() returns (event: Option<Event<T>>)
      modifies this
      ensures Did(Finish(cfg, old(Value())), event)
    {
      state := cfg.startState;
      currentRequestSize := 0;
      event := Some(Complete(request));
      request := EmptyRequest(cfg);
    }

    method ConsumeTag(ch: byte) returns (event: Option<Event<T>>)
      modifies this
      ensures Did(StepTag(cfg, old(Value()), ch), event)
    {
      event := None;
      if ch == 32 {
        if buf != [] {
          if cfg.validUtf8(buf) {
            request := request.(tag := buf);
            buf := [];
            state := Command(false);
          } else {
            event := Reset(TagNotUtf8);
          }
        }
      } else if ch == 9 || ch == 13 {
      } else if ch == 10 {
        event := Reset(MissingCommand);
      } else if |buf| < 128 {
        buf := buf + [ch];
      } else {
        event := Reset(TagTooLong);
      }
    }

    method ConsumeCommand(isUid: bool, ch: byte) returns (event: Option<Event<T>>)
      modifies this
      ensures Did(StepCommand(cfg, old(Value()), isUid, ch), event)
    {
      event := None;
      if IsAlphanumeric(ch) {
        if |buf| < 15 {
          buf := buf + [ToUpper(ch)];
        } else {
          event := Reset(CommandTooLong);
        }
      } else if IsWhitespace(ch) {
        if buf != [] {
          if buf != UID {
            var command := cfg.parse(buf, isUid);
            if command.None? {
              event := Reset(UnrecognizedCommand);
              return;
            }
            request := request.(command := command.value);
            buf := [];
            if ch != 10 {
              state := InArgument(32);
            } else {
              event := TakeRequest();
            }
          } else {
            buf := [];
            state := Command(true);
          }
        }
      } else {
        event := Reset(InvalidCommandCharacter);
      }
    }

    method ConsumeArgument(lastCh: byte, ch: byte) returns (event: Option<Event<T>>)
      modifies this
      ensures Did(StepArgument(cfg, old(Value()), lastCh, ch), event)
    {
      event := None;
      var punctuation := Punctuation(ch, cfg.tokenizeBrackets(request.command));
      if ch == 34 && IsWhitespace(lastCh) {
        event := PushArgument(false);
        if event.Some? { return; }
        state := InQuoted(false);
      } else if ch == 123 && (IsWhitespace(lastCh) || (lastCh == 126 && |buf| == 1)) {
        if lastCh != 126 {
          event := PushArgument(false);
          if event.Some? { return; }
        } else {
          buf := [];
        }
        state := Literal(false);
      } else if punctuation.Some? {
        event := PushArgument(false);
        if event.Some? { return; }
        event := PushToken(punctuation.value);
      } else if ch == 10 {
        event := PushArgument(false);
        if event.Some? { return; }
        event := TakeRequest();
      } else if IsWhitespace(ch) {
        event := PushArgument(false);
        if event.Some? { return; }
        state := InArgument(ch);
      } else {
        buf := buf + [ch];
        state := InArgument(ch);
      }
    }

    method ConsumeQuoted(escaped: bool, ch: byte) returns (event: Option<Event<T>>)
      modifies this
      ensures Did(StepQuoted(cfg, old(Value()), escaped, ch), event)
    {
      event := None;
      if ch == 34 {
        if !escaped {
          event := PushArgument(true);
          if event.Some? { return; }
          state := InArgument(32);
        } else if |buf| < 1024 {
          buf := buf + [ch];
          state := InQuoted(false);
        } else {
          event := Reset(QuotedTooLong);
        }
      } else if ch == 92 {
        if escaped {
          buf := buf + [ch];
        }
        state := InQuoted(!escaped);
      } else if ch == 10 {
        event := Reset(UnterminatedQuoted);
      } else if |buf| < 1024 {
        if escaped {
          buf := buf + [92];
        }
        buf := buf + [ch];
        state := InQuoted(false);
        assert old(buf) + [92] + [ch] == old(buf) + [92, ch];
      } else {
        event := Reset(QuotedTooLong);
      }
    }

    method ConsumeLiteral(nonSync: bool, ch: byte) returns (event: Option<Event<T>>)
      requires AllDigits(buf)
      modifies this
      ensures Did(StepLiteral(cfg, old(Value()), nonSync, ch), event)
    {
      event := None;
      if ch == 125 {
        if buf != [] {
          var size := ParseU32(buf);
          if size.None? {
            event := Reset(LiteralSizeInvalid);
            return;
          }
          if currentRequestSize + size.value > cfg.maxRequestSize {
            event := Reset(LiteralTooLarge);
            return;
          }
          state := LiteralSeek(size.value, nonSync);
          buf := [];
        } else {
          event := Reset(EmptyLiteral);
        }
      } else if ch == 43 {
        if buf != [] {
          state := Literal(true);
        } else {
          event := Reset(InvalidNonSync);
        }
      } else if IsDigit(ch) {
        if !nonSync {
          buf := buf + [ch];
        } else {
          event := Reset(InvalidLiteral);
        }
      } else {
        event := Reset(InvalidLiteralCharacter);
      }
    }

    method ConsumeSeek(size: nat, nonSync: bool, ch: byte) returns (event: Option<Event<T>>)
      modifies this
      ensures Did(StepSeek(cfg, old(Value()), size, nonSync, ch), event)
    {
      event := None;
      if ch == 10 {
        if size > 0 {
          state := LiteralData(size);
        } else {
          state := InArgument(32);
          event := PushToken(Nil);
          if event.Some? { return; }
        }
        if !nonSync {
          event := Some(NeedsLiteral(size));
        }
      } else if !IsWhitespace(ch) {
        event := Reset(ExpectedCrLf);
      }
    }

    method ConsumeData(remaining: nat, ch: byte) returns (event: Option<Event<T>>)
      modifies this
      ensures Did(StepData(cfg, old(Value()), remaining, ch), event)
    {
      event := None;
      buf := buf + [ch];
      if remaining > 1 {
        state := LiteralData(remaining - 1);
      } else {
        event := PushArgument(false);
        if event.Some? { return; }
        state := InArgument(32);
      }
    }

    method Consume(ch: byte) returns (event: Option<Event<T>>)
      requires DigitsOnly(Value())
      modifies this
      ensures Did(Step(cfg, old(Value()), ch), event)
    {
      event := None;
      match state {
        case Start =>
          if !IsWhitespace(ch) {
            buf := buf + [ch];
            state := Tag;
          }
        case Tag => event := ConsumeTag(ch);
        case Command(isUid) => event := ConsumeCommand(isUid, ch);
        case InArgument(lastCh) => event := ConsumeArgument(lastCh, ch);
        case InQuoted(escaped) => event := ConsumeQuoted(escaped, ch);
        case Literal(nonSync) => event := ConsumeLiteral(nonSync, ch);
        case LiteralSeek(size, nonSync) => event := ConsumeSeek(size, nonSync, ch);
        case LiteralData(remaining) => event := ConsumeData(remaining, ch);
      }
    }

    method FeedByte(ch: byte) returns (event: Option<Event<T>>)
      requires ValidStart(cfg) && Valid(cfg, Value())
      modifies this
      ensures Valid(cfg, Value())
      ensures Feed(cfg, old(Value()), [ch]) == (Value(), if event.Some? then [event.value] else [])
    {
      FeedOne(cfg, Value(), ch);
      event := Consume(ch);
    }

    // One more byte after some that reported nothing.
    method FeedNext(ghost first: Receiver<T>, ghost fed: seq<byte>, ch: byte) returns (event: Option<Event<T>>)
      requires ValidStart(cfg) && Valid(cfg, first) && Valid(cfg, Value()) && Feed(cfg, first, fed) == (Value(), [])
      modifies this
      ensures Valid(cfg, Value())
      ensures Feed(cfg, first, fed + [ch]) == (Value(), if event.Some? then [event.value] else [])
    {
      ghost var before := Value();
      event := FeedByte(ch);
      FeedAfterSilence(cfg, first, fed, before, [ch]);
    }

    /** Consumes bytes until something is reported; None is "needs more data". */
    method Parse(bytes: seq<byte>, start: nat) returns (event: Option<Event<T>>, next: nat)
      requires start <= |bytes|
      requires ValidStart(cfg) && Valid(cfg, Value())
      modifies this
      ensures start <= next <= |bytes| && Valid(cfg, Value())
      ensures event.None? ==> next == |bytes| && Feed(cfg, old(Value()), bytes[start..]) == (Value(), [])
      ensures event.Some? ==> start < next && Feed(cfg, old(Value()), bytes[start..next]) == (Value(), [event.value])
    {
      next := start;
      event := None;
      ghost var first, fed: seq<byte> := Value(), [];
      while next < |bytes|
        invariant start <= next <= |bytes| && event.None?
        invariant fed == bytes[start..next]
        invariant Valid(cfg, Value()) && Feed(cfg, first, fed) == (Value(), [])
      {
        event := FeedNext(first, fed, bytes[next]);
        SliceNext(bytes, start, next);
        fed := bytes[start..next + 1];
        next := next + 1;
        if event.Some? {
          return;
        }
      }
      assert fed == bytes[start..];
    }

    /** Keeps parsing a chunk until the receiver needs more data. */
    method Drive(bytes: seq<byte>) returns (events: seq<Event<T>>)
      requires ValidStart(cfg) && Valid(cfg, Value())
      modifies this
      ensures Valid(cfg, Value())
      ensures Feed(cfg, old(Value()), bytes) == (Value(), events)
    {
      events := [];
      var next := 0;
      while true
        invariant 0 <= next <= |bytes|
        invariant Valid(cfg, Value())
        invariant Feed(cfg, old(Value()), bytes[..next]) == (Value(), events)
        decreases |bytes| - next
      {
        ghost var before, done := next, Value();
        var event;
        event, next := Parse(bytes, next);
        FeedThen(cfg, old(Value()), bytes[..before], done, events, bytes[before..next]);
        assert bytes[..before] + bytes[before..next] == bytes[..next];
        if event.None? {
          assert bytes[before..next] == bytes[before..] && bytes[..next] == bytes;
          assert events + [] == events;
          return;
        }
        events := events + [event.value];
      }
    }

    /** The events of a stream, however it is cut into chunks. */
    method DriveChunks(chunks: seq<seq<byte>>) returns (events: seq<Event<T>>)
      requires ValidStart(cfg) && Valid(cfg, Value())
      modifies this
      ensures Valid(cfg, Value())
      ensures Feed(cfg, old(Value()), Flatten(chunks)) == (Value(), events)
    {
      events := [];
      for i := 0 to |chunks|
        invariant Valid(cfg, Value())
        invariant Feed(cfg, old(Value()), Flatten(chunks[..i])) == (Value(), events)
      {
        ghost var before := Value();
        var more := Drive(chunks[i]);
        FeedThen(cfg, old(Value()), Flatten(chunks[..i]), before, events, chunks[i]);
        FlattenSnoc(chunks[..i], chunks[i]);
        assert chunks[..i] + [chunks[i]] == chunks[..i + 1];
        events := events + more;
      }
      assert chunks[..|chunks|] == chunks;
    }
  }

  lemma SliceNext(bytes: seq<byte>, start: nat, next: nat)
    requires start <= next < |bytes|
    ensures bytes[start..next] + [bytes[next]] == bytes[start..next + 1]
  {
  }

  lemma FeedThen<T>(cfg: Config<T>, r: Receiver<T>, a: seq<byte>, r1: Receiver<T>, e1: seq<Event<T>>, b: seq<byte>)
    requires ValidStart(cfg) && Valid(cfg, r) && Valid(cfg, r1) && Feed(cfg, r, a) == (r1, e1)
    ensures Feed(cfg, r, a + b) == (Feed(cfg, r1, b).0, e1 + Feed(cfg, r1, b).1)
  {
    FeedConcat(cfg, r, a, b);
  }

  // After a stretch that reported nothing.
  lemma FeedAfterSilence<T>(cfg: Config<T>, r: Receiver<T>, a: seq<byte>, r1: Receiver<T>, b: seq<byte>)
    requires ValidStart(cfg) && Valid(cfg, r) && Valid(cfg, r1) && Feed(cfg, r, a) == (r1, [])
    ensures Feed(cfg, r, a + b) == Feed(cfg, r1, b)
  {
    FeedConcat(cfg, r, a, b);
    assert [] + Feed(cfg, r1, b).1 == Feed(cfg, r1, b).1;
  }

  lemma {:induction false} FlattenSnoc(chunks: seq<seq<byte>>, c: seq<byte>)
    ensures Flatten(chunks + [c]) == Flatten(chunks) + c
  {
    if chunks == [] {
      assert [c][1..] == [] && c + [] == c;
    } else {
      assert (chunks + [c])[1..] == chunks[1..] + [c];
      FlattenSnoc(chunks[1..], c);
    }
  }

  lemma FeedOne<T>(cfg: Config<T>, r: Receiver<T>, ch: byte)
    requires ValidStart(cfg) && Valid(cfg, r)
    ensures Valid(cfg, Step(cfg, r, ch).next)
    ensures var o := Step(cfg, r, ch);
            Feed(cfg, r, [ch]) == (o.next, if o.Stop? then [o.event] else [])
  {
    StepKeeps(cfg, r, ch);
    var o := Step(cfg, r, ch);
    var head := if o.Stop? then [o.event] else [];
    assert [ch][1..] == [] && head + [] == head;
    assert Feed(cfg, r, [ch]) == (Feed(cfg, o.next, []).0, head + Feed(cfg, o.next, []).1);
  }
}
