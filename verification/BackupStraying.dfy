/** A file that the restore reads, and does not restore as it says. */
module BackupStraying {
  import opened Wrappers
  import opened Decimal
  import opened BackupFormat
  import opened BackupRestore
  import opened BackupRuns

  // A bit for document 9 between naming document 7 and a property of it.
  function BitOps(key: seq<byte>, bitmap: seq<byte>): seq<Op> {
    [SetFamily(Bitmap)] + ([DocumentId(7)] + ([KeyValue(key, bitmap)] + PropertyOps()))
  }

  function PropertyOps(): seq<Op> {
    [SetFamily(Property)] + ([KeyValue([0], [1])] + [])
  }

  const SEVEN := NO_CONTEXT.(document := 7)
  const PROPERTY := SetValue(InDocument(Property, [0]), [1])

  lemma RunHead(p: Policy, e: Format, s: Replay, op: Op, next: Replay, rest: seq<Op>)
    requires Step(p, e, s, op) == Some(next)
    ensures RunOps(p, e, s, [op] + rest) == RunOps(p, e, next, rest)
  {
    assert ([op] + rest)[1..] == rest;
  }

  lemma MeaningHead(e: Format, d: Reading, op: Op, rest: seq<Op>)
    ensures Meaning(e, d, [op] + rest)
         == OpEffects(e, d, d.context.document, op) + Meaning(e, NextReading(e, d, op), rest)
  {
    assert ([op] + rest)[1..] == rest;
  }

  lemma FirstSteps(e: Format, rest: seq<Op>)
    ensures RunOps(SourcePolicy(), e, Fresh(), [SetFamily(Bitmap)] + ([DocumentId(7)] + rest))
         == RunOps(SourcePolicy(), e, Replay(Reading(SEVEN, Bitmap, 0), [WithDocument(7)], 0, [], []), rest)
  {
    var s := Fresh().(reading := Reading(NO_CONTEXT, Bitmap, 0));
    RunHead(SourcePolicy(), e, Fresh(), SetFamily(Bitmap), s, [DocumentId(7)] + rest);
    assert [] + [WithDocument(7)] == [WithDocument(7)];
    RunHead(SourcePolicy(), e, s, DocumentId(7), Replay(Reading(SEVEN, Bitmap, 0), [WithDocument(7)], 0, [], []), rest);
  }

  lemma BitStep(e: Format, key: seq<byte>, bitmap: seq<byte>)
    requires e.version == FILE_VERSION && e.documents(bitmap) == [9] && |key| + |bitmap| < 1000
    ensures Step(SourcePolicy(), e, Replay(Reading(SEVEN, Bitmap, 0), [WithDocument(7)], 0, [], []), KeyValue(key, bitmap))
         == Some(Replay(Reading(SEVEN, Bitmap, 0), [WithDocument(7), WithDocument(9), SetBit(key)],
                        |key| + |bitmap| + 8, [], []))
  {
    var p := SourcePolicy();
    var s := Replay(Reading(SEVEN, Bitmap, 0), [WithDocument(7)], 0, [], []);
    var counted := Replay(Reading(SEVEN, Bitmap, 0), [WithDocument(7)], |key| + |bitmap| + 8, [], []);
    assert Counted(s, key, bitmap) == counted;
    assert [9][..0] == [];
    assert PushBits(p, counted, key, [9]) == PushBit(p, counted, key, 9);
    assert [WithDocument(7)] + [WithDocument(9), SetBit(key)] == [WithDocument(7), WithDocument(9), SetBit(key)];
  }

  lemma LastSteps(e: Format, batch: Batch, size: nat)
    requires |batch| == 3 && size < 2000
    ensures RunOps(SourcePolicy(), e, Replay(Reading(SEVEN, Bitmap, 0), batch, size, [], []), PropertyOps())
         == Outcome(true, [batch + [PROPERTY]], [])
  {
    var p, s := SourcePolicy(), Replay(Reading(SEVEN, Property, 0), batch, size, [], []);
    RunHead(p, e, Replay(Reading(SEVEN, Bitmap, 0), batch, size, [], []), SetFamily(Property), s, [KeyValue([0], [1])] + []);
    var end := Replay(Reading(SEVEN, Property, 0), batch + [PROPERTY], size + 10, [], []);
    RunHead(p, e, s, KeyValue([0], [1]), end, []);
    assert end.batch[3] == PROPERTY;
    assert [] + [end.batch] == [end.batch];
  }

  lemma StrayingRun(e: Format, key: seq<byte>, bitmap: seq<byte>)
    requires e.version == FILE_VERSION && e.documents(bitmap) == [9] && |key| + |bitmap| < 1000
    ensures RunOps(SourcePolicy(), e, Fresh(), BitOps(key, bitmap))
         == Outcome(true, [[WithDocument(7), WithDocument(9)] + [SetBit(key), PROPERTY]], [])
  {
    var s := Replay(Reading(SEVEN, Bitmap, 0), [WithDocument(7)], 0, [], []);
    var batch := [WithDocument(7), WithDocument(9), SetBit(key)];
    FirstSteps(e, [KeyValue(key, bitmap)] + PropertyOps());
    BitStep(e, key, bitmap);
    RunHead(SourcePolicy(), e, s, KeyValue(key, bitmap),
            Replay(Reading(SEVEN, Bitmap, 0), batch, |key| + |bitmap| + 8, [], []), PropertyOps());
    LastSteps(e, batch, |key| + |bitmap| + 8);
    assert batch + [PROPERTY] == [WithDocument(7), WithDocument(9)] + [SetBit(key), PROPERTY];
  }

  lemma StrayingEffects(key: seq<byte>)
    ensures CommitAll([[WithDocument(7), WithDocument(9)] + [SetBit(key), PROPERTY]])
         == [BitOf(U32_MAX, U8_MAX, 9, key),
             Stored(UnderDocument(NO_CONTEXT.(document := 9), InDocument(Property, [0])), [1])]
  {
    var first, second := [WithDocument(7), WithDocument(9)], [SetBit(key), PROPERTY];
    CommitTwo(WithDocument(7), WithDocument(9), START);
    CommitTwo(SetBit(key), PROPERTY, CursorAfter(first, START));
    CommitConcat(first, second, START);
    CommitAllPush([], first + second);
    assert [] + [first + second] == [first + second];
  }

  lemma StrayingMeaning(e: Format, key: seq<byte>, bitmap: seq<byte>)
    requires e.version == FILE_VERSION && e.documents(bitmap) == [9]
    ensures Meaning(e, UNREAD, BitOps(key, bitmap))
         == [BitOf(U32_MAX, U8_MAX, 9, key), Stored(UnderDocument(SEVEN, InDocument(Property, [0])), [1])]
  {
    var d := Reading(SEVEN, Property, 0);
    MeaningHead(e, UNREAD, SetFamily(Bitmap), [DocumentId(7)] + ([KeyValue(key, bitmap)] + PropertyOps()));
    MeaningHead(e, Reading(NO_CONTEXT, Bitmap, 0), DocumentId(7), [KeyValue(key, bitmap)] + PropertyOps());
    MeaningHead(e, Reading(SEVEN, Bitmap, 0), KeyValue(key, bitmap), PropertyOps());
    MeaningHead(e, Reading(SEVEN, Bitmap, 0), SetFamily(Property), [KeyValue([0], [1])] + []);
    MeaningHead(e, d, KeyValue([0], [1]), []);
    CommitOne(PROPERTY, Cursor(SEVEN, []));
    assert Bits(SEVEN, key, [9]) == [BitOf(U32_MAX, U8_MAX, 9, key)];
  }

  /** With the limits of the server, the property lands at document 9, where the dump says 7. */
  lemma StrayingFile(documents: seq<byte> -> seq<u32>, key: seq<byte>, bitmap: seq<byte>)
    requires documents(bitmap) == [9] && |key| + |bitmap| < 1000
    ensures var file, e := FileOf(BitOps(key, bitmap)), Format(FILE_VERSION, documents);
      && ReadFile(file) == Some(BitOps(key, bitmap))
      && RestoreFile(SourcePolicy(), documents, file).complete
      && CommitAll(RestoreFile(SourcePolicy(), documents, file).sent)
         == [BitOf(U32_MAX, U8_MAX, 9, key),
             Stored(UnderDocument(NO_CONTEXT.(document := 9), InDocument(Property, [0])), [1])]
      && Meaning(e, UNREAD, BitOps(key, bitmap))
         == [BitOf(U32_MAX, U8_MAX, 9, key),
             Stored(UnderDocument(NO_CONTEXT.(document := 7), InDocument(Property, [0])), [1])]
  {
    var e, ops := Format(FILE_VERSION, documents), BitOps(key, bitmap);
    FileRoundTrip(ops);
    RestoreRuns(SourcePolicy(), documents, FileOf(ops));
    StrayingRun(e, key, bitmap);
    StrayingEffects(key);
    StrayingMeaning(e, key, bitmap);
  }
}
