/** Whole replays: when the batches do what the operations of the dump mean. */
module BackupRuns {
  import opened Wrappers
  import opened Decimal
  import opened BackupFormat
  import opened BackupRestore
  import opened Sequences

  // ---- Runs over operations ----

  function RunOps(p: Policy, e: Format, s: Replay, ops: seq<Op>): Outcome
    decreases |ops|
  {
    if ops == [] then Outcome(true, Finish(s), s.puts)
    else
      match Step(p, e, s, ops[0])
      case None => Outcome(false, s.sent, s.puts)
      case Some(next) => RunOps(p, e, next, ops[1..])
  }

  lemma {:induction false} ReplayedRuns(p: Policy, e: Format, s: Replay, input: seq<byte>, ops: seq<Op>)
    requires ReadOps(input) == Some(ops)
    ensures Replayed(p, e, s, input) == RunOps(p, e, s, ops)
    decreases |input|
  {
    var read := ReadOp(input);
    if read.Got? {
      var rest := ReadOps(read.rest).value;
      assert ops == [read.value] + rest;
      assert ops[1..] == rest;
      var next := Step(p, e, s, read.value);
      if next.Some? {
        ReplayedRuns(p, e, next.value, read.rest, rest);
      }
    }
  }

  // Every pair comes after a family.
  predicate Familied(e: Format, d: Reading, ops: seq<Op>)
    decreases |ops|
  {
    ops != [] ==> Readable(d, ops[0]) && Familied(e, NextReading(e, d, ops[0]), ops[1..])
  }

  lemma StepReads(p: Policy, e: Format, s: Replay, op: Op)
    ensures Step(p, e, s, op).Some? <==> Readable(s.reading, op)
    ensures Step(p, e, s, op).Some? ==> Step(p, e, s, op).value.reading == NextReading(e, s.reading, op)
  {
  }

  lemma {:induction false} ReplayCompletes(p: Policy, e: Format, s: Replay, input: seq<byte>)
    ensures Replayed(p, e, s, input).complete
       <==> ReadOps(input).Some? && Familied(e, s.reading, ReadOps(input).value)
    decreases |input|
  {
    var read := ReadOp(input);
    if read.Got? {
      StepReads(p, e, s, read.value);
      var next := Step(p, e, s, read.value);
      if next.Some? {
        ReplayCompletes(p, e, next.value, read.rest);
      }
      if ReadOps(read.rest).Some? {
        assert ([read.value] + ReadOps(read.rest).value)[1..] == ReadOps(read.rest).value;
      }
    }
  }

  function FormatOf(file: seq<byte>, documents: seq<byte> -> seq<u32>): Format {
    Format(if |file| < 2 then FILE_VERSION else file[1], documents)
  }

  /** A restore reaches the end exactly on the files that parse and name a family before any pair. */
  lemma RestoreCompletes(p: Policy, documents: seq<byte> -> seq<u32>, file: seq<byte>)
    ensures RestoreFile(p, documents, file).complete
       <==> ReadFile(file).Some? && Familied(FormatOf(file, documents), UNREAD, ReadFile(file).value)
  {
    if |file| >= 2 {
      ReplayCompletes(p, FormatOf(file, documents), Fresh(), file[2..]);
    }
  }

  // ---- Where a batch can stand ----

  // The last bit set since the dump named a document.
  function NextMoved(e: Format, d: Reading, moved: Option<u32>, op: Op): Option<u32> {
    var bits := BitsOf(e, d, op);
    if op.DocumentId? then None else if bits != [] then Some(bits[|bits| - 1]) else moved
  }

  // A batch stands at the document of the dump, at the last bit, or, begun inside a bitmap, at none.
  predicate Near(moved: Option<u32>, at: u32, document: u32) {
    at == document || (moved.Some? && (at == moved.value || at == U32_MAX))
  }

  lemma NearNext(p: Policy, e: Format, d: Reading, moved: Option<u32>, op: Op, at: u32, at': u32)
    requires Near(moved, at, d.context.document) && AfterStep(p, e, d, op, at, at')
    ensures Near(NextMoved(e, d, moved, op), at', NextReading(e, d, op).context.document)
  {
  }

  // The pair is kept under the document the batch stands at.
  predicate Keyed(e: Format, d: Reading, op: Op) {
    op.KeyValue? && UnderDocuments(d) && !Skipped(e, d, op.key)
  }

  // Bits cannot have moved a batch away from this document.
  predicate Placed(moved: Option<u32>, document: u32) {
    moved.None? || (moved.value == U32_MAX && document == U32_MAX)
  }

  // No pair kept under a document follows a bit before the dump names the document again. (A bit for
  // the document `U32_MAX` moves nothing when that is also the document of the dump.)
  predicate Settled(e: Format, d: Reading, moved: Option<u32>, ops: seq<Op>)
    decreases |ops|
  {
    ops != [] ==>
      && (Keyed(e, d, ops[0]) ==> Placed(moved, d.context.document))
      && Settled(e, NextReading(e, d, ops[0]), NextMoved(e, d, moved, ops[0]), ops[1..])
  }

  lemma SharedEffects(e: Format, d: Reading, at: u32, at': u32, op: Op)
    requires !Keyed(e, d, op)
    ensures OpEffects(e, d, at, op) == OpEffects(e, d, at', op)
  {
    if op.KeyValue? && !Skipped(e, d, op.key) && d.family != Bitmap && d.family != Log {
      var ops := ValueOps(e, d, op.key, op.value);
      CommitOne(ops[0], Cursor(d.context.(document := at), []));
      CommitOne(ops[0], Cursor(d.context.(document := at'), []));
    }
  }

  lemma SettledEffects(e: Format, d: Reading, moved: Option<u32>, at: u32, op: Op)
    requires Near(moved, at, d.context.document)
    requires Keyed(e, d, op) ==> Placed(moved, d.context.document)
    ensures OpEffects(e, d, at, op) == OpEffects(e, d, d.context.document, op)
  {
    if !Keyed(e, d, op) {
      SharedEffects(e, d, at, d.context.document, op);
    }
  }

  lemma {:induction false} OnlyContextDoesNothing(batch: Batch)
    requires OnlyContext(batch)
    ensures Commit(batch, START) == []
    decreases |batch|
  {
    if batch != [] {
      OnlyContextDoesNothing(batch[..|batch| - 1]);
      assert OnlyContext([batch[|batch| - 1]]);
    }
  }

  lemma FinishKeeps(s: Replay)
    ensures CommitAll(Finish(s)) == Effects(s)
  {
    if OnlyContext(s.batch) {
      OnlyContextDoesNothing(s.batch);
    } else {
      CommitAllPush(s.sent, s.batch);
    }
  }

  /** From any state of a replay, wherever batches are cut: the batches do what the operations mean. */
  lemma {:induction false} RunMeans(p: Policy, e: Format, s: Replay, moved: Option<u32>, ops: seq<Op>)
    requires Aligned(s) && Near(moved, Standing(s).document, s.reading.context.document)
    requires Familied(e, s.reading, ops) && Settled(e, s.reading, moved, ops)
    ensures CommitAll(RunOps(p, e, s, ops).sent) == Effects(s) + Meaning(e, s.reading, ops)
    decreases |ops|
  {
    if ops == [] {
      FinishKeeps(s);
      assert Effects(s) + [] == Effects(s);
    } else {
      var d, op := s.reading, ops[0];
      var next, at := StepAdds(p, e, s, op);
      SettledEffects(e, d, moved, Standing(s).document, op);
      NearNext(p, e, d, moved, op, Standing(s).document, at);
      RunMeans(p, e, next, NextMoved(e, d, moved, op), ops[1..]);
      Associate(Effects(s), OpEffects(e, d, d.context.document, op), Meaning(e, next.reading, ops[1..]));
    }
  }

  lemma BitsPutNothing(p: Policy, s: Replay, key: seq<byte>, documents: seq<u32>)
    ensures PushBits(p, s, key, documents).puts == s.puts
  {
  }

  lemma StepPuts(p: Policy, e: Format, s: Replay, op: Op)
    requires Readable(s.reading, op)
    ensures Step(p, e, s, op).value.puts
         == s.puts + (if op.KeyValue? then PutsOf(s.reading, op.key, op.value) else [])
  {
    if op.KeyValue? {
      BitsPutNothing(p, Counted(s, op.key, op.value), op.key, e.documents(op.value));
    }
  }

  /** The blob store is given the blobs of the dump, in order, whatever the limits. */
  lemma {:induction false} RunPuts(p: Policy, e: Format, s: Replay, ops: seq<Op>)
    requires Familied(e, s.reading, ops)
    ensures RunOps(p, e, s, ops).puts == s.puts + PutsMeaning(e, s.reading, ops)
    decreases |ops|
  {
    if ops != [] {
      StepReads(p, e, s, ops[0]);
      StepPuts(p, e, s, ops[0]);
      RunPuts(p, e, Step(p, e, s, ops[0]).value, ops[1..]);
    }
  }

  // ---- Exactness: two policies that tell a moved document ----

  function Unlimited(): Policy {
    Policy(_ => false, (_, _) => false)
  }

  // Every bit fills its batch.
  function BitByBit(): Policy {
    Policy(_ => true, (_, _) => false)
  }

  function Plain(full: bool): Policy {
    if full then BitByBit() else Unlimited()
  }

  function NextAt(full: bool, e: Format, d: Reading, at: u32, op: Op): u32 {
    var bits := BitsOf(e, d, op);
    if op.DocumentId? then op.document
    else if bits == [] then at
    else if full then U32_MAX else bits[|bits| - 1]
  }

  // What those policies do: each operation acts at the document the batch has moved to.
  function Drifted(full: bool, e: Format, d: Reading, at: u32, ops: seq<Op>): seq<Effect>
    decreases |ops|
  {
    if ops == [] then []
    else OpEffects(e, d, at, ops[0]) + Drifted(full, e, NextReading(e, d, ops[0]), NextAt(full, e, d, at, ops[0]), ops[1..])
  }

  lemma PlainAt(full: bool, e: Format, d: Reading, op: Op, at: u32, at': u32)
    requires AfterStep(Plain(full), e, d, op, at, at')
    ensures at' == NextAt(full, e, d, at, op)
  {
    assert NeverDue(Plain(full));
    assert if full then AlwaysFull(Plain(full)) else NeverFull(Plain(full));
  }

  lemma {:induction false} PlainRun(full: bool, e: Format, s: Replay, ops: seq<Op>)
    requires Aligned(s) && Familied(e, s.reading, ops)
    ensures CommitAll(RunOps(Plain(full), e, s, ops).sent)
         == Effects(s) + Drifted(full, e, s.reading, Standing(s).document, ops)
    decreases |ops|
  {
    if ops == [] {
      FinishKeeps(s);
      assert Effects(s) + [] == Effects(s);
    } else {
      var d, at := s.reading, Standing(s).document;
      var next, at' := StepAdds(Plain(full), e, s, ops[0]);
      PlainAt(full, e, d, ops[0], at, at');
      PlainRun(full, e, next, ops[1..]);
      Associate(Effects(s), OpEffects(e, d, at, ops[0]), Drifted(full, e, next.reading, at', ops[1..]));
    }
  }

  // The effects of a pair, one for each operation it pushes.
  lemma ValueEffects(e: Format, d: Reading, at: u32, k: seq<byte>, v: seq<byte>)
    ensures var ops, c := ValueOps(e, d, k, v), Cursor(d.context.(document := at), []);
      && |Commit(ops, c)| == |ops|
      && Do(c, ops[|ops| - 1]) == [Commit(ops, c)[|ops| - 1]]
  {
    var ops, c := ValueOps(e, d, k, v), Cursor(d.context.(document := at), []);
    if |ops| == 2 {
      CommitTwo(ops[0], ops[1], c);
    } else {
      CommitOne(ops[0], c);
    }
  }

  // The document shows in the effects of a pair kept under it.
  lemma KeyedEffects(e: Format, d: Reading, at: u32, op: Op)
    requires Keyed(e, d, op)
    ensures var n := |ValueOps(e, d, op.key, op.value)|;
      && |OpEffects(e, d, at, op)| == n
      && var last := OpEffects(e, d, at, op)[n - 1];
         && (last.Stored? || last.Increased?)
         && last.place == UnderDocument(d.context.(document := at), InDocument(d.family, op.key))
  {
    ValueEffects(e, d, at, op.key, op.value);
  }

  lemma EffectsLength(e: Format, d: Reading, at: u32, at': u32, op: Op)
    ensures |OpEffects(e, d, at, op)| == |OpEffects(e, d, at', op)|
  {
    if Keyed(e, d, op) {
      KeyedEffects(e, d, at, op);
      KeyedEffects(e, d, at', op);
    } else {
      SharedEffects(e, d, at, at', op);
    }
  }

  lemma Cancel<X>(a: seq<X>, b: seq<X>, a': seq<X>, b': seq<X>)
    requires |a| == |a'| && a + b == a' + b'
    ensures a == a' && b == b'
  {
    assert a == (a + b)[..|a|] && a' == (a' + b')[..|a|];
    assert b == (a + b)[|a|..] && b' == (a' + b')[|a|..];
  }

  // Where the two policies stand.
  predicate Tracks(moved: Option<u32>, unlimited: u32, bitByBit: u32, document: u32) {
    if moved.None? then unlimited == document && bitByBit == document
    else unlimited == moved.value && bitByBit == U32_MAX
  }

  lemma AgreeHead(full: bool, e: Format, d: Reading, at: u32, ops: seq<Op>)
    requires ops != [] && Drifted(full, e, d, at, ops) == Meaning(e, d, ops)
    ensures OpEffects(e, d, at, ops[0]) == OpEffects(e, d, d.context.document, ops[0])
    ensures Drifted(full, e, NextReading(e, d, ops[0]), NextAt(full, e, d, at, ops[0]), ops[1..])
         == Meaning(e, NextReading(e, d, ops[0]), ops[1..])
  {
    EffectsLength(e, d, at, d.context.document, ops[0]);
    Cancel(OpEffects(e, d, at, ops[0]),
           Drifted(full, e, NextReading(e, d, ops[0]), NextAt(full, e, d, at, ops[0]), ops[1..]),
           OpEffects(e, d, d.context.document, ops[0]), Meaning(e, NextReading(e, d, ops[0]), ops[1..]));
  }

  lemma AgreePlaced(e: Format, d: Reading, moved: Option<u32>, u: u32, b: u32, op: Op)
    requires Tracks(moved, u, b, d.context.document) && Keyed(e, d, op)
    requires OpEffects(e, d, u, op) == OpEffects(e, d, d.context.document, op) == OpEffects(e, d, b, op)
    ensures Placed(moved, d.context.document)
  {
    KeyedEffects(e, d, u, op);
    KeyedEffects(e, d, b, op);
    KeyedEffects(e, d, d.context.document, op);
    assert d.context.(document := u).document == d.context.(document := b).document == d.context.document;
  }

  lemma {:induction false} AgreeSettled(e: Format, d: Reading, moved: Option<u32>, u: u32, b: u32, ops: seq<Op>)
    requires Tracks(moved, u, b, d.context.document)
    requires Drifted(false, e, d, u, ops) == Meaning(e, d, ops) == Drifted(true, e, d, b, ops)
    ensures Settled(e, d, moved, ops)
    decreases |ops|
  {
    if ops != [] {
      var op := ops[0];
      AgreeHead(false, e, d, u, ops);
      AgreeHead(true, e, d, b, ops);
      if Keyed(e, d, op) {
        AgreePlaced(e, d, moved, u, b, op);
      }
      AgreeSettled(e, NextReading(e, d, op), NextMoved(e, d, moved, op), NextAt(false, e, d, u, op),
                   NextAt(true, e, d, b, op), ops[1..]);
    }
  }

  lemma FreshIsAligned()
    ensures Aligned(Fresh()) && Standing(Fresh()).document == U32_MAX && Effects(Fresh()) == []
  {
    assert CursorAfter([], START) == START;
  }

  ghost predicate RestoresMeaning(p: Policy, documents: seq<byte> -> seq<u32>, file: seq<byte>)
    requires ReadFile(file).Some?
  {
    CommitAll(RestoreFile(p, documents, file).sent) == Meaning(FormatOf(file, documents), UNREAD, ReadFile(file).value)
  }

  lemma RestoreRuns(p: Policy, documents: seq<byte> -> seq<u32>, file: seq<byte>)
    requires ReadFile(file).Some?
    ensures RestoreFile(p, documents, file) == RunOps(p, FormatOf(file, documents), Fresh(), ReadFile(file).value)
  {
    ReplayedRuns(p, FormatOf(file, documents), Fresh(), file[2..], ReadFile(file).value);
  }

  /** A file in which no document-keyed pair follows a bit unsettled restores to its meaning. */
  lemma RestoreMeans(p: Policy, documents: seq<byte> -> seq<u32>, file: seq<byte>)
    requires RestoreFile(p, documents, file).complete
    requires ReadFile(file).Some? && Settled(FormatOf(file, documents), UNREAD, None, ReadFile(file).value)
    ensures RestoresMeaning(p, documents, file)
    ensures RestoreFile(p, documents, file).puts == PutsMeaning(FormatOf(file, documents), UNREAD, ReadFile(file).value)
  {
    var e, ops := FormatOf(file, documents), ReadFile(file).value;
    RestoreCompletes(p, documents, file);
    RestoreRuns(p, documents, file);
    FreshIsAligned();
    RunMeans(p, e, Fresh(), None, ops);
    RunPuts(p, e, Fresh(), ops);
    assert [] + Meaning(e, UNREAD, ops) == Meaning(e, UNREAD, ops);
    assert [] + PutsMeaning(e, UNREAD, ops) == PutsMeaning(e, UNREAD, ops);
  }

  lemma PlainRestore(full: bool, documents: seq<byte> -> seq<u32>, file: seq<byte>)
    requires ReadFile(file).Some? && Familied(FormatOf(file, documents), UNREAD, ReadFile(file).value)
    ensures CommitAll(RestoreFile(Plain(full), documents, file).sent)
         == Drifted(full, FormatOf(file, documents), UNREAD, U32_MAX, ReadFile(file).value)
  {
    var e, ops := FormatOf(file, documents), ReadFile(file).value;
    RestoreRuns(Plain(full), documents, file);
    FreshIsAligned();
    PlainRun(full, e, Fresh(), ops);
    assert [] + Drifted(full, e, UNREAD, U32_MAX, ops) == Drifted(full, e, UNREAD, U32_MAX, ops);
  }

  /** For every file a restore completes: it restores what the operations mean under all limits exactly when
      no pair kept under a document follows a bit before the dump names the document again. */
  lemma RestoresExactly(documents: seq<byte> -> seq<u32>, file: seq<byte>)
    requires ReadFile(file).Some? && Familied(FormatOf(file, documents), UNREAD, ReadFile(file).value)
    ensures (forall p :: RestoresMeaning(p, documents, file))
       <==> Settled(FormatOf(file, documents), UNREAD, None, ReadFile(file).value)
  {
    var e, ops := FormatOf(file, documents), ReadFile(file).value;
    if Settled(e, UNREAD, None, ops) {
      forall p ensures RestoresMeaning(p, documents, file) {
        RestoreCompletes(p, documents, file);
        RestoreMeans(p, documents, file);
      }
    } else if forall p :: RestoresMeaning(p, documents, file) {
      assert RestoresMeaning(Plain(false), documents, file) && RestoresMeaning(Plain(true), documents, file);
      PlainRestore(false, documents, file);
      PlainRestore(true, documents, file);
      AgreeSettled(e, UNREAD, None, U32_MAX, U32_MAX, ops);
    }
  }
}
