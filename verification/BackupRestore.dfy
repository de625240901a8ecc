/** Replaying a dump: its operations go to the store in batches that are sent at limits. */
module BackupRestore {
  import opened Wrappers
  import opened Decimal
  import opened BackupFormat
  import opened Sequences

  const U32_LEN := 4

  // Collections and properties the replay looks at.
  const EMAIL: byte := 0
  const MAILBOX: byte := 1
  const EMAIL_IDS: byte := 84
  const TEXT_BITMAP: byte := 4
  const USED_QUOTA: byte := 4

  datatype Context = Context(account: u32, collection: byte, document: u32)

  const NO_CONTEXT := Context(U32_MAX, U8_MAX, U32_MAX)

  // ---- What a batch does when the store commits it ----

  // A key of the store: under a document, or shared by the whole store.
  datatype Class =
    | InDocument(family: Family, key: seq<byte>)
    | ToIndex(number: nat, hash: seq<byte>)
    | Shared(family: Family, key: seq<byte>)

  // One operation of a store batch.
  datatype BatchOp =
    | WithAccount(account: u32)
    | WithCollection(collection: byte)
    | WithDocument(document: u32)
    | WithChangeId(change: seq<byte>)
    | SetValue(slot: Class, value: seq<byte>)
    | AddValue(slot: Class, amount: seq<byte>)
    | SetBit(bitmap: seq<byte>)
    | LogEntry(entry: seq<byte>)

  type Batch = seq<BatchOp>

  datatype Place = UnderDocument(context: Context, slot: Class) | Everywhere(slot: Class)

  // What a committed batch leaves in the store.
  datatype Effect =
    | Stored(place: Place, value: seq<byte>)
    | Increased(place: Place, amount: seq<byte>)
    | BitOf(account: u32, collection: byte, document: u32, bitmap: seq<byte>)
    | Logged(account: u32, collection: byte, change: seq<byte>, entry: seq<byte>)

  function PlaceOf(c: Context, slot: Class): Place {
    if slot.Shared? then Everywhere(slot) else UnderDocument(c, slot)
  }

  datatype Cursor = Cursor(context: Context, change: seq<byte>)

  const START := Cursor(NO_CONTEXT, [255, 255, 255, 255, 255, 255, 255, 255])

  function Move(c: Cursor, op: BatchOp): Cursor {
    match op
    case WithAccount(a) => c.(context := c.context.(account := a))
    case WithCollection(x) => c.(context := c.context.(collection := x))
    case WithDocument(d) => c.(context := c.context.(document := d))
    case WithChangeId(id) => c.(change := id)
    case _ => c
  }

  function Do(c: Cursor, op: BatchOp): seq<Effect> {
    match op
    case SetValue(slot, v) => [Stored(PlaceOf(c.context, slot), v)]
    case AddValue(slot, n) => [Increased(PlaceOf(c.context, slot), n)]
    case SetBit(k) => [BitOf(c.context.account, c.context.collection, c.context.document, k)]
    case LogEntry(v) => [Logged(c.context.account, c.context.collection, c.change, v)]
    case _ => []
  }

  function CursorAfter(batch: Batch, c: Cursor): Cursor {
    if batch == [] then c
    else
      var most := batch[..|batch| - 1];
      Move(CursorAfter(most, c), batch[|batch| - 1])
  }

  function Commit(batch: Batch, c: Cursor): seq<Effect> {
    if batch == [] then []
    else
      var most := batch[..|batch| - 1];
      Commit(most, c) + Do(CursorAfter(most, c), batch[|batch| - 1])
  }

  /** Each batch starts from the sentinel context. */
  function CommitAll(batches: seq<Batch>): seq<Effect> {
    if batches == [] then []
    else CommitAll(batches[..|batches| - 1]) + Commit(batches[|batches| - 1], START)
  }

  lemma CommitPush(batch: Batch, op: BatchOp, c: Cursor)
    ensures CursorAfter(batch + [op], c) == Move(CursorAfter(batch, c), op)
    ensures Commit(batch + [op], c) == Commit(batch, c) + Do(CursorAfter(batch, c), op)
  {
    assert (batch + [op])[..|batch + [op]| - 1] == batch;
  }

  // Committing a and then b is committing both at once.
  predicate Joins(a: Batch, b: Batch, c: Cursor) {
    (CursorAfter(a + b, c), Commit(a + b, c))
    == (CursorAfter(b, CursorAfter(a, c)), Commit(a, c) + Commit(b, CursorAfter(a, c)))
  }

  lemma JoinsNext(a: Batch, b: Batch, op: BatchOp, c: Cursor)
    requires Joins(a, b, c)
    ensures Joins(a, b + [op], c)
  {
    var mid := CursorAfter(a, c);
    assert a + (b + [op]) == a + b + [op];
    CommitPush(a + b, op, c);
    CommitPush(b, op, mid);
    Associate(Commit(a, c), Commit(b, mid), Do(CursorAfter(b, mid), op));
  }

  lemma JoinsNone(a: Batch, c: Cursor)
    ensures Joins(a, [], c)
  {
    assert a + [] == a;
    assert Commit(a, c) + [] == Commit(a, c);
  }

  lemma {:induction false} CommitConcat(a: Batch, b: Batch, c: Cursor)
    ensures Joins(a, b, c)
    decreases |b|
  {
    if b == [] {
      JoinsNone(a, c);
    } else {
      var most, op := b[..|b| - 1], b[|b| - 1];
      assert b == most + [op];
      CommitConcat(a, most, c);
      JoinsNext(a, most, op, c);
    }
  }

  lemma CommitOne(op: BatchOp, c: Cursor)
    ensures CursorAfter([op], c) == Move(c, op) && Commit([op], c) == Do(c, op)
  {
    assert [op] == [] + [op];
    CommitPush([], op, c);
    assert [] + Do(c, op) == Do(c, op);
  }

  lemma CommitTwo(x: BatchOp, y: BatchOp, c: Cursor)
    ensures CursorAfter([x, y], c) == Move(Move(c, x), y)
    ensures Commit([x, y], c) == Do(c, x) + Do(Move(c, x), y)
  {
    assert [x, y] == [x] + [y];
    CommitOne(x, c);
    CommitPush([x], y, c);
  }

  lemma CommitAllPush(batches: seq<Batch>, batch: Batch)
    ensures CommitAll(batches + [batch]) == CommitAll(batches) + Commit(batch, START)
  {
    assert (batches + [batch])[..|batches + [batch]| - 1] == batches;
  }

  // ---- Replaying a dump ----

  /** When a batch is sent: after one bit of a bitmap, and after one operation of the dump. */
  datatype Policy = Policy(full: nat -> bool, due: (nat, nat) -> bool)

  function SourcePolicy(): Policy {
    Policy(ops => ops >= 1000, (ops, size) => ops >= 1000 || size >= 5_000_000)
  }

  // The version of the file, and the bitmap codec.
  datatype Format = Format(version: byte, documents: seq<byte> -> seq<u32>)

  // What the operations read so far have set.
  datatype Reading = Reading(context: Context, family: Family, queued: nat)

  const UNREAD := Reading(NO_CONTEXT, NoFamily, 0)

  predicate HasDocument(c: Context) {
    c.account != U32_MAX && c.document != U32_MAX
  }

  // Version 1 kept full-text data that is rebuilt instead of restored.
  predicate Skipped(e: Format, d: Reading, k: seq<byte>) {
    || (d.family == FtsIndex && e.version <= 1)
    || (d.family == Bitmap && e.version == 1 && d.context.collection == EMAIL && k != [] && k[0] == TEXT_BITMAP)
  }

  predicate Requeued(e: Format, d: Reading) {
    d.family == Blob && HasDocument(d.context) && e.version == 1 && d.context.collection == EMAIL
  }

  predicate IsCounter(d: Reading, k: seq<byte>) {
    || d.family == LookupCounter
    || (d.family == Property && d.context.collection == MAILBOX && k != [] && k[0] == EMAIL_IDS)
    || (d.family == Directory && k != [] && k[0] == USED_QUOTA)
  }

  predicate UnderDocuments(d: Reading) {
    d.family == Property || d.family == FtsIndex || d.family == Acl || d.family == Index
    || (d.family == Blob && HasDocument(d.context))
  }

  function ClassOf(d: Reading, k: seq<byte>): Class {
    if UnderDocuments(d) then InDocument(d.family, k) else Shared(d.family, k)
  }

  // The bytes of a blob go to the blob store, and an index entry has none.
  function ValueOf(d: Reading, v: seq<byte>): seq<byte> {
    if d.family == Blob || d.family == Index then [] else v
  }

  function ValueOps(e: Format, d: Reading, k: seq<byte>, v: seq<byte>): Batch {
    if Requeued(e, d) then [SetValue(ToIndex(d.queued, k), [0, 0, 0, 0, 0, 0, 0, 0]), SetValue(ClassOf(d, k), [])]
    else if IsCounter(d, k) then [AddValue(ClassOf(d, k), v)]
    else [SetValue(ClassOf(d, k), ValueOf(d, v))]
  }

  datatype Put = Put(hash: seq<byte>, bytes: seq<byte>)

  // A blob outside a document goes to the blob store at once.
  function PutsOf(d: Reading, k: seq<byte>, v: seq<byte>): seq<Put> {
    if d.family == Blob && !HasDocument(d.context) then [Put(k, v)] else []
  }

  function NextReading(e: Format, d: Reading, op: Op): Reading {
    match op
    case SetFamily(f) => d.(family := f)
    case AccountId(a) => d.(context := d.context.(account := a))
    case Collection(x) => d.(context := d.context.(collection := x))
    case DocumentId(n) => d.(context := d.context.(document := n))
    case KeyValue(_, _) => if Requeued(e, d) then d.(queued := d.queued + 1) else d
  }

  datatype Replay = Replay(reading: Reading, batch: Batch, size: nat, sent: seq<Batch>, puts: seq<Put>)

  function Fresh(): Replay {
    Replay(UNREAD, [], 0, [], [])
  }

  function Push(s: Replay, ops: Batch): Replay {
    s.(batch := s.batch + ops)
  }

  function PairSize(d: Reading, k: seq<byte>, v: seq<byte>): nat {
    if d.family == Blob && !HasDocument(d.context) then |k| + U32_LEN * 2 else |k| + |v| + U32_LEN * 2
  }

  // What re-establishes the context of a new batch, inside a bitmap and between operations.
  function InnerContext(c: Context): Batch {
    [WithAccount(c.account), WithCollection(c.collection)]
  }

  function WholeContext(c: Context): Batch {
    InnerContext(c) + [WithDocument(c.document)]
  }

  function Send(s: Replay, batch: Batch): Replay {
    s.(sent := s.sent + [s.batch], batch := batch)
  }

  function PushBit(p: Policy, s: Replay, key: seq<byte>, n: u32): Replay {
    var next := Push(s, [WithDocument(n), SetBit(key)]);
    if p.full(|next.batch|) then Send(next, InnerContext(s.reading.context)) else next
  }

  function PushBits(p: Policy, s: Replay, key: seq<byte>, documents: seq<u32>): Replay {
    if documents == [] then s
    else
      var most := documents[..|documents| - 1];
      PushBit(p, PushBits(p, s, key, most), key, documents[|documents| - 1])
  }

  function PushPair(p: Policy, e: Format, s: Replay, k: seq<byte>, v: seq<byte>): Replay {
    if Skipped(e, s.reading, k) then s
    else if s.reading.family == Bitmap then PushBits(p, s, k, e.documents(v))
    else if s.reading.family == Log then Push(s, [WithChangeId(k), LogEntry(v)])
    else Push(s, ValueOps(e, s.reading, k, v))
  }

  function Counted(s: Replay, k: seq<byte>, v: seq<byte>): Replay {
    s.(size := s.size + PairSize(s.reading, k, v), puts := s.puts + PutsOf(s.reading, k, v))
  }

  /** One operation of the dump. */
  function Apply(p: Policy, e: Format, s: Replay, op: Op): Option<Replay> {
    var d := NextReading(e, s.reading, op);
    match op
    case SetFamily(_) => Some(s.(reading := d))
    case AccountId(a) => Some(Push(s, [WithAccount(a)]).(reading := d))
    case Collection(c) => Some(Push(s, [WithCollection(c)]).(reading := d))
    case DocumentId(n) => Some(Push(s, [WithDocument(n)]).(reading := d))
    case KeyValue(k, v) =>
      if s.reading.family == NoFamily then None
      else Some(PushPair(p, e, Counted(s, k, v), k, v).(reading := d))
  }

  // A quota counter, and a bitmap that is not restored, move on without looking at the limits.
  predicate SkipsLimits(e: Format, d: Reading, op: Op) {
    && op.KeyValue?
    && op.key != []
    && ((d.family == Directory && op.key[0] == USED_QUOTA) || (d.family == Bitmap && Skipped(e, d, op.key)))
  }

  function Flush(s: Replay): Replay {
    Send(s, WholeContext(s.reading.context)).(size := 0)
  }

  function Checked(p: Policy, e: Format, d: Reading, op: Op, next: Replay): Replay {
    if !SkipsLimits(e, d, op) && p.due(|next.batch|, next.size) then Flush(next) else next
  }

  function Step(p: Policy, e: Format, s: Replay, op: Op): Option<Replay> {
    var next := Apply(p, e, s, op);
    if next.None? then None else Some(Checked(p, e, s.reading, op, next.value))
  }

  predicate OnlyContext(batch: Batch) {
    forall i | 0 <= i < |batch| ::
      batch[i].WithAccount? || batch[i].WithCollection? || batch[i].WithDocument?
  }

  function Finish(s: Replay): seq<Batch> {
    if OnlyContext(s.batch) then s.sent else s.sent + [s.batch]
  }

  // `complete` is false when the process ends early, leaving what was sent and put so far.
  datatype Outcome = Outcome(complete: bool, sent: seq<Batch>, puts: seq<Put>)

  function Replayed(p: Policy, e: Format, s: Replay, input: seq<byte>): Outcome
    decreases |input|
  {
    match ReadOp(input)
    case EndOfFile => Outcome(true, Finish(s), s.puts)
    case Failed => Outcome(false, s.sent, s.puts)
    case Got(op, rest) =>
      match Step(p, e, s, op)
      case None => Outcome(false, s.sent, s.puts)
      case Some(next) => Replayed(p, e, next, rest)
  }

  // The header decides the version the rest is read as.
  function RestoreFile(p: Policy, documents: seq<byte> -> seq<u32>, file: seq<byte>): Outcome {
    if |file| < 2 || file[0] != MAGIC_MARKER || file[1] > FILE_VERSION then Outcome(false, [], [])
    else Replayed(p, Format(file[1], documents), Fresh(), file[2..])
  }

  // ---- What the operations of a dump do, one by one ----

  function Bits(c: Context, key: seq<byte>, documents: seq<u32>): seq<Effect> {
    seq(|documents|, i requires 0 <= i < |documents| => BitOf(c.account, c.collection, documents[i], key))
  }

  // A pair, for a batch that stands at document `at`.
  function PairEffects(e: Format, d: Reading, at: u32, k: seq<byte>, v: seq<byte>): seq<Effect> {
    if Skipped(e, d, k) then []
    else if d.family == Bitmap then Bits(d.context, k, e.documents(v))
    else if d.family == Log then [Logged(d.context.account, d.context.collection, k, v)]
    else Commit(ValueOps(e, d, k, v), Cursor(d.context.(document := at), []))
  }

  function OpEffects(e: Format, d: Reading, at: u32, op: Op): seq<Effect> {
    if op.KeyValue? then PairEffects(e, d, at, op.key, op.value) else []
  }

  /** What the operations mean: each acts at the document the dump itself names. */
  function Meaning(e: Format, d: Reading, ops: seq<Op>): seq<Effect>
    decreases |ops|
  {
    if ops == [] then []
    else OpEffects(e, d, d.context.document, ops[0]) + Meaning(e, NextReading(e, d, ops[0]), ops[1..])
  }

  function PutsMeaning(e: Format, d: Reading, ops: seq<Op>): seq<Put>
    decreases |ops|
  {
    if ops == [] then []
    else
      (if ops[0].KeyValue? then PutsOf(d, ops[0].key, ops[0].value) else [])
      + PutsMeaning(e, NextReading(e, d, ops[0]), ops[1..])
  }

  // ---- Every replayed operation adds its own effects, at the document the batch stands at ----

  function Effects(s: Replay): seq<Effect> {
    CommitAll(s.sent) + Commit(s.batch, START)
  }

  function Standing(s: Replay): Context {
    CursorAfter(s.batch, START).context
  }

  // The batch and the dump agree on everything but, perhaps, the document.
  predicate Aligned(s: Replay) {
    Standing(s) == s.reading.context.(document := Standing(s).document)
  }

  // From s to next: what was added, and where the batch stands now.
  predicate Adds(s: Replay, next: Replay, more: seq<Effect>, at: u32) {
    && Standing(next) == Standing(s).(document := at)
    && Effects(next) == Effects(s) + more
  }

  lemma PushAdds(s: Replay, ops: Batch)
    ensures Effects(Push(s, ops)) == Effects(s) + Commit(ops, CursorAfter(s.batch, START))
    ensures CursorAfter(Push(s, ops).batch, START) == CursorAfter(ops, CursorAfter(s.batch, START))
  {
    CommitConcat(s.batch, ops, START);
    Associate(CommitAll(s.sent), Commit(s.batch, START), Commit(ops, CursorAfter(s.batch, START)));
  }

  lemma SendKeeps(s: Replay, batch: Batch)
    requires Commit(batch, START) == []
    ensures Effects(Send(s, batch)) == Effects(s)
  {
    CommitAllPush(s.sent, s.batch);
  }

  lemma InnerCursor(c: Context)
    ensures CursorAfter(InnerContext(c), START).context == c.(document := U32_MAX)
    ensures Commit(InnerContext(c), START) == []
  {
    CommitTwo(WithAccount(c.account), WithCollection(c.collection), START);
  }

  lemma WholeCursor(c: Context)
    ensures CursorAfter(WholeContext(c), START).context == c
    ensures Commit(WholeContext(c), START) == []
  {
    InnerCursor(c);
    CommitPush(InnerContext(c), WithDocument(c.document), START);
  }

  lemma BitCommits(c: Cursor, key: seq<byte>, n: u32)
    ensures CursorAfter([WithDocument(n), SetBit(key)], c) == c.(context := c.context.(document := n))
    ensures Commit([WithDocument(n), SetBit(key)], c) == [BitOf(c.context.account, c.context.collection, n, key)]
  {
    CommitTwo(WithDocument(n), SetBit(key), c);
  }

  lemma BitPushed(s: Replay, key: seq<byte>, n: u32)
    ensures Adds(s, Push(s, [WithDocument(n), SetBit(key)]),
                 [BitOf(Standing(s).account, Standing(s).collection, n, key)], n)
  {
    PushAdds(s, [WithDocument(n), SetBit(key)]);
    BitCommits(CursorAfter(s.batch, START), key, n);
  }

  // After a bit the batch stands at its document, or, newly begun, at none.
  function AfterBit(p: Policy, s: Replay, n: u32): u32 {
    if p.full(|s.batch| + 2) then U32_MAX else n
  }

  lemma BitAdds(p: Policy, s: Replay, key: seq<byte>, n: u32)
    requires Aligned(s)
    ensures Adds(s, PushBit(p, s, key, n), [BitOf(s.reading.context.account, s.reading.context.collection, n, key)],
                 AfterBit(p, s, n))
  {
    var next := Push(s, [WithDocument(n), SetBit(key)]);
    BitPushed(s, key, n);
    InnerCursor(s.reading.context);
    SendKeeps(next, InnerContext(s.reading.context));
  }

  lemma AddsTwice(s: Replay, mid: Replay, next: Replay, more: seq<Effect>, rest: seq<Effect>, at: u32, at': u32)
    requires Adds(s, mid, more, at) && Adds(mid, next, rest, at')
    ensures Adds(s, next, more + rest, at')
  {
    Associate(Effects(s), more, rest);
  }

  lemma BitsSnoc(c: Context, key: seq<byte>, documents: seq<u32>)
    requires documents != []
    ensures var n := |documents| - 1;
      Bits(c, key, documents[..n]) + [BitOf(c.account, c.collection, documents[n], key)] == Bits(c, key, documents)
  {
  }

  ghost predicate NeverFull(p: Policy) {
    forall n :: !p.full(n)
  }

  ghost predicate AlwaysFull(p: Policy) {
    forall n :: p.full(n)
  }

  // Where the bits of a bitmap leave a batch that stood at `at`.
  ghost predicate AfterBits(p: Policy, documents: seq<u32>, at: u32, at': u32) {
    if documents == [] then at' == at
    else
      && (at' == documents[|documents| - 1] || at' == U32_MAX)
      && (NeverFull(p) ==> at' == documents[|documents| - 1])
      && (AlwaysFull(p) ==> at' == U32_MAX)
  }

  /** The bits of a bitmap are each set once under the right account and collection. */
  lemma {:induction false} BitsAdd(p: Policy, s: Replay, key: seq<byte>, documents: seq<u32>) returns (at: u32)
    requires Aligned(s)
    ensures Adds(s, PushBits(p, s, key, documents), Bits(s.reading.context, key, documents), at)
    ensures PushBits(p, s, key, documents).reading == s.reading
    ensures AfterBits(p, documents, Standing(s).document, at)
    decreases |documents|
  {
    if documents == [] {
      at := Standing(s).document;
      assert Effects(s) + [] == Effects(s);
    } else {
      var most, n := documents[..|documents| - 1], documents[|documents| - 1];
      var at' := BitsAdd(p, s, key, most);
      var mid := PushBits(p, s, key, most);
      BitAdds(p, mid, key, n);
      at := AfterBit(p, mid, n);
      AddsTwice(s, mid, PushBit(p, mid, key, n), Bits(s.reading.context, key, most),
                [BitOf(s.reading.context.account, s.reading.context.collection, n, key)], at', at);
      BitsSnoc(s.reading.context, key, documents);
    }
  }

  lemma ValuesCommit(e: Format, d: Reading, k: seq<byte>, v: seq<byte>, c: Cursor)
    ensures CursorAfter(ValueOps(e, d, k, v), c) == c
    ensures Commit(ValueOps(e, d, k, v), c) == Commit(ValueOps(e, d, k, v), Cursor(c.context, []))
  {
    var ops := ValueOps(e, d, k, v);
    if |ops| == 2 {
      CommitTwo(ops[0], ops[1], c);
      CommitTwo(ops[0], ops[1], Cursor(c.context, []));
    } else {
      CommitOne(ops[0], c);
      CommitOne(ops[0], Cursor(c.context, []));
    }
  }

  lemma ValuesAdd(e: Format, s: Replay, k: seq<byte>, v: seq<byte>)
    requires Aligned(s)
    ensures var at := Standing(s).document; var ops := ValueOps(e, s.reading, k, v);
      Adds(s, Push(s, ops), Commit(ops, Cursor(s.reading.context.(document := at), [])), at)
  {
    PushAdds(s, ValueOps(e, s.reading, k, v));
    ValuesCommit(e, s.reading, k, v, CursorAfter(s.batch, START));
  }

  lemma LogCommits(c: Cursor, k: seq<byte>, v: seq<byte>)
    ensures CursorAfter([WithChangeId(k), LogEntry(v)], c) == c.(change := k)
    ensures Commit([WithChangeId(k), LogEntry(v)], c) == [Logged(c.context.account, c.context.collection, k, v)]
  {
    CommitTwo(WithChangeId(k), LogEntry(v), c);
  }

  lemma LogAdds(s: Replay, k: seq<byte>, v: seq<byte>)
    requires Aligned(s)
    ensures Adds(s, Push(s, [WithChangeId(k), LogEntry(v)]),
                 [Logged(s.reading.context.account, s.reading.context.collection, k, v)], Standing(s).document)
  {
    PushAdds(s, [WithChangeId(k), LogEntry(v)]);
    LogCommits(CursorAfter(s.batch, START), k, v);
  }

  // The documents an operation sets bits for.
  function BitsOf(e: Format, d: Reading, op: Op): seq<u32> {
    if op.KeyValue? && d.family == Bitmap && !Skipped(e, d, op.key) then e.documents(op.value) else []
  }

  lemma PairAdds(p: Policy, e: Format, s: Replay, k: seq<byte>, v: seq<byte>) returns (at: u32)
    requires Aligned(s)
    ensures Adds(s, PushPair(p, e, s, k, v), PairEffects(e, s.reading, Standing(s).document, k, v), at)
    ensures AfterBits(p, BitsOf(e, s.reading, KeyValue(k, v)), Standing(s).document, at)
  {
    at := Standing(s).document;
    if Skipped(e, s.reading, k) {
      assert Effects(s) + [] == Effects(s);
    } else if s.reading.family == Bitmap {
      at := BitsAdd(p, s, k, e.documents(v));
    } else if s.reading.family == Log {
      LogAdds(s, k, v);
    } else {
      ValuesAdd(e, s, k, v);
    }
  }

  predicate Readable(d: Reading, op: Op) {
    op.KeyValue? ==> d.family != NoFamily
  }

  // Where an operation leaves a batch that stood at `at`, before the limits are looked at.
  ghost predicate AfterOp(p: Policy, e: Format, d: Reading, op: Op, at: u32, at': u32) {
    if op.DocumentId? then at' == op.document else AfterBits(p, BitsOf(e, d, op), at, at')
  }

  lemma ContextAdds(s: Replay, pushed: BatchOp)
    requires pushed.WithAccount? || pushed.WithCollection? || pushed.WithDocument?
    ensures Effects(Push(s, [pushed])) == Effects(s)
    ensures Standing(Push(s, [pushed])) == Move(CursorAfter(s.batch, START), pushed).context
  {
    PushAdds(s, [pushed]);
    CommitOne(pushed, CursorAfter(s.batch, START));
    assert Effects(s) + [] == Effects(s);
  }

  // Only the batch and what was sent decide where a replay stands and what it did.
  lemma SameBatch(s: Replay, t: Replay)
    requires s.batch == t.batch && s.sent == t.sent
    ensures Effects(s) == Effects(t) && Standing(s) == Standing(t)
  {
  }

  // `next` stands at `at` and did `more` on top of s.
  predicate Did(e: Format, s: Replay, op: Op, next: Replay, at: u32) {
    && next.reading == NextReading(e, s.reading, op)
    && Standing(next) == next.reading.context.(document := at)
    && Effects(next) == Effects(s) + OpEffects(e, s.reading, Standing(s).document, op)
  }

  lemma ContextDid(e: Format, s: Replay, op: Op, pushed: BatchOp, at: u32)
    requires Aligned(s)
    requires match op
      case AccountId(a) => pushed == WithAccount(a) && at == Standing(s).document
      case Collection(c) => pushed == WithCollection(c) && at == Standing(s).document
      case DocumentId(n) => pushed == WithDocument(n) && at == n
      case _ => false
    ensures Did(e, s, op, Push(s, [pushed]).(reading := NextReading(e, s.reading, op)), at)
  {
    var next := Push(s, [pushed]);
    ContextAdds(s, pushed);
    SameBatch(next, next.(reading := NextReading(e, s.reading, op)));
    assert Effects(s) + [] == Effects(s);
  }

  lemma PairDid(p: Policy, e: Format, s: Replay, k: seq<byte>, v: seq<byte>) returns (at: u32)
    requires Aligned(s)
    ensures var op := KeyValue(k, v);
      && Did(e, s, op, PushPair(p, e, Counted(s, k, v), k, v).(reading := NextReading(e, s.reading, op)), at)
      && AfterOp(p, e, s.reading, op, Standing(s).document, at)
  {
    var counted := Counted(s, k, v);
    SameBatch(s, counted);
    at := PairAdds(p, e, counted, k, v);
    var next := PushPair(p, e, counted, k, v);
    SameBatch(next, next.(reading := NextReading(e, s.reading, KeyValue(k, v))));
  }

  lemma FamilyDid(e: Format, s: Replay, f: Family)
    requires Aligned(s)
    ensures Did(e, s, SetFamily(f), s.(reading := NextReading(e, s.reading, SetFamily(f))), Standing(s).document)
  {
    SameBatch(s, s.(reading := NextReading(e, s.reading, SetFamily(f))));
    assert Effects(s) + [] == Effects(s);
  }

  lemma ApplyAdds(p: Policy, e: Format, s: Replay, op: Op) returns (next: Replay, at: u32)
    requires Aligned(s) && Readable(s.reading, op)
    ensures Apply(p, e, s, op) == Some(next)
    ensures Did(e, s, op, next, at) && AfterOp(p, e, s.reading, op, Standing(s).document, at)
  {
    var d := NextReading(e, s.reading, op);
    at := Standing(s).document;
    match op
    case SetFamily(f) =>
      next := s.(reading := d);
      FamilyDid(e, s, f);
    case AccountId(a) =>
      next := Push(s, [WithAccount(a)]).(reading := d);
      ContextDid(e, s, op, WithAccount(a), at);
    case Collection(c) =>
      next := Push(s, [WithCollection(c)]).(reading := d);
      ContextDid(e, s, op, WithCollection(c), at);
    case DocumentId(n) =>
      next, at := Push(s, [WithDocument(n)]).(reading := d), n;
      ContextDid(e, s, op, WithDocument(n), at);
    case KeyValue(k, v) =>
      next := PushPair(p, e, Counted(s, k, v), k, v).(reading := d);
      at := PairDid(p, e, s, k, v);
  }

  ghost predicate NeverDue(p: Policy) {
    forall n, size :: !p.due(n, size)
  }

  // Sending a batch between operations brings it back to the document of the dump.
  ghost predicate AfterStep(p: Policy, e: Format, d: Reading, op: Op, at: u32, at': u32) {
    if NeverDue(p) then AfterOp(p, e, d, op, at, at')
    else AfterOp(p, e, d, op, at, at') || at' == NextReading(e, d, op).context.document
  }

  /** Sending a batch loses nothing and re-establishes the whole context. */
  lemma FlushKeeps(e: Format, s: Replay, op: Op, next: Replay, at: u32)
    requires Did(e, s, op, next, at)
    ensures Did(e, s, op, Flush(next), next.reading.context.document)
  {
    var c := next.reading.context;
    var sent := Send(next, WholeContext(c));
    WholeCursor(c);
    SendKeeps(next, WholeContext(c));
    SameBatch(sent, Flush(next));
  }

  /** Whatever the limits, one operation adds exactly its own effects, at the document the batch stands at. */
  lemma StepAdds(p: Policy, e: Format, s: Replay, op: Op) returns (next: Replay, at: u32)
    requires Aligned(s) && Readable(s.reading, op)
    ensures Step(p, e, s, op) == Some(next)
    ensures Did(e, s, op, next, at) && AfterStep(p, e, s.reading, op, Standing(s).document, at)
  {
    next, at := ApplyAdds(p, e, s, op);
    if !SkipsLimits(e, s.reading, op) && p.due(|next.batch|, next.size) {
      FlushKeeps(e, s, op, next, at);
      next, at := Flush(next), next.reading.context.document;
    }
  }
}
