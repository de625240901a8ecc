/** What a dump looks like on disk and what restoring it leaves, spelled out record by record. */
module BackupLaws {
  import opened Wrappers
  import opened Decimal
  import opened BackupFormat
  import opened BackupRestore
  import opened BackupRuns
  import opened BackupRoundTrip
  import opened Sequences

  // ---- The file ----

  function Word(n: u32): seq<byte> {
    [n / 0x100_0000, n / 0x1_0000 % 256, n / 0x100 % 256, n % 256]
  }

  lemma WordIs(n: u32)
    ensures Be32(n) == Word(n)
  {
  }

  // The bytes of one operation whose lengths fit in 32 bits.
  function Layout(op: Op): seq<byte>
    requires Storable(op)
  {
    match op
    case SetFamily(f) =>
      [0, match f
          case Property => 0 case FtsIndex => 1 case Acl => 2 case Blob => 3 case Config => 4
          case LookupValue => 5 case LookupCounter => 6 case Directory => 7 case Queue => 8
          case Index => 9 case Bitmap => 10 case Log => 11]
    case KeyValue(k, v) => if v == [] then [2] + Word(|k|) + k else [1] + Word(|k|) + k + Word(|v|) + v
    case AccountId(a) => [3] + Word(a)
    case Collection(c) => [4, c]
    case DocumentId(d) => [5] + Word(d)
  }

  lemma SizedIs(s: seq<byte>)
    requires |s| < 0x1_0000_0000
    ensures Sized(s) == Word(|s|) + s
  {
    WordIs(|s|);
    assert Length32(s) == |s|;
  }

  lemma PairLayout(k: seq<byte>, v: seq<byte>)
    requires Storable(KeyValue(k, v))
    ensures Serialize(KeyValue(k, v)) == Layout(KeyValue(k, v))
  {
    SizedIs(k);
    SizedIs(v);
    Associate([2], Word(|k|), k);
    Associate([1], Word(|k|), k);
    Associate([1] + Word(|k|) + k, Word(|v|), v);
  }

  lemma LayoutIs(op: Op)
    requires Storable(op)
    ensures Serialize(op) == Layout(op)
  {
    match op
    case SetFamily(_) =>
    case KeyValue(k, v) => PairLayout(k, v);
    case AccountId(a) => WordIs(a);
    case Collection(_) =>
    case DocumentId(d) => WordIs(d);
  }

  lemma {:induction false} SerializeSnoc(ops: seq<Op>, op: Op)
    ensures SerializeAll(ops + [op]) == SerializeAll(ops) + Serialize(op)
    decreases |ops|
  {
    if ops == [] {
      assert [] + [op] == [op] && [op][1..] == [];
      assert Serialize(op) + [] == [] + Serialize(op);
    } else {
      assert (ops + [op])[1..] == ops[1..] + [op];
      SerializeSnoc(ops[1..], op);
      Associate(Serialize(ops[0]), SerializeAll(ops[1..]), Serialize(op));
    }
  }

  /** A file is a marker, a version and the operations one after the other. */
  lemma FileLayout(ops: seq<Op>, op: Op)
    requires Storable(op)
    ensures FileOf([]) == [123, 2]
    ensures FileOf(ops + [op]) == FileOf(ops) + Layout(op)
  {
    LayoutIs(op);
    SerializeSnoc(ops, op);
    Associate([123, 2], SerializeAll(ops), Serialize(op));
  }

  /** Another marker or a later version is refused before anything is read. */
  lemma HeaderDecides(p: Policy, documents: seq<byte> -> seq<u32>, file: seq<byte>)
    requires |file| < 2 || file[0] != 123 || file[1] > 2
    ensures ReadFile(file) == None && RestoreFile(p, documents, file) == Outcome(false, [], [])
  {
  }

  /** An operation with another code, or cut short, ends the reading. */
  lemma UnknownOperation(b: seq<byte>)
    requires b != []
    requires b[0] > 5 || (b[0] == 0 && (|b| < 2 || b[1] > 11)) || (b[0] == 4 && |b| < 2) || (b[0] in {1, 2, 3, 5} && |b| < 5)
    ensures ReadOp(b) == Failed
  {
  }

  // ---- What restoring a dump leaves ----

  /** Everything a record of any family leaves in the store. */
  function RecordEffects(documents: seq<byte> -> seq<u32>, f: Family, r: Record): seq<Effect> {
    match f
    case Bitmap =>
      var ds := documents(r.value);
      seq(|ds|, i requires 0 <= i < |ds| => BitOf(r.context.account, r.context.collection, ds[i], r.key))
    case Log => [Logged(r.context.account, r.context.collection, r.key, r.value)]
    case _ => [RecordEffect(f, r)]
  }

  function AllEffects(documents: seq<byte> -> seq<u32>, f: Family, records: seq<Record>): seq<Effect> {
    if records == [] then [] else RecordEffects(documents, f, records[0]) + AllEffects(documents, f, records[1..])
  }

  // The blobs outside a document.
  function Blobs(f: Family, records: seq<Record>): seq<Put> {
    if records == [] then []
    else (if f == Blob && !HeldByDocument(records[0]) then [Put(records[0].key, records[0].value)] else []) + Blobs(f, records[1..])
  }

  function SectionsEffects(documents: seq<byte> -> seq<u32>, sections: seq<Section>): seq<Effect> {
    if sections == [] then []
    else AllEffects(documents, sections[0].family, sections[0].records) + SectionsEffects(documents, sections[1..])
  }

  function SectionsBlobs(sections: seq<Section>): seq<Put> {
    if sections == [] then [] else Blobs(sections[0].family, sections[0].records) + SectionsBlobs(sections[1..])
  }

  lemma RecordIs(documents: seq<byte> -> seq<u32>, f: Family, r: Record)
    requires f != NoFamily
    ensures PairEffects(Format(2, documents), Reading(r.context, f, 0), r.context.document, r.key, r.value)
         == RecordEffects(documents, f, r)
  {
    if f != Bitmap && f != Log {
      OneRecord(Format(2, documents), f, r);
    }
  }

  lemma {:induction false} RecordsAre(documents: seq<byte> -> seq<u32>, f: Family, records: seq<Record>)
    requires f != NoFamily
    ensures RecordsMeaning(Format(2, documents), f, records) == AllEffects(documents, f, records)
    ensures RecordsPuts(f, records) == Blobs(f, records)
    decreases |records|
  {
    if records != [] {
      RecordIs(documents, f, records[0]);
      RecordsAre(documents, f, records[1..]);
    }
  }

  lemma {:induction false} SectionsAre(documents: seq<byte> -> seq<u32>, sections: seq<Section>)
    requires forall i | 0 <= i < |sections| :: sections[i].family != NoFamily
    ensures SectionsMeaning(Format(2, documents), sections) == SectionsEffects(documents, sections)
    ensures SectionsPuts(sections) == SectionsBlobs(sections)
    decreases |sections|
  {
    if sections != [] {
      RecordsAre(documents, sections[0].family, sections[0].records);
      SectionsAre(documents, sections[1..]);
    }
  }

  /** Restoring a dump leaves every value, counter, bit and log entry of its records, and puts exactly the blobs
      outside a document into the blob store, each once and in order. */
  lemma RestoreGivesBack(p: Policy, documents: seq<byte> -> seq<u32>, sections: seq<Section>)
    requires BitmapsLast(sections) && forall i | 0 <= i < |sections| :: StorableRecords(sections[i].records)
    ensures var r := RestoreFile(p, documents, FileOf(DumpOf(NO_CONTEXT, sections)));
      && r.complete
      && CommitAll(r.sent) == SectionsEffects(documents, sections)
      && r.puts == SectionsBlobs(sections)
  {
    BackupThenRestore(p, documents, sections);
    SectionsAre(documents, sections);
  }

  // ---- Files of version 1 ----

  predicate OldMail(version: byte, d: Reading) {
    version == 1 && d.context.collection == 0
  }

  predicate ToBeIndexed(version: byte, d: Reading) {
    d.family == Blob && OldMail(version, d) && d.context.account != 0xFFFF_FFFF && d.context.document != 0xFFFF_FFFF
  }

  // What a pair leaves, by the version of its file: older full-text data is left out, and a message of version 1 is
  // queued for indexing.
  function PairLeaves(documents: seq<byte> -> seq<u32>, version: byte, d: Reading, k: seq<byte>, v: seq<byte>): seq<Effect> {
    if d.family == FtsIndex && version < 2 then []
    else if d.family == Bitmap && OldMail(version, d) && k != [] && k[0] == 4 then []
    else if ToBeIndexed(version, d) then
      [Stored(UnderDocument(d.context, ToIndex(d.queued, k)), [0, 0, 0, 0, 0, 0, 0, 0]),
       Stored(UnderDocument(d.context, InDocument(Blob, k)), [])]
    else RecordEffects(documents, d.family, Record(d.context, k, v))
  }

  lemma QueuedPair(documents: seq<byte> -> seq<u32>, version: byte, d: Reading, k: seq<byte>, v: seq<byte>)
    requires ToBeIndexed(version, d)
    ensures PairEffects(Format(version, documents), d, d.context.document, k, v) == PairLeaves(documents, version, d, k, v)
  {
    assert d.context.(document := d.context.document) == d.context;
    CommitTwo(SetValue(ToIndex(d.queued, k), [0, 0, 0, 0, 0, 0, 0, 0]), SetValue(InDocument(Blob, k), []), Cursor(d.context, []));
  }

  lemma PlainPair(documents: seq<byte> -> seq<u32>, version: byte, d: Reading, k: seq<byte>, v: seq<byte>)
    requires !ToBeIndexed(version, d) && d.family != NoFamily && d.family != Bitmap && d.family != Log
    requires d.family == FtsIndex ==> version >= 2
    ensures PairEffects(Format(version, documents), d, d.context.document, k, v)
         == [RecordEffect(d.family, Record(d.context, k, v))]
  {
    var e, c := Format(version, documents), Cursor(d.context, []);
    assert d.context.(document := d.context.document) == d.context;
    PlainOp(e, d, k, v);
    CommitOne(ValueOps(e, d, k, v)[0], c);
  }

  lemma PlainOp(e: Format, d: Reading, k: seq<byte>, v: seq<byte>)
    requires !ToBeIndexed(e.version, d) && d.family != NoFamily && d.family != Bitmap && d.family != Log
    ensures var ops := ValueOps(e, d, k, v);
      ops == [ops[0]] && Do(Cursor(d.context, []), ops[0]) == [RecordEffect(d.family, Record(d.context, k, v))]
  {
  }

  /** For every version: what a pair leaves, and the number the next message is queued under. */
  lemma PairByVersion(documents: seq<byte> -> seq<u32>, version: byte, d: Reading, k: seq<byte>, v: seq<byte>)
    requires d.family != NoFamily
    ensures PairEffects(Format(version, documents), d, d.context.document, k, v) == PairLeaves(documents, version, d, k, v)
    ensures NextReading(Format(version, documents), d, KeyValue(k, v)) == d.(queued := d.queued + if ToBeIndexed(version, d) then 1 else 0)
  {
    if ToBeIndexed(version, d) {
      QueuedPair(documents, version, d, k, v);
    } else if d.family != Bitmap && d.family != Log && (d.family == FtsIndex ==> version >= 2) {
      PlainPair(documents, version, d, k, v);
    }
  }

  // ---- Limits ----

  /** With the limits of the server, what is pending after an operation that looks at them is below both, and a
      batch is sent between operations only when one is reached. */
  lemma LimitsHold(documents: seq<byte> -> seq<u32>, version: byte, s: Replay, op: Op)
    requires Step(SourcePolicy(), Format(version, documents), s, op).Some?
    ensures var next := Step(SourcePolicy(), Format(version, documents), s, op).value;
      var applied := Apply(SourcePolicy(), Format(version, documents), s, op).value;
      var checked := !(op.KeyValue? && op.key != [] && op.key[0] == 4
                       && (s.reading.family == Directory || (s.reading.family == Bitmap && OldMail(version, s.reading))));
      && (checked ==> |next.batch| < 1000 && next.size < 5_000_000)
      && (next.sent != applied.sent <==> checked && (|applied.batch| >= 1000 || applied.size >= 5_000_000))
  {
    var next := Step(SourcePolicy(), Format(version, documents), s, op).value;
    var applied := Apply(SourcePolicy(), Format(version, documents), s, op).value;
    assert |applied.sent + [applied.batch]| != |applied.sent|;
  }

  /** A pair counts for its key and value and the two lengths, the bytes of a blob outside a document aside. */
  lemma PairsAreCounted(p: Policy, e: Format, s: Replay, k: seq<byte>, v: seq<byte>)
    requires s.reading.family != NoFamily
    ensures var applied := Apply(p, e, s, KeyValue(k, v)).value;
      applied.size == s.size + |k| + 8
        + (if s.reading.family == Blob && !HeldByDocument(Record(s.reading.context, k, v)) then 0 else |v|)
  {
    var counted := Counted(s, k, v);
    PushesKeepSize(p, e, counted, k, v);
  }

  lemma PushesKeepSize(p: Policy, e: Format, s: Replay, k: seq<byte>, v: seq<byte>)
    ensures PushPair(p, e, s, k, v).size == s.size
  {
    BitsKeepSize(p, s, k, e.documents(v));
  }

  lemma {:induction false} BitsKeepSize(p: Policy, s: Replay, key: seq<byte>, documents: seq<u32>)
    ensures PushBits(p, s, key, documents).size == s.size
    decreases |documents|
  {
    if documents != [] {
      BitsKeepSize(p, s, key, documents[..|documents| - 1]);
    }
  }
}
