/** Dumping records with delta-encoded context, and restoring them. */
module BackupRoundTrip {
  import opened Wrappers
  import opened Decimal
  import opened BackupFormat
  import opened BackupRestore
  import opened BackupRuns
  import opened Sequences

  // ---- The restore loop ----

  method ReplayBits(p: Policy, s: Replay, key: seq<byte>, documents: seq<u32>) returns (next: Replay)
    ensures next == PushBits(p, s, key, documents)
  {
    next := s;
    assert documents[..0] == [];
    for i := 0 to |documents|
      invariant next == PushBits(p, s, key, documents[..i])
      invariant next.reading == s.reading
    {
      assert documents[..i + 1][..i] == documents[..i];
      next := Push(next, [WithDocument(documents[i]), SetBit(key)]);
      if p.full(|next.batch|) {
        next := Send(next, InnerContext(next.reading.context));
      }
    }
    assert documents[..|documents|] == documents;
  }

  method ReplayBlob(e: Format, s: Replay, hash: seq<byte>, bytes: seq<byte>) returns (next: Replay)
    requires s.reading.family == Blob
    ensures next == Push(s, ValueOps(e, s.reading, hash, bytes))
  {
    var c := s.reading.context;
    next := s;
    if c.account != U32_MAX && c.document != U32_MAX {
      if e.version == 1 && c.collection == EMAIL {
        next := Push(next, [SetValue(ToIndex(s.reading.queued, hash), [0, 0, 0, 0, 0, 0, 0, 0])]);
      }
      next := Push(next, [SetValue(InDocument(Blob, hash), [])]);
    } else {
      next := Push(next, [SetValue(Shared(Blob, hash), [])]);
    }
  }

  method ReplayPair(p: Policy, e: Format, s: Replay, k: seq<byte>, v: seq<byte>) returns (pushed: Option<Replay>)
    ensures pushed == if s.reading.family == NoFamily then None else Some(PushPair(p, e, s, k, v))
  {
    var c := s.reading.context;
    var next := s;
    match s.reading.family {
      case Property =>
        if c.collection == MAILBOX && k != [] && k[0] == EMAIL_IDS {
          next := Push(s, [AddValue(InDocument(Property, k), v)]);
        } else {
          next := Push(s, [SetValue(InDocument(Property, k), v)]);
        }
      case FtsIndex =>
        if e.version > 1 {
          next := Push(s, [SetValue(InDocument(FtsIndex, k), v)]);
        }
      case Acl => next := Push(s, [SetValue(InDocument(Acl, k), v)]);
      case Blob => next := ReplayBlob(e, s, k, v);
      case Config => next := Push(s, [SetValue(Shared(Config, k), v)]);
      case LookupValue => next := Push(s, [SetValue(Shared(LookupValue, k), v)]);
      case LookupCounter => next := Push(s, [AddValue(Shared(LookupCounter, k), v)]);
      case Directory =>
        if k != [] && k[0] == USED_QUOTA {
          next := Push(s, [AddValue(Shared(Directory, k), v)]);
        } else {
          next := Push(s, [SetValue(Shared(Directory, k), v)]);
        }
      case Queue => next := Push(s, [SetValue(Shared(Queue, k), v)]);
      case Index => next := Push(s, [SetValue(InDocument(Index, k), [])]);
      case Bitmap =>
        if !(e.version == 1 && c.collection == EMAIL && k != [] && k[0] == TEXT_BITMAP) {
          next := ReplayBits(p, s, k, e.documents(v));
        }
      case Log => next := Push(s, [WithChangeId(k), LogEntry(v)]);
      case NoFamily => return None;
    }
    pushed := Some(next);
  }

  method ReplayOp(p: Policy, e: Format, s: Replay, op: Op) returns (next: Option<Replay>)
    ensures next == Apply(p, e, s, op)
  {
    var d := NextReading(e, s.reading, op);
    match op {
      case SetFamily(_) => next := Some(s.(reading := d));
      case AccountId(a) => next := Some(Push(s, [WithAccount(a)]).(reading := d));
      case Collection(c) => next := Some(Push(s, [WithCollection(c)]).(reading := d));
      case DocumentId(n) => next := Some(Push(s, [WithDocument(n)]).(reading := d));
      case KeyValue(k, v) =>
        next := ReplayPair(p, e, Counted(s, k, v), k, v);
        if next.Some? {
          next := Some(next.value.(reading := d));
        }
    }
  }

  /** The restore loop. */
  method Restore(p: Policy, documents: seq<byte> -> seq<u32>, file: seq<byte>) returns (r: Outcome)
    ensures r == RestoreFile(p, documents, file)
  {
    if |file| < 2 || file[0] != MAGIC_MARKER || file[1] > FILE_VERSION {
      return Outcome(false, [], []);
    }
    var e, s, input := Format(file[1], documents), Fresh(), file[2..];
    while input != []
      invariant Replayed(p, e, s, input) == RestoreFile(p, documents, file)
      decreases |input|
    {
      var read := ReadOp(input);
      if read.Failed? {
        return Outcome(false, s.sent, s.puts);
      }
      var next := ReplayOp(p, e, s, read.value);
      if next.None? {
        return Outcome(false, s.sent, s.puts);
      }
      if !SkipsLimits(e, s.reading, read.value) && p.due(|next.value.batch|, next.value.size) {
        s := Flush(next.value);
      } else {
        s := next.value;
      }
      input := read.rest;
    }
    r := Outcome(true, Finish(s), s.puts);
  }

  // ---- Dumping ----

  datatype Record = Record(context: Context, key: seq<byte>, value: seq<byte>)

  // Whether the document is sent with every record, or only when it changes.
  function ContextOps(last: Context, c: Context, always: bool): seq<Op> {
    (if c.account != last.account then [AccountId(c.account)] else [])
    + (if c.collection != last.collection then [Collection(c.collection)] else [])
    + (if always || c.document != last.document then [DocumentId(c.document)] else [])
  }

  function Dump(last: Context, records: seq<Record>, always: bool): seq<Op>
    decreases |records|
  {
    if records == [] then []
    else
      var r := records[0];
      ContextOps(last, r.context, always) + [KeyValue(r.key, r.value)] + Dump(r.context, records[1..], always)
  }

  // The records of one family. A file has one section, or two for the lookup values and counters.
  datatype Section = Section(family: Family, records: seq<Record>, always: bool)

  function SectionDump(last: Context, s: Section): seq<Op> {
    [SetFamily(s.family)] + Dump(last, s.records, s.always)
  }

  function LastContext(last: Context, records: seq<Record>): Context {
    if records == [] then last else records[|records| - 1].context
  }

  function DumpOf(last: Context, sections: seq<Section>): seq<Op>
    decreases |sections|
  {
    if sections == [] then []
    else SectionDump(last, sections[0]) + DumpOf(LastContext(last, sections[0].records), sections[1..])
  }

  method SendContext(ops: seq<Op>, last: Context, c: Context, always: bool) returns (out: seq<Op>)
    ensures out == ops + ContextOps(last, c, always)
  {
    out := ops;
    if c.account != last.account {
      out := out + [AccountId(c.account)];
    }
    if c.collection != last.collection {
      out := out + [Collection(c.collection)];
    }
    if always || c.document != last.document {
      out := out + [DocumentId(c.document)];
    }
  }

  /** The dump loop: context is sent only when it differs from the last one sent. */
  method Backup(first: Context, s: Section) returns (ops: seq<Op>)
    ensures ops == SectionDump(first, s)
  {
    var records, always := s.records, s.always;
    ops := [SetFamily(s.family)];
    var last := first;
    for i := 0 to |records|
      invariant ops + Dump(last, records[i..], always) == SectionDump(first, s)
    {
      var r := records[i];
      assert records[i..][0] == r && records[i..][1..] == records[i + 1..];
      ghost var context, tail := ContextOps(last, r.context, always), Dump(r.context, records[i + 1..], always);
      ghost var before := ops;
      ops := SendContext(ops, last, r.context, always);
      ops := ops + [KeyValue(r.key, r.value)];
      Associate(before, context, [KeyValue(r.key, r.value)]);
      Associate(before, context + [KeyValue(r.key, r.value)], tail);
      last := r.context;
    }
    assert records[|records|..] == [] && ops + [] == ops;
  }

  // ---- What the records mean, each under its own context ----

  function RecordsMeaning(e: Format, f: Family, records: seq<Record>): seq<Effect> {
    if records == [] then []
    else
      var r := records[0];
      PairEffects(e, Reading(r.context, f, 0), r.context.document, r.key, r.value) + RecordsMeaning(e, f, records[1..])
  }

  function RecordsPuts(f: Family, records: seq<Record>): seq<Put> {
    if records == [] then []
    else PutsOf(Reading(records[0].context, f, 0), records[0].key, records[0].value) + RecordsPuts(f, records[1..])
  }

  function SectionsMeaning(e: Format, sections: seq<Section>): seq<Effect> {
    if sections == [] then []
    else RecordsMeaning(e, sections[0].family, sections[0].records) + SectionsMeaning(e, sections[1..])
  }

  function SectionsPuts(sections: seq<Section>): seq<Put> {
    if sections == [] then []
    else RecordsPuts(sections[0].family, sections[0].records) + SectionsPuts(sections[1..])
  }

  // What is said of a dump from a point on.
  datatype Account = Account(effects: seq<Effect>, puts: seq<Put>, familied: bool, settled: bool)

  function Told(e: Format, d: Reading, moved: Option<u32>, ops: seq<Op>): Account {
    Account(Meaning(e, d, ops), PutsMeaning(e, d, ops), Familied(e, d, ops), Settled(e, d, moved, ops))
  }

  lemma ToldHead(e: Format, d: Reading, moved: Option<u32>, op: Op, rest: seq<Op>)
    ensures var next := Told(e, NextReading(e, d, op), NextMoved(e, d, moved, op), rest);
      Told(e, d, moved, [op] + rest) == Account(
        OpEffects(e, d, d.context.document, op) + next.effects,
        (if op.KeyValue? then PutsOf(d, op.key, op.value) else []) + next.puts,
        Readable(d, op) && next.familied,
        (Keyed(e, d, op) ==> Placed(moved, d.context.document)) && next.settled)
  {
    assert ([op] + rest)[1..] == rest;
  }

  // A context operation that is sent, or left out because it would change nothing.
  lemma OptionalTold(e: Format, d: Reading, op: Op, sent: seq<Op>, rest: seq<Op>)
    requires op.AccountId? || op.Collection? || op.DocumentId?
    requires sent == [op] || (sent == [] && NextReading(e, d, op) == d)
    ensures Told(e, d, None, sent + rest) == Told(e, NextReading(e, d, op), None, rest)
  {
    if sent == [op] {
      ToldHead(e, d, None, op, rest);
      var next := Told(e, NextReading(e, d, op), None, rest);
      assert [] + next.effects == next.effects && [] + next.puts == next.puts;
    } else {
      assert sent + rest == rest;
    }
  }

  lemma ContextTold(e: Format, d: Reading, c: Context, always: bool, rest: seq<Op>)
    ensures Told(e, d, None, ContextOps(d.context, c, always) + rest) == Told(e, d.(context := c), None, rest)
  {
    var last := d.context;
    var x := if c.account != last.account then [AccountId(c.account)] else [];
    var y := if c.collection != last.collection then [Collection(c.collection)] else [];
    var z := if always || c.document != last.document then [DocumentId(c.document)] else [];
    assert x + y + z + rest == x + (y + (z + rest));
    var d1 := d.(context := last.(account := c.account));
    var d2 := d1.(context := d1.context.(collection := c.collection));
    OptionalTold(e, d, AccountId(c.account), x, y + (z + rest));
    OptionalTold(e, d1, Collection(c.collection), y, z + rest);
    OptionalTold(e, d2, DocumentId(c.document), z, rest);
  }

  // What is said of some records and of what follows them.
  function Followed(e: Format, f: Family, records: seq<Record>, next: Account): Account {
    next.(effects := RecordsMeaning(e, f, records) + next.effects, puts := RecordsPuts(f, records) + next.puts)
  }

  lemma RecordTold(e: Format, last: Context, f: Family, r: Record, always: bool, tail: seq<Op>)
    requires e.version == FILE_VERSION && f != NoFamily && f != Bitmap
    ensures var d := Reading(r.context, f, 0);
      var next := Told(e, d, None, tail);
      Told(e, Reading(last, f, 0), None, ContextOps(last, r.context, always) + [KeyValue(r.key, r.value)] + tail)
      == next.(effects := PairEffects(e, d, r.context.document, r.key, r.value) + next.effects,
               puts := PutsOf(d, r.key, r.value) + next.puts)
  {
    var d, pair := Reading(r.context, f, 0), KeyValue(r.key, r.value);
    Associate(ContextOps(last, r.context, always), [pair], tail);
    ContextTold(e, Reading(last, f, 0), r.context, always, [pair] + tail);
    ToldHead(e, d, None, pair, tail);
  }

  lemma FollowedHead(e: Format, f: Family, records: seq<Record>, next: Account)
    requires records != []
    ensures var r, rest := records[0], Followed(e, f, records[1..], next);
      var d := Reading(r.context, f, 0);
      Followed(e, f, records, next)
      == rest.(effects := PairEffects(e, d, r.context.document, r.key, r.value) + rest.effects,
               puts := PutsOf(d, r.key, r.value) + rest.puts)
  {
    var r, d := records[0], Reading(records[0].context, f, 0);
    Associate(PairEffects(e, d, r.context.document, r.key, r.value), RecordsMeaning(e, f, records[1..]), next.effects);
    Associate(PutsOf(d, r.key, r.value), RecordsPuts(f, records[1..]), next.puts);
  }

  // Dumps of a family other than the bitmaps set no bits.
  lemma {:induction false} DumpTold(e: Format, last: Context, f: Family, records: seq<Record>, always: bool, rest: seq<Op>)
    requires e.version == FILE_VERSION && f != NoFamily && f != Bitmap
    ensures Told(e, Reading(last, f, 0), None, Dump(last, records, always) + rest)
         == Followed(e, f, records, Told(e, Reading(LastContext(last, records), f, 0), None, rest))
    decreases |records|
  {
    if records == [] {
      assert [] + rest == rest;
      var next := Told(e, Reading(last, f, 0), None, rest);
      assert [] + next.effects == next.effects && [] + next.puts == next.puts;
    } else {
      var r, next := records[0], Told(e, Reading(LastContext(last, records), f, 0), None, rest);
      DumpHead(last, records, always, rest);
      RecordTold(e, last, f, r, always, Dump(r.context, records[1..], always) + rest);
      DumpTold(e, r.context, f, records[1..], always, rest);
      LastOfRest(last, records);
      FollowedHead(e, f, records, next);
    }
  }

  lemma DumpHead(last: Context, records: seq<Record>, always: bool, rest: seq<Op>)
    requires records != []
    ensures var r := records[0];
      Dump(last, records, always) + rest
      == ContextOps(last, r.context, always) + [KeyValue(r.key, r.value)] + (Dump(r.context, records[1..], always) + rest)
  {
    var r := records[0];
    Associate(ContextOps(last, r.context, always) + [KeyValue(r.key, r.value)], Dump(r.context, records[1..], always), rest);
  }

  lemma LastOfRest(last: Context, records: seq<Record>)
    requires records != []
    ensures LastContext(records[0].context, records[1..]) == LastContext(last, records)
  {
  }

  // Dumps of bitmaps keep nothing under a document, so where the bits lead does not matter.
  predicate NothingKeyed(ops: seq<Op>) {
    forall i | 0 <= i < |ops| :: !ops[i].SetFamily?
  }

  lemma {:induction false} BitmapsSettle(e: Format, d: Reading, moved: Option<u32>, moved': Option<u32>, ops: seq<Op>)
    requires d.family == Bitmap && NothingKeyed(ops)
    ensures Told(e, d, moved, ops) == Told(e, d, moved', ops)
    decreases |ops|
  {
    if ops != [] {
      var op := ops[0];
      assert [op] + ops[1..] == ops;
      ToldHead(e, d, moved, op, ops[1..]);
      ToldHead(e, d, moved', op, ops[1..]);
      BitmapsSettle(e, NextReading(e, d, op), NextMoved(e, d, moved, op), NextMoved(e, d, moved', op), ops[1..]);
    }
  }

  lemma {:induction false} DumpsKeepFamily(last: Context, records: seq<Record>, always: bool)
    ensures NothingKeyed(Dump(last, records, always))
    decreases |records|
  {
    if records != [] {
      DumpsKeepFamily(records[0].context, records[1..], always);
    }
  }

  lemma {:induction false} BitmapDumpTold(e: Format, last: Context, records: seq<Record>, always: bool)
    requires e.version == FILE_VERSION
    ensures Told(e, Reading(last, Bitmap, 0), None, Dump(last, records, always))
         == Account(RecordsMeaning(e, Bitmap, records), RecordsPuts(Bitmap, records), true, true)
    decreases |records|
  {
    if records != [] {
      var r, tail := records[0], Dump(records[0].context, records[1..], always);
      var d, pair := Reading(r.context, Bitmap, 0), KeyValue(r.key, r.value);
      Associate(ContextOps(last, r.context, always), [pair], tail);
      ContextTold(e, Reading(last, Bitmap, 0), r.context, always, [pair] + tail);
      ToldHead(e, d, None, pair, tail);
      DumpsKeepFamily(r.context, records[1..], always);
      BitmapsSettle(e, d, NextMoved(e, d, None, pair), None, tail);
      BitmapDumpTold(e, r.context, records[1..], always);
    }
  }

  predicate StorableRecords(records: seq<Record>) {
    forall i | 0 <= i < |records| :: |records[i].key| < 0x1_0000_0000 && |records[i].value| < 0x1_0000_0000
  }

  lemma {:induction false} DumpIsStorable(last: Context, records: seq<Record>, always: bool)
    requires StorableRecords(records)
    ensures forall i | 0 <= i < |Dump(last, records, always)| :: Storable(Dump(last, records, always)[i])
    decreases |records|
  {
    if records != [] {
      DumpIsStorable(records[0].context, records[1..], always);
    }
  }

  // Bitmaps, if any, are the last section.
  predicate BitmapsLast(sections: seq<Section>) {
    && (forall i | 0 <= i < |sections| :: sections[i].family != NoFamily)
    && (forall i | 0 <= i < |sections| - 1 :: sections[i].family != Bitmap)
  }

  lemma SectionTold(e: Format, d: Reading, s: Section, rest: seq<Op>)
    ensures Told(e, d, None, SectionDump(d.context, s) + rest)
         == Told(e, d.(family := s.family), None, Dump(d.context, s.records, s.always) + rest)
  {
    var dump := Dump(d.context, s.records, s.always) + rest;
    Associate([SetFamily(s.family)], Dump(d.context, s.records, s.always), rest);
    ToldHead(e, d, None, SetFamily(s.family), dump);
    var next := Told(e, d.(family := s.family), None, dump);
    assert [] + next.effects == next.effects && [] + next.puts == next.puts;
  }

  lemma BitmapSectionTold(e: Format, d: Reading, s: Section)
    requires e.version == FILE_VERSION && d.queued == 0 && s.family == Bitmap
    ensures Told(e, d, None, DumpOf(d.context, [s]))
         == Account(RecordsMeaning(e, s.family, s.records), RecordsPuts(s.family, s.records), true, true)
  {
    var dump := Dump(d.context, s.records, s.always);
    assert [s][1..] == [] && DumpOf(d.context, [s]) == SectionDump(d.context, s) + [];
    SectionTold(e, d, s, []);
    assert dump + [] == dump;
    BitmapDumpTold(e, d.context, s.records, s.always);
  }

  lemma {:induction false} WholeDumpTold(e: Format, d: Reading, sections: seq<Section>)
    requires e.version == FILE_VERSION && d.queued == 0 && BitmapsLast(sections)
    ensures Told(e, d, None, DumpOf(d.context, sections))
         == Account(SectionsMeaning(e, sections), SectionsPuts(sections), true, true)
    decreases |sections|
  {
    if sections != [] {
      var s, rest := sections[0], sections[1..];
      if s.family == Bitmap {
        assert sections == [s];
        BitmapSectionTold(e, d, s);
      } else {
        var last := LastContext(d.context, s.records);
        SectionTold(e, d, s, DumpOf(last, rest));
        DumpTold(e, d.context, s.family, s.records, s.always, DumpOf(last, rest));
        WholeDumpTold(e, Reading(last, s.family, 0), rest);
      }
    }
  }

  predicate AllStorable(ops: seq<Op>) {
    forall i | 0 <= i < |ops| :: Storable(ops[i])
  }

  lemma StorableBoth(a: seq<Op>, b: seq<Op>)
    requires AllStorable(a) && AllStorable(b)
    ensures AllStorable(a + b)
  {
  }

  lemma {:induction false} SectionsAreStorable(last: Context, sections: seq<Section>)
    requires forall i | 0 <= i < |sections| :: sections[i].family != NoFamily && StorableRecords(sections[i].records)
    ensures AllStorable(DumpOf(last, sections))
    decreases |sections|
  {
    if sections != [] {
      var s, next := sections[0], LastContext(last, sections[0].records);
      DumpIsStorable(last, s.records, s.always);
      SectionsAreStorable(next, sections[1..]);
      StorableBoth([SetFamily(s.family)], Dump(last, s.records, s.always));
      StorableBoth(SectionDump(last, s), DumpOf(next, sections[1..]));
    }
  }

  /** For all records and limits: restoring a dump does to the store what each record means under the context it
      was dumped from, once and in order, and gives the blob store its blobs. */
  lemma BackupThenRestore(p: Policy, documents: seq<byte> -> seq<u32>, sections: seq<Section>)
    requires BitmapsLast(sections) && forall i | 0 <= i < |sections| :: StorableRecords(sections[i].records)
    ensures var r := RestoreFile(p, documents, FileOf(DumpOf(NO_CONTEXT, sections)));
      && r.complete
      && CommitAll(r.sent) == SectionsMeaning(Format(FILE_VERSION, documents), sections)
      && r.puts == SectionsPuts(sections)
  {
    var e, ops := Format(FILE_VERSION, documents), DumpOf(NO_CONTEXT, sections);
    var file := FileOf(ops);
    SectionsAreStorable(NO_CONTEXT, sections);
    FileRoundTrip(ops);
    WholeDumpTold(e, UNREAD, sections);
    RestoreCompletes(p, documents, file);
    RestoreMeans(p, documents, file);
  }

  // The counters: a lookup counter, the next uid of a mailbox, the quota a principal uses.
  predicate CountsUp(f: Family, r: Record) {
    || f == LookupCounter
    || (f == Property && r.context.collection == 1 && r.key != [] && r.key[0] == 84)
    || (f == Directory && r.key != [] && r.key[0] == 4)
  }

  predicate HeldByDocument(r: Record) {
    r.context.account != 0xFFFF_FFFF && r.context.document != 0xFFFF_FFFF
  }

  // One record of a family that keeps the pair itself.
  function RecordEffect(f: Family, r: Record): Effect {
    var place :=
      match f
      case Property | FtsIndex | Acl | Index => UnderDocument(r.context, InDocument(f, r.key))
      case Blob => if HeldByDocument(r) then UnderDocument(r.context, InDocument(f, r.key)) else Everywhere(Shared(f, r.key))
      case _ => Everywhere(Shared(f, r.key));
    if CountsUp(f, r) then Increased(place, r.value)
    else Stored(place, if f == Blob || f == Index then [] else r.value)
  }

  lemma RecordOp(e: Format, f: Family, r: Record)
    requires e.version == FILE_VERSION && f != Bitmap && f != Log
    ensures var ops := ValueOps(e, Reading(r.context, f, 0), r.key, r.value);
      ops == [ops[0]] && Do(Cursor(r.context, []), ops[0]) == [RecordEffect(f, r)]
  {
  }

  lemma OneRecord(e: Format, f: Family, r: Record)
    requires e.version == FILE_VERSION && f != Bitmap && f != Log
    ensures PairEffects(e, Reading(r.context, f, 0), r.context.document, r.key, r.value) == [RecordEffect(f, r)]
  {
    assert r.context.(document := r.context.document) == r.context;
    RecordOp(e, f, r);
    CommitOne(ValueOps(e, Reading(r.context, f, 0), r.key, r.value)[0], Cursor(r.context, []));
  }

  function EffectsOf(f: Family, records: seq<Record>): seq<Effect> {
    seq(|records|, i requires 0 <= i < |records| => RecordEffect(f, records[i]))
  }

  lemma EffectsUnfold(f: Family, records: seq<Record>)
    requires records != []
    ensures EffectsOf(f, records) == [RecordEffect(f, records[0])] + EffectsOf(f, records[1..])
  {
  }

  /** Read off for those families: a value stored or a counter increased per record, at its own document or at the
      key shared by the store; a blob leaves its link or its mark, and its bytes go to the blob store. */
  lemma {:induction false} EachRecordOnce(documents: seq<byte> -> seq<u32>, f: Family, records: seq<Record>)
    requires f != Bitmap && f != Log
    ensures RecordsMeaning(Format(FILE_VERSION, documents), f, records) == EffectsOf(f, records)
    decreases |records|
  {
    if records != [] {
      EffectsUnfold(f, records);
      OneRecord(Format(FILE_VERSION, documents), f, records[0]);
      EachRecordOnce(documents, f, records[1..]);
    }
  }
}
