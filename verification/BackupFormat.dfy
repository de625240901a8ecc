/** The backup file: operations with delta-encoded context, written and read back as bytes. */
module BackupFormat {
  import opened Wrappers
  import opened Decimal
  import opened Sequences
  import Words

  const MAGIC_MARKER: byte := 123
  const FILE_VERSION: byte := 2

  type u32 = Words.u32

  const U32_MAX: u32 := 0xFFFF_FFFF
  const U8_MAX: byte := 255

  datatype Family =
    | Property | FtsIndex | Acl | Blob | Config | LookupValue | LookupCounter
    | Directory | Queue | Index | Bitmap | Log
    | NoFamily

  function FamilyCode(f: Family): byte {
    match f
    case Property => 0
    case FtsIndex => 1
    case Acl => 2
    case Blob => 3
    case Config => 4
    case LookupValue => 5
    case LookupCounter => 6
    case Directory => 7
    case Queue => 8
    case Index => 9
    case Bitmap => 10
    case Log => 11
    case NoFamily => 255
  }

  function FamilyFrom(b: byte): Option<Family> {
    if b == 0 then Some(Property)
    else if b == 1 then Some(FtsIndex)
    else if b == 2 then Some(Acl)
    else if b == 3 then Some(Blob)
    else if b == 4 then Some(Config)
    else if b == 5 then Some(LookupValue)
    else if b == 6 then Some(LookupCounter)
    else if b == 7 then Some(Directory)
    else if b == 8 then Some(Queue)
    else if b == 9 then Some(Index)
    else if b == 10 then Some(Bitmap)
    else if b == 11 then Some(Log)
    else None
  }

  datatype Op =
    | SetFamily(family: Family)
    | AccountId(account: u32)
    | Collection(collection: byte)
    | DocumentId(document: u32)
    | KeyValue(key: seq<byte>, value: seq<byte>)

  // ---- Bytes ----

  function Be32(n: u32): (b: seq<byte>)
    ensures |b| == 4
  {
    var n8 := n / 256;
    var n16 := n8 / 256;
    [n16 / 256, n16 % 256, n8 % 256, n % 256]
  }

  function FromBe32(b: seq<byte>): u32
    requires |b| == 4
  {
    var b0: nat, b1: nat, b2: nat, b3: nat := b[0], b[1], b[2], b[3];
    ((b0 * 256 + b1) * 256 + b2) * 256 + b3
  }

  lemma Be32RoundTrip(n: u32)
    ensures FromBe32(Be32(n)) == n
  {
  }

  // `len as u32`
  function Length32(s: seq<byte>): u32 {
    |s| % 0x1_0000_0000
  }

  function Sized(s: seq<byte>): seq<byte> {
    Be32(Length32(s)) + s
  }

  function Serialize(op: Op): (b: seq<byte>)
    ensures b != []
  {
    match op
    case SetFamily(f) => [0, FamilyCode(f)]
    case KeyValue(k, v) => [if v != [] then 1 else 2] + Sized(k) + (if v != [] then Sized(v) else [])
    case AccountId(a) => [3] + Be32(a)
    case Collection(c) => [4, c]
    case DocumentId(d) => [5] + Be32(d)
  }

  function SerializeAll(ops: seq<Op>): seq<byte> {
    if ops == [] then [] else Serialize(ops[0]) + SerializeAll(ops[1..])
  }

  function FileOf(ops: seq<Op>): seq<byte> {
    [MAGIC_MARKER, FILE_VERSION] + SerializeAll(ops)
  }

  method EmitSized(file: seq<byte>, s: seq<byte>) returns (out: seq<byte>)
    ensures out == file + Sized(s)
  {
    out := file + Be32(Length32(s));
    Associate(file, Be32(Length32(s)), s);
    out := out + s;
  }

  method EmitPair(file: seq<byte>, k: seq<byte>, v: seq<byte>) returns (out: seq<byte>)
    ensures out == file + Serialize(KeyValue(k, v))
  {
    var tag := [if v != [] then 1 else 2];
    out := EmitSized(file + tag, k);
    Associate(file, tag, Sized(k));
    if v != [] {
      Associate(file, tag + Sized(k), Sized(v));
      out := EmitSized(out, v);
    } else {
      assert tag + Sized(k) + [] == tag + Sized(k);
    }
  }

  method EmitOp(file: seq<byte>, op: Op) returns (out: seq<byte>)
    ensures out == file + Serialize(op)
  {
    out := file;
    match op {
      case SetFamily(f) => out := out + [0, FamilyCode(f)];
      case KeyValue(k, v) => out := EmitPair(out, k, v);
      case AccountId(a) => out := out + ([3] + Be32(a));
      case Collection(c) => out := out + [4, c];
      case DocumentId(d) => out := out + ([5] + Be32(d));
    }
  }

  /** The writer loop. */
  method WriteFile(ops: seq<Op>) returns (file: seq<byte>)
    ensures file == FileOf(ops)
  {
    file := [MAGIC_MARKER, FILE_VERSION];
    for i := 0 to |ops|
      invariant file + SerializeAll(ops[i..]) == FileOf(ops)
    {
      assert ops[i..][0] == ops[i] && ops[i..][1..] == ops[i + 1..];
      Associate(file, Serialize(ops[i]), SerializeAll(ops[i + 1..]));
      file := EmitOp(file, ops[i]);
    }
    assert ops[|ops|..] == [] && file + [] == file;
  }

  // A failed read ends the process.
  datatype Read<T> = Got(value: T, rest: seq<byte>) | EndOfFile | Failed

  function ReadU32(b: seq<byte>): Read<u32> {
    if |b| < 4 then Failed else Got(FromBe32(b[..4]), b[4..])
  }

  function ReadSized(b: seq<byte>): Read<seq<byte>> {
    var len := ReadU32(b);
    if !len.Got? || |len.rest| < len.value then Failed
    else Got(len.rest[..len.value], len.rest[len.value..])
  }

  function ReadOp(b: seq<byte>): (r: Read<Op>)
    ensures r.Got? ==> |r.rest| < |b|
  {
    if b == [] then EndOfFile
    else
      var body := b[1..];
      if b[0] == 0 then
        if body == [] || FamilyFrom(body[0]).None? then Failed
        else Got(SetFamily(FamilyFrom(body[0]).value), body[1..])
      else if b[0] == 1 then
        var key := ReadSized(body);
        if !key.Got? then Failed
        else
          var value := ReadSized(key.rest);
          if !value.Got? then Failed else Got(KeyValue(key.value, value.value), value.rest)
      else if b[0] == 2 then
        var key := ReadSized(body);
        if !key.Got? then Failed else Got(KeyValue(key.value, []), key.rest)
      else if b[0] == 3 then
        var a := ReadU32(body);
        if !a.Got? then Failed else Got(AccountId(a.value), a.rest)
      else if b[0] == 4 then
        if body == [] then Failed else Got(Collection(body[0]), body[1..])
      else if b[0] == 5 then
        var d := ReadU32(body);
        if !d.Got? then Failed else Got(DocumentId(d.value), d.rest)
      else Failed
  }

  function ReadOps(b: seq<byte>): Option<seq<Op>>
    decreases |b|
  {
    match ReadOp(b)
    case EndOfFile => Some([])
    case Failed => None
    case Got(op, rest) =>
      var more := ReadOps(rest);
      if more.None? then None else Some([op] + more.value)
  }

  function ReadFile(file: seq<byte>): Option<seq<Op>> {
    if |file| < 2 || file[0] != MAGIC_MARKER || file[1] > FILE_VERSION then None
    else ReadOps(file[2..])
  }

  // What the format can carry: a family other than none, lengths that fit in 32 bits.
  predicate Storable(op: Op) {
    match op
    case SetFamily(f) => f != NoFamily
    case KeyValue(k, v) => |k| < 0x1_0000_0000 && |v| < 0x1_0000_0000
    case _ => true
  }

  lemma ReadWrittenU32(n: u32, rest: seq<byte>)
    ensures ReadU32(Be32(n) + rest) == Got(n, rest)
  {
    Be32RoundTrip(n);
    assert (Be32(n) + rest)[..4] == Be32(n) && (Be32(n) + rest)[4..] == rest;
  }

  lemma ReadWrittenSized(s: seq<byte>, rest: seq<byte>)
    requires |s| < 0x1_0000_0000
    ensures ReadSized(Sized(s) + rest) == Got(s, rest)
  {
    assert Length32(s) == |s|;
    assert Sized(s) + rest == Be32(|s|) + (s + rest);
    ReadWrittenU32(|s|, s + rest);
    assert (s + rest)[..|s|] == s && (s + rest)[|s|..] == rest;
  }

  lemma ReadWrittenPair(k: seq<byte>, v: seq<byte>, rest: seq<byte>)
    requires |k| < 0x1_0000_0000 && |v| < 0x1_0000_0000
    ensures ReadOp(Serialize(KeyValue(k, v)) + rest) == Got(KeyValue(k, v), rest)
  {
    var b := Serialize(KeyValue(k, v)) + rest;
    if v != [] {
      assert b[1..] == Sized(k) + (Sized(v) + rest);
      ReadWrittenSized(k, Sized(v) + rest);
      ReadWrittenSized(v, rest);
    } else {
      assert b[1..] == Sized(k) + rest;
      ReadWrittenSized(k, rest);
    }
  }

  /** Reading back a written operation. */
  lemma ReadWritten(op: Op, rest: seq<byte>)
    requires Storable(op)
    ensures ReadOp(Serialize(op) + rest) == Got(op, rest)
  {
    var b := Serialize(op) + rest;
    match op
    case SetFamily(f) => assert b[1..][1..] == rest && b[1] == FamilyCode(f);
    case KeyValue(k, v) => ReadWrittenPair(k, v, rest);
    case AccountId(a) =>
      assert b[1..] == Be32(a) + rest;
      ReadWrittenU32(a, rest);
    case Collection(_) => assert b[1..][1..] == rest;
    case DocumentId(d) =>
      assert b[1..] == Be32(d) + rest;
      ReadWrittenU32(d, rest);
  }

  lemma {:induction false} ReadWrittenOps(ops: seq<Op>)
    requires forall i | 0 <= i < |ops| :: Storable(ops[i])
    ensures ReadOps(SerializeAll(ops)) == Some(ops)
    decreases |ops|
  {
    if ops != [] {
      ReadWritten(ops[0], SerializeAll(ops[1..]));
      ReadWrittenOps(ops[1..]);
      assert [ops[0]] + ops[1..] == ops;
    }
  }

  /** Reading back a written file. */
  lemma FileRoundTrip(ops: seq<Op>)
    requires forall i | 0 <= i < |ops| :: Storable(ops[i])
    ensures ReadFile(FileOf(ops)) == Some(ops)
  {
    ReadWrittenOps(ops);
    assert FileOf(ops)[2..] == SerializeAll(ops);
  }
}
