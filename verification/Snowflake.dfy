/** Snowflake ids: 43 bits of milliseconds, 9 of node, 12 of sequence. */
module Snowflake {
  import opened Wrappers

  const SEQUENCES := 4096
  const NODES := 512
  const U64_RANGE := 0x1_0000_0000_0000_0000
  const ELAPSED_RANGE := 0x800_0000_0000

  // A shift left by the lower fields drops the bits that no longer fit.
  function Shifted(elapsed: nat): nat {
    elapsed * 2097152 % U64_RANGE
  }

  function Id(elapsed: nat, node: nat, sequence: nat): nat {
    Shifted(elapsed) + node % 512 * 4096 + sequence % 4096
  }

  // Bitwise operations on naturals, from the lowest bit up.

  function BitAnd(a: nat, b: nat): nat {
    if a == 0 then 0 else 2 * BitAnd(a / 2, b / 2) + (if a % 2 == 1 && b % 2 == 1 then 1 else 0)
  }

  function BitOr(a: nat, b: nat): nat
    decreases a + b
  {
    if a == 0 && b == 0 then 0 else 2 * BitOr(a / 2, b / 2) + (if a % 2 == 1 || b % 2 == 1 then 1 else 0)
  }

  function Pow2(k: nat): (p: nat)
    ensures p >= 1
  {
    if k == 0 then 1 else 2 * Pow2(k - 1)
  }

  lemma AndOdd(x: nat, p: nat)
    requires p >= 1
    ensures BitAnd(x, 2 * p - 1) == 2 * BitAnd(x / 2, p - 1) + x % 2
  {
    assert (2 * p - 1) / 2 == p - 1 && (2 * p - 1) % 2 == 1;
  }

  lemma Doubled(x: nat, q: nat, p: nat, r: nat)
    requires x / 2 == q * p + r
    ensures x == q * (2 * p) + (2 * r + x % 2)
  {
    assert q * (2 * p) == 2 * (q * p);
  }

  // A mask of ones keeps what lies below the power of two.
  lemma {:induction false} MaskSplits(x: nat, k: nat) returns (q: nat)
    ensures x == q * Pow2(k) + BitAnd(x, Pow2(k) - 1) && BitAnd(x, Pow2(k) - 1) < Pow2(k)
    decreases k
  {
    if k == 0 {
      q := x;
      AndZero(x);
    } else {
      var p := Pow2(k - 1);
      q := MaskSplits(x / 2, k - 1);
      AndOdd(x, p);
      Doubled(x, q, p, BitAnd(x / 2, p - 1));
    }
  }

  lemma {:induction false} AndZero(x: nat)
    ensures BitAnd(x, 0) == 0
    decreases x
  {
    if x != 0 {
      AndZero(x / 2);
    }
  }

  lemma {:induction false} OrZero(x: nat)
    ensures BitOr(x, 0) == x
    decreases x
  {
    if x != 0 {
      OrZero(x / 2);
    }
  }

  lemma OrEven(x: nat, b: nat)
    ensures BitOr(2 * x, b) == 2 * BitOr(x, b / 2) + b % 2
  {
  }

  // Joining a number to one whose bits are all higher is adding it.
  lemma {:induction false} OrAbove(q: nat, k: nat, b: nat)
    requires b < Pow2(k)
    ensures BitOr(q * Pow2(k), b) == q * Pow2(k) + b
    decreases k
  {
    if k == 0 {
      OrZero(q);
    } else {
      var p := Pow2(k - 1);
      assert q * (2 * p) == 2 * (q * p);
      OrAbove(q, k - 1, b / 2);
      OrEven(q * p, b);
    }
  }

  lemma NodeRemainder(x: nat, q: nat, r: nat)
    requires x == q * 512 + r && r < 512
    ensures x % 512 == r
  {
  }

  lemma SequenceRemainder(x: nat, q: nat, r: nat)
    requires x == q * 4096 + r && r < 4096
    ensures x % 4096 == r
  {
  }

  lemma Powers()
    ensures Pow2(9) == NODES && Pow2(12) == SEQUENCES && Pow2(21) == 2097152
  {
    assert Pow2(4) == 16;
    assert Pow2(8) == 256;
    assert Pow2(12) == 4096;
    assert Pow2(16) == 65536;
    assert Pow2(20) == 1048576;
  }

  lemma NodeMask(node: nat)
    ensures BitAnd(node, NODES - 1) == node % NODES
  {
    Powers();
    var q := MaskSplits(node, 9);
    NodeRemainder(node, q, BitAnd(node, Pow2(9) - 1));
  }

  lemma SequenceMask(sequence: nat)
    ensures BitAnd(sequence, SEQUENCES - 1) == sequence % SEQUENCES
  {
    Powers();
    var q := MaskSplits(sequence, 12);
    SequenceRemainder(sequence, q, BitAnd(sequence, Pow2(12) - 1));
  }

  lemma JoinsAdd(m: nat, n: nat, s: nat)
    requires n < NODES && s < SEQUENCES
    ensures BitOr(BitOr(m * 2097152, n * SEQUENCES), s) == m * 2097152 + n * SEQUENCES + s
  {
    Powers();
    OrAbove(m, 21, n * SEQUENCES);
    OrAbove(m * NODES + n, 12, s);
  }

  /** The id is the three masked and shifted fields joined bit by bit: they share no bit. */
  lemma FieldsAreDisjoint(elapsed: nat, node: nat, sequence: nat)
    ensures BitOr(BitOr(Shifted(elapsed), BitAnd(node, NODES - 1) * SEQUENCES), BitAnd(sequence, SEQUENCES - 1))
         == Id(elapsed, node, sequence)
  {
    NodeMask(node);
    SequenceMask(sequence);
    ShiftedMultiple(elapsed);
    JoinsAdd(Shifted(elapsed) / 2097152, node % NODES, sequence % SEQUENCES);
  }

  // Even when the milliseconds no longer fit, the shifted part leaves the lower fields alone.
  lemma ShiftedMultiple(elapsed: nat)
    ensures Shifted(elapsed) % 2097152 == 0
  {
    var q, r := elapsed * 2097152 / U64_RANGE, Shifted(elapsed);
    assert elapsed * 2097152 == q * U64_RANGE + r;
    assert r == (elapsed - q * 0x800_0000_0000) * 2097152;
  }

  lemma ShiftedFits(elapsed: nat)
    requires elapsed < ELAPSED_RANGE
    ensures Shifted(elapsed) == elapsed * 2097152
  {
  }

  /** All three fields can be read back while the milliseconds fit. */
  lemma FieldsRecovered(elapsed: nat, node: nat, sequence: nat)
    requires elapsed < ELAPSED_RANGE
    ensures var id := Id(elapsed, node, sequence);
      && id < U64_RANGE
      && id / 2097152 == elapsed
      && id / 4096 % 512 == node % 512
      && id % 4096 == sequence % 4096
  {
    ShiftedFits(elapsed);
    var n, s := node % 512, sequence % 4096;
    assert Id(elapsed, node, sequence) == (elapsed * 512 + n) * 4096 + s;
  }

  lemma SameId(elapsed: nat, node: nat, sequence: nat, elapsed': nat, node': nat, sequence': nat)
    requires elapsed < ELAPSED_RANGE && elapsed' < ELAPSED_RANGE
    ensures Id(elapsed, node, sequence) == Id(elapsed', node', sequence')
       <==> elapsed == elapsed' && node % 512 == node' % 512 && sequence % 4096 == sequence' % 4096
  {
    FieldsRecovered(elapsed, node, sequence);
    FieldsRecovered(elapsed', node', sequence');
  }

  // ---- The generator ----

  class Generator {
    const node: nat
    var sequence: nat

    constructor (node: nat)
      ensures this.node == node && sequence == 0
    {
      this.node, sequence := node, 0;
    }

    /** Before the epoch there is no id, and no sequence number is used up. */
    method Generate(elapsed: Option<nat>) returns (id: Option<nat>)
      modifies this
      ensures elapsed.None? ==> id == None && sequence == old(sequence)
      ensures elapsed.Some? ==> id == Some(Id(elapsed.value, node, old(sequence))) && sequence == old(sequence) + 1
    {
      if elapsed.None? {
        return None;
      }
      var n := sequence;
      sequence := sequence + 1;
      id := Some(Shifted(elapsed.value) + node % 512 * 4096 + n % 4096);
    }

    /** A run of calls. */
    method GenerateAll(times: seq<Option<nat>>) returns (ids: seq<nat>)
      modifies this
      ensures ids == Ids(Elapsed(times), node, old(sequence))
    {
      ids := [];
      for i := 0 to |times|
        invariant sequence == old(sequence) + |ids|
        invariant ids + Ids(Elapsed(times[i..]), node, sequence) == Ids(Elapsed(times), node, old(sequence))
      {
        assert times[i..][0] == times[i] && times[i..][1..] == times[i + 1..];
        var id := Generate(times[i]);
        if id.Some? {
          ids := ids + [id.value];
        }
      }
    }
  }

  // The readings that are not before the epoch.
  function Elapsed(times: seq<Option<nat>>): seq<nat> {
    if times == [] then []
    else if times[0].None? then Elapsed(times[1..])
    else [times[0].value] + Elapsed(times[1..])
  }

  function Ids(times: seq<nat>, node: nat, sequence: nat): (ids: seq<nat>)
    ensures |ids| == |times|
  {
    if times == [] then [] else [Id(times[0], node, sequence)] + Ids(times[1..], node, sequence + 1)
  }

  lemma {:induction false} IdAt(times: seq<nat>, node: nat, sequence: nat, i: nat)
    requires i < |times|
    ensures Ids(times, node, sequence)[i] == Id(times[i], node, sequence + i)
    decreases i
  {
    if i > 0 {
      IdAt(times[1..], node, sequence + 1, i - 1);
    }
  }

  predicate Clocked(times: seq<nat>) {
    && (forall i | 0 <= i < |times| :: times[i] < ELAPSED_RANGE)
    && (forall i, j | 0 <= i < j < |times| :: times[i] <= times[j])
  }

  predicate Distinct(ids: seq<nat>) {
    forall i, j | 0 <= i < j < |ids| :: ids[i] != ids[j]
  }

  function CallsAt(times: seq<nat>, t: nat): nat {
    if times == [] then 0 else (if times[0] == t then 1 else 0) + CallsAt(times[1..], t)
  }

  ghost predicate WithinCapacity(times: seq<nat>) {
    forall t :: CallsAt(times, t) <= SEQUENCES
  }

  // Calls n apart fall in different milliseconds.
  predicate Spread(times: seq<nat>, n: nat) {
    forall i | 0 <= i && i + n < |times| :: times[i] < times[i + n]
  }

  lemma {:induction false} NoCallsAt(times: seq<nat>, t: nat)
    requires forall i | 0 <= i < |times| :: times[i] != t
    ensures CallsAt(times, t) == 0
    decreases |times|
  {
    if times != [] {
      NoCallsAt(times[1..], t);
    }
  }

  lemma {:induction false} CallsBelow(times: seq<nat>, t: nat, n: nat)
    requires Clocked(times) && n > 0 && Spread(times, n)
    ensures CallsAt(times, t) <= n
    decreases |times|
  {
    if times != [] {
      if times[0] == t {
        CallsInFront(times, t, n);
      } else {
        assert Spread(times[1..], n) by {
          forall i | 0 <= i && i + n < |times[1..]| ensures times[1..][i] < times[1..][i + n] {
            assert times[i + 1] < times[i + 1 + n];
          }
        }
        CallsBelow(times[1..], t, n);
      }
    }
  }

  lemma {:induction false} CallsInFront(times: seq<nat>, t: nat, n: nat)
    requires Clocked(times) && (n < |times| ==> t < times[n])
    ensures CallsAt(times, t) <= n
    decreases n
  {
    if n == 0 {
      NoCallsAt(times, t);
    } else if times != [] {
      CallsInFront(times[1..], t, n - 1);
    }
  }

  lemma {:induction false} CallsAbove(times: seq<nat>, i: nat, n: nat)
    requires Clocked(times) && i + n < |times| && times[i] == times[i + n]
    ensures CallsAt(times, times[i]) > n
    decreases i, n
  {
    if i > 0 {
      CallsAbove(times[1..], i - 1, n);
    } else if n > 0 {
      CallsAbove(times[1..], 0, n - 1);
    }
  }

  lemma CapacityIsSpread(times: seq<nat>)
    requires Clocked(times)
    ensures WithinCapacity(times) <==> Spread(times, SEQUENCES)
  {
    if WithinCapacity(times) {
      forall i | 0 <= i && i + SEQUENCES < |times| ensures times[i] < times[i + SEQUENCES] {
        if times[i] == times[i + SEQUENCES] {
          CallsAbove(times, i, SEQUENCES);
        }
      }
    }
    if Spread(times, SEQUENCES) {
      forall t ensures CallsAt(times, t) <= SEQUENCES {
        CallsBelow(times, t, SEQUENCES);
      }
    }
  }

  lemma SequencesDiffer(a: nat, d: nat)
    requires 0 < d < 4096
    ensures (a + d) % 4096 != a % 4096
  {
  }

  lemma IdsDiffer(times: seq<nat>, node: nat, sequence: nat, i: nat, j: nat)
    requires Clocked(times) && Spread(times, SEQUENCES) && i < j < |times|
    ensures Ids(times, node, sequence)[i] != Ids(times, node, sequence)[j]
  {
    IdAt(times, node, sequence, i);
    IdAt(times, node, sequence, j);
    SameId(times[i], node, sequence + i, times[j], node, sequence + j);
    if j - i < SEQUENCES {
      SequencesDiffer(sequence + i, j - i);
    } else {
      assert times[i] < times[i + SEQUENCES] && (i + SEQUENCES < j ==> times[i + SEQUENCES] <= times[j]);
    }
  }

  lemma SequencesMeet(a: nat)
    ensures (a + 4096) % 4096 == a % 4096
  {
  }

  lemma IdsMeet(times: seq<nat>, node: nat, sequence: nat, i: nat)
    requires Clocked(times) && i + SEQUENCES < |times| && times[i] >= times[i + SEQUENCES]
    ensures Ids(times, node, sequence)[i] == Ids(times, node, sequence)[i + SEQUENCES]
  {
    SequencesMeet(sequence + i);
    assert times[i] == times[i + SEQUENCES];
    IdAt(times, node, sequence, i);
    IdAt(times, node, sequence, i + SEQUENCES);
    SameId(times[i], node, sequence + i, times[i + SEQUENCES], node, sequence + i + SEQUENCES);
  }

  lemma SpreadIsDistinct(times: seq<nat>, node: nat, sequence: nat)
    requires Clocked(times)
    ensures Spread(times, SEQUENCES) <==> Distinct(Ids(times, node, sequence))
  {
    var ids := Ids(times, node, sequence);
    if Spread(times, SEQUENCES) {
      forall i, j | 0 <= i < j < |ids| ensures ids[i] != ids[j] {
        IdsDiffer(times, node, sequence, i, j);
      }
    } else {
      var i :| 0 <= i && i + SEQUENCES < |times| && !(times[i] < times[i + SEQUENCES]);
      IdsMeet(times, node, sequence, i);
    }
  }

  /** The ids of a run are distinct exactly when no millisecond sees more than 4096 calls. */
  lemma DistinctExactly(times: seq<nat>, node: nat, sequence: nat)
    requires Clocked(times)
    ensures Distinct(Ids(times, node, sequence)) <==> WithinCapacity(times)
  {
    CapacityIsSpread(times);
    SpreadIsDistinct(times, node, sequence);
  }

  lemma NodeRecovered(elapsed: nat, node: nat, sequence: nat)
    ensures Id(elapsed, node, sequence) / 4096 % 512 == node % 512
  {
    ShiftedMultiple(elapsed);
    var m, n, s := Shifted(elapsed) / 2097152, node % 512, sequence % 4096;
    assert Id(elapsed, node, sequence) == (m * 512 + n) * 4096 + s;
  }

  /** Nodes that differ in their low nine bits never share an id, whatever they and their clocks do. */
  lemma NodesNeverCollide(times: seq<nat>, node: nat, sequence: nat, i: nat, times': seq<nat>, node': nat, sequence': nat, j: nat)
    requires i < |times| && j < |times'|
    requires node % NODES != node' % NODES
    ensures Ids(times, node, sequence)[i] != Ids(times', node', sequence')[j]
  {
    IdAt(times, node, sequence, i);
    IdAt(times', node', sequence', j);
    NodeRecovered(times[i], node, sequence + i);
    NodeRecovered(times'[j], node', sequence' + j);
  }

  // ---- Ids of the past ----

  const NANOS_PER_MILLI := 1_000_000

  // Time since the epoch and the period in nanoseconds; nothing before the epoch.
  method PastId(elapsed: Option<nat>, period: nat) returns (id: Option<nat>)
    ensures id.Some? <==> elapsed.Some? && period <= elapsed.value
    ensures id.Some? && elapsed.value / 1_000_000 < ELAPSED_RANGE ==>
      forall at: nat, node: nat, sequence: nat | at / 1_000_000 < ELAPSED_RANGE ::
        Id(at / 1_000_000, node, sequence) < id.value <==> at / 1_000_000 < (elapsed.value - period) / 1_000_000
  {
    id := None;
    if elapsed.Some? && elapsed.value >= period {
      var millis := (elapsed.value - period) / NANOS_PER_MILLI;
      id := Some(Shifted(millis));
      if elapsed.value / 1_000_000 < ELAPSED_RANGE {
        MillisBelow(elapsed.value, period);
        PastSeparatesAll(millis);
      }
    }
  }

  lemma MillisBelow(elapsed: nat, period: nat)
    requires period <= elapsed
    ensures (elapsed - period) / 1_000_000 <= elapsed / 1_000_000
  {
  }

  lemma PastSeparatesAll(millis: nat)
    requires millis < ELAPSED_RANGE
    ensures forall at: nat, node: nat, sequence: nat | at / 1_000_000 < ELAPSED_RANGE ::
      Id(at / 1_000_000, node, sequence) < Shifted(millis) <==> at / 1_000_000 < millis
  {
    forall at: nat, node: nat, sequence: nat | at / 1_000_000 < ELAPSED_RANGE
      ensures Id(at / 1_000_000, node, sequence) < Shifted(millis) <==> at / 1_000_000 < millis
    {
      PastSeparates(millis, at / 1_000_000, node, sequence);
    }
  }

  /** A past id lies above exactly the ids from before its millisecond. */
  lemma PastSeparates(millis: nat, elapsed: nat, node: nat, sequence: nat)
    requires millis < ELAPSED_RANGE && elapsed < ELAPSED_RANGE
    ensures Id(elapsed, node, sequence) < Shifted(millis) <==> elapsed < millis
  {
    ShiftedFits(millis);
    ShiftedFits(elapsed);
  }
}
