/** The modified UTF-7 of mailbox names (section 5.1.3 of RFC 3501). */
module Utf7 {
  import opened Sequences
  import opened Wrappers
  import opened Decimal

  type unit = u: nat | u < 65536
  type sextet = s: nat | s < 64

  // A Unicode scalar value, as Rust's `char`.
  type scalar = c: nat | c < 0xD800 || 0xE000 <= c <= 0x10FFFF

  // The alphabet of the shifted runs.
  function Map(s: sextet): (b: byte)
    ensures b != 45 && b < 128
  {
    if s < 26 then 65 + s
    else if s < 52 then 97 + (s - 26)
    else if s < 62 then 48 + (s - 52)
    else if s == 62 then 43 else 44
  }

  function Rank(b: byte): Option<sextet> {
    if 65 <= b <= 90 then Some(b - 65)
    else if 97 <= b <= 122 then Some(b - 97 + 26)
    else if 48 <= b <= 57 then Some(b - 48 + 52)
    else if b == 43 then Some(62)
    else if b == 44 then Some(63)
    else None
  }

  lemma RankMap(s: sextet)
    ensures Rank(Map(s)) == Some(s)
  {
  }

  // Accumulators hold an even number of pending bits, at most 20.
  predicate IsWidth(n: nat) {
    || n == 0 || n == 2 || n == 4 || n == 6 || n == 8 || n == 10
    || n == 12 || n == 14 || n == 16 || n == 18 || n == 20
  }

  // The low n bits of a word, two at a time.
  function Low(x: nat, n: nat): nat {
    if n < 2 then 0 else x % 4 + 4 * Low(x / 4, n - 2)
  }

  // A word shifted right by n bits.
  function High(x: nat, n: nat): nat {
    if n < 2 then x else High(x / 4, n - 2)
  }

  // ---- Words ----

  // Quotient and remainder are unique.
  lemma Unique(x: nat, p: nat, k: nat, b: nat)
    requires x == k * p + b && b < p
    ensures x / p == k && x % p == b
  {
    var d := x / p - k;
    assert d * p == b - x % p;
    assert d > 0 ==> d * p >= p;
    assert d < 0 ==> d * p <= 0 - p;
  }

  lemma Distribute(k: nat, q: nat, a: nat, p: nat)
    ensures (k * q + a) * p == k * (p * q) + a * p
  {
    assert (k * q) * p == k * (p * q);
  }

  lemma QuotientBelow(m: nat, p: nat, q: nat)
    requires p > 0 && m < p * q
    ensures m / p < q
  {
    var a := m / p;
    assert a >= q ==> a * p >= q * p;
  }

  // Dividing by p, through a quotient and a remainder by n == p * q.
  lemma Nested(x: nat, p: nat, q: nat, n: nat, k: nat, m: nat)
    requires p > 0 && q > 0 && n == p * q && x == k * n + m && m < n
    ensures m / p < q && x / p == k * q + m / p && x % p == m % p
  {
    var a, b := m / p, m % p;
    QuotientBelow(m, p, q);
    Distribute(k, q, a, p);
    Unique(x, p, k * q + a, b);
  }

  lemma Divided(x: nat, p: nat, q: nat, n: nat)
    requires p > 0 && q > 0 && n == p * q
    ensures x % n % p == x % p && x % n / p == x / p % q && x / n == x / p / q
  {
    var k, m := x / n, x % n;
    Nested(x, p, q, n, k, m);
    Unique(x / p, q, k, m / p);
  }

  lemma Reduce(x: nat, p: nat, q: nat)
    requires p > 0 && q > 0
    ensures x % (p * q) % p == x % p
    ensures x % (p * q) / p == x / p % q
  {
    Divided(x, p, q, p * q);
  }

  // A sextet of a word is a sextet of its low part.
  lemma Digit(w: nat, lo: nat, h: nat)
    requires lo > 0 && h > 0
    ensures w % (lo * (64 * h)) / lo % 64 == w / lo % 64
  {
    Reduce(w, lo, 64 * h);
    Reduce(w / lo, 64, h);
  }

  // A word c with m-bit digits, followed by one more digit.
  lemma Snoc(c: nat, p: nat, m: nat, s: nat)
    requires p > 0 && m > 0 && s < m
    ensures (c * m + s) % (p * m) == c % p * m + s
  {
    var k, r := c / p, c % p;
    assert c == k * p + r;
    assert c * m + s == k * (p * m) + (r * m + s);
    assert (r + 1) * m <= p * m;
    Unique(c * m + s, p * m, k, r * m + s);
  }

  lemma LowStep(x: nat, q: nat)
    requires q > 0
    ensures x % (4 * q) == x % 4 + 4 * (x / 4 % q)
  {
    Reduce(x, 4, q);
  }

  lemma DivDiv(x: nat, p: nat, q: nat)
    requires p > 0 && q > 0
    ensures x / (p * q) == x / p / q
  {
    Divided(x, p, q, p * q);
  }

  function Pow4(k: nat): (p: nat)
    ensures p > 0
  {
    if k == 0 then 1 else 4 * Pow4(k - 1)
  }

  // Low and high bits as remainder and quotient.
  lemma {:induction false} BitsAt(x: nat, k: nat, p: nat)
    requires p == Pow4(k)
    ensures Low(x, 2 * k) == x % p && High(x, 2 * k) == x / p
    decreases k
  {
    if k > 0 {
      BitsAt(x / 4, k - 1, Pow4(k - 1));
      LowStep(x, Pow4(k - 1));
      DivDiv(x, 4, Pow4(k - 1));
    }
  }

  // ---- Encoding ----

  // The UTF-8 bytes of a scalar value.
  function Utf8(c: nat): seq<byte>
    requires c <= 0x10FFFF
  {
    if c < 0x80 then [c]
    else if c < 0x800 then [0xC0 + c / 64, 0x80 + c % 64]
    else if c < 0x10000 then [0xE0 + c / 4096, 0x80 + c / 64 % 64, 0x80 + c % 64]
    else [0xF0 + c / 262144, 0x80 + c / 4096 % 64, 0x80 + c / 64 % 64, 0x80 + c % 64]
  }

  // `as u16`
  function Low16(c: nat): unit {
    c % 65536
  }

  predicate IsPrintable(u: nat) {
    0x20 <= u < 0x7F
  }

  // The complete sextets of the low n bits of w, most significant first.
  function Sextets(w: nat, n: nat): seq<byte>
  {
    if n < 6 then [] else [Map(High(w, n - 6) % 64)] + Sextets(w, n - 6)
  }

  // Pending bits of the encoder between characters.
  predicate IsPending(bits: nat) {
    bits == 0 || bits == 2 || bits == 4
  }

  // The pending bits padded with zeros to a sextet.
  function Padded(r: nat, bits: nat): sextet {
    if bits == 2 then r * 16 % 64 else r * 4 % 64
  }

  // The padded last sextet, if bits are pending, and the end of the shifted run.
  function Unshift(r: nat, bits: nat): seq<byte> {
    (if bits > 0 then [Map(Padded(r, bits))] else []) + [45]
  }

  // Bits left over once complete sextets are taken from `bits` pending ones and a code unit.
  function Leftover(bits: nat): (n: nat)
    requires IsPending(bits)
    ensures IsPending(n) && (n == bits + 4 || n == bits - 2)
  {
    if bits == 0 then 4 else if bits == 4 then 2 else 0
  }

  // The bytes one character adds.
  function Emitted(c: scalar, shifted: bool, r: nat, bits: nat): seq<byte>
    requires IsPending(bits)
  {
    if IsPrintable(Low16(c)) then
      (if shifted then Unshift(r, bits) else []) + (if Low16(c) == 0x26 then [0x26, 45] else Utf8(c))
    else
      (if shifted then [] else [0x26]) + Sextets(r * 65536 + Low16(c), bits + 16)
  }

  /** The encoding of a text, with the low `bits` bits of r pending when a shifted run is open. */
  function EncodeFrom(text: seq<scalar>, shifted: bool, r: nat, bits: nat): (out: seq<byte>)
    requires IsPending(bits)
    decreases |text|
  {
    if text == [] then (if shifted then Unshift(r, bits) else [])
    else
      Emitted(text[0], shifted, r, bits)
      + (if IsPrintable(Low16(text[0])) then EncodeFrom(text[1..], false, 0, 0)
         else EncodeFrom(text[1..], true, Low(r * 65536 + Low16(text[0]), Leftover(bits)), Leftover(bits)))
  }

  function Encode(text: seq<scalar>): seq<byte> {
    EncodeFrom(text, false, 0, 0)
  }

  // ---- Decoding ----

  // The 16-bit code units of an encoded text; v holds the `bits` bits pending in a shifted run.
  function DecodeFrom(text: seq<byte>, shifted: bool, v: nat, bits: nat): (r: Option<seq<unit>>)
    requires IsWidth(bits) && bits < 16
    decreases |text|
  {
    if text == [] then Some([])
    else if shifted then
      if text[0] == 45 then DecodeFrom(text[1..], false, 0, 0)
      else if Rank(text[0]).None? then None
      else
        var v' := v * 64 + Rank(text[0]).value;
        if bits + 6 < 16 then DecodeFrom(text[1..], true, v', bits + 6)
        else
          Prepend([UnitAt(v', bits - 10)], DecodeFrom(text[1..], true, Low(v', bits - 10), bits - 10))
    else if text[0] == 0x26 && |text| > 1 then
      if text[1] == 45 then Prepend([0x26], DecodeFrom(text[2..], false, 0, 0))
      else DecodeFrom(text[1..], true, 0, 0)
    else Prepend([text[0]], DecodeFrom(text[1..], false, 0, 0))
  }

  // The 16 bits above the low n.
  function UnitAt(v: nat, n: nat): unit {
    High(v, n) % 65536
  }

  function Prepend(us: seq<unit>, r: Option<seq<unit>>): Option<seq<unit>> {
    if r.None? then None else Some(us + r.value)
  }

  predicate IsHigh(u: unit) {
    0xD800 <= u < 0xDC00
  }

  predicate IsLow(u: unit) {
    0xDC00 <= u < 0xE000
  }

  function FromPair(high: nat, low: nat): scalar
    requires 0xD800 <= high < 0xDC00 <= low < 0xE000
  {
    0x10000 + (high - 0xD800) * 1024 + (low - 0xDC00)
  }

  // `String::from_utf16`: unpaired surrogates are errors.
  function FromUtf16(us: seq<unit>): (r: Option<seq<scalar>>)
    decreases |us|
  {
    if us == [] then Some([])
    else if IsHigh(us[0]) then
      if |us| > 1 && IsLow(us[1]) then
        var rest := FromUtf16(us[2..]);
        if rest.None? then None
        else Some([FromPair(us[0], us[1])] + rest.value)
      else None
    else if IsLow(us[0]) then None
    else
      var rest := FromUtf16(us[1..]);
      if rest.None? then None else Some([us[0]] + rest.value)
  }

  function Decode(text: seq<byte>): Option<seq<scalar>> {
    var us := DecodeFrom(text, false, 0, 0);
    if us.None? then None else FromUtf16(us.value)
  }

  // ---- Round trip ----

  // The code units a decoder sees of one encoded character.
  function UnitsOf(c: scalar): seq<unit> {
    var ch := Low16(c);
    if c < 65536 || !IsPrintable(ch) || ch == 0x26 then [ch] else Utf8(c)
  }

  function Units(text: seq<scalar>): seq<unit> {
    if text == [] then [] else UnitsOf(text[0]) + Units(text[1..])
  }

  // A sextet that leaves fewer than 16 bits pending.
  lemma DecodeShort(s: sextet, rest: seq<byte>, v: nat, bits: nat, v': nat)
    requires IsWidth(bits) && bits + 6 < 16 && v' == v * 64 + s
    ensures DecodeFrom([Map(s)] + rest, true, v, bits) == DecodeFrom(rest, true, v', bits + 6)
  {
    RankMap(s);
    assert ([Map(s)] + rest)[1..] == rest;
  }

  lemma UnitAtIs(v: nat, n: nat, u: unit)
    requires High(v, n) == u
    ensures UnitAt(v, n) == u
  {
  }

  // A sextet that completes a code unit.
  lemma DecodeLong(s: sextet, rest: seq<byte>, v: nat, bits: nat, u: unit, left: nat)
    requires IsWidth(bits) && 10 <= bits < 16
    requires High(v * 64 + s, bits - 10) == u && Low(v * 64 + s, bits - 10) == left
    ensures DecodeFrom([Map(s)] + rest, true, v, bits) == Prepend([u], DecodeFrom(rest, true, left, bits - 10))
  {
    RankMap(s);
    UnitAtIs(v * 64 + s, bits - 10, u);
    assert ([Map(s)] + rest)[1..] == rest;
  }

  // What the decoder holds of a code unit p whose low `bits` bits are still with the encoder.
  ghost predicate Lag(p: unit, bits: nat, v: nat, vbits: nat) {
    && IsPending(bits)
    && (if bits == 0 then v == 0 && vbits == 0 else v == High(p, bits) && vbits == 16 - bits)
  }

  // The code unit that becomes complete when the pending bits arrive.
  function Owed(p: unit, bits: nat): seq<unit> {
    if bits > 0 then [p] else []
  }

  lemma Unfold16(w: nat)
    ensures Sextets(w, 16) == [Map(w / 1024 % 64)] + [Map(w / 16 % 64)]
  {
    BitsAt(w, 2, 16);
    BitsAt(w, 5, 1024);
    assert Sextets(w, 4) == [];
    assert Sextets(w, 10) == [Map(w / 16 % 64)] + Sextets(w, 4);
    assert Sextets(w, 16) == [Map(w / 1024 % 64)] + Sextets(w, 10);
  }

  lemma Unfold18(w: nat)
    ensures Sextets(w, 18) == [Map(w / 4096 % 64)] + [Map(w / 64 % 64)] + [Map(w % 64)]
  {
    BitsAt(w, 3, 64);
    BitsAt(w, 6, 4096);
    assert Sextets(w, 0) == [];
    assert Sextets(w, 6) == [Map(w % 64)] + Sextets(w, 0);
    assert Sextets(w, 12) == [Map(w / 64 % 64)] + Sextets(w, 6);
    assert Sextets(w, 18) == [Map(w / 4096 % 64)] + Sextets(w, 12);
  }

  lemma Unfold20(w: nat)
    ensures Sextets(w, 20) == [Map(w / 16384 % 64)] + [Map(w / 256 % 64)] + [Map(w / 4 % 64)]
  {
    BitsAt(w, 1, 4);
    BitsAt(w, 4, 256);
    BitsAt(w, 7, 16384);
    assert Sextets(w, 2) == [];
    assert Sextets(w, 8) == [Map(w / 4 % 64)] + Sextets(w, 2);
    assert Sextets(w, 14) == [Map(w / 256 % 64)] + Sextets(w, 8);
    assert Sextets(w, 20) == [Map(w / 16384 % 64)] + Sextets(w, 14);
  }

  lemma Split4(p: unit, ch: unit)
    ensures var w := (p % 16) * 65536 + ch;
            var s1, s2, s3 := w / 16384 % 64, w / 256 % 64, w / 4 % 64;
            && (p / 16 * 64 + s1) / 4 == p
            && (p / 16 * 64 + s1) % 4 == ch / 16384
            && ch / 16384 * 64 + s2 == ch / 256
            && ch / 256 * 64 + s3 == ch / 4
  {
    var w := (p % 16) * 65536 + ch;
    assert w / 16384 == (p % 16) * 4 + ch / 16384;
    assert w / 256 == (p % 16) * 256 + ch / 256;
    assert w / 4 == (p % 16) * 16384 + ch / 4;
  }

  lemma Split2(p: unit, ch: unit)
    ensures var w := (p % 4) * 65536 + ch;
            var s1, s2, s3 := w / 4096 % 64, w / 64 % 64, w % 64;
            && (p / 4 * 64 + s1) / 16 == p
            && (p / 4 * 64 + s1) % 16 == ch / 4096
            && ch / 4096 * 64 + s2 == ch / 64
            && ch / 64 * 64 + s3 == ch
  {
    var w := (p % 4) * 65536 + ch;
    assert w / 4096 == (p % 4) * 16 + ch / 4096;
    assert w / 64 == (p % 4) * 1024 + ch / 64;
  }

  lemma Split0(ch: unit)
    ensures ch / 1024 % 64 * 64 + ch / 16 % 64 == ch / 16
  {
    assert ch / 1024 < 64;
    DivDiv(ch, 16, 64);
  }

  // A decoder in step with the encoder, fed the sextets of the next code unit.
  lemma Step0(ch: unit, rest: seq<byte>)
    ensures DecodeFrom(Sextets(ch, 16) + rest, true, 0, 0) == DecodeFrom(rest, true, ch / 16, 12)
  {
    var s1, s2 := ch / 1024 % 64, ch / 16 % 64;
    Unfold16(ch);
    assert Sextets(ch, 16) + rest == [Map(s1)] + ([Map(s2)] + rest);
    Split0(ch);
    DecodeShort(s1, [Map(s2)] + rest, 0, 0, s1);
    DecodeShort(s2, rest, s1, 6, ch / 16);
  }

  lemma Step4First(p: unit, s1: sextet, left: nat, rest: seq<byte>)
    requires (p / 16 * 64 + s1) / 4 == p && (p / 16 * 64 + s1) % 4 == left
    ensures DecodeFrom([Map(s1)] + rest, true, p / 16, 12) == Prepend([p], DecodeFrom(rest, true, left, 2))
  {
    BitsAt(p / 16 * 64 + s1, 1, 4);
    DecodeLong(s1, rest, p / 16, 12, p, left);
  }

  lemma Step4(p: unit, ch: unit, w: nat, rest: seq<byte>)
    requires w == (p % 16) * 65536 + ch
    ensures DecodeFrom(Sextets(w, 20) + rest, true, p / 16, 12) == Prepend([p], DecodeFrom(rest, true, ch / 4, 14))
  {
    var s1, s2, s3 := w / 16384 % 64, w / 256 % 64, w / 4 % 64;
    Unfold20(w);
    Split4(p, ch);
    var t2, t3 := [Map(s2)] + ([Map(s3)] + rest), [Map(s3)] + rest;
    assert Sextets(w, 20) + rest == [Map(s1)] + t2;
    Step4First(p, s1, ch / 16384, t2);
    DecodeShort(s2, t3, ch / 16384, 2, ch / 256);
    DecodeShort(s3, rest, ch / 256, 8, ch / 4);
  }

  lemma Step2(p: unit, ch: unit, w: nat, rest: seq<byte>)
    requires w == (p % 4) * 65536 + ch
    ensures DecodeFrom(Sextets(w, 18) + rest, true, p / 4, 14) == Prepend([p] + [ch], DecodeFrom(rest, true, 0, 0))
  {
    var s1, s2, s3 := w / 4096 % 64, w / 64 % 64, w % 64;
    Unfold18(w);
    Split2(p, ch);
    var t2, t3 := [Map(s2)] + ([Map(s3)] + rest), [Map(s3)] + rest;
    assert Sextets(w, 18) + rest == [Map(s1)] + t2;
    BitsAt(p / 4 * 64 + s1, 2, 16);
    DecodeLong(s1, t2, p / 4, 14, p, ch / 4096);
    DecodeShort(s2, t3, ch / 4096, 4, ch / 64);
    DecodeLong(s3, rest, ch / 64, 10, ch, 0);
    PrependTwice([p], [ch], DecodeFrom(rest, true, 0, 0));
  }

  // The padding completes the owed code unit and never adds one.
  lemma UnshiftDecodes(p: unit, bits: nat, v: nat, vbits: nat, rest: seq<byte>)
    requires Lag(p, bits, v, vbits)
    ensures DecodeFrom(Unshift(Low(p, bits), bits) + rest, true, v, vbits)
         == Prepend(Owed(p, bits), DecodeFrom(rest, false, 0, 0))
  {
    assert ([45] + rest)[1..] == rest;
    if bits == 0 {
      assert Unshift(Low(p, bits), bits) + rest == [45] + rest;
      PrependNone(DecodeFrom(rest, false, 0, 0));
    } else {
      var s := Padded(Low(p, bits), bits);
      assert Unshift(Low(p, bits), bits) + rest == [Map(s)] + ([45] + rest);
      PaddingFits(p, bits, v, s);
      DecodeLong(s, [45] + rest, v, vbits, p, 0);
    }
  }

  lemma PaddingFits4(p: unit)
    ensures var x := p / 16 * 64 + p % 16 * 4 % 64; x / 4 == p && x % 4 == 0
  {
    Unique(p / 16 * 64 + p % 16 * 4 % 64, 4, p, 0);
  }

  lemma PaddingFits2(p: unit)
    ensures var x := p / 4 * 64 + p % 4 * 16 % 64; x / 16 == p && x % 16 == 0
  {
    Unique(p / 4 * 64 + p % 4 * 16 % 64, 16, p, 0);
  }

  lemma PaddingFits(p: unit, bits: nat, v: nat, s: sextet)
    requires (bits == 2 || bits == 4) && v == High(p, bits) && s == Padded(Low(p, bits), bits)
    ensures High(v * 64 + s, 6 - bits) == p && Low(v * 64 + s, 6 - bits) == 0
  {
    if bits == 4 {
      BitsAt(p, 2, 16);
      BitsAt(v * 64 + s, 1, 4);
      PaddingFits4(p);
    } else {
      BitsAt(p, 1, 4);
      BitsAt(v * 64 + s, 2, 16);
      PaddingFits2(p);
    }
  }

  lemma PrependNone(r: Option<seq<unit>>)
    ensures Prepend([], r) == r
  {
    if r.Some? {
      assert [] + r.value == r.value;
    }
  }

  lemma PrependTwice(a: seq<unit>, b: seq<unit>, r: Option<seq<unit>>)
    ensures Prepend(a, Prepend(b, r)) == Prepend(a + b, r)
  {
    if r.Some? {
      assert a + (b + r.value) == a + b + r.value;
    }
  }

  // What the decoder holds after the sextets of a code unit.
  function NextValue(bits: nat, ch: unit): nat {
    if bits == 0 then ch / 16 else if bits == 4 then ch / 4 else 0
  }

  function NextBits(bits: nat): (n: nat)
    ensures IsWidth(n) && n < 16
  {
    if bits == 0 then 12 else if bits == 4 then 14 else 0
  }

  lemma LagNext(r: nat, bits: nat, ch: unit)
    requires IsPending(bits)
    ensures Low(r * 65536 + ch, Leftover(bits)) == Low(ch, Leftover(bits))
    ensures Lag(ch, Leftover(bits), NextValue(bits, ch), NextBits(bits))
  {
    BitsAt(ch, 1, 4);
    BitsAt(ch, 2, 16);
    BitsAt(r * 65536 + ch, 1, 4);
    BitsAt(r * 65536 + ch, 2, 16);
    LowUnit(r, ch);
  }

  lemma LowUnit(r: nat, ch: unit)
    ensures (r * 65536 + ch) % 16 == ch % 16 && (r * 65536 + ch) % 4 == ch % 4
  {
    Unique(r * 65536 + ch, 65536, r, ch);
    Reduce(r * 65536 + ch, 16, 4096);
    Reduce(r * 65536 + ch, 4, 16384);
  }

  // The sextets of a code unit bring the decoder to the encoder's next pending state.
  lemma UnitDecodes(p: unit, bits: nat, v: nat, vbits: nat, ch: unit, rest: seq<byte>)
    requires Lag(p, bits, v, vbits)
    ensures DecodeFrom(Sextets(Low(p, bits) * 65536 + ch, bits + 16) + rest, true, v, vbits)
         == Prepend(Owed(p, bits) + (if bits == 2 then [ch] else []),
                    DecodeFrom(rest, true, NextValue(bits, ch), NextBits(bits)))
  {
    if bits == 0 {
      Step0(ch, rest);
      PrependNone(DecodeFrom(rest, true, ch / 16, 12));
      var none: seq<unit> := [];
      assert Owed(p, bits) + none == none;
    } else if bits == 2 {
      BitsAt(p, 1, 4);
      Step2(p, ch, Low(p, bits) * 65536 + ch, rest);
    } else {
      BitsAt(p, 2, 16);
      Step4(p, ch, Low(p, bits) * 65536 + ch, rest);
      assert [p] + [] == [p];
    }
  }

  lemma {:induction false} PlainBytes(bs: seq<byte>, rest: seq<byte>)
    requires forall i | 0 <= i < |bs| :: bs[i] != 0x26
    ensures DecodeFrom(bs + rest, false, 0, 0) == Prepend(bs, DecodeFrom(rest, false, 0, 0))
    decreases |bs|
  {
    if bs == [] {
      assert bs + rest == rest;
      PrependNone(DecodeFrom(rest, false, 0, 0));
    } else {
      assert (bs + rest)[1..] == bs[1..] + rest;
      PlainBytes(bs[1..], rest);
      PrependTwice([bs[0]], bs[1..], DecodeFrom(rest, false, 0, 0));
      assert [bs[0]] + bs[1..] == bs;
    }
  }

  lemma PrintableDecodes(c: scalar, rest: seq<byte>)
    requires IsPrintable(Low16(c))
    ensures DecodeFrom((if Low16(c) == 0x26 then [0x26, 45] else Utf8(c)) + rest, false, 0, 0)
         == Prepend(UnitsOf(c), DecodeFrom(rest, false, 0, 0))
  {
    if Low16(c) == 0x26 {
      assert ([0x26, 45] + rest)[2..] == rest;
    } else {
      PlainBytes(Utf8(c), rest);
    }
  }

  // The byte that opens a shifted run.
  lemma OpenShift(w: nat, rest: seq<byte>)
    ensures DecodeFrom([0x26] + (Sextets(w, 16) + rest), false, 0, 0) == DecodeFrom(Sextets(w, 16) + rest, true, 0, 0)
  {
    var all := [0x26] + (Sextets(w, 16) + rest);
    assert all[1..] == Sextets(w, 16) + rest;
    assert all[1] == Sextets(w, 16)[0] != 45;
  }

  lemma {:induction false} DecodeShifted(text: seq<scalar>, p: unit, bits: nat, v: nat, vbits: nat)
    requires Lag(p, bits, v, vbits)
    ensures DecodeFrom(EncodeFrom(text, true, Low(p, bits), bits), true, v, vbits) == Some(Owed(p, bits) + Units(text))
    decreases |text|, 0
  {
    var r := Low(p, bits);
    if text == [] {
      UnshiftDecodes(p, bits, v, vbits, []);
      assert Unshift(r, bits) + [] == Unshift(r, bits);
    } else if IsPrintable(Low16(text[0])) {
      EncodeShiftedPrintable(text, r, bits);
      UnshiftDecodes(p, bits, v, vbits, EncodeFrom(text, false, 0, 0));
      DecodePrintable(text);
    } else {
      var ch, b := Low16(text[0]), Leftover(bits);
      LagNext(r, bits, ch);
      EncodeShiftedUnit(text, r, bits);
      UnitDecodes(p, bits, v, vbits, ch, EncodeFrom(text[1..], true, Low(ch, b), b));
      DecodeShifted(text[1..], ch, b, NextValue(bits, ch), NextBits(bits));
      OwedTogether(p, bits, ch, Units(text[1..]));
    }
  }

  lemma EncodeShiftedPrintable(text: seq<scalar>, r: nat, bits: nat)
    requires text != [] && IsPrintable(Low16(text[0])) && IsPending(bits)
    ensures EncodeFrom(text, true, r, bits) == Unshift(r, bits) + EncodeFrom(text, false, 0, 0)
  {
    var head := if Low16(text[0]) == 0x26 then [0x26, 45] else Utf8(text[0]);
    var rest := EncodeFrom(text[1..], false, 0, 0);
    assert Unshift(r, bits) + head + rest == Unshift(r, bits) + ([] + head + rest);
  }

  lemma EncodeShiftedUnit(text: seq<scalar>, r: nat, bits: nat)
    requires text != [] && !IsPrintable(Low16(text[0])) && IsPending(bits)
    ensures var w, b := r * 65536 + Low16(text[0]), Leftover(bits);
            EncodeFrom(text, true, r, bits) == Sextets(w, bits + 16) + EncodeFrom(text[1..], true, Low(w, b), b)
  {
    var six := Sextets(r * 65536 + Low16(text[0]), bits + 16);
    assert [] + six == six;
  }

  lemma OwedTogether(p: unit, bits: nat, ch: unit, us: seq<unit>)
    requires IsPending(bits)
    ensures Owed(p, bits) + (if bits == 2 then [ch] else []) + (Owed(ch, Leftover(bits)) + us) == Owed(p, bits) + ([ch] + us)
  {
  }

  lemma {:induction false} DecodePrintable(text: seq<scalar>)
    requires text != [] && IsPrintable(Low16(text[0]))
    ensures DecodeFrom(EncodeFrom(text, false, 0, 0), false, 0, 0) == Some(Units(text))
    decreases |text| - 1, 1
  {
    var rest := EncodeFrom(text[1..], false, 0, 0);
    var head := if Low16(text[0]) == 0x26 then [0x26, 45] else Utf8(text[0]);
    assert EncodeFrom(text, false, 0, 0) == head + rest by {
      assert [] + head + rest == head + rest;
    }
    PrintableDecodes(text[0], rest);
    DecodePlain(text[1..]);
  }

  lemma EncodeOpens(text: seq<scalar>)
    requires text != [] && !IsPrintable(Low16(text[0]))
    ensures var ch := Low16(text[0]);
            Encode(text) == [0x26] + (Sextets(ch, 16) + EncodeFrom(text[1..], true, Low(ch, 4), 4))
  {
    var ch := Low16(text[0]);
    Associate([0x26], Sextets(ch, 16), EncodeFrom(text[1..], true, Low(ch, 4), 4));
  }

  /** The decoder recovers the code units of every encoded text. */
  lemma {:induction false} DecodePlain(text: seq<scalar>)
    ensures DecodeFrom(Encode(text), false, 0, 0) == Some(Units(text))
    decreases |text|, 0
  {
    if text == [] {
    } else if IsPrintable(Low16(text[0])) {
      DecodePrintable(text);
    } else {
      var ch := Low16(text[0]);
      var rest := EncodeFrom(text[1..], true, Low(ch, 4), 4);
      EncodeOpens(text);
      OpenShift(ch, rest);
      Step0(ch, rest);
      LagNext(0, 0, ch);
      DecodeShifted(text[1..], ch, 4, ch / 16, 12);
      assert Owed(ch, 4) + Units(text[1..]) == Units(text);
    }
  }

  // ---- Exactness ----

  predicate InBasicPlane(text: seq<scalar>) {
    forall i | 0 <= i < |text| :: text[i] < 65536
  }

  predicate IsSurrogate(u: unit) {
    IsHigh(u) || IsLow(u)
  }

  function Surrogates(us: seq<unit>): nat {
    if us == [] then 0 else (if IsSurrogate(us[0]) then 1 else 0) + Surrogates(us[1..])
  }

  function Supplementary(text: seq<scalar>): nat {
    if text == [] then 0 else (if text[0] >= 65536 then 1 else 0) + Supplementary(text[1..])
  }

  lemma {:induction false} FromUtf16Surrogates(us: seq<unit>)
    ensures FromUtf16(us).Some? ==> Surrogates(us) == 2 * Supplementary(FromUtf16(us).value)
    decreases |us|
  {
    if FromUtf16(us).Some? && us != [] {
      var t := FromUtf16(us).value;
      if IsHigh(us[0]) {
        FromUtf16Surrogates(us[2..]);
        assert us[1..][0] == us[1] && us[1..][1..] == us[2..];
        assert t[1..] == FromUtf16(us[2..]).value;
      } else {
        FromUtf16Surrogates(us[1..]);
        assert t[1..] == FromUtf16(us[1..]).value;
      }
    }
  }

  lemma {:induction false} SurrogatesConcat(a: seq<unit>, b: seq<unit>)
    ensures Surrogates(a + b) == Surrogates(a) + Surrogates(b)
    decreases |a|
  {
    if a == [] {
      assert a + b == b;
    } else {
      assert (a + b)[1..] == a[1..] + b;
      SurrogatesConcat(a[1..], b);
    }
  }

  lemma OneCharacterSurrogates(c: scalar)
    ensures Surrogates(UnitsOf(c)) <= if c >= 65536 then 1 else 0
  {
    var us := UnitsOf(c);
    if |us| == 1 {
      assert us[1..] == [];
    } else {
      assert us[1..][1..][1..][1..] == [];
      assert us[1..][0] == us[1] && us[1..][1..][0] == us[2] && us[1..][1..][1..][0] == us[3];
      assert Surrogates(us[1..][1..][1..]) == 0;
      assert Surrogates(us[1..][1..]) == 0;
      assert Surrogates(us[1..]) == 0;
    }
  }

  lemma {:induction false} UnitsSurrogates(text: seq<scalar>)
    ensures Surrogates(Units(text)) <= Supplementary(text)
    decreases |text|
  {
    if text != [] {
      OneCharacterSurrogates(text[0]);
      UnitsSurrogates(text[1..]);
      SurrogatesConcat(UnitsOf(text[0]), Units(text[1..]));
    }
  }

  lemma {:induction false} BasicPlaneUnits(text: seq<scalar>)
    ensures InBasicPlane(text) <==> Supplementary(text) == 0
    ensures InBasicPlane(text) ==> Units(text) == text && FromUtf16(text) == Some(text)
    decreases |text|
  {
    if text != [] {
      BasicPlaneUnits(text[1..]);
      assert text == [text[0]] + text[1..];
    }
  }

  /** Decoding an encoded text gives the text back exactly when all its code points are at most
      U+FFFF, the range the 16-bit narrowing of the encoder keeps. */
  lemma RoundTripExactly(text: seq<scalar>)
    ensures Decode(Encode(text)) == Some(text) <==> InBasicPlane(text)
  {
    DecodePlain(text);
    BasicPlaneUnits(text);
    if Decode(Encode(text)) == Some(text) {
      FromUtf16Surrogates(Units(text));
      UnitsSurrogates(text);
    }
  }

  /** U+1F600 is lost: it comes back as U+F600. */
  lemma SupplementaryIsNarrowed()
    ensures Decode(Encode([0x1F600])) == Some([0xF600])
  {
    var text: seq<scalar> := [0x1F600];
    DecodePlain(text);
    NarrowedUnits();
  }

  lemma NarrowedUnits()
    ensures Units([0x1F600]) == [0xF600] && FromUtf16([0xF600]) == Some([0xF600])
  {
    var text: seq<scalar> := [0x1F600];
    assert text[1..] == [];
    assert UnitsOf(0x1F600) == [0xF600];
    var us: seq<unit> := [0xF600];
    assert us[1..] == [];
  }

  // ---- The loops ----

  // Bits above those being emitted do not matter to the sextets.
  lemma SextetsLow16(w: nat)
    ensures Sextets(w, 16) == Sextets(w % 65536, 16)
  {
    Unfold16(w);
    Unfold16(w % 65536);
    Digit(w, 1024, 1);
    Digit(w, 16, 64);
  }

  lemma SextetsLow18(w: nat)
    ensures Sextets(w, 18) == Sextets(w % 262144, 18)
  {
    Unfold18(w);
    Unfold18(w % 262144);
    Digit(w, 4096, 1);
    Digit(w, 64, 64);
    Digit(w, 1, 4096);
  }

  lemma SextetsLow20(w: nat)
    ensures Sextets(w, 20) == Sextets(w % 1048576, 20)
  {
    Unfold20(w);
    Unfold20(w % 1048576);
    Digit(w, 16384, 1);
    Digit(w, 256, 64);
    Digit(w, 4, 4096);
  }

  // The accumulator modulo p * 65536 is the low part of the old one followed by the code unit.
  lemma UnitLow(u: nat, p: nat, q: nat, ch: unit)
    requires p > 0 && q > 0 && p * q == 65536
    ensures (u * 65536 % 0x1_0000_0000 + ch) % (p * 65536) == u % p * 65536 + ch
  {
    Snoc(u, 65536, 65536, 0);
    Reduce(u, p, q);
    Snoc(u % 65536, p, 65536, ch);
  }

  // The sextets emitted after a shift are those of the pending bits followed by the code unit.
  lemma ShiftSextets(u: nat, bits: nat, ch: unit)
    requires IsPending(bits)
    ensures Sextets(u * 65536 % 0x1_0000_0000 + ch, bits + 16) == Sextets(Low(u, bits) * 65536 + ch, bits + 16)
  {
    var acc := u * 65536 % 0x1_0000_0000 + ch;
    if bits == 0 {
      UnitLow(u, 1, 65536, ch);
      SextetsLow16(acc);
    } else if bits == 2 {
      BitsAt(u, 1, 4);
      UnitLow(u, 4, 16384, ch);
      SextetsLow18(acc);
    } else {
      BitsAt(u, 2, 16);
      UnitLow(u, 16, 4096, ch);
      SextetsLow20(acc);
    }
  }

  /** Shifting a code unit into the 32-bit accumulator: the sextets emitted and the bits left pending
      are those of the pending bits followed by the code unit. */
  lemma ShiftUnit(u: nat, bits: nat, ch: unit)
    requires IsPending(bits)
    ensures var w, acc := Low(u, bits) * 65536 + ch, u * 65536 % 0x1_0000_0000 + ch;
            && Sextets(acc, bits + 16) == Sextets(w, bits + 16)
            && Low(acc, Leftover(bits)) == Low(w, Leftover(bits))
  {
    ShiftSextets(u, bits, ch);
    LagNext(Low(u, bits), bits, ch);
    LagNext(u % 65536, bits, ch);
    Snoc(u, 65536, 65536, 0);
  }

  method EmitSextets(out: seq<byte>, u: nat, n: nat) returns (result: seq<byte>, bits: nat)
    requires n == 16 || n == 18 || n == 20
    ensures result == out + Sextets(u, n) && bits == if n == 16 then 4 else n - 18
  {
    result, bits := out, n;
    while bits >= 6
      invariant bits == n || bits == n - 6 || bits == n - 12 || bits == n - 18
      invariant result + Sextets(u, bits) == out + Sextets(u, n)
    {
      var b := Map(High(u, bits - 6) % 64);
      Associate(result, [b], Sextets(u, bits - 6));
      result := result + [b];
      bits := bits - 6;
    }
    assert result + [] == result;
  }

  lemma PadLow(u: nat)
    ensures u * 16 % 0x1_0000_0000 % 64 == u % 4 * 16 % 64
    ensures u * 4 % 0x1_0000_0000 % 64 == u % 16 * 4 % 64
  {
    Reduce(u * 16, 64, 0x400_0000);
    Reduce(u * 4, 64, 0x400_0000);
    Snoc(u, 4, 16, 0);
    Snoc(u, 16, 4, 0);
  }

  // The padded sextet, computed in 32 bits from an accumulator holding older bits above.
  function PadWord(u: nat, bits: nat): sextet {
    if bits == 2 then u * 16 % 0x1_0000_0000 % 64 else u * 4 % 0x1_0000_0000 % 64
  }

  lemma PadWordIs(u: nat, bits: nat)
    requires bits == 2 || bits == 4
    ensures PadWord(u, bits) == Padded(Low(u, bits), bits)
  {
    PadLow(u);
    BitsAt(u, 1, 4);
    BitsAt(u, 2, 16);
  }

  method EmitUnshift(out: seq<byte>, u: nat, bits: nat) returns (result: seq<byte>)
    requires IsPending(bits)
    ensures result == out + Unshift(Low(u, bits), bits)
  {
    result := out;
    if bits > 0 {
      PadWordIs(u, bits);
      result := result + [Map(PadWord(u, bits))];
    }
    result := result + [45];
    assert bits > 0 ==> result == out + ([Map(Padded(Low(u, bits), bits))] + [45]);
  }

  // The bytes of one character, and the rest of the text from the state it leaves.
  lemma EncodeUnfold(text: seq<scalar>, c: scalar, tail: seq<scalar>, shifted: bool, r: nat, pending: nat, r': nat, bits: nat)
    requires IsPending(pending) && text != [] && text[0] == c && text[1..] == tail
    requires if IsPrintable(Low16(c)) then r' == 0 && bits == 0
             else bits == Leftover(pending) && r' == Low(r * 65536 + Low16(c), bits)
    ensures EncodeFrom(text, shifted, r, pending)
         == Emitted(c, shifted, r, pending) + EncodeFrom(tail, !IsPrintable(Low16(c)), r', bits)
  {
  }

  method EncodePrintable(out: seq<byte>, c: scalar, shifted: bool, u: nat, bits: nat) returns (result: seq<byte>)
    requires IsPending(bits) && IsPrintable(Low16(c))
    ensures result == out + Emitted(c, shifted, Low(u, bits), bits)
  {
    result := out;
    if shifted {
      result := EmitUnshift(result, u, bits);
    }
    var head := if Low16(c) == 0x26 then [0x26, 45] else Utf8(c);
    Associate(out, if shifted then Unshift(Low(u, bits), bits) else [], head);
    assert out + [] == out;
    result := result + head;
  }

  method EncodeUnit(out: seq<byte>, c: scalar, shifted: bool, acc: nat, pending: nat)
    returns (result: seq<byte>, u: nat, bits: nat)
    requires IsPending(pending) && !IsPrintable(Low16(c))
    ensures result == out + Emitted(c, shifted, Low(acc, pending), pending)
    ensures bits == Leftover(pending)
    ensures Low(u, bits) == Low(Low(acc, pending) * 65536 + Low16(c), bits)
  {
    var ch := Low16(c);
    result := out;
    if !shifted {
      result := result + [0x26];
    }
    ShiftUnit(acc, pending, ch);
    Associate(out, if shifted then [] else [0x26], Sextets(Low(acc, pending) * 65536 + ch, pending + 16));
    assert out + [] == out;
    u := acc * 65536 % 0x1_0000_0000 + ch;
    result, bits := EmitSextets(result, u, pending + 16);
  }

  // One character: what is emitted and what is left to encode make up what was left before.
  method EncodeAt(text: seq<scalar>, i: nat, out: seq<byte>, wasShifted: bool, acc: nat, pending: nat)
    returns (result: seq<byte>, shifted: bool, u: nat, bits: nat)
    requires i < |text| && IsPending(pending)
    ensures IsPending(bits) && (!shifted ==> bits == 0)
    ensures result + EncodeFrom(text[i + 1..], shifted, Low(u, bits), bits)
         == out + EncodeFrom(text[i..], wasShifted, Low(acc, pending), pending)
  {
    u, bits := acc, 0;
    shifted := !IsPrintable(Low16(text[i]));
    if shifted {
      result, u, bits := EncodeUnit(out, text[i], wasShifted, acc, pending);
    } else {
      result := EncodePrintable(out, text[i], wasShifted, acc, pending);
    }
    ghost var r, r' := Low(acc, pending), Low(u, bits);
    assert text[i..][0] == text[i] && text[i..][1..] == text[i + 1..];
    EncodeUnfold(text[i..], text[i], text[i + 1..], wasShifted, r, pending, r', bits);
    Associate(out, Emitted(text[i], wasShifted, r, pending), EncodeFrom(text[i + 1..], shifted, r', bits));
  }

  /** The encoder, with a 32-bit accumulator that is never cleared. */
  method EncodeText(text: seq<scalar>) returns (result: seq<byte>)
    ensures result == Encode(text)
  {
    result := [];
    var shifted: bool, bits: nat, u: nat := false, 0, 0;
    assert text[0..] == text;
    for i := 0 to |text|
      invariant IsPending(bits) && (!shifted ==> bits == 0)
      invariant result + EncodeFrom(text[i..], shifted, Low(u, bits), bits) == Encode(text)
    {
      result, shifted, u, bits := EncodeAt(text, i, result, shifted, u, bits);
    }
    if shifted {
      result := EmitUnshift(result, u, bits);
    }
    assert result + [] == result;
  }

  // The 32-bit shift of the decoder drops only bits above the low 26, of which 14 are pending.
  lemma SextetDrops(v: nat, p: nat, q: nat)
    requires p > 0 && q > 0 && p * q == 0x400_0000
    ensures v * 64 % 0x1_0000_0000 == v % 0x400_0000 * 64
    ensures v % 0x400_0000 % p == v % p
  {
    Snoc(v, 0x400_0000, 64, 0);
    Reduce(v, p, q);
  }

  // The accumulator modulo p * 64 is the low part of the old one followed by the sextet.
  lemma SextetLow(v: nat, p: nat, q: nat, s: sextet)
    requires p > 0 && q > 0 && p * q == 0x400_0000
    ensures (v * 64 % 0x1_0000_0000 + s) % (p * 64) == v % p * 64 + s
  {
    SextetDrops(v, p, q);
    Snoc(v % 0x400_0000, p, 64, s);
  }

  lemma ShiftShort(v: nat, bits: nat, s: sextet)
    requires bits == 0 || bits == 2 || bits == 4 || bits == 6 || bits == 8
    ensures Low(v * 64 % 0x1_0000_0000 + s, bits + 6) == Low(v, bits) * 64 + s
  {
    var acc := v * 64 % 0x1_0000_0000 + s;
    if bits == 0 {
      ShiftShortAt(v, 0, 1, 0x400_0000, s);
    } else if bits == 2 {
      ShiftShortAt(v, 1, 4, 0x100_0000, s);
    } else if bits == 4 {
      ShiftShortAt(v, 2, 16, 0x40_0000, s);
    } else if bits == 6 {
      ShiftShortAt(v, 3, 64, 0x10_0000, s);
    } else {
      ShiftShortAt(v, 4, 256, 0x4_0000, s);
    }
  }

  lemma ShiftShortAt(v: nat, k: nat, p: nat, q: nat, s: sextet)
    requires p == Pow4(k) && q > 0 && p * q == 0x400_0000
    ensures Low(v * 64 % 0x1_0000_0000 + s, 2 * k + 6) == Low(v, 2 * k) * 64 + s
  {
    SextetLow(v, p, q, s);
    BitsAt(v, k, p);
    assert Pow4(k + 3) == 4 * Pow4(k + 2) == 16 * Pow4(k + 1) == 64 * Pow4(k);
    BitsAt(v * 64 % 0x1_0000_0000 + s, k + 3, p * 64);
  }

  // The quotient and the remainder of the accumulator, from its low part.
  lemma SextetParts(v: nat, p: nat, q: nat, s: sextet, d: nat)
    requires p > 0 && q > 0 && p * q == 0x400_0000 && d > 0 && p * 64 == d * 65536
    ensures var v', acc := v % p * 64 + s, v * 64 % 0x1_0000_0000 + s;
            acc / d % 65536 == v' / d % 65536 && acc % d == v' % d
  {
    SextetLow(v, p, q, s);
    Reduce(v * 64 % 0x1_0000_0000 + s, d, 65536);
    QuotientBelow(v % p * 64 + s, d, 65536);
    Unique((v % p * 64 + s) / d, 65536, 0, (v % p * 64 + s) / d);
  }

  lemma ShiftLong(v: nat, bits: nat, s: sextet)
    requires bits == 10 || bits == 12 || bits == 14
    ensures var v', acc := Low(v, bits) * 64 + s, v * 64 % 0x1_0000_0000 + s;
            UnitAt(acc, bits - 10) == UnitAt(v', bits - 10) && Low(acc, bits - 10) == Low(v', bits - 10)
  {
    if bits == 10 {
      ShiftLongAt(v, 5, 1024, 0x1_0000, s, 0, 1);
    } else if bits == 12 {
      ShiftLongAt(v, 6, 4096, 0x4000, s, 1, 4);
    } else {
      ShiftLongAt(v, 7, 16384, 0x1000, s, 2, 16);
    }
  }

  lemma ShiftLongAt(v: nat, k: nat, p: nat, q: nat, s: sextet, j: nat, d: nat)
    requires p == Pow4(k) && d == Pow4(j) && q > 0 && p * q == 0x400_0000 && p * 64 == d * 65536
    ensures var v', acc := Low(v, 2 * k) * 64 + s, v * 64 % 0x1_0000_0000 + s;
            UnitAt(acc, 2 * j) == UnitAt(v', 2 * j) && Low(acc, 2 * j) == Low(v', 2 * j)
  {
    BitsAt(v, k, p);
    SextetParts(v, p, q, s, d);
    BitsAt(v * 64 % 0x1_0000_0000 + s, j, d);
    BitsAt(v % p * 64 + s, j, d);
  }

  /** A sextet shifted into the decoder's 32-bit accumulator: the code unit it completes and the bits it
      leaves pending are those of the pending bits followed by the sextet. */
  lemma ShiftSextet(v: nat, bits: nat, s: sextet)
    requires IsWidth(bits) && bits < 16
    ensures var v', acc := Low(v, bits) * 64 + s, v * 64 % 0x1_0000_0000 + s;
            && (bits < 10 ==> Low(acc, bits + 6) == v')
            && (bits >= 10 ==> UnitAt(acc, bits - 10) == UnitAt(v', bits - 10)
                               && Low(acc, bits - 10) == Low(v', bits - 10))
  {
    if bits < 10 {
      ShiftShort(v, bits, s);
    } else {
      ShiftLong(v, bits, s);
    }
  }

  // One byte of the decoder.
  lemma DecodeUnfold(text: seq<byte>, i: nat, shifted: bool, v: nat, bits: nat)
    requires i < |text| && IsWidth(bits) && bits < 16
    ensures DecodeFrom(text[i..], shifted, v, bits) ==
            if shifted then
              if text[i] == 45 then DecodeFrom(text[i + 1..], false, 0, 0)
              else if Rank(text[i]).None? then None
              else
                var v' := v * 64 + Rank(text[i]).value;
                if bits < 10 then DecodeFrom(text[i + 1..], true, v', bits + 6)
                else Prepend([UnitAt(v', bits - 10)], DecodeFrom(text[i + 1..], true, Low(v', bits - 10), bits - 10))
            else if text[i] == 0x26 && i + 1 < |text| then
              if text[i + 1] == 45 then Prepend([0x26], DecodeFrom(text[i + 2..], false, 0, 0))
              else DecodeFrom(text[i + 1..], true, 0, 0)
            else Prepend([text[i]], DecodeFrom(text[i + 1..], false, 0, 0))
  {
    assert text[i..][0] == text[i] && text[i..][1..] == text[i + 1..];
    assert i + 1 < |text| ==> text[i..][1] == text[i + 1] && text[i..][2..] == text[i + 2..];
  }

  method DecodeSextet(units: seq<unit>, acc: nat, pending: nat, s: sextet, ghost rest: seq<byte>)
    returns (bytes: seq<unit>, v: nat, bits: nat)
    requires IsWidth(pending) && pending < 16
    ensures IsWidth(bits) && bits < 16
    ensures var w := Low(acc, pending) * 64 + s;
      Prepend(bytes, DecodeFrom(rest, true, Low(v, bits), bits))
      == Prepend(units, if pending < 10 then DecodeFrom(rest, true, w, pending + 6)
                        else Prepend([UnitAt(w, pending - 10)], DecodeFrom(rest, true, Low(w, pending - 10), pending - 10)))
  {
    bytes := units;
    ShiftSextet(acc, pending, s);
    v := acc * 64 % 0x1_0000_0000 + s;
    bits := pending + 6;
    if bits >= 16 {
      var u := UnitAt(v, bits - 16);
      PrependTwice(bytes, [u], DecodeFrom(rest, true, Low(v, bits - 16), bits - 16));
      bytes := bytes + [u];
      bits := bits - 16;
    }
  }

  /** The decoder, with its 32-bit accumulator. */
  method DecodeUnits(text: seq<byte>) returns (r: Option<seq<unit>>)
    ensures r == DecodeFrom(text, false, 0, 0)
  {
    var bytes: seq<unit> := [];
    var shifted: bool, bits: nat, v: nat := false, 0, 0;
    var i := 0;
    PrependNone(DecodeFrom(text, false, 0, 0));
    assert text[0..] == text;
    while i < |text|
      invariant 0 <= i <= |text| && IsWidth(bits) && bits < 16 && (!shifted ==> bits == 0)
      invariant Prepend(bytes, DecodeFrom(text[i..], shifted, Low(v, bits), bits)) == DecodeFrom(text, false, 0, 0)
    {
      var ch := text[i];
      DecodeUnfold(text, i, shifted, Low(v, bits), bits);
      i := i + 1;
      if shifted {
        if ch == 45 {
          shifted, bits, v := false, 0, 0;
        } else {
          var rank := Rank(ch);
          if rank.None? {
            return None;
          }
          bytes, v, bits := DecodeSextet(bytes, v, bits, rank.value, text[i..]);
        }
      } else if ch == 0x26 && i < |text| {
        if text[i] == 45 {
          PrependTwice(bytes, [0x26], DecodeFrom(text[i + 1..], false, 0, 0));
          bytes := bytes + [0x26];
          i := i + 1;
        } else {
          shifted := true;
        }
      } else {
        PrependTwice(bytes, [ch], DecodeFrom(text[i..], false, 0, 0));
        bytes := bytes + [ch];
      }
    }
    assert bytes + [] == bytes;
    r := Some(bytes);
  }
}
