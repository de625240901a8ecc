/** The form of encoded mailbox names, run by run and bit by bit, and what the decoder makes of any bytes. */
module Utf7Laws {
  import opened Wrappers
  import opened Decimal
  import opened Sequences
  import opened Utf7

  const ALPHABET := "ABCDEFGHIJKLMNOP" + "QRSTUVWXYZabcdef" + "ghijklmnopqrstuv" + "wxyz0123456789+,"

  // ---- Bit strings, most significant bit first ----

  function Bits(x: nat, n: nat): (b: seq<bool>)
    ensures |b| == n
  {
    if n == 0 then [] else Bits(x / 2, n - 1) + [x % 2 == 1]
  }

  function Value(b: seq<bool>): nat {
    if b == [] then 0 else 2 * Value(b[..|b| - 1]) + (if b[|b| - 1] then 1 else 0)
  }

  function Pow2(n: nat): (p: nat)
    ensures p > 0
  {
    if n == 0 then 1 else 2 * Pow2(n - 1)
  }

  lemma {:induction false} ValueBits(x: nat, n: nat, p: nat)
    requires p == Pow2(n)
    ensures Value(Bits(x, n)) == x % p
    decreases n
  {
    if n > 0 {
      var init := Bits(x / 2, n - 1);
      assert Bits(x, n)[..n - 1] == init;
      ValueBits(x / 2, n - 1, Pow2(n - 1));
      Reduce(x, 2, Pow2(n - 1));
    }
  }

  // The bits of a word: those above the low 2k, and the low 2k.
  lemma {:induction false} BitsSplit(x: nat, m: nat, k: nat)
    ensures Bits(x, m + 2 * k) == Bits(High(x, 2 * k), m) + Bits(x, 2 * k)
    decreases k
  {
    if k == 0 {
      assert Bits(x, m) + [] == Bits(x, m);
    } else {
      BitsSplit(x / 4, m, k - 1);
      BitsTwo(x, m + 2 * k);
      BitsTwo(x, 2 * k);
      Associate(Bits(High(x, 2 * k), m), Bits(x / 4, 2 * k - 2), [x / 2 % 2 == 1, x % 2 == 1]);
    }
  }

  lemma BitsTwo(x: nat, n: nat)
    requires n >= 2
    ensures Bits(x, n) == Bits(x / 4, n - 2) + [x / 2 % 2 == 1, x % 2 == 1]
  {
    assert x / 2 / 2 == x / 4;
    assert Bits(x / 2, n - 1) == Bits(x / 4, n - 2) + [x / 2 % 2 == 1];
  }

  lemma LowTwo(r: nat, y: nat)
    requires r < 4
    ensures (r + 4 * y) / 4 == y && (r + 4 * y) / 2 % 2 == r / 2 && (r + 4 * y) % 2 == r % 2
  {
    assert (r + 4 * y) / 2 == r / 2 + 2 * y;
  }

  lemma LastTwo(x: nat)
    ensures x % 4 / 2 == x / 2 % 2 && x % 4 % 2 == x % 2
  {
  }

  lemma {:induction false} BitsLow(x: nat, k: nat)
    ensures Bits(Low(x, 2 * k), 2 * k) == Bits(x, 2 * k)
    decreases k
  {
    if k > 0 {
      LowTwo(x % 4, Low(x / 4, 2 * k - 2));
      LastTwo(x);
      BitsLow(x / 4, k - 1);
      BitsTwo(x, 2 * k);
      BitsTwo(Low(x, 2 * k), 2 * k);
    }
  }

  // ---- Letters ----

  // The letter of up to six bits, padded with zeros.
  function Letter(b: seq<bool>): byte
    requires |b| <= 6
  {
    var v := Value(b + seq(6 - |b|, i => false));
    LetterOf(v)
  }

  function LetterOf(v: nat): byte {
    var code := if v < 64 then ALPHABET[v] as int else 0;
    if code < 256 then code else 0
  }

  function Letters(b: seq<bool>): seq<byte>
    decreases |b|
  {
    if b == [] then [] else if |b| <= 6 then [Letter(b)] else [Letter(b[..6])] + Letters(b[6..])
  }

  function UnitBits(us: seq<unit>): seq<bool> {
    if us == [] then [] else Bits(us[0], 16) + UnitBits(us[1..])
  }

  lemma Alphabet0(s: sextet)
    requires 0 <= s < 16
    ensures Map(s) == ALPHABET[s] as int
  {
    assert
      || s == 0 || s == 1 || s == 2 || s == 3 || s == 4 || s == 5 || s == 6 || s == 7
      || s == 8 || s == 9 || s == 10 || s == 11 || s == 12 || s == 13 || s == 14 || s == 15;
  }

  lemma Alphabet1(s: sextet)
    requires 16 <= s < 32
    ensures Map(s) == ALPHABET[s] as int
  {
    assert
      || s == 16 || s == 17 || s == 18 || s == 19 || s == 20 || s == 21 || s == 22 || s == 23
      || s == 24 || s == 25 || s == 26 || s == 27 || s == 28 || s == 29 || s == 30 || s == 31;
  }

  lemma Alphabet2(s: sextet)
    requires 32 <= s < 48
    ensures Map(s) == ALPHABET[s] as int
  {
    assert
      || s == 32 || s == 33 || s == 34 || s == 35 || s == 36 || s == 37 || s == 38 || s == 39
      || s == 40 || s == 41 || s == 42 || s == 43 || s == 44 || s == 45 || s == 46 || s == 47;
  }

  lemma Alphabet3(s: sextet)
    requires 48 <= s < 64
    ensures Map(s) == ALPHABET[s] as int
  {
    assert
      || s == 48 || s == 49 || s == 50 || s == 51 || s == 52 || s == 53 || s == 54 || s == 55
      || s == 56 || s == 57 || s == 58 || s == 59 || s == 60 || s == 61 || s == 62 || s == 63;
  }

  lemma MapIs(s: sextet)
    ensures Map(s) == ALPHABET[s] as int && LetterOf(s) == Map(s)
  {
    if s < 16 {
      Alphabet0(s);
    } else if s < 32 {
      Alphabet1(s);
    } else if s < 48 {
      Alphabet2(s);
    } else {
      Alphabet3(s);
    }
  }

  lemma {:induction false} ValuePad(b: seq<bool>, k: nat)
    ensures Value(b + seq(k, i => false)) == Value(b) * Pow2(k)
    decreases k
  {
    var pad := seq(k, i => false);
    if k == 0 {
      assert b + pad == b;
    } else {
      var less := seq(k - 1, i => false);
      assert (b + pad)[..|b + pad| - 1] == b + less;
      ValuePad(b, k - 1);
      assert Value(b) * (2 * Pow2(k - 1)) == 2 * (Value(b) * Pow2(k - 1));
    }
  }

  lemma Sixteen()
    ensures Pow2(2) == 4 && Pow2(4) == 16 && Pow2(6) == 64 && Pow2(16) == 65536
  {
    assert Pow2(8) == 256;
    assert Pow2(12) == 4096;
  }

  lemma WholeLetter(h: nat)
    ensures Letter(Bits(h, 6)) == Map(h % 64)
  {
    var b := Bits(h, 6);
    assert b + seq(0, i => false) == b;
    Sixteen();
    ValueBits(h, 6, 64);
    MapIs(h % 64);
  }

  lemma SixLetters(h: seq<bool>, rest: seq<bool>)
    requires |h| == 6
    ensures Letters(h + rest) == [Letter(h)] + Letters(rest)
  {
    var b := h + rest;
    assert b[..6] == h && b[6..] == rest;
    if rest == [] {
      assert b == h;
    }
  }

  // A complete sextet is one letter.
  lemma SextetLetter(w: nat, k: nat, more: seq<bool>)
    ensures Letters(Bits(w, 6 + 2 * k) + more) == [Map(High(w, 2 * k) % 64)] + Letters(Bits(w, 2 * k) + more)
  {
    var h, low := Bits(High(w, 2 * k), 6), Bits(w, 2 * k);
    BitsSplit(w, 6, k);
    WholeLetter(High(w, 2 * k));
    Associate(h, low, more);
    SixLetters(h, low + more);
  }

  // The sextets that are complete once a code unit follows the pending bits.
  lemma SextetLetters(w: nat, bits: nat, more: seq<bool>)
    requires IsPending(bits)
    ensures Letters(Bits(w, bits + 16) + more) == Sextets(w, bits + 16) + Letters(Bits(w, Leftover(bits)) + more)
  {
    if bits == 0 {
      SextetLetter(w, 5, more);
      SextetLetter(w, 2, more);
      TwoSextets(w, Letters(Bits(w, 4) + more));
    } else if bits == 2 {
      SextetLetter(w, 6, more);
      SextetLetter(w, 3, more);
      SextetLetter(w, 0, more);
      ThreeSextets(w, 18, Letters(Bits(w, 0) + more));
    } else {
      SextetLetter(w, 7, more);
      SextetLetter(w, 4, more);
      SextetLetter(w, 1, more);
      ThreeSextets(w, 20, Letters(Bits(w, 2) + more));
    }
  }

  lemma TwoSextets(w: nat, rest: seq<byte>)
    ensures Sextets(w, 16) + rest == [Map(High(w, 10) % 64)] + ([Map(High(w, 4) % 64)] + rest)
  {
    assert Sextets(w, 4) == [];
    assert Sextets(w, 10) == [Map(High(w, 4) % 64)] + Sextets(w, 4);
    assert Sextets(w, 16) == [Map(High(w, 10) % 64)] + Sextets(w, 10);
  }

  lemma ThreeSextets(w: nat, n: nat, rest: seq<byte>)
    requires n == 18 || n == 20
    ensures Sextets(w, n) + rest
         == [Map(High(w, n - 6) % 64)] + ([Map(High(w, n - 12) % 64)] + ([Map(High(w, n - 18) % 64)] + rest))
  {
    assert Sextets(w, n - 18) == [];
    assert Sextets(w, n - 12) == [Map(High(w, n - 18) % 64)] + Sextets(w, n - 18);
    assert Sextets(w, n - 6) == [Map(High(w, n - 12) % 64)] + Sextets(w, n - 12);
    assert Sextets(w, n) == [Map(High(w, n - 6) % 64)] + Sextets(w, n - 6);
  }

  lemma PadOne(r: nat, bits: nat)
    requires bits == 2 || bits == 4
    ensures Letter(Bits(r, bits)) == Map(Padded(r, bits))
  {
    ValuePad(Bits(r, bits), 6 - bits);
    Sixteen();
    ValueBits(r, bits, if bits == 2 then 4 else 16);
    PadValue(r);
    MapIs(Padded(r, bits));
  }

  lemma PadValue(r: nat)
    ensures r % 4 * 16 == r * 16 % 64 && r % 16 * 4 == r * 4 % 64
  {
    Snoc(r, 4, 16, 0);
    Snoc(r, 16, 4, 0);
  }

  // The pending bits, padded.
  lemma PaddedLetters(r: nat, bits: nat)
    requires IsPending(bits)
    ensures Letters(Bits(r, bits)) == if bits > 0 then [Map(Padded(r, bits))] else []
  {
    if bits > 0 {
      PadOne(r, bits);
    }
  }

  // ---- Runs ----

  // The characters written as themselves, by their low 16 bits.
  predicate Direct(c: scalar) {
    0x20 <= c % 65536 <= 0x7E
  }

  lemma DirectIs(c: scalar)
    ensures Direct(c) <==> IsPrintable(Low16(c))
  {
  }

  function RunLength(text: seq<scalar>): (n: nat)
    ensures n <= |text| && (n > 0 <==> text != [] && !Direct(text[0]))
  {
    if text == [] || Direct(text[0]) then 0 else 1 + RunLength(text[1..])
  }

  // It is the longest such run.
  lemma {:induction false} RunIsMaximal(text: seq<scalar>)
    ensures var n := RunLength(text);
      (forall i | 0 <= i < n :: !Direct(text[i])) && (n < |text| ==> Direct(text[n]))
    decreases |text|
  {
    if text != [] && !Direct(text[0]) {
      RunIsMaximal(text[1..]);
      assert forall i | 1 <= i < |text| :: text[i] == text[1..][i - 1];
    }
  }

  function Narrowed(text: seq<scalar>): (us: seq<unit>)
    ensures |us| == |text|
  {
    seq(|text|, i requires 0 <= i < |text| => Low16(text[i]))
  }

  /** The encoding of a text: printable characters as they are, `&` as `&-`, and each maximal run of others as the
      letters of its bits between `&` and `-`. */
  function Written(text: seq<scalar>): seq<byte>
    decreases |text|
  {
    if text == [] then []
    else if Direct(text[0]) then (if text[0] % 65536 == 0x26 then [0x26, 45] else Utf8(text[0])) + Written(text[1..])
    else
      var n := RunLength(text);
      [0x26] + Letters(UnitBits(Narrowed(text[..n]))) + [45] + Written(text[n..])
  }

  lemma WordParts(r: nat, u: unit)
    ensures var w := r * 65536 + u; High(w, 16) == r && Low(w, 16) == u
  {
    assert Pow4(4) == 256;
    assert Pow4(8) == 65536;
    BitsAt(r * 65536 + u, 8, 65536);
    Unique(r * 65536 + u, 65536, r, u);
  }

  lemma WordIs(r: nat, u: unit, bits: nat)
    ensures Bits(r * 65536 + u, bits + 16) == Bits(r, bits) + Bits(u, 16)
  {
    var w := r * 65536 + u;
    WordParts(r, u);
    BitsSplit(w, bits, 8);
    BitsLow(w, 8);
  }

  lemma RunEnds(rest: seq<scalar>, r: nat, bits: nat)
    requires IsPending(bits) && (rest == [] || Direct(rest[0]))
    ensures EncodeFrom(rest, true, r, bits) == Letters(Bits(r, bits)) + [45] + EncodeFrom(rest, false, 0, 0)
  {
    PaddedLetters(r, bits);
    if rest != [] {
      EncodeShiftedPrintable(rest, r, bits);
    }
  }

  lemma LeftoverBits(w: nat, bits: nat)
    requires IsPending(bits)
    ensures Bits(Low(w, bits), bits) == Bits(w, bits)
  {
    BitsLow(w, if bits == 0 then 0 else if bits == 2 then 1 else 2);
  }

  lemma UnitStep(r: nat, bits: nat, u: unit, w: nat, more: seq<bool>)
    requires IsPending(bits) && w == r * 65536 + u
    ensures Letters(Bits(r, bits) + (Bits(u, 16) + more))
         == Sextets(w, bits + 16) + Letters(Bits(Low(w, Leftover(bits)), Leftover(bits)) + more)
  {
    var b := Leftover(bits);
    WordIs(r, u, bits);
    SameLetters(Bits(r, bits), Bits(u, 16), Bits(w, bits + 16), more);
    SextetLetters(w, bits, more);
    LeftoverBits(w, b);
  }

  lemma SameLetters(a: seq<bool>, b: seq<bool>, c: seq<bool>, more: seq<bool>)
    requires c == a + b
    ensures Letters(a + (b + more)) == Letters(c + more)
  {
    Associate(a, b, more);
  }

  lemma NarrowedRest(run: seq<scalar>)
    requires run != []
    ensures Narrowed(run)[0] == Low16(run[0]) && Narrowed(run)[1..] == Narrowed(run[1..])
  {
  }

  lemma {:induction false} RunEncodes(run: seq<scalar>, rest: seq<scalar>, r: nat, bits: nat)
    requires IsPending(bits) && (rest == [] || Direct(rest[0])) && forall i | 0 <= i < |run| :: !Direct(run[i])
    ensures EncodeFrom(run + rest, true, r, bits)
         == Letters(Bits(r, bits) + UnitBits(Narrowed(run))) + [45] + EncodeFrom(rest, false, 0, 0)
    decreases |run|
  {
    if run == [] {
      assert run + rest == rest && Bits(r, bits) + [] == Bits(r, bits);
      RunEnds(rest, r, bits);
    } else {
      var u, b := Low16(run[0]), Leftover(bits);
      var w, tail := r * 65536 + u, UnitBits(Narrowed(run[1..]));
      DirectIs(run[0]);
      RunStep(run, rest, r, bits, w);
      RunEncodes(run[1..], rest, Low(w, b), b);
      NarrowedRest(run);
      UnitStep(r, bits, u, w, tail);
      Regroup(Sextets(w, bits + 16), Letters(Bits(Low(w, b), b) + tail), EncodeFrom(rest, false, 0, 0));
    }
  }

  lemma RunStep(run: seq<scalar>, rest: seq<scalar>, r: nat, bits: nat, w: nat)
    requires IsPending(bits) && run != [] && !IsPrintable(Low16(run[0])) && w == r * 65536 + Low16(run[0])
    ensures EncodeFrom(run + rest, true, r, bits)
         == Sextets(w, bits + 16) + EncodeFrom(run[1..] + rest, true, Low(w, Leftover(bits)), Leftover(bits))
  {
    assert (run + rest)[0] == run[0] && (run + rest)[1..] == run[1..] + rest;
    EncodeUnfold(run + rest, run[0], run[1..] + rest, true, r, bits, Low(w, Leftover(bits)), Leftover(bits));
    EmittedShifted(run[0], r, bits, w);
  }

  lemma EmittedShifted(c: scalar, r: nat, bits: nat, w: nat)
    requires IsPending(bits) && !IsPrintable(Low16(c)) && w == r * 65536 + Low16(c)
    ensures Emitted(c, true, r, bits) == Sextets(w, bits + 16)
  {
    assert [] + Sextets(w, bits + 16) == Sextets(w, bits + 16);
  }

  lemma Regroup(a: seq<byte>, b: seq<byte>, c: seq<byte>)
    ensures a + (b + [45] + c) == a + b + [45] + c
  {
  }

  lemma EmittedOpens(c: scalar)
    requires !IsPrintable(Low16(c))
    ensures Emitted(c, false, 0, 0) == [0x26] + Emitted(c, true, 0, 0)
  {
  }

  lemma OpensRun(text: seq<scalar>)
    requires text != [] && !IsPrintable(Low16(text[0]))
    ensures Encode(text) == [0x26] + EncodeFrom(text, true, 0, 0)
  {
    var c, tail := text[0], text[1..];
    var r := Low(Low16(c), 4);
    EncodeUnfold(text, c, tail, false, 0, 0, r, 4);
    EncodeUnfold(text, c, tail, true, 0, 0, r, 4);
    EmittedOpens(c);
    Associate([0x26], Emitted(c, true, 0, 0), EncodeFrom(tail, true, r, 4));
  }

  /** Every text is encoded in that form. */
  lemma {:induction false} EncodesAs(text: seq<scalar>)
    ensures Encode(text) == Written(text)
    decreases |text|
  {
    if text == [] {
    } else if Direct(text[0]) {
      var head := if text[0] % 65536 == 0x26 then [0x26, 45] else Utf8(text[0]);
      EncodesAs(text[1..]);
      assert [] + head == head;
    } else {
      var n := RunLength(text);
      assert text == text[..n] + text[n..];
      RunIsMaximal(text);
      DirectIs(text[0]);
      OpensRun(text);
      RunEncodes(text[..n], text[n..], 0, 0);
      EncodesAs(text[n..]);
      assert Bits(0, 0) + UnitBits(Narrowed(text[..n])) == UnitBits(Narrowed(text[..n]));
      var l := Letters(UnitBits(Narrowed(text[..n])));
      Regroup([0x26], l, Encode(text[n..]));
    }
  }

  lemma EmittedDirect(c: scalar)
    requires 0x20 <= c <= 0x7E
    ensures Emitted(c, false, 0, 0) == if c == 0x26 then [0x26, 45] else [c]
  {
  }

  /** A first character that is printable is written as it is, or as `&-`, and the rest on its own. */
  lemma DirectName(c: scalar, rest: seq<scalar>)
    requires 0x20 <= c <= 0x7E
    ensures Encode([c] + rest) == (if c == 0x26 then [0x26, 45] else [c]) + Encode(rest)
  {
    EmittedDirect(c);
    EncodeUnfold([c] + rest, c, rest, false, 0, 0, 0, 0);
  }

  lemma {:induction false} PlainWritten(text: seq<scalar>)
    requires forall i | 0 <= i < |text| :: 0x20 <= text[i] <= 0x7E && text[i] != 0x26
    ensures Written(text) == text
    decreases |text|
  {
    if text != [] {
      PlainWritten(text[1..]);
      WrittenDirect(text);
      assert [text[0]] + text[1..] == text;
    }
  }

  lemma WrittenDirect(text: seq<scalar>)
    requires text != [] && Direct(text[0])
    ensures Written(text) == (if text[0] % 65536 == 0x26 then [0x26, 45] else Utf8(text[0])) + Written(text[1..])
  {
  }

  /** A name of printable ASCII characters other than `&` is its own encoding. */
  lemma PlainName(text: seq<scalar>)
    requires forall i | 0 <= i < |text| :: 0x20 <= text[i] <= 0x7E && text[i] != 0x26
    ensures Encode(text) == text
  {
    EncodesAs(text);
    PlainWritten(text);
  }

  // ---- What the decoder makes of any bytes ----

  /** The decoder's table: the place of a letter in the alphabet, and of nothing else. */
  lemma RankIs(b: byte, v: nat)
    ensures Rank(b) == Some(v) <==> v < 64 && ALPHABET[v] as int == b
  {
    if v < 64 {
      MapIs(v);
      RankMap(v);
    }
    if Rank(b).Some? {
      MapIs(Rank(b).value);
    }
  }

  function LetterBits(run: seq<byte>): Option<seq<bool>> {
    if run == [] then Some([])
    else
      var rest := LetterBits(run[1..]);
      if Rank(run[0]).None? || rest.None? then None else Some(Bits(Rank(run[0]).value, 6) + rest.value)
  }

  // The 16-bit numbers of a bit string; fewer than 16 bits at the end are dropped.
  function Groups(b: seq<bool>): seq<unit>
    decreases |b|
  {
    if |b| < 16 then [] else [Value(b[..16]) % 65536] + Groups(b[16..])
  }

  // The bytes before the first `-`.
  function Dash(text: seq<byte>): (n: nat)
    ensures n <= |text| && (n < |text| ==> text[n] == 45) && 45 !in text[..n]
  {
    if text == [] || text[0] == 45 then 0 else 1 + Dash(text[1..])
  }

  /** The code units of any bytes: a byte stands for itself, as does a `&` at the very end; `&-` is `&`; and a `&`
      begins a run of letters up to a `-` or the end, which is refused when it holds anything else. */
  function Meant(text: seq<byte>): Option<seq<unit>>
    decreases |text|
  {
    if text == [] then Some([])
    else if text[0] != 0x26 || |text| == 1 then Prepend([text[0]], Meant(text[1..]))
    else if text[1] == 45 then Prepend([0x26], Meant(text[2..]))
    else
      var n := 1 + Dash(text[1..]);
      var bits := LetterBits(text[1..n]);
      if bits.None? then None
      else Prepend(Groups(bits.value), Meant(if n < |text| then text[n + 1..] else []))
  }

  lemma FirstGroup(h: seq<bool>, rest: seq<bool>)
    requires |h| == 16
    ensures Groups(h + rest) == [Value(h) % 65536] + Groups(rest)
  {
    assert (h + rest)[..16] == h && (h + rest)[16..] == rest;
  }

  lemma UnitValue(h: nat)
    ensures Value(Bits(h, 16)) % 65536 == h % 65536
  {
    Sixteen();
    ValueBits(h, 16, 65536);
  }

  lemma SixteenBits(h: nat, rest: seq<bool>)
    ensures Groups(Bits(h, 16) + rest) == [h % 65536] + Groups(rest)
  {
    FirstGroup(Bits(h, 16), rest);
    UnitValue(h);
  }

  lemma SextetJoins(v: nat, s: sextet, bits: nat)
    ensures Bits(v * 64 + s, bits + 6) == Bits(v, bits) + Bits(s, 6)
  {
    var w := v * 64 + s;
    assert Pow4(3) == 64;
    BitsAt(w, 3, 64);
    Unique(w, 64, v, s);
    BitsSplit(w, bits, 3);
    BitsLow(w, 3);
  }

  // A letter, with the bits pending before it and more to come.
  lemma LetterGroups(v: nat, bits: nat, s: sextet, more: seq<bool>)
    requires IsWidth(bits) && bits < 16
    ensures var w := v * 64 + s;
      Groups(Bits(v, bits) + (Bits(s, 6) + more))
      == if bits < 10 then Groups(Bits(w, bits + 6) + more)
         else [UnitAt(w, bits - 10)] + Groups(Bits(Low(w, bits - 10), bits - 10) + more)
  {
    var w := v * 64 + s;
    SextetJoins(v, s, bits);
    Associate(Bits(v, bits), Bits(s, 6), more);
    if bits >= 10 {
      UnitGroups(w, if bits == 10 then 0 else if bits == 12 then 1 else 2, more);
    }
  }

  lemma UnitGroups(w: nat, k: nat, more: seq<bool>)
    ensures Groups(Bits(w, 16 + 2 * k) + more) == [UnitAt(w, 2 * k)] + Groups(Bits(Low(w, 2 * k), 2 * k) + more)
  {
    BitsSplit(w, 16, k);
    BitsLow(w, k);
    Associate(Bits(High(w, 2 * k), 16), Bits(w, 2 * k), more);
    SixteenBits(High(w, 2 * k), Bits(w, 2 * k) + more);
  }

  // What a run gives, followed by what comes after it.
  function RunMeant(v: nat, bits: nat, run: seq<byte>, after: seq<byte>): Option<seq<unit>> {
    var more := LetterBits(run);
    if more.None? then None else Prepend(Groups(Bits(v, bits) + more.value), DecodeFrom(after, false, 0, 0))
  }

  lemma RunMeantLetter(v: nat, bits: nat, run: seq<byte>, after: seq<byte>, s: sextet)
    requires IsWidth(bits) && bits < 16 && run != [] && Rank(run[0]) == Some(s)
    ensures var w := v * 64 + s;
      RunMeant(v, bits, run, after)
      == if bits < 10 then RunMeant(w, bits + 6, run[1..], after)
         else Prepend([UnitAt(w, bits - 10)], RunMeant(Low(w, bits - 10), bits - 10, run[1..], after))
  {
    var rest := LetterBits(run[1..]);
    if rest.Some? {
      var w := v * 64 + s;
      LetterGroups(v, bits, s, rest.value);
      if bits >= 10 {
        PrependTwice([UnitAt(w, bits - 10)], Groups(Bits(Low(w, bits - 10), bits - 10) + rest.value),
                     DecodeFrom(after, false, 0, 0));
      }
    }
  }

  lemma NoGroup(v: nat, bits: nat, after: seq<byte>)
    requires bits < 16
    ensures RunMeant(v, bits, [], after) == DecodeFrom(after, false, 0, 0)
  {
    assert Bits(v, bits) + [] == Bits(v, bits);
    PrependNone(DecodeFrom(after, false, 0, 0));
  }

  lemma LetterStep(text: seq<byte>, v: nat, bits: nat)
    requires text != [] && text[0] != 45 && IsWidth(bits) && bits < 16
    ensures var s := Rank(text[0]);
      DecodeFrom(text, true, v, bits)
      == if s.None? then None
         else if bits < 10 then DecodeFrom(text[1..], true, v * 64 + s.value, bits + 6)
         else Prepend([UnitAt(v * 64 + s.value, bits - 10)],
                      DecodeFrom(text[1..], true, Low(v * 64 + s.value, bits - 10), bits - 10))
  {
  }

  lemma {:induction false} DecodesRun(run: seq<byte>, tail: seq<byte>, after: seq<byte>, v: nat, bits: nat)
    requires IsWidth(bits) && bits < 16 && 45 !in run
    requires (tail == [] && after == []) || (tail != [] && tail[0] == 45 && after == tail[1..])
    ensures DecodeFrom(run + tail, true, v, bits) == RunMeant(v, bits, run, after)
    decreases |run|
  {
    if run == [] {
      assert run + tail == tail;
      NoGroup(v, bits, after);
    } else {
      assert (run + tail)[0] == run[0] && (run + tail)[1..] == run[1..] + tail;
      LetterStep(run + tail, v, bits);
      var s := Rank(run[0]);
      if s.Some? {
        var w := v * 64 + s.value;
        RunMeantLetter(v, bits, run, after, s.value);
        if bits < 10 {
          DecodesRun(run[1..], tail, after, w, bits + 6);
        } else {
          DecodesRun(run[1..], tail, after, Low(w, bits - 10), bits - 10);
        }
      }
    }
  }

  lemma DecodesShift(text: seq<byte>, n: nat)
    requires |text| > 1 && text[0] == 0x26 && text[1] != 45 && n == 1 + Dash(text[1..])
    ensures DecodeFrom(text, false, 0, 0) == RunMeant(0, 0, text[1..n], if n < |text| then text[n + 1..] else [])
  {
    var run, tail := text[1..n], text[n..];
    assert text[1..] == run + tail && text[1..][..n - 1] == run;
    DecodesRun(run, tail, if n < |text| then text[n + 1..] else [], 0, 0);
  }

  /** Every byte string is decoded so. */
  lemma {:induction false} DecodesAs(text: seq<byte>)
    ensures DecodeFrom(text, false, 0, 0) == Meant(text)
    decreases |text|
  {
    if text == [] {
    } else if text[0] != 0x26 || |text| == 1 {
      DecodesAs(text[1..]);
    } else if text[1] == 45 {
      DecodesAs(text[2..]);
    } else {
      var n := 1 + Dash(text[1..]);
      DecodesShift(text, n);
      DecodesAs(if n < |text| then text[n + 1..] else []);
      var bits := LetterBits(text[1..n]);
      if bits.Some? {
        assert Bits(0, 0) + bits.value == bits.value;
      }
    }
  }

  // ---- UTF-16 ----

  function Pair(c: scalar): seq<unit> {
    if c < 0x10000 then [c] else [0xD800 + (c - 0x10000) / 1024, 0xDC00 + (c - 0x10000) % 1024]
  }

  function Pairs(text: seq<scalar>): seq<unit> {
    if text == [] then [] else Pair(text[0]) + Pairs(text[1..])
  }

  lemma {:induction false} PairsRead(text: seq<scalar>)
    ensures FromUtf16(Pairs(text)) == Some(text)
    decreases |text|
  {
    if text != [] {
      PairsRead(text[1..]);
      var us, rest := Pairs(text), Pairs(text[1..]);
      assert us[|Pair(text[0])|..] == rest;
      assert [text[0]] + text[1..] == text;
    }
  }

  lemma PairOf(high: nat, low: nat)
    requires 0xD800 <= high < 0xDC00 <= low < 0xE000
    ensures Pair(FromPair(high, low)) == [high, low]
  {
    Unique((high - 0xD800) * 1024 + (low - 0xDC00), 1024, high - 0xD800, low - 0xDC00);
  }

  lemma {:induction false} ReadPairs(us: seq<unit>)
    requires FromUtf16(us).Some?
    ensures Pairs(FromUtf16(us).value) == us
    decreases |us|
  {
    if us != [] {
      var n := if IsHigh(us[0]) then 2 else 1;
      ReadPairs(us[n..]);
      var text := FromUtf16(us).value;
      assert text[1..] == FromUtf16(us[n..]).value;
      if n == 2 {
        PairOf(us[0], us[1]);
      }
      assert us == us[..n] + us[n..];
    }
  }

  /** Code units are read as a text exactly when they are its UTF-16 form. */
  lemma ReadsUtf16(us: seq<unit>, text: seq<scalar>)
    ensures FromUtf16(us) == Some(text) <==> us == Pairs(text)
  {
    PairsRead(text);
    if FromUtf16(us) == Some(text) {
      ReadPairs(us);
    }
  }
}
