/** IMAP sequence sets (section 9 of RFC 3501): a one-pass scanner against the grammar of its items. */
module SequenceSet {
  import opened Wrappers
  import opened Decimal
  import opened Sequences

  const COMMA: byte := 44
  const COLON: byte := 58
  const STAR: byte := 42
  const DOLLAR: byte := 36

  datatype Sequence =
    | Number(value: nat)
    | Range(start: Option<nat>, end: Option<nat>)
    | SavedSearch
    | List(items: seq<Sequence>)

  // ---- The grammar: items between commas, ends around a colon ----

  predicate Lacks(s: seq<byte>, ch: byte) {
    forall i | 0 <= i < |s| :: s[i] != ch
  }

  // The first position of ch, or the length.
  function Find(s: seq<byte>, ch: byte): (n: nat)
    ensures n <= |s| && (n < |s| ==> s[n] == ch)
  {
    if s == [] || s[0] == ch then 0 else 1 + Find(s[1..], ch)
  }

  lemma {:induction false} FindIsFirst(s: seq<byte>, ch: byte)
    ensures Lacks(s[..Find(s, ch)], ch)
    decreases |s|
  {
    if s != [] && s[0] != ch {
      FindIsFirst(s[1..], ch);
      assert s[..Find(s, ch)] == [s[0]] + s[1..][..Find(s[1..], ch)];
    }
  }

  lemma {:induction false} FindIs(s: seq<byte>, ch: byte, n: nat)
    requires n <= |s| && Lacks(s[..n], ch) && (n < |s| ==> s[n] == ch)
    ensures Find(s, ch) == n
    decreases |s|
  {
    if n > 0 {
      assert s[0] == s[..n][0];
      assert s[1..][..n - 1] == s[..n][1..];
      FindIs(s[1..], ch, n - 1);
    }
  }

  // What stands before the first colon, if there is one, and what stands after it.
  datatype Parts = Parts(first: Option<seq<byte>>, last: seq<byte>)

  function AddByte(p: Parts, x: byte): Parts {
    if x == COLON && p.first.None? then Parts(Some(p.last), []) else Parts(p.first, p.last + [x])
  }

  function PartsOf(s: seq<byte>): Parts {
    var c := Find(s, COLON);
    if c < |s| then Parts(Some(s[..c]), s[c + 1..]) else Parts(None, s)
  }

  function ParseNumber(s: seq<byte>): Option<nat> {
    if AllDigits(s) then ParseU32(s) else None
  }

  // One end of a range: `*` is the absent number.
  function EndOf(s: seq<byte>): Option<Option<nat>> {
    if s == [STAR] then Some(None)
    else
      var n := ParseNumber(s);
      if n.None? then None else Some(n)
  }

  predicate HasDollar(s: seq<byte>) {
    s != [] && s[|s| - 1] == DOLLAR
  }

  function Core(s: seq<byte>): seq<byte> {
    if HasDollar(s) then s[..|s| - 1] else s
  }

  // One item; `saved` is left standing by an earlier `$` that stood next to a `*`.
  function ParseParts(p: Parts, saved: bool): Option<(Sequence, bool)> {
    var core, dollar := Core(p.last), HasDollar(p.last);
    if p.first.Some? then
      var from, to := EndOf(p.first.value), EndOf(core);
      if from.None? || to.None? || (dollar && to.value.Some?) then None
      else Some((Range(from.value, to.value), saved || dollar))
    else if core == [STAR] then Some((Range(None, None), saved || dollar))
    else if !AllDigits(core) then None
    else if saved || dollar then Some((SavedSearch, false))
    else if ParseU32(core).None? then None
    else Some((Number(ParseU32(core).value), false))
  }

  function ParseItem(s: seq<byte>, saved: bool): Option<(Sequence, bool)> {
    ParseParts(PartsOf(s), saved)
  }

  // The items of a set; a trailing comma adds none.
  function ParseItems(s: seq<byte>, saved: bool): Option<seq<Sequence>>
    decreases |s|
  {
    if s == [] then Some([])
    else
      var n := Find(s, COMMA);
      var item := ParseItem(s[..n], saved);
      if item.None? then None
      else Then(item.value.0, ParseItems(if n < |s| then s[n + 1..] else [], item.value.1))
  }

  function Then(item: Sequence, rest: Option<seq<Sequence>>): Option<seq<Sequence>> {
    if rest.None? then None else Some([item] + rest.value)
  }

  function ParseSet(s: seq<byte>): Option<Sequence> {
    var items := ParseItems(s, false);
    if items.None? || items.value == [] then None
    else if |items.value| == 1 then Some(items.value[0])
    else Some(List(items.value))
  }

  // ---- The scanner ----

  datatype Scan = Scan(start: Option<nat>, token: Option<nat>, wildcard: bool, range: bool, saved: bool)

  predicate Open(t: seq<byte>) {
    AllDigits(t) || t == [STAR]
  }

  // The parts of a prefix the scanner has not refused.
  predicate Viable(p: Parts) {
    (p.first.Some? ==> EndOf(p.first.value).Some?) && Open(Core(p.last))
  }

  // The scanner after such a prefix, whose last part begins at `at`.
  function ScanOf(p: Parts, at: nat, saved: bool): Scan
    requires Viable(p)
  {
    var core := Core(p.last);
    Scan(if p.first.Some? then EndOf(p.first.value).value else None,
         if core == [] || core == [STAR] then None else Some(at),
         core == [STAR],
         p.first.Some?,
         saved || HasDollar(p.last))
  }

  // ---- Prefixes of an item ----

  lemma FindInPrefix(u: seq<byte>, s: seq<byte>, ch: byte)
    requires u <= s
    ensures Find(u, ch) < |u| ==> Find(s, ch) == Find(u, ch)
    ensures Find(u, ch) == |u| ==> Find(s, ch) >= |u|
  {
    var n := Find(u, ch);
    FindIsFirst(u, ch);
    assert s[..n] == u[..n];
    if n < |u| {
      FindIs(s, ch, n);
    } else {
      assert forall i | 0 <= i < |u| :: s[i] == u[..n][i];
    }
  }

  lemma FindSnoc(u: seq<byte>, x: byte, ch: byte)
    ensures Find(u + [x], ch) == if Find(u, ch) < |u| || x == ch then Find(u, ch) else |u| + 1
  {
    var n := Find(u, ch);
    FindIsFirst(u, ch);
    assert (u + [x])[..n] == u[..n];
    if n < |u| || x == ch {
      FindIs(u + [x], ch, n);
    } else {
      assert (u + [x])[..n + 1] == u + [x];
      FindIs(u + [x], ch, n + 1);
    }
  }

  lemma SplitSnoc(u: seq<byte>, x: byte, n: nat)
    requires n <= |u|
    ensures (u + [x])[..n] == u[..n] && (u + [x])[n..] == u[n..] + [x]
  {
  }

  lemma PartsSnoc(u: seq<byte>, x: byte)
    ensures PartsOf(u + [x]) == AddByte(PartsOf(u), x)
  {
    var c := Find(u, COLON);
    FindSnoc(u, x, COLON);
    if c < |u| {
      SplitSnoc(u, x, c);
      SplitSnoc(u, x, c + 1);
    } else if x == COLON {
      assert (u + [x])[..|u|] == u && (u + [x])[|u| + 1..] == [];
    }
  }

  lemma NoDollar(u: seq<byte>)
    requires !HasDollar(u)
    ensures !HasDollar(PartsOf(u).last)
  {
  }

  // Parts only grow: the last one, or, when a colon follows, the one before it.
  predicate Grows(p: Parts, q: Parts) {
    if p.first.None? && q.first.Some? then p.last <= q.first.value
    else p.first == q.first && p.last <= q.last
  }

  lemma PartsGrow(u: seq<byte>, item: seq<byte>)
    requires u <= item
    ensures Grows(PartsOf(u), PartsOf(item))
    ensures |u| < |item| && PartsOf(u).first == PartsOf(item).first ==> PartsOf(u).last < PartsOf(item).last
  {
    FindInPrefix(u, item, COLON);
    var c := Find(u, COLON);
    if c < |u| {
      assert u[..c] == item[..c] && u[c + 1..] <= item[c + 1..];
    }
  }

  // A prefix that is not open cannot be completed to a number or a `*`.
  lemma NeverOpens(t: seq<byte>, s: seq<byte>)
    requires t <= s && !Open(t)
    ensures !Open(s)
  {
    var i :| 0 <= i < |t| && !IsDigit(t[i]);
    assert !IsDigit(s[i]);
  }

  lemma CoreExtends(t: seq<byte>, s: seq<byte>)
    requires t <= s && (t < s || !HasDollar(t))
    ensures t <= Core(s)
  {
  }

  lemma RejectedParts(p: Parts, q: Parts, saved: bool)
    requires Grows(p, q) && !Open(p.last)
    requires p.first == q.first ==> p.last < q.last || !HasDollar(p.last)
    ensures ParseParts(q, saved) == None
  {
    if p.first.None? && q.first.Some? {
      NeverOpens(p.last, q.first.value);
    } else {
      CoreExtends(p.last, q.last);
      NeverOpens(p.last, Core(q.last));
    }
  }

  /** A scanner that stops at u does so because no item begins with u. */
  lemma Rejected(u: seq<byte>, item: seq<byte>, saved: bool)
    requires u <= item && !Open(PartsOf(u).last)
    requires |u| < |item| || !HasDollar(PartsOf(u).last)
    ensures ParseItem(item, saved) == None
  {
    PartsGrow(u, item);
    RejectedParts(PartsOf(u), PartsOf(item), saved);
  }

  // A range needs a first end.
  lemma RejectedColon(u: seq<byte>, item: seq<byte>, saved: bool)
    requires u + [COLON] <= item && PartsOf(u).first.None? && EndOf(PartsOf(u).last) == None
    ensures ParseItem(item, saved) == None
  {
    PartsSnoc(u, COLON);
    PartsGrow(u + [COLON], item);
  }

  // ---- Taking one byte, on the parts ----

  lemma CoreSnoc(t: seq<byte>, x: byte)
    ensures Core(t + [x]) == if x == DOLLAR then t else t + [x]
    ensures HasDollar(t + [x]) <==> x == DOLLAR
  {
    assert (t + [x])[..|t|] == t;
  }

  // The scanner's own test for a byte other than `:` and `$`.
  lemma Takes(p: Parts, x: byte, at: nat, saved: bool)
    requires Viable(p) && !HasDollar(p.last)
    ensures var scan := ScanOf(p, at, saved);
      Open(p.last + [x]) <==> (x == STAR && !scan.wildcard && scan.token.None?) || (IsDigit(x) && !scan.wildcard)
  {
    var t := p.last;
    assert (t + [x])[|t|] == x;
    assert t != [] ==> (t + [x])[0] == t[0];
  }

  // The scanner after the byte.
  function Taken(scan: Scan, x: byte, pos: nat): Scan {
    if x == STAR then scan.(wildcard := true)
    else if x == DOLLAR then scan.(saved := true)
    else if scan.token.None? then scan.(token := Some(pos))
    else scan
  }

  lemma TakenIs(p: Parts, x: byte, at: nat, saved: bool)
    requires Viable(p) && !HasDollar(p.last) && x != COLON && (x == DOLLAR || Open(p.last + [x]))
    ensures Viable(AddByte(p, x))
    ensures ScanOf(AddByte(p, x), at, saved) == Taken(ScanOf(p, at, saved), x, at + |p.last|)
  {
    var t := p.last;
    CoreSnoc(t, x);
    assert (t + [x])[|t|] == x;
    assert t != [] ==> (t + [x])[0] == t[0];
  }

  // ---- The scanner, one byte ----

  // The bytes before `pos` are t.
  predicate EndsWith(value: seq<byte>, pos: nat, t: seq<byte>) {
    |t| <= pos <= |value| && value[pos - |t|..pos] == t
  }

  lemma EndsWithNext(value: seq<byte>, pos: nat, t: seq<byte>)
    requires pos < |value| && EndsWith(value, pos, t)
    ensures EndsWith(value, pos + 1, t + [value[pos]])
  {
    assert value[pos - |t|..pos + 1] == value[pos - |t|..pos] + [value[pos]];
  }

  // `scan` is the scanner at `pos`, the parts of the item so far being p.
  predicate Scans(value: seq<byte>, pos: nat, p: Parts, scan: Scan, saved: bool) {
    EndsWith(value, pos, p.last) && Viable(p) && scan == ScanOf(p, pos - |p.last|, saved)
  }

  lemma ScansNext(value: seq<byte>, pos: nat, p: Parts, scan: Scan, saved: bool)
    requires pos < |value| && Scans(value, pos, p, scan, saved) && !HasDollar(p.last)
    requires value[pos] != COLON && (value[pos] == DOLLAR || Open(p.last + [value[pos]]))
    ensures Scans(value, pos + 1, AddByte(p, value[pos]), Taken(scan, value[pos], pos), saved)
  {
    var x, at := value[pos], pos - |p.last|;
    EndsWithNext(value, pos, p.last);
    TakenIs(p, x, at, saved);
    ScansAt(value, pos + 1, AddByte(p, x), Taken(scan, x, pos), saved, at);
  }

  lemma ScansAt(value: seq<byte>, pos: nat, p: Parts, scan: Scan, saved: bool, at: nat)
    requires EndsWith(value, pos, p.last) && Viable(p) && at + |p.last| == pos && scan == ScanOf(p, at, saved)
    ensures Scans(value, pos, p, scan, saved)
  {
  }

  lemma ScansColon(value: seq<byte>, pos: nat, p: Parts, scan: Scan, saved: bool)
    requires pos < |value| && Scans(value, pos, p, scan, saved) && !HasDollar(p.last)
    requires p.first.None? && EndOf(p.last).Some?
    ensures Scans(value, pos + 1, Parts(Some(p.last), []), Scan(EndOf(p.last).value, None, false, true, scan.saved), saved)
  {
    assert value[pos + 1..pos + 1] == [];
  }

  method TakeColon(value: seq<byte>, pos: nat, scan: Scan, ghost p: Parts, ghost saved: bool) returns (next: Option<Scan>)
    requires pos < |value| && Scans(value, pos, p, scan, saved) && !HasDollar(p.last)
    ensures next.Some? ==> Scans(value, pos + 1, AddByte(p, COLON), next.value, saved)
    ensures next.None? ==> p.first.Some? || EndOf(p.last) == None
  {
    next := None;
    if !scan.range {
      if scan.token.Some? {
        var n := ParseNumber(value[scan.token.value..pos]);
        if n.Some? {
          next := Some(scan.(start := n, token := None, range := true));
        }
      } else if scan.wildcard {
        next := Some(scan.(wildcard := false, range := true));
      }
      if next.Some? {
        ScansColon(value, pos, p, scan, saved);
      }
    }
  }

  method TakeOther(value: seq<byte>, pos: nat, scan: Scan, ghost p: Parts, ghost saved: bool) returns (next: Option<Scan>)
    requires pos < |value| && value[pos] != COLON && Scans(value, pos, p, scan, saved) && !HasDollar(p.last)
    ensures next.Some? ==> Scans(value, pos + 1, AddByte(p, value[pos]), next.value, saved)
    ensures value[pos] == DOLLAR ==> (next.Some? <==> pos + 1 == |value| || value[pos + 1] == COMMA)
    ensures next.None? ==> !Open(p.last + [value[pos]])
  {
    var x := value[pos];
    next := None;
    if x == STAR {
      if !scan.wildcard && scan.token.None? {
        next := Some(scan.(wildcard := true));
      }
    } else if x == DOLLAR {
      if pos + 1 == |value| || value[pos + 1] == COMMA {
        next := Some(scan.(saved := true));
      }
    } else if IsDigit(x) && !scan.wildcard {
      next := Some(if scan.token.None? then scan.(token := Some(pos)) else scan);
    }
    Takes(p, x, pos - |p.last|, saved);
    if next.Some? {
      ScansNext(value, pos, p, scan, saved);
    }
  }

  method CloseRange(value: seq<byte>, end: nat, scan: Scan, ghost p: Parts, ghost saved: bool) returns (r: Option<Sequence>)
    requires Scans(value, end, p, scan, saved) && scan.range
    ensures ParseParts(p, saved) == if r.None? then None else Some((r.value, scan.saved))
  {
    if scan.wildcard {
      r := Some(Range(scan.start, None));
    } else if scan.token.None? {
      r := None;
    } else {
      var n := ParseNumber(value[scan.token.value..end]);
      r := if n.None? then None else Some(Range(scan.start, n));
      assert HasDollar(p.last) ==> !IsDigit(p.last[|p.last| - 1]);
    }
  }

  method CloseSingle(value: seq<byte>, end: nat, scan: Scan, ghost p: Parts, ghost saved: bool)
    returns (r: Option<Sequence>, left: bool)
    requires Scans(value, end, p, scan, saved) && !scan.range
    ensures ParseParts(p, saved) == if r.None? then None else Some((r.value, left))
  {
    left := scan.saved;
    if scan.wildcard {
      r := Some(Range(None, None));
    } else if scan.saved {
      r := Some(SavedSearch);
      left := false;
    } else if scan.token.None? {
      r := None;
    } else {
      var n := ParseNumber(value[scan.token.value..end]);
      r := if n.None? then None else Some(Number(n.value));
    }
  }

  /** Closing an item yields what the grammar says of it, and the scanner starts afresh. */
  method CloseItem(value: seq<byte>, end: nat, scan: Scan, ghost p: Parts, ghost saved: bool)
    returns (r: Option<Sequence>, next: Scan)
    requires Scans(value, end, p, scan, saved)
    ensures ParseParts(p, saved) == if r.None? then None else Some((r.value, next.saved))
    ensures next == Scan(None, None, false, false, next.saved)
  {
    var left := scan.saved;
    if scan.range {
      r := CloseRange(value, end, scan, p, saved);
    } else {
      r, left := CloseSingle(value, end, scan, p, saved);
    }
    next := Scan(None, None, false, false, left);
  }

  // ---- The scanner's loop ----

  // The item that begins at `base` ends at `end`.
  predicate ItemAt(value: seq<byte>, base: nat, end: nat) {
    && base <= end <= |value|
    && Lacks(value[base..end], COMMA)
    && (end < |value| ==> value[end] == COMMA)
  }

  lemma EndAfter(value: seq<byte>, base: nat, pos: nat, end: nat)
    requires base <= pos < end && ItemAt(value, base, end)
    ensures pos + 1 == end <==> pos + 1 == |value| || value[pos + 1] == COMMA
  {
    if pos + 1 < end {
      assert value[pos + 1] == value[base..end][pos + 1 - base];
    }
  }

  function Prepend(items: seq<Sequence>, rest: Option<seq<Sequence>>): Option<seq<Sequence>> {
    if rest.None? then None else Some(items + rest.value)
  }

  lemma PrependThen(items: seq<Sequence>, item: Sequence, rest: Option<seq<Sequence>>)
    ensures Prepend(items, Then(item, rest)) == Prepend(items + [item], rest)
  {
    if rest.Some? {
      Associate(items, [item], rest.value);
    }
  }

  lemma ItemIsFirst(value: seq<byte>, base: nat, end: nat)
    requires ItemAt(value, base, end)
    ensures Find(value[base..], COMMA) == end - base && value[base..][..end - base] == value[base..end]
    ensures value[base..][if end < |value| then end + 1 - base else |value| - base..]
         == value[if end < |value| then end + 1 else |value|..]
  {
    assert value[base..][..end - base] == value[base..end];
    FindIs(value[base..], COMMA, end - base);
  }

  // What the first item contributes, given its own meaning.
  lemma ItemsUnfold(value: seq<byte>, base: nat, end: nat, saved: bool)
    requires ItemAt(value, base, end) && base < |value|
    ensures var item := ParseItem(value[base..end], saved);
      var next := if end < |value| then end + 1 else |value|;
      ParseItems(value[base..], saved)
      == if item.None? then None else Then(item.value.0, ParseItems(value[next..], item.value.1))
  {
    ItemIsFirst(value, base, end);
    assert end == |value| ==> value[|value|..] == [];
  }

  lemma ItemEnd(value: seq<byte>, base: nat, pos: nat) returns (end: nat)
    requires base <= pos < |value| && Lacks(value[base..pos], COMMA) && value[pos] != COMMA
    ensures pos < end && ItemAt(value, base, end)
  {
    end := pos + Find(value[pos..], COMMA);
    FindIsFirst(value[pos..], COMMA);
    assert value[base..end] == value[base..pos] + value[pos..][..end - pos];
    assert value[pos..][0] == value[pos];
  }

  // No comma since `base`, and a `$` only at the end of the item.
  predicate InItem(value: seq<byte>, base: nat, pos: nat) {
    && base <= pos <= |value|
    && Lacks(value[base..pos], COMMA)
    && (HasDollar(value[base..pos]) && pos < |value| ==> value[pos] == COMMA)
  }

  // The scanner is `pos - base` bytes into the item that begins at `base`.
  predicate Within(value: seq<byte>, base: nat, pos: nat, scan: Scan, saved: bool) {
    InItem(value, base, pos) && Scans(value, pos, PartsOf(value[base..pos]), scan, saved)
  }

  lemma InItemNext(value: seq<byte>, base: nat, pos: nat, end: nat)
    requires base <= pos < end && ItemAt(value, base, end)
    requires value[pos] == DOLLAR ==> pos + 1 == end
    ensures InItem(value, base, pos + 1)
  {
    PrefixLacks(value, base, pos + 1, end);
  }

  lemma PartsNext(value: seq<byte>, base: nat, pos: nat)
    requires base <= pos < |value|
    ensures PartsOf(value[base..pos + 1]) == AddByte(PartsOf(value[base..pos]), value[pos])
  {
    assert value[base..pos + 1] == value[base..pos] + [value[pos]];
    PartsSnoc(value[base..pos], value[pos]);
  }

  lemma PrefixLacks(value: seq<byte>, base: nat, pos: nat, end: nat)
    requires base <= pos <= end && ItemAt(value, base, end)
    ensures Lacks(value[base..pos], COMMA)
  {
    assert value[base..pos] <= value[base..end];
  }

  // No item begins with the bytes up to one the scanner refuses.
  lemma Refused(value: seq<byte>, base: nat, pos: nat, end: nat, saved: bool)
    requires base <= pos < end <= |value|
    requires var p, x := PartsOf(value[base..pos]), value[pos];
      if x == COLON then p.first.Some? || EndOf(p.last) == None
      else !Open(p.last + [x]) && (x == DOLLAR ==> pos + 1 < end)
    ensures ParseItem(value[base..end], saved) == None
  {
    var u, x, item := value[base..pos], value[pos], value[base..end];
    assert u + [x] <= item;
    PartsSnoc(u, x);
    if x == COLON && PartsOf(u).first.None? {
      RejectedColon(u, item, saved);
    } else {
      assert (PartsOf(u).last + [x])[|PartsOf(u).last|] == x;
      Rejected(u + [x], item, saved);
    }
  }

  method Feed(value: seq<byte>, pos: nat, scan: Scan, ghost base: nat, ghost saved: bool) returns (next: Option<Scan>)
    requires pos < |value| && value[pos] != COMMA && Within(value, base, pos, scan, saved)
    ensures next.Some? ==> Within(value, base, pos + 1, next.value, saved)
    ensures next.None? ==> ParseItems(value[base..], saved) == None
  {
    ghost var end := ItemEnd(value, base, pos);
    ghost var p := PartsOf(value[base..pos]);
    NoDollar(value[base..pos]);
    EndAfter(value, base, pos, end);
    if value[pos] == COLON {
      next := TakeColon(value, pos, scan, p, saved);
    } else {
      next := TakeOther(value, pos, scan, p, saved);
    }
    if next.None? {
      Refused(value, base, pos, end, saved);
      ItemsUnfold(value, base, end, saved);
    } else {
      InItemNext(value, base, pos, end);
      PartsNext(value, base, pos);
    }
  }

  method Close(value: seq<byte>, pos: nat, end: nat, scan: Scan, ghost base: nat, ghost saved: bool)
    returns (item: Option<Sequence>, next: Scan)
    requires base <= pos < |value| && ItemAt(value, base, end) && Within(value, base, end, scan, saved)
    requires pos + 1 == if end < |value| then end + 1 else |value|
    ensures Within(value, pos + 1, pos + 1, next, next.saved)
    ensures ParseItems(value[base..], saved)
         == if item.None? then None else Then(item.value, ParseItems(value[pos + 1..], next.saved))
  {
    item, next := CloseItem(value, end, scan, PartsOf(value[base..end]), saved);
    ItemsUnfold(value, base, end, saved);
    assert value[pos + 1..pos + 1] == [];
  }

  lemma Alone(items: seq<Sequence>, rest: Option<seq<Sequence>>)
    ensures Prepend([], rest) == rest
    ensures Prepend(items, Some([])) == Some(items)
  {
    assert items + [] == items;
    if rest.Some? {
      assert [] + rest.value == rest.value;
    }
  }

  method AddItem(value: seq<byte>, pos: nat, end: nat, items: seq<Sequence>, scan: Scan, ghost base: nat, ghost saved: bool)
    returns (r: Option<(seq<Sequence>, Scan)>)
    requires base <= pos < |value| && ItemAt(value, base, end) && Within(value, base, end, scan, saved)
    requires pos + 1 == if end < |value| then end + 1 else |value|
    ensures r.Some? ==> Within(value, pos + 1, pos + 1, r.value.1, r.value.1.saved)
    ensures Prepend(items, ParseItems(value[base..], saved))
         == if r.None? then None else Prepend(r.value.0, ParseItems(value[pos + 1..], r.value.1.saved))
  {
    var item, next := Close(value, pos, end, scan, base, saved);
    if item.None? {
      return None;
    }
    PrependThen(items, item.value, ParseItems(value[pos + 1..], next.saved));
    r := Some((items + [item.value], next));
  }

  // What the scanner is to answer, from where it stands; nothing if it does not stand there.
  function Remaining(value: seq<byte>, base: nat, pos: nat, items: seq<Sequence>, scan: Scan, saved: bool)
    : Option<Option<seq<Sequence>>>
  {
    if Within(value, base, pos, scan, saved) then Some(Prepend(items, ParseItems(value[base..], saved))) else None
  }

  // One byte; the start of the current item and its flag go along.
  method ScanByte(value: seq<byte>, pos: nat, items: seq<Sequence>, scan: Scan, ghost base: nat, ghost saved: bool)
    returns (r: Option<(seq<Sequence>, Scan)>, ghost nextBase: nat, ghost nextSaved: bool)
    requires pos < |value| && Remaining(value, base, pos, items, scan, saved).Some?
    ensures Remaining(value, base, pos, items, scan, saved)
         == if r.None? then Some(None) else Remaining(value, nextBase, pos + 1, r.value.0, r.value.1, nextSaved)
    ensures r.Some? && pos + 1 == |value| ==> nextBase == |value|
  {
    nextBase, nextSaved := base, saved;
    if value[pos] == COMMA {
      r := AddItem(value, pos, pos, items, scan, base, saved);
      nextBase, nextSaved := pos + 1, r.Some? && r.value.1.saved;
    } else {
      var next := Feed(value, pos, scan, base, saved);
      if next.None? {
        r := None;
      } else if pos == |value| - 1 {
        r := AddItem(value, pos, pos + 1, items, next.value, base, saved);
        nextBase, nextSaved := pos + 1, r.Some? && r.value.1.saved;
      } else {
        r := Some((items, next.value));
      }
    }
  }

  lemma Begin(value: seq<byte>)
    ensures Remaining(value, 0, 0, [], Scan(None, None, false, false, false), false) == Some(ParseItems(value, false))
  {
    assert value[0..] == value && value[0..0] == [];
    Alone([], ParseItems(value, false));
  }

  lemma Finish(value: seq<byte>, items: seq<Sequence>, scan: Scan, saved: bool)
    requires Remaining(value, |value|, |value|, items, scan, saved).Some?
    ensures Remaining(value, |value|, |value|, items, scan, saved) == Some(Some(items))
  {
    assert value[|value|..] == [];
    Alone(items, None);
  }

  method ScanItems(value: seq<byte>) returns (r: Option<seq<Sequence>>)
    ensures r == ParseItems(value, false)
  {
    var items: seq<Sequence>, scan := [], Scan(None, None, false, false, false);
    ghost var base: nat, saved := 0, false;
    Begin(value);
    for pos := 0 to |value|
      invariant Remaining(value, base, pos, items, scan, saved) == Some(ParseItems(value, false))
      invariant pos == |value| ==> base == |value|
    {
      if value[pos] == STAR && |value| == 1 {
        AloneStar(value);
        return Some([Range(None, None)]);
      }
      var next;
      next, base, saved := ScanByte(value, pos, items, scan, base, saved);
      if next.None? {
        return None;
      }
      items, scan := next.value.0, next.value.1;
    }
    Finish(value, items, scan, saved);
    r := Some(items);
  }

  /** The scanner reads exactly the grammar. */
  method ParseSequenceSet(value: seq<byte>) returns (r: Option<Sequence>)
    ensures r == ParseSet(value)
  {
    var items := ScanItems(value);
    if items.None? || |items.value| == 0 {
      r := None;
    } else if |items.value| == 1 {
      r := Some(items.value[0]);
    } else {
      r := Some(List(items.value));
    }
  }

  lemma AloneStar(value: seq<byte>)
    requires value == [STAR]
    ensures ParseItems(value, false) == Some([Range(None, None)])
  {
    StarReads();
    ParseLast(value, Range(None, None));
  }

  // ---- What is refused ----

  // One end of a range, as text.
  predicate EndText(s: seq<byte>) {
    s == [42] || (s != [] && AllDigits(s) && DigitsValue(s) < 0x1_0000_0000)
  }

  // Two ends around a colon; only an open second end may have a `$` after it.
  predicate RangeText(s: seq<byte>, l: seq<byte>, r: seq<byte>) {
    s == l + [58] + r && EndText(l) && (EndText(r) || r == [42, 36])
  }

  // Digits, perhaps none, and a `$`.
  predicate SavedText(s: seq<byte>) {
    s != [] && s[|s| - 1] == 36 && AllDigits(s[..|s| - 1])
  }

  lemma RangeParts(s: seq<byte>, l: seq<byte>, r: seq<byte>)
    requires RangeText(s, l, r)
    ensures PartsOf(s) == Parts(Some(l), r)
  {
    PartsRange(l, r);
  }

  lemma RangeAccepted(l: seq<byte>, r: seq<byte>)
    ensures ParseParts(Parts(Some(l), r), false).Some? <==> EndText(l) && (EndText(r) || r == [42, 36])
  {
    if HasDollar(r) {
      assert r == Core(r) + [36];
    }
  }

  lemma SingleAccepted(s: seq<byte>)
    ensures ParseParts(Parts(None, s), false).Some? <==> EndText(s) || SavedText(s) || s == [42, 36]
  {
    if HasDollar(s) {
      assert s == Core(s) + [36];
    }
  }

  lemma NoColon(s: seq<byte>)
    requires EndText(s) || SavedText(s) || s == [42, 36]
    ensures Lacks(s, 58)
  {
    assert SavedText(s) ==> s == s[..|s| - 1] + [36];
  }

  /** The texts that are items alone, and no others. */
  lemma ItemTexts(s: seq<byte>)
    ensures ParseItem(s, false).Some? <==>
            EndText(s) || SavedText(s) || s == [42, 36] || exists l, r :: RangeText(s, l, r)
  {
    var p := PartsOf(s);
    if l, r :| RangeText(s, l, r) {
      RangeParts(s, l, r);
      RangeAccepted(l, r);
    } else if p.first.Some? {
      assert s == p.first.value + [58] + p.last;
      RangeAccepted(p.first.value, p.last);
      assert ParseItem(s, false).Some? ==> RangeText(s, p.first.value, p.last);
      if EndText(s) || SavedText(s) || s == [42, 36] {
        NoColon(s);
        PartsPlain(s);
      }
    } else {
      SingleAccepted(s);
    }
  }

  // Digits, `*`, `:`, `$`.
  predicate ItemByte(x: byte) {
    IsDigit(x) || x in [42, 58, 36]
  }

  lemma ItemBytes(s: seq<byte>, saved: bool, i: nat)
    requires ParseItem(s, saved).Some? && i < |s|
    ensures ItemByte(s[i])
  {
    var p := PartsOf(s);
    var c := Find(s, COLON);
    var at := if c < |s| then c + 1 else 0;
    if i >= at {
      assert s[i] == p.last[i - at];
      assert i < |s| - 1 || !HasDollar(p.last) ==> s[i] == Core(p.last)[i - at];
    } else if i < c {
      assert s[i] == p.first.value[i];
    }
  }

  /** A byte that is no digit, `*`, `:`, `$` or `,` refuses the set, wherever it stands. */
  lemma {:induction false} StrayByte(s: seq<byte>, saved: bool, i: nat)
    requires i < |s| && !ItemByte(s[i]) && s[i] != 44
    ensures ParseItems(s, saved) == None
    decreases |s|
  {
    var n := Find(s, COMMA);
    var item := ParseItem(s[..n], saved);
    if item.Some? {
      if i < n {
        ItemBytes(s[..n], saved, i);
      } else {
        assert s[n + 1..][i - n - 1] == s[i];
        StrayByte(s[n + 1..], item.value.1, i - n - 1);
      }
    }
  }

  // ---- Round trip ----

  predicate Writable(item: Sequence) {
    match item
    case Number(n) => n < U32_LIMIT
    case Range(a, b) => (a.Some? ==> a.value < U32_LIMIT) && (b.Some? ==> b.value < U32_LIMIT)
    case SavedSearch => true
    case List(_) => false
  }

  function PrintEnd(end: Option<nat>): seq<byte> {
    if end.None? then [42] else Print(end.value)
  }

  function PrintItem(item: Sequence): seq<byte>
    requires Writable(item)
  {
    match item
    case Number(n) => Print(n)
    case Range(a, b) => PrintEnd(a) + [58] + PrintEnd(b)
    case SavedSearch => [36]
  }

  function Join(texts: seq<seq<byte>>): seq<byte>
    requires texts != []
  {
    if |texts| == 1 then texts[0] else texts[0] + [44] + Join(texts[1..])
  }

  // The range of both ends absent is also written as one `*`.
  predicate Writes(text: seq<byte>, item: Sequence) {
    Writable(item) && (text == PrintItem(item) || (item == Range(None, None) && text == [42]))
  }

  predicate Plain(s: seq<byte>) {
    forall i | 0 <= i < |s| :: IsDigit(s[i]) || s[i] == STAR
  }

  lemma PlainEnd(end: Option<nat>)
    requires end.Some? ==> end.value < U32_LIMIT
    ensures var s := PrintEnd(end); Plain(s) && s != [] && EndOf(s) == Some(end) && !HasDollar(s)
  {
    if end.Some? {
      ParsePrinted(end.value);
    }
  }

  lemma FindNone(s: seq<byte>, ch: byte)
    requires Lacks(s, ch)
    ensures Find(s, ch) == |s|
  {
    FindIs(s, ch, |s|);
  }

  lemma PartsPlain(s: seq<byte>)
    requires Lacks(s, COLON)
    ensures PartsOf(s) == Parts(None, s)
  {
    FindNone(s, COLON);
  }

  lemma PartsRange(l: seq<byte>, r: seq<byte>)
    requires Lacks(l, COLON)
    ensures PartsOf(l + [COLON] + r) == Parts(Some(l), r)
  {
    var s := l + [COLON] + r;
    assert s[..|l|] == l && s[|l| + 1..] == r;
    FindIs(s, COLON, |l|);
  }

  lemma ParseRange(l: seq<byte>, r: seq<byte>, a: Option<nat>, b: Option<nat>)
    requires EndOf(l) == Some(a) && EndOf(r) == Some(b) && Lacks(l, COLON) && !HasDollar(r)
    ensures ParseItem(l + [COLON] + r, false) == Some((Range(a, b), false))
  {
    PartsRange(l, r);
  }

  lemma ParseDigits(s: seq<byte>, n: nat)
    requires AllDigits(s) && ParseU32(s) == Some(n)
    ensures ParseItem(s, false) == Some((Number(n), false))
  {
    PartsPlain(s);
  }

  lemma PrintedAlone(item: Sequence)
    requires Writable(item)
    ensures Lacks(PrintItem(item), COMMA) && PrintItem(item) != []
  {
    if item.Range? {
      PlainEnd(item.start);
      PlainEnd(item.end);
    }
  }

  lemma ParsePrintedItem(item: Sequence)
    requires Writable(item)
    ensures ParseItem(PrintItem(item), false) == Some((item, false))
  {
    match item
    case Number(n) =>
      ParsePrinted(n);
      ParseDigits(Print(n), n);
    case Range(a, b) =>
      PlainEnd(a);
      PlainEnd(b);
      ParseRange(PrintEnd(a), PrintEnd(b), a, b);
    case SavedSearch => PartsPlain([DOLLAR]);
  }

  lemma ParseLast(s: seq<byte>, item: Sequence)
    requires Reads(s, item)
    ensures ParseItems(s, false) == Some([item])
  {
    FindNone(s, COMMA);
    assert s[..|s|] == s;
    assert ParseItems([], false) == Some([]);
    assert [item] + [] == [item];
  }

  lemma ParseFirst(s: seq<byte>, item: Sequence, rest: seq<byte>)
    requires Reads(s, item)
    ensures ParseItems(s + [COMMA] + rest, false) == Then(item, ParseItems(rest, false))
  {
    var all := s + [COMMA] + rest;
    assert all[..|s|] == s && all[|s| + 1..] == rest;
    FindIs(all, COMMA, |s|);
  }

  // A text that is one item and nothing else.
  predicate Reads(s: seq<byte>, item: Sequence) {
    Lacks(s, COMMA) && s != [] && ParseItem(s, false) == Some((item, false))
  }

  lemma StarReads()
    ensures Reads([STAR], Range(None, None))
  {
    PartsPlain([STAR]);
  }

  lemma WrittenReads(text: seq<byte>, item: Sequence)
    requires Writes(text, item)
    ensures Reads(text, item)
  {
    if text == [STAR] && item == Range(None, None) {
      StarReads();
    } else {
      ParsePrintedItem(item);
      PrintedAlone(item);
    }
  }

  lemma ParseMore(s: seq<byte>, item: Sequence, rest: seq<byte>, items: seq<Sequence>)
    requires Reads(s, item) && ParseItems(rest, false) == Some(items)
    ensures ParseItems(s + [COMMA] + rest, false) == Some([item] + items)
  {
    ParseFirst(s, item, rest);
  }

  lemma {:induction false} ParseJoined(texts: seq<seq<byte>>, items: seq<Sequence>)
    requires items != [] && |texts| == |items|
    requires forall i | 0 <= i < |items| :: Reads(texts[i], items[i])
    ensures ParseItems(Join(texts), false) == Some(items)
    decreases |items|
  {
    if |items| == 1 {
      ParseLast(texts[0], items[0]);
      assert [items[0]] == items;
    } else {
      ParseJoined(texts[1..], items[1..]);
      ParseMore(texts[0], items[0], Join(texts[1..]), items[1..]);
      assert [items[0]] + items[1..] == items;
    }
  }

  /** Every list of items, written with commas between them, is read back. */
  lemma SetRoundTrip(texts: seq<seq<byte>>, items: seq<Sequence>)
    requires items != [] && |texts| == |items|
    requires forall i | 0 <= i < |items| :: Writes(texts[i], items[i])
    ensures ParseSet(Join(texts)) == Some(if |items| == 1 then items[0] else List(items))
  {
    forall i | 0 <= i < |items| ensures Reads(texts[i], items[i]) {
      WrittenReads(texts[i], items[i]);
    }
    ParseJoined(texts, items);
  }

  lemma StarDollar()
    ensures ParseItem([STAR, DOLLAR], false) == Some((Range(None, None), true))
  {
    PartsPlain([STAR, DOLLAR]);
    assert [STAR, DOLLAR][..1] == [STAR];
  }

  lemma DigitsAfterDollar(digits: seq<byte>)
    requires AllDigits(digits) && digits != []
    ensures ParseItems(digits, true) == Some([SavedSearch])
  {
    PartsPlain(digits);
    FindNone(digits, COMMA);
    assert digits[..|digits|] == digits;
    assert ParseItems([], false) == Some([]);
    assert [SavedSearch] + [] == [SavedSearch];
  }

  /** A `$` next to a `*` outlives its item: the number after it is read as the saved search. */
  lemma DollarCarriesOver(digits: seq<byte>)
    requires AllDigits(digits) && digits != []
    ensures ParseSet([STAR, DOLLAR] + [COMMA] + digits) == Some(List([Range(None, None), SavedSearch]))
  {
    var s := [STAR, DOLLAR] + [COMMA] + digits;
    StarDollar();
    DigitsAfterDollar(digits);
    assert s[..2] == [STAR, DOLLAR] && s[3..] == digits;
    FindIs(s, COMMA, 2);
    assert [Range(None, None)] + [SavedSearch] == [Range(None, None), SavedSearch];
  }

  // ---- Items read on their own ----

  // Every item between commas, read as if it were the whole set.
  function ReadAlone(s: seq<byte>): Option<seq<Sequence>>
    decreases |s|
  {
    if s == [] then Some([])
    else
      var n := Find(s, COMMA);
      var item := ParseItem(s[..n], false);
      if item.None? then None else Then(item.value.0, ReadAlone(if n < |s| then s[n + 1..] else []))
  }

  predicate EndsStarDollar(item: seq<byte>) {
    |item| >= 2 && item[|item| - 2] == STAR && item[|item| - 1] == DOLLAR
  }

  // A number, or nothing, with or without its own `$`.
  predicate IsNumeric(item: seq<byte>) {
    AllDigits(Core(item))
  }

  // What an item leaves of the flag: `*$` raises it, a numeric item uses it up.
  function FlagAfter(item: seq<byte>, saved: bool): bool {
    if EndsStarDollar(item) then true else if IsNumeric(item) then false else saved
  }

  // No number without its own `$` comes while the flag is up.
  predicate Undisturbed(s: seq<byte>, saved: bool)
    decreases |s|
  {
    s != [] ==>
      var n := Find(s, COMMA);
      && !(saved && IsNumeric(s[..n]) && !HasDollar(s[..n]))
      && Undisturbed(if n < |s| then s[n + 1..] else [], FlagAfter(s[..n], saved))
  }

  lemma NumericParts(item: seq<byte>)
    ensures IsNumeric(item) ==> PartsOf(item) == Parts(None, item)
  {
    if IsNumeric(item) {
      assert forall i | 0 <= i < |item| :: i < |Core(item)| ==> item[i] == Core(item)[i];
      PartsPlain(item);
    }
  }

  lemma LastPart(item: seq<byte>)
    ensures var t := PartsOf(item).last; |t| <= |item| && item[|item| - |t|..] == t
    ensures var t := PartsOf(item).last; |t| < |item| ==> item[|item| - |t| - 1] == COLON
  {
  }

  // An open end before the `$` is a `*` there.
  lemma StarDollarParts(item: seq<byte>)
    requires Open(Core(PartsOf(item).last))
    ensures EndsStarDollar(item) <==> HasDollar(PartsOf(item).last) && Core(PartsOf(item).last) == [STAR]
  {
    var t := PartsOf(item).last;
    LastPart(item);
    assert forall i | 0 <= i < |t| :: t[i] == item[|item| - |t| + i];
    if EndsStarDollar(item) {
      assert |t| != 0 && |t| != 1;
      assert Core(t)[|t| - 2] == STAR;
    }
  }

  lemma AcceptedIsOpen(item: seq<byte>, saved: bool)
    requires ParseItem(item, saved).Some?
    ensures Open(Core(PartsOf(item).last))
  {
  }

  lemma FlagOfItem(item: seq<byte>, saved: bool)
    requires ParseItem(item, saved).Some?
    ensures ParseItem(item, saved).value.1 == FlagAfter(item, saved)
  {
    AcceptedIsOpen(item, saved);
    StarDollarParts(item);
    NumericParts(item);
  }

  lemma ItemAlone(item: seq<byte>, saved: bool)
    requires ParseItem(item, saved).Some?
    ensures (ParseItem(item, false).Some? && ParseItem(item, false).value.0 == ParseItem(item, saved).value.0)
       <==> !(saved && IsNumeric(item) && !HasDollar(item))
  {
    NumericParts(item);
  }

  lemma ThenEqual(x: Sequence, rest: Option<seq<Sequence>>, y: Sequence, rest': Option<seq<Sequence>>)
    requires rest.Some?
    ensures Then(x, rest) == Then(y, rest') <==> x == y && rest == rest'
  {
    if rest'.Some? && Then(x, rest) == Then(y, rest') {
      var a, b := [x] + rest.value, [y] + rest'.value;
      assert a[0] == b[0] && a[1..] == rest.value && b[1..] == rest'.value;
    }
  }

  lemma {:induction false} ItemsAlone(s: seq<byte>, saved: bool)
    requires ParseItems(s, saved).Some?
    ensures ParseItems(s, saved) == ReadAlone(s) <==> Undisturbed(s, saved)
    decreases |s|
  {
    if s != [] {
      var n := Find(s, COMMA);
      var item, rest := s[..n], if n < |s| then s[n + 1..] else [];
      var here, alone := ParseItem(item, saved), ParseItem(item, false);
      FlagOfItem(item, saved);
      ItemAlone(item, saved);
      ItemsAlone(rest, FlagAfter(item, saved));
      if alone.Some? {
        ThenEqual(here.value.0, ParseItems(rest, here.value.1), alone.value.0, ReadAlone(rest));
      }
    }
  }

  /** The items of an accepted set are read as they would be alone exactly when no number without its own `$` follows
      an item that ends in `*$` before a number with one. */
  lemma ReadAloneExactly(s: seq<byte>)
    requires ParseItems(s, false).Some?
    ensures ParseItems(s, false) == ReadAlone(s) <==> Undisturbed(s, false)
  {
    ItemsAlone(s, false);
  }

  lemma TrailingItem(s: seq<byte>, saved: bool)
    requires s != [] && Lacks(s, COMMA)
    ensures ParseItems(s + [COMMA], saved) == ParseItems(s, saved)
  {
    FindNone(s, COMMA);
    assert (s + [COMMA])[..|s|] == s && s[..|s|] == s;
    FindIs(s + [COMMA], COMMA, |s|);
    assert (s + [COMMA])[|s| + 1..] == [];
  }

  lemma ItemThenRest(item: seq<byte>, rest: seq<byte>, saved: bool)
    requires Lacks(item, COMMA)
    ensures var r := ParseItem(item, saved);
      ParseItems(item + [COMMA] + rest, saved) == if r.None? then None else Then(r.value.0, ParseItems(rest, r.value.1))
  {
    var s := item + [COMMA] + rest;
    assert s[..|item|] == item && s[|item| + 1..] == rest;
    FindIs(s, COMMA, |item|);
  }

  lemma FirstComma(s: seq<byte>) returns (item: seq<byte>, rest: seq<byte>)
    requires !Lacks(s, COMMA)
    ensures s == item + [COMMA] + rest && Lacks(item, COMMA)
  {
    var n := Find(s, COMMA);
    FindIsFirst(s, COMMA);
    assert s[..|s|] == s;
    item, rest := s[..n], s[n + 1..];
  }

  lemma {:induction false} TrailingItems(s: seq<byte>, saved: bool)
    requires s != [] && s[|s| - 1] != COMMA
    ensures ParseItems(s + [COMMA], saved) == ParseItems(s, saved)
    decreases |s|
  {
    if Lacks(s, COMMA) {
      TrailingItem(s, saved);
    } else {
      var item, rest := FirstComma(s);
      ItemThenRest(item, rest, saved);
      ItemThenRest(item, rest + [COMMA], saved);
      Associate(item + [COMMA], rest, [COMMA]);
      assert s[|s| - 1] == if rest == [] then COMMA else rest[|rest| - 1];
      if ParseItem(item, saved).Some? {
        TrailingItems(rest, ParseItem(item, saved).value.1);
      }
    }
  }

  /** One comma after the last item changes nothing. */
  lemma TrailingComma(s: seq<byte>)
    requires s != [] && s[|s| - 1] != COMMA
    ensures ParseSet(s + [COMMA]) == ParseSet(s)
  {
    TrailingItems(s, false);
  }
}
