/** Glob patterns: compilation to pattern characters and single-backtrack matching. */
module Glob {
  import opened Sequences

  datatype PatternChar =
    | WildcardMany(num: nat)
    | WildcardSingle
    | Char(ch: char)

  // Case folding of one literal character; the identity on single characters when folding is off.
  type Fold = char -> seq<char>

  function Literals(s: seq<char>): seq<PatternChar> {
    if s == [] then [] else [Char(s[0])] + Literals(s[1..])
  }

  /** What a raw pattern matches: `*` any run of characters, `?` one character, a backslash takes the
      next character literally and a trailing backslash matches nothing of the value. */
  predicate MatchesRaw(p: string, v: string, fold: Fold)
    decreases |p|, |v|
  {
    if p == [] then v == []
    else if p[0] == '*' then MatchesRaw(p[1..], v, fold) || (v != [] && MatchesRaw(p, v[1..], fold))
    else if p[0] == '?' then v != [] && MatchesRaw(p[1..], v[1..], fold)
    else if p[0] == '\\' && |p| == 1 then v == []
    else
      var (literal, rest) := if p[0] == '\\' then (p[1], p[2..]) else (p[0], p[1..]);
      fold(literal) <= v && MatchesRaw(rest, v[|fold(literal)|..], fold)
  }

  // The same, for compiled patterns.
  predicate Matches(p: seq<PatternChar>, v: string)
    decreases |p|, |v|
  {
    if p == [] then v == []
    else match p[0]
      case WildcardMany(_) => Matches(p[1..], v) || (v != [] && Matches(p, v[1..]))
      case WildcardSingle => v != [] && Matches(p[1..], v[1..])
      case Char(c) => v != [] && v[0] == c && Matches(p[1..], v[1..])
  }

  function Stars(p: string): (n: nat)
    ensures n <= |p|
    ensures forall i | 0 <= i < n :: p[i] == '*'
    ensures n < |p| ==> p[n] != '*'
  {
    if p != [] && p[0] == '*' then 1 + Stars(p[1..]) else 0
  }

  // The compiled form of a raw pattern; a run of stars becomes one wildcard.
  function Compiled(p: string, escaped: bool, fold: Fold): seq<PatternChar>
    decreases |p|
  {
    if p == [] then []
    else if !escaped && p[0] == '*' then
      [WildcardMany(1 + Stars(p[1..]))] + Compiled(p[1 + Stars(p[1..])..], false, fold)
    else if !escaped && p[0] == '?' then [WildcardSingle] + Compiled(p[1..], false, fold)
    else if !escaped && p[0] == '\\' then Compiled(p[1..], true, fold)
    else Literals(fold(p[0])) + Compiled(p[1..], false, fold)
  }

  method SkipStars(pattern: string, start: nat) returns (next: nat)
    requires start <= |pattern|
    ensures next == start + Stars(pattern[start..])
  {
    next := start;
    while next < |pattern| && pattern[next] == '*'
      invariant start <= next <= |pattern|
      invariant start + Stars(pattern[start..]) == next + Stars(pattern[next..])
    {
      assert pattern[next..][1..] == pattern[next + 1..];
      next := next + 1;
    }
  }

  method PushLiterals(start: seq<PatternChar>, literal: seq<char>) returns (chars: seq<PatternChar>)
    ensures chars == start + Literals(literal)
  {
    chars := start;
    for j := 0 to |literal|
      invariant start + Literals(literal) == chars + Literals(literal[j..])
    {
      assert literal[j..][0] == literal[j] && literal[j..][1..] == literal[j + 1..];
      chars := chars + [Char(literal[j])];
    }
    assert chars + [] == chars;
  }

  method Compile(pattern: string, fold: Fold) returns (chars: seq<PatternChar>)
    ensures chars == Compiled(pattern, false, fold)
  {
    chars := [];
    var isEscaped := false;
    var i := 0;
    while i < |pattern|
      invariant 0 <= i <= |pattern|
      invariant Compiled(pattern, false, fold) == chars + Compiled(pattern[i..], isEscaped, fold)
    {
      ghost var before, emitted := chars, [];
      UnfoldCompiled(pattern, i, isEscaped, fold);
      var ch := pattern[i];
      i := i + 1;
      if ch == '*' && !isEscaped {
        var next := SkipStars(pattern, i);
        emitted := [WildcardMany(1 + (next - i))];
        chars := chars + [WildcardMany(1 + (next - i))];
        i := next;
      } else if ch == '?' && !isEscaped {
        emitted := [WildcardSingle];
        chars := chars + [WildcardSingle];
      } else if ch == '\\' && !isEscaped {
        isEscaped := true;
      } else {
        isEscaped := false;
        emitted := Literals(fold(ch));
        chars := PushLiterals(chars, fold(ch));
      }
      Associate(before, emitted, Compiled(pattern[i..], isEscaped, fold));
    }
    assert chars + [] == chars;
  }

  // What the compiler emits for the character at position i, and what is left.
  lemma UnfoldCompiled(p: string, i: nat, escaped: bool, fold: Fold)
    requires i < |p|
    ensures var stars := Stars(p[i + 1..]);
            Compiled(p[i..], escaped, fold) ==
            if !escaped && p[i] == '*' then [WildcardMany(1 + stars)] + Compiled(p[i + 1 + stars..], false, fold)
            else if !escaped && p[i] == '?' then [WildcardSingle] + Compiled(p[i + 1..], false, fold)
            else if !escaped && p[i] == '\\' then [] + Compiled(p[i + 1..], true, fold)
            else Literals(fold(p[i])) + Compiled(p[i + 1..], false, fold)
  {
    assert p[i..][0] == p[i] && p[i..][1..] == p[i + 1..];
    assert p[i..][1 + Stars(p[i + 1..])..] == p[i + 1 + Stars(p[i + 1..])..];
  }

  lemma {:induction false} MatchesLiterals(s: seq<char>, p: seq<PatternChar>, v: string)
    ensures Matches(Literals(s) + p, v) <==> s <= v && Matches(p, v[|s|..])
    decreases |s|
  {
    if s == [] {
      assert Literals(s) + p == p && v[0..] == v;
    } else {
      var all := Literals(s) + p;
      assert all[0] == Char(s[0]) && all[1..] == Literals(s[1..]) + p;
      if v != [] {
        MatchesLiterals(s[1..], p, v[1..]);
        assert s <= v <==> s[0] == v[0] && s[1..] <= v[1..];
        assert s <= v ==> v[1..][|s| - 1..] == v[|s|..];
      }
    }
  }

  // A run of stars matches what one star matches.
  lemma {:induction false} StarsCollapse(p: string, v: string, fold: Fold)
    requires p != [] && p[0] == '*'
    ensures MatchesRaw(p, v, fold) <==> exists k :: 0 <= k <= |v| && MatchesRaw(p[1..], v[k..], fold)
    decreases |v|
  {
    if MatchesRaw(p[1..], v, fold) {
      assert v[0..] == v;
    } else if v != [] {
      StarsCollapse(p, v[1..], fold);
      if MatchesRaw(p, v[1..], fold) {
        var k :| 0 <= k <= |v[1..]| && MatchesRaw(p[1..], v[1..][k..], fold);
        assert v[1..][k..] == v[k + 1..];
      }
      if k :| 0 <= k <= |v| && MatchesRaw(p[1..], v[k..], fold) {
        assert k != 0 by { assert v[0..] == v; }
        assert v[k..] == v[1..][k - 1..];
      }
    } else {
      assert v[0..] == v;
    }
  }

  lemma {:induction false} StarCompiled(p: seq<PatternChar>, v: string)
    requires p != [] && p[0].WildcardMany?
    ensures Matches(p, v) <==> exists k :: 0 <= k <= |v| && Matches(p[1..], v[k..])
    decreases |v|
  {
    if Matches(p[1..], v) {
      assert v[0..] == v;
    } else if v != [] {
      StarCompiled(p, v[1..]);
      if Matches(p, v[1..]) {
        var k :| 0 <= k <= |v[1..]| && Matches(p[1..], v[1..][k..]);
        assert v[1..][k..] == v[k + 1..];
      }
      if k :| 0 <= k <= |v| && Matches(p[1..], v[k..]) {
        assert k != 0 by { assert v[0..] == v; }
        assert v[k..] == v[1..][k - 1..];
      }
    } else {
      assert v[0..] == v;
    }
  }

  lemma {:induction false} StarRun(p: string, v: string, fold: Fold)
    requires p != [] && p[0] == '*'
    ensures MatchesRaw(p, v, fold) <==>
            exists k :: 0 <= k <= |v| && MatchesRaw(p[1 + Stars(p[1..])..], v[k..], fold)
    decreases |p|
  {
    var n := Stars(p[1..]);
    StarsCollapse(p, v, fold);
    if n > 0 {
      var q := p[1..];
      assert q[1 + Stars(q[1..])..] == p[1 + n..];
      if k :| 0 <= k <= |v| && MatchesRaw(q, v[k..], fold) {
        StarRun(q, v[k..], fold);
        var j :| 0 <= j <= |v[k..]| && MatchesRaw(p[1 + n..], v[k..][j..], fold);
        assert v[k..][j..] == v[k + j..];
      }
      if k :| 0 <= k <= |v| && MatchesRaw(p[1 + n..], v[k..], fold) {
        StarRun(q, v[k..], fold);
        assert v[k..][0..] == v[k..];
        assert MatchesRaw(q, v[k..], fold);
      }
    }
  }

  /** Compiling preserves what a pattern matches. */
  lemma {:induction false} CompilePreserves(p: string, v: string, fold: Fold)
    ensures Matches(Compiled(p, false, fold), v) <==> MatchesRaw(p, v, fold)
    decreases |p|
  {
    var c := Compiled(p, false, fold);
    if p == [] {
    } else if p[0] == '*' {
      var rest := p[1 + Stars(p[1..])..];
      assert c[1..] == Compiled(rest, false, fold);
      StarRun(p, v, fold);
      StarCompiled(c, v);
      forall k | 0 <= k <= |v| ensures Matches(c[1..], v[k..]) <==> MatchesRaw(rest, v[k..], fold) {
        CompilePreserves(rest, v[k..], fold);
      }
    } else if p[0] == '?' {
      assert c[1..] == Compiled(p[1..], false, fold);
      if v != [] {
        CompilePreserves(p[1..], v[1..], fold);
      }
    } else if p[0] == '\\' && |p| == 1 {
      assert Compiled(p[1..], true, fold) == [];
    } else {
      var (literal, rest) := if p[0] == '\\' then (p[1], p[2..]) else (p[0], p[1..]);
      if p[0] == '\\' {
        assert p[1..][1..] == p[2..];
        assert Compiled(p[1..], true, fold) == Literals(fold(literal)) + Compiled(rest, false, fold);
      }
      assert c == Literals(fold(literal)) + Compiled(rest, false, fold);
      MatchesLiterals(fold(literal), Compiled(rest, false, fold), v);
      if fold(literal) <= v {
        CompilePreserves(rest, v[|fold(literal)|..], fold);
      }
    }
  }

  predicate NoStar(p: seq<PatternChar>) {
    forall i | 0 <= i < |p| :: !p[i].WildcardMany?
  }

  // A star absorbs a longer run as well as a shorter one.
  lemma {:induction false} StarAbsorbs(p: seq<PatternChar>, v: string, k: nat)
    requires p != [] && p[0].WildcardMany? && k <= |v| && Matches(p, v[k..])
    ensures Matches(p, v)
    decreases k
  {
    if k == 0 {
      assert v[0..] == v;
    } else {
      assert v[1..][k - 1..] == v[k..];
      StarAbsorbs(p, v[1..], k - 1);
    }
  }

  // A star-free segment consumes exactly its length.
  lemma {:induction false} SegmentLength(p: seq<PatternChar>, q: seq<PatternChar>, v: string)
    requires NoStar(p) && Matches(p + q, v)
    ensures |p| <= |v| && Matches(q, v[|p|..])
    decreases |p|
  {
    if p == [] {
      assert p + q == q && v[0..] == v;
    } else {
      assert (p + q)[1..] == p[1..] + q;
      SegmentLength(p[1..], q, v[1..]);
      assert v[1..][|p| - 1..] == v[|p|..];
    }
  }

  /** Once a later star is reached, retrying an earlier one cannot succeed where the later one fails. */
  lemma EarlierStarIsCovered(p: seq<PatternChar>, v: string, star: nat, from: nat, px: nat, nx: nat)
    requires star < px < |p| && p[star].WildcardMany? && p[px].WildcardMany?
    requires forall i | star < i < px :: !p[i].WildcardMany?
    requires nx <= |v| && from <= |v| && nx - from < px - star
    requires Matches(p[star..], v[from..])
    ensures Matches(p[px..], v[nx..])
  {
    var tail := v[from..];
    StarCompiled(p[star..], tail);
    assert p[star..][1..] == p[star + 1..];
    var k :| 0 <= k <= |tail| && Matches(p[star + 1..], tail[k..]);
    var segment := p[star + 1..px];
    assert p[star + 1..] == segment + p[px..];
    SegmentLength(segment, p[px..], tail[k..]);
    var at := from + k + |segment|;
    assert tail[k..][|segment|..] == v[at..];
    assert v[nx..][at - nx..] == v[at..];
    StarAbsorbs(p[px..], v[nx..], at - nx);
  }

  // The definition of matching at a pair of positions.
  lemma Unfold(p: seq<PatternChar>, v: string, px: nat, nx: nat)
    requires px <= |p| && nx <= |v|
    ensures px == |p| ==> (Matches(p[px..], v[nx..]) <==> nx == |v|)
    ensures px < |p| && nx == |v| && !p[px].WildcardMany? ==> !Matches(p[px..], v[nx..])
    ensures px < |p| && nx < |v| && !p[px].WildcardMany? ==>
              (Matches(p[px..], v[nx..]) <==>
               (p[px].WildcardSingle? || v[nx] == p[px].ch) && Matches(p[px + 1..], v[nx + 1..]))
    ensures px < |p| && p[px].WildcardMany? ==>
              (Matches(p[px..], v[nx..]) <==>
               Matches(p[px + 1..], v[nx..]) || (nx < |v| && Matches(p[px..], v[nx + 1..])))
  {
    assert px < |p| ==> p[px..][0] == p[px] && p[px..][1..] == p[px + 1..];
    assert nx < |v| ==> v[nx..][0] == v[nx] && v[nx..][1..] == v[nx + 1..];
  }

  /** Greedy matching with a single backtrack point. */
  method IsMatch(p: seq<PatternChar>, v: string) returns (r: bool)
    ensures r == Matches(p, v)
  {
    var px, nx, nextPx, nextNx := 0, 0, 0, 0;
    assert p[0..] == p && v[0..] == v;
    while px < |p| || nx < |v|
      invariant 0 <= nextPx <= px <= |p| && 0 <= nx <= |v| && 0 <= nextNx <= nx + 1
      invariant nextNx > 0 ==> nextPx < |p| && p[nextPx].WildcardMany?
      invariant nextNx > 0 && px > nextPx ==> (forall i | nextPx < i < px :: !p[i].WildcardMany?) && nx - nextNx == px - nextPx - 2
      invariant nextNx > 0 && px == nextPx ==> nx == nextNx
      invariant nextNx == 0 ==> nextPx == 0
      invariant Matches(p, v) <==>
                Matches(p[px..], v[nx..]) || (0 < nextNx <= |v| && Matches(p[nextPx..], v[nextNx..]))
      decreases |p| - nextPx, |v| + 1 - nextNx, if nextNx > 0 && px == nextPx then 0 else 1, |p| - px
    {
      Unfold(p, v, px, nx);
      if px < |p| {
        match p[px] {
          case Char(ch) =>
            if nx < |v| && v[nx] == ch {
              px, nx := px + 1, nx + 1;
              continue;
            }
          case WildcardSingle =>
            if nx < |v| {
              px, nx := px + 1, nx + 1;
              continue;
            }
          case WildcardMany(_) =>
            if 0 < nextNx <= |v| && px > nextPx && Matches(p[nextPx..], v[nextNx..]) {
              EarlierStarIsCovered(p, v, nextPx, nextNx, px, nx);
            }
            nextPx := px;
            nextNx := nx + 1;
            px := px + 1;
            continue;
        }
      }
      if 0 < nextNx <= |v| {
        px, nx := nextPx, nextNx;
        continue;
      }
      return false;
    }
    return true;
  }

  /** Compiling a raw pattern and matching decides exactly what the raw pattern matches. */
  method CompileAndMatch(pattern: string, value: string, fold: Fold) returns (r: bool)
    ensures r == MatchesRaw(pattern, value, fold)
  {
    var compiled := Compile(pattern, fold);
    r := IsMatch(compiled, value);
    CompilePreserves(pattern, value, fold);
  }

  // ---- What a raw pattern matches, piece by piece ----

  datatype Piece = Any | One | Plain(ch: char) | Escaped(ch: char)

  predicate Writable(piece: Piece) {
    piece.Plain? ==> piece.ch !in "*?\\"
  }

  function Text(piece: Piece): string {
    match piece
    case Any => "*"
    case One => "?"
    case Plain(c) => [c]
    case Escaped(c) => ['\\', c]
  }

  function Written(pieces: seq<Piece>): string {
    if pieces == [] then "" else Text(pieces[0]) + Written(pieces[1..])
  }

  function Concat(parts: seq<string>): string {
    if parts == [] then "" else parts[0] + Concat(parts[1..])
  }

  predicate Fits(piece: Piece, part: string, fold: Fold) {
    match piece
    case Any => true
    case One => |part| == 1
    case Plain(c) => part == fold(c)
    case Escaped(c) => part == fold(c)
  }

  // The parts stand for the pieces, one each, and make up the value.
  predicate Divides(pieces: seq<Piece>, parts: seq<string>, v: string, fold: Fold) {
    |parts| == |pieces| && Concat(parts) == v && forall i | 0 <= i < |pieces| :: Fits(pieces[i], parts[i], fold)
  }

  lemma DividesFirst(piece: Piece, pieces: seq<Piece>, part: string, parts: seq<string>, v: string, fold: Fold)
    ensures Divides([piece] + pieces, [part] + parts, part + v, fold) <==>
            Fits(piece, part, fold) && Divides(pieces, parts, v, fold)
  {
    var pieces', parts' := [piece] + pieces, [part] + parts;
    assert pieces'[1..] == pieces && parts'[1..] == parts;
    assert part + Concat(parts) == part + v <==> Concat(parts) == v by {
      assert (part + Concat(parts))[|part|..] == Concat(parts) && (part + v)[|part|..] == v;
    }
    if Divides(pieces', parts', part + v, fold) {
      forall i | 0 <= i < |pieces| ensures Fits(pieces[i], parts[i], fold) {
        assert Fits(pieces'[i + 1], parts'[i + 1], fold);
      }
      assert Fits(pieces'[0], parts'[0], fold);
    }
  }

  lemma Longer(piece: Piece, pieces: seq<Piece>, parts: seq<string>, v: string, k: nat, fold: Fold)
    requires k <= |v| && Fits(piece, v[..k], fold) && Divides(pieces, parts, v[k..], fold)
    ensures Divides([piece] + pieces, [v[..k]] + parts, v, fold)
  {
    assert v == v[..k] + v[k..];
    DividesFirst(piece, pieces, v[..k], parts, v[k..], fold);
  }

  lemma Shorter(pieces: seq<Piece>, parts: seq<string>, v: string, fold: Fold) returns (k: nat)
    requires pieces != [] && Divides(pieces, parts, v, fold)
    ensures k <= |v| && Fits(pieces[0], v[..k], fold) && Divides(pieces[1..], parts[1..], v[k..], fold)
  {
    k := |parts[0]|;
    assert v[..k] == parts[0] && v[k..] == Concat(parts[1..]);
  }

  // What one piece leaves to the others.
  lemma MatchesPiece(piece: Piece, rest: string, v: string, fold: Fold)
    requires Writable(piece)
    ensures MatchesRaw(Text(piece) + rest, v, fold) <==>
            exists k :: 0 <= k <= |v| && Fits(piece, v[..k], fold) && MatchesRaw(rest, v[k..], fold)
  {
    var p := Text(piece) + rest;
    assert p[|Text(piece)|..] == rest;
    match piece {
      case Any => StarsCollapse(p, v, fold);
      case One =>
      case Plain(c) =>
        assert fold(c) <= v ==> v[..|fold(c)|] == fold(c);
      case Escaped(c) =>
        assert p[1] == c;
        assert fold(c) <= v ==> v[..|fold(c)|] == fold(c);
    }
  }

  /** A written pattern matches a value exactly when the value falls into parts that fit its pieces. */
  lemma {:induction false} MatchesByPieces(pieces: seq<Piece>, v: string, fold: Fold)
    requires forall piece | piece in pieces :: Writable(piece)
    ensures MatchesRaw(Written(pieces), v, fold) <==> exists parts :: Divides(pieces, parts, v, fold)
    decreases |pieces|
  {
    if pieces == [] {
      assert v == [] ==> Divides(pieces, [], v, fold);
    } else {
      var piece, rest := pieces[0], pieces[1..];
      assert pieces == [piece] + rest;
      MatchesPiece(piece, Written(rest), v, fold);
      if k :| 0 <= k <= |v| && Fits(piece, v[..k], fold) && MatchesRaw(Written(rest), v[k..], fold) {
        MatchesByPieces(rest, v[k..], fold);
        var parts :| Divides(rest, parts, v[k..], fold);
        Longer(piece, rest, parts, v, k, fold);
      }
      if parts :| Divides(pieces, parts, v, fold) {
        var k := Shorter(pieces, parts, v, fold);
        MatchesByPieces(rest, v[k..], fold);
      }
    }
  }

  /** Every pattern is written of pieces, but for a backslash at its end. */
  lemma {:induction false} EveryPattern(p: string) returns (pieces: seq<Piece>)
    ensures forall piece | piece in pieces :: Writable(piece)
    ensures p == Written(pieces) || p == Written(pieces) + "\\"
    decreases |p|
  {
    if p == [] || p == "\\" {
      pieces := [];
    } else {
      var piece := if p[0] == '*' then Any else if p[0] == '?' then One
                   else if p[0] == '\\' then Escaped(p[1]) else Plain(p[0]);
      var n := |Text(piece)|;
      var rest := EveryPattern(p[n..]);
      pieces := [piece] + rest;
      assert p == Text(piece) + p[n..] && pieces[1..] == rest;
      assert Text(piece) + (Written(rest) + "\\") == Written(pieces) + "\\";
    }
  }

  /** The backslash at the end changes nothing. */
  lemma {:induction false} TrailingBackslash(pieces: seq<Piece>, v: string, fold: Fold)
    requires forall piece | piece in pieces :: Writable(piece)
    ensures MatchesRaw(Written(pieces) + "\\", v, fold) <==> MatchesRaw(Written(pieces), v, fold)
    decreases |pieces|
  {
    if pieces != [] {
      var rest := Written(pieces[1..]);
      assert Written(pieces) + "\\" == Text(pieces[0]) + (rest + "\\");
      MatchesPiece(pieces[0], rest, v, fold);
      MatchesPiece(pieces[0], rest + "\\", v, fold);
      forall k | 0 <= k <= |v|
        ensures MatchesRaw(rest + "\\", v[k..], fold) <==> MatchesRaw(rest, v[k..], fold)
      {
        TrailingBackslash(pieces[1..], v[k..], fold);
      }
    }
  }
}
