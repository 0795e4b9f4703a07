/**
 * The byte pattern scan of Platform/RenegadePkg/Drivers/KernelErrataPatcher/Utilities.c,
 * which after a mismatch goes on with the next byte instead of backing up.  Memory is a
 * sequence of bytes indexed by address.
 */
module PatternScan {
  type Byte = b: int | 0 <= b < 0x100

  // ---- patterns ----

  datatype Token = Any | Value(b: Byte)

  /** A non-zero character of the pattern's text. */
  type Char = c: int | 0 < c < 0x100 witness 1

  const WILDCARD: Char := 0x3F

  /** GET_BITS: a hexadecimal digit of either case; anything else counts as 0. */
  function GetBits(x: Char): (n: nat)
    ensures n < 0x10
  {
    var upper := if x / 0x20 % 2 == 1 then x - 0x20 else x;
    if 0x41 <= upper <= 0x46 then upper - 0x41 + 0xA
    else if 0x30 <= x <= 0x39 then x - 0x30
    else 0
  }

  function GetByte(a: Char, b: Char): Byte {
    GetBits(a) * 0x10 + GetBits(b)
  }

  /**
   * The text from offset at on spells the tokens: a wildcard with a separator, or two
   * digits, with a separator if more follows.  The last token takes two characters.
   */
  ghost predicate Spells(text: seq<Char>, at: nat, tokens: seq<Token>)
    decreases |tokens|
  {
    tokens != []
    && match tokens[0]
       case Any =>
         && at + 2 <= |text| && text[at] == WILDCARD
         && if |tokens| == 1 then at + 2 == |text| else at + 2 < |text| && Spells(text, at + 2, tokens[1..])
       case Value(b) =>
         && at + 2 <= |text| && text[at] != WILDCARD && GetByte(text[at], text[at + 1]) == b
         && if |tokens| == 1 then at + 2 == |text| else at + 3 < |text| && Spells(text, at + 3, tokens[1..])
  }

  predicate Fits(t: Token, b: Byte) {
    t.Any? || t.b == b
  }

  /** The bytes at p are an occurrence of the first n tokens. */
  ghost predicate Occurs(mem: seq<Byte>, tokens: seq<Token>, p: nat, n: nat)
    requires n <= |tokens|
  {
    p + n <= |mem| && forall k :: 0 <= k < n ==> Fits(tokens[k], mem[p + k])
  }

  /** The whole pattern occurs at p inside [from, end). */
  ghost predicate Match(mem: seq<Byte>, tokens: seq<Token>, from: nat, end: nat, p: nat) {
    from <= p && p + |tokens| <= end && Occurs(mem, tokens, p, |tokens|)
  }

  // ---- the automaton ----

  /** The scan after the bytes before address i: the next token, and the address of the first one matched or 0. */
  datatype Scan = Scan(token: nat, first: nat)

  const IDLE := Scan(0, 0)

  function Advance(mem: seq<Byte>, tokens: seq<Token>, s: Scan, i: nat): Scan
    requires s.token < |tokens| && i < |mem|
  {
    if Fits(tokens[s.token], mem[i]) then Scan(s.token + 1, if s.first == 0 then i else s.first) else IDLE
  }

  /** FindPattern from address i on. */
  function ScanFrom(mem: seq<Byte>, tokens: seq<Token>, end: nat, s: Scan, i: nat): nat
    requires s.token < |tokens| && i <= end <= |mem|
    decreases end - i
  {
    if i == end then 0
    else
      var next := Advance(mem, tokens, s, i);
      if next.token == |tokens| then next.first else ScanFrom(mem, tokens, end, next, i + 1)
  }

  function Find(mem: seq<Byte>, base: nat, size: nat, tokens: seq<Token>): nat
    requires tokens != [] && base + size <= |mem|
  {
    ScanFrom(mem, tokens, base + size, IDLE, base)
  }

  /** The invariant: the last bytes are the first tokens, and first is where they begin. */
  ghost predicate Tracks(mem: seq<Byte>, tokens: seq<Token>, base: nat, s: Scan, i: nat)
    requires s.token < |tokens|
  {
    && base + s.token <= i <= |mem| && Occurs(mem, tokens, i - s.token, s.token)
    && s.first == if s.token == 0 then 0 else i - s.token
  }

  lemma AdvanceTracks(mem: seq<Byte>, tokens: seq<Token>, base: nat, s: Scan, i: nat)
    requires s.token < |tokens| && i < |mem| && 0 < base && Tracks(mem, tokens, base, s, i)
    ensures var next := Advance(mem, tokens, s, i);
      if next.token < |tokens| then Tracks(mem, tokens, base, next, i + 1)
      else next.first == i + 1 - |tokens| && base <= next.first && Occurs(mem, tokens, next.first, |tokens|)
  {
  }

  /** Any result but 0 is the address of a true occurrence inside the range. */
  lemma {:induction false} FoundIsMatch(mem: seq<Byte>, tokens: seq<Token>, base: nat, end: nat, s: Scan, i: nat)
    requires s.token < |tokens| && i <= end <= |mem| && 0 < base && Tracks(mem, tokens, base, s, i)
    ensures var p := ScanFrom(mem, tokens, end, s, i); p != 0 ==> Match(mem, tokens, base, end, p)
    decreases end - i
  {
    hide Tracks, Advance, Occurs;
    if i < end {
      var next := Advance(mem, tokens, s, i);
      AdvanceTracks(mem, tokens, base, s, i);
      AdvanceStep(mem, tokens, s, i);
      if next.token < |tokens| {
        FoundIsMatch(mem, tokens, base, end, next, i + 1);
      }
    }
  }

  lemma AdvanceStep(mem: seq<Byte>, tokens: seq<Token>, s: Scan, i: nat)
    requires s.token < |tokens| && i < |mem|
    ensures Advance(mem, tokens, s, i).token <= |tokens|
  {
  }

  lemma IdleTracks(mem: seq<Byte>, tokens: seq<Token>, base: nat)
    requires tokens != [] && base <= |mem|
    ensures Tracks(mem, tokens, base, IDLE, base)
  {
  }

  /** Every non-zero result of the scan is a true occurrence, when the range does not begin at address 0. */
  lemma FindIsMatch(mem: seq<Byte>, base: nat, size: nat, tokens: seq<Token>)
    requires tokens != [] && 0 < base && base + size <= |mem|
    ensures var p := Find(mem, base, size, tokens); p != 0 ==> Match(mem, tokens, base, base + size, p)
  {
    hide Match;
    IdleTracks(mem, tokens, base);
    FoundIsMatch(mem, tokens, base, base + size, IDLE, base);
  }

  /** A result found from address 0 on lies at most one byte further than an occurrence would. */
  lemma {:induction false} FoundNear(mem: seq<Byte>, tokens: seq<Token>, end: nat, s: Scan, i: nat)
    requires s.token < |tokens| && i <= end <= |mem|
    requires s.first + s.token <= i + 1 && (s.first == 0 ==> s.token <= 1 && s.token <= i)
    ensures var p := ScanFrom(mem, tokens, end, s, i); p != 0 ==> p + |tokens| <= end + 1
    decreases end - i
  {
    if i < end {
      var next := Advance(mem, tokens, s, i);
      if next.token < |tokens| {
        FoundNear(mem, tokens, end, next, i + 1);
      }
    }
  }

  /** Where a result lies, for every range. */
  lemma FindIsInside(mem: seq<Byte>, base: nat, size: nat, tokens: seq<Token>)
    requires tokens != [] && base + size <= |mem|
    ensures var p := Find(mem, base, size, tokens);
      p != 0 ==> p + |tokens| <= base + size + (if base == 0 then 1 else 0)
  {
    if base == 0 {
      FoundNear(mem, tokens, size, IDLE, 0);
    } else {
      FindIsMatch(mem, base, size, tokens);
    }
  }

  /** At address 0 the marker for no match is also an address: an occurrence there is reported at 1. */
  lemma MatchAtZero(mem: seq<Byte>, size: nat, tokens: seq<Token>)
    requires 2 <= |tokens| <= size <= |mem| && Occurs(mem, tokens, 0, |tokens|)
    ensures Find(mem, 0, size, tokens) == 1
  {
    assert Fits(tokens[0], mem[0]);
    assert Advance(mem, tokens, IDLE, 0) == Scan(1, 0);
    FromOne(mem, tokens, size, 1);
  }

  lemma {:induction false} FromOne(mem: seq<Byte>, tokens: seq<Token>, end: nat, j: nat)
    requires 1 <= j < |tokens| <= end <= |mem| && Occurs(mem, tokens, 0, |tokens|)
    ensures ScanFrom(mem, tokens, end, Scan(j, if j == 1 then 0 else 1), j) == 1
    decreases |tokens| - j
  {
    assert Fits(tokens[j], mem[0 + j]);
    if j + 1 < |tokens| {
      FromOne(mem, tokens, end, j + 1);
    }
  }

  /** A range shorter than the pattern holds nothing to find. */
  lemma {:induction false} TooShort(mem: seq<Byte>, tokens: seq<Token>, end: nat, s: Scan, i: nat)
    requires s.token <= i <= end < |tokens| && end <= |mem|
    ensures ScanFrom(mem, tokens, end, s, i) == 0
    decreases end - i
  {
    if i < end {
      TooShort(mem, tokens, end, Advance(mem, tokens, s, i), i + 1);
    }
  }

  /** A pattern of one token is told right at any address. */
  lemma {:induction false} OneToken(mem: seq<Byte>, tokens: seq<Token>, end: nat, i: nat)
    requires |tokens| == 1 && i <= end <= |mem|
    ensures var p := ScanFrom(mem, tokens, end, IDLE, i); p != 0 ==> Match(mem, tokens, i, end, p)
    decreases end - i
  {
    if i < end && !Fits(tokens[0], mem[i]) {
      OneToken(mem, tokens, end, i + 1);
    }
  }

  /** Whatever memory holds, no result but 0 is wrong. */
  ghost predicate AlwaysRight(memSize: nat, base: nat, size: nat, tokens: seq<Token>)
    requires tokens != [] && base + size <= memSize
  {
    forall mem: seq<Byte> :: |mem| == memSize ==>
      var p := Find(mem, base, size, tokens); p != 0 ==> Match(mem, tokens, base, base + size, p)
  }

  predicate AllAny(tokens: seq<Token>) {
    forall k :: 0 <= k < |tokens| ==> tokens[k].Any?
  }

  /** Memory in which the pattern occurs at address 0; bytes that no token fixes are filler. */
  function Misleading(tokens: seq<Token>, memSize: nat, filler: Byte): (mem: seq<Byte>)
    requires |tokens| <= memSize
    ensures |mem| == memSize
  {
    seq(memSize, i requires 0 <= i < memSize => if i < |tokens| && tokens[i].Value? then tokens[i].b else filler)
  }

  lemma {:induction false} LastValue(tokens: seq<Token>, k: nat) returns (l: nat)
    requires k < |tokens| && tokens[k].Value?
    ensures l < |tokens| && tokens[l].Value? && forall j :: l < j < |tokens| ==> tokens[j].Any?
    decreases |tokens| - k
  {
    if j: nat :| k < j < |tokens| && tokens[j].Value? {
      l := LastValue(tokens, j);
    } else {
      l := k;
    }
  }

  /** Unless every token is a wildcard, a pattern can occur at 0 and not at 1. */
  lemma Misled(tokens: seq<Token>, memSize: nat, size: nat) returns (mem: seq<Byte>)
    requires 2 <= |tokens| <= size <= memSize && (AllAny(tokens) ==> size == |tokens|)
    ensures |mem| == memSize && Occurs(mem, tokens, 0, |tokens|) && !Match(mem, tokens, 0, size, 1)
  {
    var n := |tokens|;
    if size == n {
      mem := Misleading(tokens, memSize, 0);
    } else {
      var k :| 0 <= k < n && !tokens[k].Any?;
      var l := LastValue(tokens, k);
      mem := Misleading(tokens, memSize, if tokens[l].b == 0 then 1 else 0);
      if 1 + n <= size {
        assert !Fits(tokens[l], mem[1 + l]);
      }
    }
  }

  /**
   * Exactly when the scan's result can be relied on: the range begins behind address 0, or
   * the pattern is one token or too long, or nothing but wildcards with a byte to spare.
   */
  lemma FindIsExact(memSize: nat, base: nat, size: nat, tokens: seq<Token>)
    requires tokens != [] && base + size <= memSize
    ensures AlwaysRight(memSize, base, size, tokens) <==>
      0 < base || |tokens| == 1 || size < |tokens| || (AllAny(tokens) && |tokens| < size)
  {
    hide Match, ScanFrom, AllAny;
    if 0 < base || |tokens| == 1 || size < |tokens| || (AllAny(tokens) && |tokens| < size) {
      forall mem: seq<Byte> | |mem| == memSize
        ensures var p := Find(mem, base, size, tokens); p != 0 ==> Match(mem, tokens, base, base + size, p)
      {
        if 0 < base {
          FindIsMatch(mem, base, size, tokens);
        } else if |tokens| == 1 {
          OneToken(mem, tokens, size, 0);
        } else if size < |tokens| {
          TooShort(mem, tokens, size, IDLE, 0);
        } else {
          WildcardsMatch(mem, tokens, size);
        }
      }
    } else {
      var mem := Misled(tokens, memSize, size);
      MatchAtZero(mem, size, tokens);
    }
  }

  /** Wildcards alone match anywhere, also at 1. */
  lemma WildcardsMatch(mem: seq<Byte>, tokens: seq<Token>, size: nat)
    requires 2 <= |tokens| < size <= |mem| && AllAny(tokens)
    ensures Find(mem, 0, size, tokens) == 1 && Match(mem, tokens, 0, size, 1)
  {
    MatchAtZero(mem, size, tokens);
  }

  // ---- what the scan can miss ----

  /** The token expected at address i, if nothing has been found before. */
  function TokenAt(mem: seq<Byte>, tokens: seq<Token>, base: nat, i: nat): (j: nat)
    requires tokens != [] && base <= i <= |mem|
    ensures j <= i - base
    decreases i - base
  {
    if i == base then 0
    else
      var j := TokenAt(mem, tokens, base, i - 1);
      if j < |tokens| && Fits(tokens[j], mem[i - 1]) then j + 1 else 0
  }

  /** No occurrence begins before p. */
  ghost predicate NoneBefore(mem: seq<Byte>, tokens: seq<Token>, base: nat, p: nat) {
    forall q :: base <= q < p ==> !Occurs(mem, tokens, q, |tokens|)
  }

  lemma {:induction false} TokenTracks(mem: seq<Byte>, tokens: seq<Token>, base: nat, p: nat, i: nat)
    requires tokens != [] && base <= i <= |mem| && i < p + |tokens| && NoneBefore(mem, tokens, base, p)
    ensures TokenAt(mem, tokens, base, i) < |tokens|
    ensures var j := TokenAt(mem, tokens, base, i); base + j <= i && Occurs(mem, tokens, i - j, j)
    decreases i - base
  {
    if i > base {
      TokenTracks(mem, tokens, base, p, i - 1);
      var j := TokenAt(mem, tokens, base, i - 1);
      if Fits(tokens[j], mem[i - 1]) {
        assert Occurs(mem, tokens, i - (j + 1), j + 1);
        if j + 1 == |tokens| {
          assert base <= i - |tokens| < p;
          assert !Occurs(mem, tokens, i - |tokens|, |tokens|);
        }
      }
    }
  }

  /** The scan's state at address i, if nothing has been found before. */
  function StateAt(mem: seq<Byte>, tokens: seq<Token>, base: nat, i: nat): Scan
    requires tokens != [] && base <= i <= |mem|
  {
    var j := TokenAt(mem, tokens, base, i);
    Scan(j, if j == 0 then 0 else i - j)
  }

  /** Up to the end of the leftmost occurrence the scan runs as TokenAt says. */
  lemma {:induction false} ScanFollows(mem: seq<Byte>, tokens: seq<Token>, base: nat, end: nat, p: nat, i: nat)
    requires tokens != [] && 0 < base <= i <= end <= |mem| && i < p + |tokens| && NoneBefore(mem, tokens, base, p)
    ensures StateAt(mem, tokens, base, i).token < |tokens|
    ensures ScanFrom(mem, tokens, end, IDLE, base) == ScanFrom(mem, tokens, end, StateAt(mem, tokens, base, i), i)
    decreases i
  {
    TokenTracks(mem, tokens, base, p, i);
    if i > base {
      ScanFollows(mem, tokens, base, end, p, i - 1);
      assert Advance(mem, tokens, StateAt(mem, tokens, base, i - 1), i - 1) == StateAt(mem, tokens, base, i);
    }
  }

  /** From the idle state at an occurrence the scan finds it. */
  lemma {:induction false} RunsThrough(mem: seq<Byte>, tokens: seq<Token>, end: nat, p: nat, j: nat)
    requires 0 < p && p + |tokens| <= end <= |mem| && Occurs(mem, tokens, p, |tokens|) && j < |tokens|
    ensures ScanFrom(mem, tokens, end, Scan(j, if j == 0 then 0 else p), p + j) == p
    decreases |tokens| - j
  {
    assert Fits(tokens[j], mem[p + j]);
    if j + 1 < |tokens| {
      RunsThrough(mem, tokens, end, p, j + 1);
    }
  }

  /** A scan that is busy at p never reports p. */
  lemma {:induction false} NeverReports(mem: seq<Byte>, tokens: seq<Token>, end: nat, p: nat, s: Scan, i: nat)
    requires s.token < |tokens| && 0 < p <= i <= end <= |mem| && s.first != p && (i == p ==> s.first != 0)
    ensures ScanFrom(mem, tokens, end, s, i) != p
    decreases end - i
  {
    if i < end {
      var next := Advance(mem, tokens, s, i);
      if next.token < |tokens| {
        NeverReports(mem, tokens, end, p, next, i + 1);
      }
    }
  }

  /** The leftmost occurrence is found exactly if the scan is not in the middle of the pattern when it gets there. */
  lemma LeftmostIsFound(mem: seq<Byte>, base: nat, size: nat, tokens: seq<Token>, p: nat)
    requires tokens != [] && 0 < base && base + size <= |mem|
    requires Match(mem, tokens, base, base + size, p) && NoneBefore(mem, tokens, base, p)
    ensures Find(mem, base, size, tokens) == p <==> TokenAt(mem, tokens, base, p) == 0
  {
    hide Occurs, NoneBefore;
    ScanFollows(mem, tokens, base, base + size, p, p);
    if TokenAt(mem, tokens, base, p) == 0 {
      RunsThrough(mem, tokens, base + size, p, 0);
    } else {
      NeverReports(mem, tokens, base + size, p, StateAt(mem, tokens, base, p), p);
    }
  }

  /** The first l tokens lie directly before q. */
  ghost predicate EndsAt(mem: seq<Byte>, tokens: seq<Token>, base: nat, q: nat, l: nat) {
    l <= |tokens| && base <= q - l && Occurs(mem, tokens, q - l, l)
  }

  /** A proper, non-empty beginning of the pattern lies directly before q. */
  ghost predicate PrefixBefore(mem: seq<Byte>, tokens: seq<Token>, base: nat, q: nat) {
    exists l :: 0 < l < |tokens| && EndsAt(mem, tokens, base, q, l)
  }

  ghost predicate NoMatch(mem: seq<Byte>, tokens: seq<Token>, from: nat, end: nat) {
    forall q :: !Match(mem, tokens, from, end, q)
  }

  /**
   * If no occurrence is directly preceded by a proper, non-empty beginning of the pattern,
   * the scan returns the leftmost occurrence, or 0 if there is none.
   */
  lemma FindIsLeftmost(mem: seq<Byte>, base: nat, size: nat, tokens: seq<Token>)
    requires tokens != [] && 0 < base && base + size <= |mem|
    requires forall q :: Match(mem, tokens, base, base + size, q) ==> !PrefixBefore(mem, tokens, base, q)
    ensures var p := Find(mem, base, size, tokens);
      if p == 0 then NoMatch(mem, tokens, base, base + size)
      else Match(mem, tokens, base, base + size, p) && NoneBefore(mem, tokens, base, p)
  {
    hide Find;
    var end := base + size;
    FindIsMatch(mem, base, size, tokens);
    if !NoMatch(mem, tokens, base, end) {
      var q :| Match(mem, tokens, base, end, q);
      var p := Leftmost(mem, tokens, base, end, q, base);
      TokenTracks(mem, tokens, base, p, p);
      assert !PrefixBefore(mem, tokens, base, p);
      assert EndsAt(mem, tokens, base, p, TokenAt(mem, tokens, base, p));
      assert TokenAt(mem, tokens, base, p) == 0;
      LeftmostIsFound(mem, base, size, tokens, p);
    }
  }

  /** The first occurrence from i on, given one at q. */
  lemma {:induction false} Leftmost(mem: seq<Byte>, tokens: seq<Token>, base: nat, end: nat, q: nat, i: nat) returns (p: nat)
    requires Match(mem, tokens, base, end, q) && base <= i <= q && NoneBefore(mem, tokens, base, i)
    ensures Match(mem, tokens, base, end, p) && NoneBefore(mem, tokens, base, p)
    decreases q - i
  {
    hide Occurs;
    if i == q || Occurs(mem, tokens, i, |tokens|) {
      p := i;
      if i < q {
        OccurrenceEnds(mem, tokens, base, end, q, i);
      }
    } else {
      p := Leftmost(mem, tokens, base, end, q, i + 1);
    }
  }

  lemma OccurrenceEnds(mem: seq<Byte>, tokens: seq<Token>, base: nat, end: nat, q: nat, i: nat)
    requires Match(mem, tokens, base, end, q) && i < q
    ensures i + |tokens| <= end
  {
  }

  // ---- the scan on the pattern's text ----

  /** The text offset of token j. */
  function OffsetOf(tokens: seq<Token>, j: nat): nat
    requires j <= |tokens|
  {
    if j == 0 then 0 else OffsetOf(tokens, j - 1) + (if tokens[j - 1].Any? then 2 else 3)
  }

  lemma {:induction false} SpellsRest(text: seq<Char>, tokens: seq<Token>, j: nat)
    requires Spells(text, 0, tokens) && j < |tokens|
    ensures Spells(text, OffsetOf(tokens, j), tokens[j..])
  {
    if j == 0 {
      assert tokens[0..] == tokens;
    } else {
      SpellsRest(text, tokens, j - 1);
      assert tokens[j - 1..][1..] == tokens[j..];
    }
  }

  /** FindPattern; the terminating zero of the text is its end. */
  method FindPattern(mem: array<Byte>, base: nat, size: nat, pattern: seq<Char>, ghost tokens: seq<Token>) returns (r: nat)
    requires base + size <= mem.Length && Spells(pattern, 0, tokens)
    ensures r == Find(mem[..], base, size, tokens)
  {
    hide Spells, GetByte, OffsetOf;
    var firstMatch: nat := 0;
    var currentPattern: nat := 0;
    ghost var s := IDLE;
    StartOffset(tokens);
    TokensNonEmpty(pattern, tokens);
    for current := base to base + size
      invariant s.token < |tokens| && s.first == firstMatch && currentPattern == OffsetOf(tokens, s.token)
      invariant ScanFrom(mem[..], tokens, base + size, s, current) == Find(mem[..], base, size, tokens)
    {
      TokenText(pattern, tokens, s.token);
      var byte := pattern[currentPattern];
      ghost var next := Advance(mem[..], tokens, s, current);
      if byte == WILDCARD || mem[current] == GetByte(byte, pattern[currentPattern + 1]) {
        if firstMatch == 0 {
          firstMatch := current;
        }
        if currentPattern + 2 == |pattern| {
          return firstMatch;
        }
        currentPattern := if byte == WILDCARD then currentPattern + 2 else currentPattern + 3;
      } else {
        currentPattern := 0;
        firstMatch := 0;
      }
      s := next;
    }
    return 0;
  }

  lemma StartOffset(tokens: seq<Token>)
    ensures OffsetOf(tokens, 0) == 0
  {
  }

  lemma TokensNonEmpty(text: seq<Char>, tokens: seq<Token>)
    requires Spells(text, 0, tokens)
    ensures tokens != []
  {
  }

  /** What the text shows at token j. */
  lemma TokenText(text: seq<Char>, tokens: seq<Token>, j: nat)
    requires Spells(text, 0, tokens) && j < |tokens|
    ensures var at := OffsetOf(tokens, j);
      && at + 2 <= |text| && (text[at] == WILDCARD <==> tokens[j].Any?)
      && (tokens[j].Value? ==> GetByte(text[at], text[at + 1]) == tokens[j].b)
      && (at + 2 == |text| <==> j + 1 == |tokens|)
      && (j + 1 < |tokens| ==> OffsetOf(tokens, j + 1) == at + (if text[at] == WILDCARD then 2 else 3))
      && OffsetOf(tokens, 0) == 0
  {
    hide GetByte;
    SpellsRest(text, tokens, j);
    assert tokens[j..][0] == tokens[j] && |tokens[j..]| == |tokens| - j;
  }

  // ---- writing a pattern down ----

  function HexDigit(n: nat): Char
    requires n < 0x10
  {
    if n < 10 then 0x30 + n else 0x41 + (n - 10)
  }

  const SEPARATOR: Char := 0x20

  predicate AllValues(tokens: seq<Token>) {
    forall k :: 0 <= k < |tokens| ==> tokens[k].Value?
  }

  /** Pairs of upper-case digits with blanks between them, such as 28 10 38 D5. */
  function TextOf(tokens: seq<Token>): seq<Char>
    requires AllValues(tokens)
  {
    if tokens == [] then []
    else
      assert tokens[0].Value?;
      var pair: seq<Char> := [HexDigit(tokens[0].b / 0x10), HexDigit(tokens[0].b % 0x10)];
      if |tokens| == 1 then pair else pair + [SEPARATOR] + TextOf(tokens[1..])
  }

  lemma DigitsOf(b: Byte)
    ensures GetByte(HexDigit(b / 0x10), HexDigit(b % 0x10)) == b && HexDigit(b / 0x10) != WILDCARD
  {
  }

  /** The text of a pattern, seen at its first byte. */
  lemma TextStep(before: seq<Char>, tokens: seq<Token>)
    requires AllValues(tokens) && tokens != []
    ensures var text := before + TextOf(tokens);
      var pair: seq<Char> := [HexDigit(tokens[0].b / 0x10), HexDigit(tokens[0].b % 0x10)];
      && |before| + 2 <= |text| && text[|before|] == pair[0] && text[|before| + 1] == pair[1]
      && if |tokens| == 1 then |text| == |before| + 2
         else AllValues(tokens[1..]) && |text| > |before| + 3 && text == before + pair + [SEPARATOR] + TextOf(tokens[1..])
  {
    hide HexDigit;
    if |tokens| > 1 {
      assert TextOf(tokens[1..]) != [];
    }
  }

  /** Behind any text, the text of a pattern spells it. */
  lemma {:induction false} TextSpells(before: seq<Char>, tokens: seq<Token>)
    requires AllValues(tokens) && tokens != []
    ensures Spells(before + TextOf(tokens), |before|, tokens)
    decreases |tokens|
  {
    hide GetByte, HexDigit, TextOf;
    var b := tokens[0].b;
    DigitsOf(b);
    TextStep(before, tokens);
    if |tokens| > 1 {
      TextSpells(before + [HexDigit(b / 0x10), HexDigit(b % 0x10)] + [SEPARATOR], tokens[1..]);
    }
  }
}
