/** The chunked-body decoder inside https_post of net/https.c. Its cursor is a 32-bit pointer, and chunk sizes are 32-bit
    numbers added to it. The text s is the memory below the end of the body, so that a place in s is an address; the body
    is its last part. Every addition to the cursor is modulo 2^32, also those that skip a line end. */
module Chunked {
  import opened Base

  const BODY_SIZE: int := 4096

  /** The memory below the end of the body, which lies below 2 GB as all memory of the kernel does. */
  type Memory = s: string | |s| + BODY_SIZE <= 0x8000_0000

  /** What the size loop makes of a line: hexadecimal digits modulo 2^32, other characters passed over. */
  function Size(t: string): u32 {
    if t == "" then 0
    else
      var n := Size(t[..|t| - 1]);
      var c := t[|t| - 1];
      if IsHex(c) then (n * 16 + HexValue(c)) % WORD else n
  }

  /** The end of the size line: its carriage return, or the end of the text. */
  function LineEnd(s: Memory, i: nat): (j: nat)
    requires i <= |s|
    ensures i <= j <= |s|
    decreases |s| - i
  {
    if i == |s| || s[i] == '\r' then i else LineEnd(s, i + 1)
  }

  function SizeAt(s: Memory, i: nat): u32
    requires i <= |s|
  {
    Size(s[i..LineEnd(s, i)])
  }

  /** Past two characters, if the next address lies below the end: from the last address of all the next one is 0. */
  function SkipCrLf(s: Memory, q: u32): u32 { if (q + 1) % WORD < |s| then (q + 2) % WORD else q }

  function DataAt(s: Memory, i: nat): (d: nat)
    requires i <= |s|
    ensures i <= d <= |s|
  {
    SkipCrLf(s, LineEnd(s, i))
  }

  /** Where the cursor stands after one turn: the addition is on a 32-bit pointer. */
  function Turn(s: Memory, i: nat): (j: u32)
    requires i <= |s|
  {
    SkipCrLf(s, (DataAt(s, i) + SizeAt(s, i)) % WORD)
  }

  /** The loop ends within so many turns from i, at the last chunk or the end of the text. */
  predicate Ends(s: Memory, i: nat, turns: nat)
    decreases turns
  {
    i >= |s| || SizeAt(s, i) == 0 || (turns > 0 && Ends(s, Turn(s, i), turns - 1))
  }

  ghost predicate NeverEnds(s: Memory, i: nat) { forall turns: nat :: !Ends(s, i, turns) }

  /** How much of a chunk of n bytes at d is copied behind `got` bytes: what fits, if all of that is there. */
  function ToCopy(s: Memory, got: int, d: nat, n: u32): nat {
    var t := if Int32(got + Int32(n)) > BODY_SIZE - 1 then BODY_SIZE - 1 - got else Int32(n);
    if t > 0 && d + t <= |s| then t else 0
  }

  /** The decoded body. */
  function Decoded(s: Memory, i: nat, turns: nat, got: string): string
    requires Ends(s, i, turns)
    decreases turns
  {
    if i >= |s| || SizeAt(s, i) == 0 then got
    else
      var d := DataAt(s, i);
      Decoded(s, Turn(s, i), turns - 1, got + s[d..d + ToCopy(s, |got|, d, SizeAt(s, i))])
  }

  /** The loop over a size line. */
  method ParseSize(s: Memory, start: nat) returns (cp: nat, chunkSize: u32)
    requires start <= |s|
    ensures cp == LineEnd(s, start) && chunkSize == SizeAt(s, start)
  {
    chunkSize := 0;
    cp := start;
    while cp < |s| && s[cp] != '\r'
      invariant start <= cp <= |s| && LineEnd(s, cp) == LineEnd(s, start)
      invariant chunkSize == Size(s[start..cp])
    {
      var c := s[cp];
      assert s[start..cp + 1][..cp - start] == s[start..cp];
      if IsHex(c) { chunkSize := (chunkSize * 16 + HexValue(c)) % WORD; }
      cp := cp + 1;
    }
  }

  /** The decoder of the body from `start` on, wherever its loop ends. */
  method Decode(s: Memory, start: nat, ghost turns: nat) returns (body: string)
    requires start <= |s| && Ends(s, start, turns)
    ensures body == Decoded(s, start, turns, "") && |body| < BODY_SIZE
  {
    hide LineEnd, SizeAt, Ends, Decoded, ToCopy, DataAt, Turn, SkipCrLf;
    body := "";
    var cp: nat := start;
    ghost var left := turns;
    while cp < |s|
      invariant Ends(s, cp, left) && |body| < BODY_SIZE
      invariant Decoded(s, cp, left, body) == Decoded(s, start, turns, "")
      decreases left
    {
      DecodeTurn(s, cp, left, body);
      var q, chunkSize := ParseSize(s, cp);
      DataIs(s, cp);
      q := SkipCrLf(s, q);
      if chunkSize == 0 { return; }
      var toCopy := Int32(chunkSize);
      if Int32(|body| + toCopy) > BODY_SIZE - 1 { toCopy := BODY_SIZE - 1 - |body|; }
      CopyFits(s, |body|, q, chunkSize);
      CopyIs(s, |body|, q, chunkSize, toCopy);
      if toCopy > 0 && q + toCopy <= |s| {
        body := body + s[q..q + toCopy];
      } else if q <= |s| {
        assert body + s[q..q] == body;
      }
      TurnIs(s, cp);
      cp := SkipCrLf(s, (q + chunkSize) % WORD);
      left := left - 1;
    }
    DecodeDone(s, cp, left, body);
  }

  lemma DataIs(s: Memory, i: nat)
    requires i <= |s|
    ensures DataAt(s, i) == SkipCrLf(s, LineEnd(s, i)) == (if LineEnd(s, i) + 1 < |s| then LineEnd(s, i) + 2 else LineEnd(s, i)) <= |s|
  {
  }

  lemma CopyIs(s: Memory, got: int, d: nat, n: u32, t: int)
    requires t == if Int32(got + Int32(n)) > BODY_SIZE - 1 then BODY_SIZE - 1 - got else Int32(n)
    ensures ToCopy(s, got, d, n) == if t > 0 && d + t <= |s| then t else 0
  {
  }

  lemma TurnIs(s: Memory, i: nat)
    requires i <= |s|
    ensures Turn(s, i) == SkipCrLf(s, (DataAt(s, i) + SizeAt(s, i)) % WORD)
  {
  }

  lemma DecodeTurn(s: Memory, i: nat, turns: nat, got: string)
    requires Ends(s, i, turns) && i < |s|
    ensures if SizeAt(s, i) == 0 then Decoded(s, i, turns, got) == got
            else
              var d := DataAt(s, i); var n := ToCopy(s, |got|, d, SizeAt(s, i));
              turns > 0 && Ends(s, Turn(s, i), turns - 1) && d + n <= |s| &&
              Decoded(s, i, turns, got) == Decoded(s, Turn(s, i), turns - 1, got + s[d..d + n])
  {
    hide SizeAt, Turn;
    DataIs(s, i);
  }

  lemma DecodeDone(s: Memory, i: nat, turns: nat, got: string)
    requires Ends(s, i, turns) && i >= |s|
    ensures Decoded(s, i, turns, got) == got
  {
  }

  lemma CopyFits(s: Memory, got: nat, d: nat, n: u32)
    requires got < BODY_SIZE
    ensures got + ToCopy(s, got, d, n) < BODY_SIZE
    ensures n < 0x8000_0000 - BODY_SIZE ==> Int32(n) == n && Int32(got + Int32(n)) == got + n
  {
  }

  /** Of a chunk as much is copied as the buffer has room for, if all of that has arrived, and else nothing; nothing at all
      of one that claims 2^31 bytes or more. */
  lemma CopiedWhole(s: Memory, got: nat, d: nat, n: u32)
    requires got < BODY_SIZE
    ensures n < 0x8000_0000 - BODY_SIZE ==>
              ToCopy(s, got, d, n) == if d + Min(n, BODY_SIZE - 1 - got) <= |s| then Min(n, BODY_SIZE - 1 - got) else 0
    ensures n >= 0x8000_0000 ==> ToCopy(s, got, d, n) == 0
  {
  }

  lemma {:induction false} MoreTurns(s: Memory, i: nat, n: nat, m: nat)
    requires Ends(s, i, n) && n <= m
    ensures Ends(s, i, m)
    decreases n
  {
    hide SizeAt, Turn;
    if i < |s| && SizeAt(s, i) != 0 { MoreTurns(s, Turn(s, i), n - 1, m - 1); }
  }

  /** From i the cursor stands at k after so many turns. */
  predicate Reaches(s: Memory, i: nat, k: nat, turns: nat)
    decreases turns
  {
    if turns == 0 then k == i else i < |s| && SizeAt(s, i) != 0 && Reaches(s, Turn(s, i), k, turns - 1)
  }

  /** The chunk ends below the last address of all, so that no addition of this turn wraps. */
  predicate NoWrap(s: Memory, k: nat)
    requires k <= |s|
  {
    DataAt(s, k) + SizeAt(s, k) + 1 < WORD
  }

  /** A turn that does not wrap moves the cursor on. */
  lemma TurnForward(s: Memory, k: nat)
    requires k < |s| && SizeAt(s, k) != 0 && NoWrap(s, k)
    ensures Turn(s, k) > k
  {
    hide SizeAt, DataAt;
  }

  lemma {:induction false} ReachesNext(s: Memory, i: nat, k: nat, turns: nat)
    requires Reaches(s, i, k, turns) && k < |s| && SizeAt(s, k) != 0
    ensures Reaches(s, i, Turn(s, k), turns + 1)
    decreases turns
  {
    hide SizeAt, Turn;
    if turns > 0 { ReachesNext(s, Turn(s, i), k, turns - 1); } else { assert Reaches(s, Turn(s, i), Turn(s, k), 0); }
  }

  /** The loop ends unless some turn that it comes to carries the cursor to the last address or past it. */
  lemma {:induction false} ForwardEnds(s: Memory, i: nat, k: nat, n: nat)
    requires Reaches(s, i, k, n) && forall j: nat, m: nat :: Reaches(s, i, j, m) && j < |s| && SizeAt(s, j) != 0 ==> NoWrap(s, j)
    ensures Ends(s, k, if k < |s| then |s| - k else 0)
    decreases |s| - k
  {
    hide SizeAt, DataAt, Turn, Reaches, NoWrap;
    if k < |s| && SizeAt(s, k) != 0 {
      var j := Turn(s, k);
      TurnForward(s, k);
      ReachesNext(s, i, k, n);
      ForwardEnds(s, i, j, n + 1);
      MoreTurns(s, j, if j < |s| then |s| - j else 0, |s| - k - 1);
    }
  }

  /** A loop that does not end comes to a turn with an addition that wraps. */
  lemma LoopWraps(s: Memory, i: nat)
    requires NeverEnds(s, i)
    ensures exists k: nat, n: nat :: Reaches(s, i, k, n) && k < |s| && SizeAt(s, k) != 0 && !NoWrap(s, k)
  {
    hide SizeAt, DataAt, Turn, NoWrap, Ends;
    assert Reaches(s, i, i, 0);
    if forall j: nat, m: nat :: Reaches(s, i, j, m) && j < |s| && SizeAt(s, j) != 0 ==> NoWrap(s, j) {
      ForwardEnds(s, i, i, 0);
      assert false;
    }
  }

  /** Going on from a place the cursor comes to ends exactly as the whole does. */
  lemma {:induction false} EndsLater(s: Memory, i: nat, k: nat, n: nat, turns: nat)
    requires Reaches(s, i, k, n) && Ends(s, i, turns)
    ensures n <= turns && Ends(s, k, turns - n)
    decreases n
  {
    hide SizeAt, Turn;
    if n > 0 { EndsLater(s, Turn(s, i), k, n - 1, turns - 1); }
  }

  lemma {:induction false} CycleNeverEnds(s: Memory, k: nat, p: nat, turns: nat)
    requires p > 0 && Reaches(s, k, k, p)
    ensures !Ends(s, k, turns)
    decreases turns
  {
    hide Reaches, Ends;
    if Ends(s, k, turns) {
      EndsLater(s, k, k, p, turns);
      CycleNeverEnds(s, k, p, turns - p);
    }
  }

  /** Where the cursor stands before each of the first turns. */
  lemma {:induction false} Trail(s: Memory, i: nat, n: nat) returns (t: seq<nat>)
    requires !Ends(s, i, n)
    ensures |t| == n + 1 && t[0] == i && forall a :: 0 <= a <= n ==> t[a] < |s|
    ensures forall a, b :: 0 <= a <= b <= n ==> Reaches(s, t[a], t[b], b - a)
    decreases n
  {
    hide SizeAt, Turn;
    if n == 0 {
      t := [i];
    } else {
      var u := Trail(s, Turn(s, i), n - 1);
      t := [i] + u;
      forall a, b | 0 <= a <= b <= n ensures Reaches(s, t[a], t[b], b - a) {
        if a > 0 { assert Reaches(s, u[a - 1], u[b - 1], b - a); } else if b > 0 { assert Reaches(s, u[0], u[b - 1], b - 1); }
      }
    }
  }

  lemma {:induction false} AtMost(places: set<nat>, n: nat)
    requires forall k :: k in places ==> k < n
    ensures |places| <= n
  {
    if n > 0 {
      AtMost(places - {n - 1}, n - 1);
    } else {
      assert places == {};
    }
  }

  function Elements(t: seq<nat>): set<nat> { set x | x in t }

  lemma {:induction false} AllDifferent(t: seq<nat>)
    requires forall a, b :: 0 <= a < b < |t| ==> t[a] != t[b]
    ensures |Elements(t)| == |t|
  {
    if t == [] {
      assert Elements(t) == {};
    } else {
      var u, x := t[1..], t[0];
      AllDifferent(u);
      assert Elements(t) == Elements(u) + {x};
      assert x !in u;
    }
  }

  /** More turns than places: some place is come to twice. */
  lemma Repeats(t: seq<nat>, n: nat) returns (a: nat, b: nat)
    requires |t| > n && forall k :: 0 <= k < |t| ==> t[k] < n
    ensures a < b < |t| && t[a] == t[b]
  {
    if forall a, b :: 0 <= a < b < |t| ==> t[a] != t[b] {
      AllDifferent(t);
      AtMost(Elements(t), n);
      assert false;
    }
    a, b :| 0 <= a < b < |t| && t[a] == t[b];
  }

  /** From i the cursor comes to a place and later back to it. */
  ghost predicate Returns(s: Memory, i: nat) {
    exists k: nat, n: nat, p: nat :: p > 0 && Reaches(s, i, k, n) && Reaches(s, k, k, p)
  }

  lemma LoopReturns(s: Memory, i: nat)
    requires !Ends(s, i, |s|)
    ensures Returns(s, i)
  {
    hide Reaches, Ends;
    var t := Trail(s, i, |s|);
    var a, b := Repeats(t, |s|);
    assert Reaches(s, t[0], t[a], a - 0) && Reaches(s, t[a], t[b], b - a);
  }

  lemma ReturnNeverEnds(s: Memory, i: nat, turns: nat)
    requires Returns(s, i)
    ensures !Ends(s, i, turns)
  {
    hide Reaches, Ends;
    var k: nat, n: nat, p: nat :| p > 0 && Reaches(s, i, k, n) && Reaches(s, k, k, p);
    if Ends(s, i, turns) {
      EndsLater(s, i, k, n, turns);
      CycleNeverEnds(s, k, p, turns - n);
    }
  }

  /** The loop goes on for ever if and only if its cursor comes back to a place. */
  lemma LoopsIff(s: Memory, i: nat)
    ensures NeverEnds(s, i) <==> Returns(s, i)
  {
    hide Returns, Ends;
    if Returns(s, i) {
      forall turns: nat ensures !Ends(s, i, turns) { ReturnNeverEnds(s, i, turns); }
    } else if NeverEnds(s, i) {
      LoopReturns(s, i);
    }
  }

  /** A chunk size can turn the cursor back: at the end of any memory this text is such a place, every turn ending where
      it began with nothing copied. */
  lemma Stuck(s: Memory)
    requires |s| >= 12 && s[|s| - 10..] == "fffffff4\r\n"
    ensures var i := |s| - 10; Turn(s, i) == i && ToCopy(s, 0, DataAt(s, i), SizeAt(s, i)) == 0 && NeverEnds(s, i)
  {
    var i := |s| - 10;
    OneTurn(s);
    hide SizeAt, Turn, DataAt, ToCopy;
    OwnTurn(s, i);
  }

  lemma OwnTurn(s: Memory, i: nat)
    requires i < |s| && SizeAt(s, i) != 0 && Turn(s, i) == i
    ensures NeverEnds(s, i)
  {
    hide SizeAt, Turn;
    assert Reaches(s, i, i, 1) by { assert Reaches(s, i, i, 0); }
    forall turns: nat ensures !Ends(s, i, turns) { CycleNeverEnds(s, i, 1, turns); }
  }

  lemma OneTurn(s: Memory)
    requires |s| >= 12 && s[|s| - 10..] == "fffffff4\r\n"
    ensures var i := |s| - 10; SizeAt(s, i) != 0 && Turn(s, i) == i && ToCopy(s, 0, DataAt(s, i), SizeAt(s, i)) == 0
  {
    hide LineEnd, Size;
    var i := |s| - 10;
    Has8(s);
    LineEndAt(s, i, "fffffff4");
    assert SizeAt(s, i) == 0xFFFF_FFF4 by {
      assert "" + ("fffffff" + ['4']) == "fffffff4";
      SpacedSize("", '4');
    }
    assert DataAt(s, i) == |s|;
    assert (|s| + 0xFFFF_FFF4) % WORD == |s| - 12;
  }

  lemma Has8(s: Memory)
    requires |s| >= 12 && s[|s| - 10..] == "fffffff4\r\n"
    ensures var i := |s| - 10; Has(s, i, "fffffff4") && s[i + 8] == '\r' && s[i..i + 8] == "fffffff4"
  {
    var i, t := |s| - 10, "fffffff4\r\n";
    assert s[i..] == t;
    assert s[i..i + 8] == s[i..][..8] == t[..8];
    assert s[i + 8] == s[i..][8];
    assert t[..8] == "fffffff4";
  }

  /** A chunk that ends at the last address of all: behind it the cursor skips to address 1. */
  lemma LastAddress(s: Memory, i: nat)
    requires i < |s| && DataAt(s, i) + SizeAt(s, i) == WORD - 1
    ensures Turn(s, i) == 1 && !NoWrap(s, i)
  {
    hide SizeAt, DataAt;
  }

  /** So on this memory, whose body starts at address 5, the cursor goes to address 1 and stays there for ever. */
  lemma StuckAtOne(s: Memory)
    requires s == "     " + ("fffffff0" + "\r\n")
    ensures Turn(s, 5) == 1 && Turn(s, 1) == 1 && NeverEnds(s, 5)
  {
    hide SizeAt, Turn, DataAt, NoWrap;
    SpacedLine(s, 5);
    SpacedLine(s, 1);
    LastAddress(s, 5);
    LastAddress(s, 1);
    OwnTurn(s, 1);
    forall turns: nat ensures !Ends(s, 5, turns) {
      if turns > 0 { assert !Ends(s, 1, turns - 1); }
    }
  }

  lemma SpacedLine(s: Memory, i: nat)
    requires s == "     " + ("fffffff0" + "\r\n") && i <= 5
    ensures SizeAt(s, i) == 0xFFFF_FFF0 && DataAt(s, i) == 15
  {
    hide Size, LineEnd, Has;
    var spaces := "     "[i..];
    var t := spaces + ("fffffff" + ['0']);
    SpacedText(s, i, t);
    LineEndAt(s, i, t);
    SpacedSize(spaces, '0');
  }

  lemma SpacedText(s: string, i: nat, t: string)
    requires s == "     " + ("fffffff0" + "\r\n") && i <= 5 && t == "     "[i..] + ("fffffff" + ['0'])
    ensures |s| == 15 && |t| == 13 - i && Has(s, i, t) && s[13] == '\r' && forall k :: 0 <= k < |t| ==> t[k] != '\r'
    ensures s[i..13] == t
  {
    assert s[i..13] == t;
  }

  lemma SpacedSize(spaces: string, digit: char)
    requires IsHex(digit) && forall k :: 0 <= k < |spaces| ==> spaces[k] == ' '
    ensures Size(spaces + ("fffffff" + [digit])) == 0xFFFF_FFF0 + HexValue(digit)
  {
    hide Size;
    SizeSpaces(spaces);
    SevenF(spaces);
    SizeNext(spaces + "fffffff", digit);
    assert spaces + ("fffffff" + [digit]) == spaces + "fffffff" + [digit];
  }

  lemma SizeNext(t: string, c: char)
    requires IsHex(c)
    ensures Size(t + [c]) == (Size(t) * 16 + HexValue(c)) % WORD
  {
    assert (t + [c])[..|t|] == t;
  }

  lemma OneMoreF(t: string, v: nat)
    requires Size(t) == v && v * 16 + 15 < WORD
    ensures Size(t + "f") == v * 16 + 15
  {
    SizeNext(t, 'f');
  }

  lemma SevenF(t: string)
    requires Size(t) == 0
    ensures Size(t + "fffffff") == 0xFFF_FFFF
  {
    hide Size;
    OneMoreF(t, 0);
    OneMoreF(t + "f", 15);
    OneMoreF(t + "f" + "f", 0xFF);
    OneMoreF(t + "f" + "f" + "f", 0xFFF);
    var u := t + "f" + "f" + "f" + "f";
    OneMoreF(u, 0xFFFF);
    OneMoreF(u + "f", 0xF_FFFF);
    OneMoreF(u + "f" + "f", 0xFF_FFFF);
    assert u + "f" + "f" + "f" == t + "fffffff";
  }

  /** Characters that are no digits leave the size at 0. */
  lemma {:induction false} SizeSpaces(t: string)
    requires forall k :: 0 <= k < |t| ==> t[k] == ' '
    ensures Size(t) == 0
  {
    if t != "" { SizeSpaces(t[..|t| - 1]); }
  }

  // ---- encodings (section 7.1 of RFC 9112), without chunk extensions

  /** A chunk: its size as it is written, in any case and with any leading zeros, and its data. */
  datatype Chunk = Chunk(size: string, data: string)

  predicate Digits(t: string) { t != "" && forall i :: 0 <= i < |t| ==> IsHex(t[i]) }

  function Number(t: string): nat
    requires forall i :: 0 <= i < |t| ==> IsHex(t[i])
  {
    if t == "" then 0 else Number(t[..|t| - 1]) * 16 + HexValue(t[|t| - 1])
  }

  predicate ChunkOk(c: Chunk) { Digits(c.size) && c.data != "" && Number(c.size) == |c.data| }

  predicate ChunksOk(cs: seq<Chunk>) { forall i :: 0 <= i < |cs| ==> ChunkOk(cs[i]) }

  function ChunkText(c: Chunk): string { c.size + ("\r\n" + (c.data + "\r\n")) }

  function ChunksText(cs: seq<Chunk>): string {
    if cs == [] then "" else ChunkText(cs[0]) + ChunksText(cs[1..])
  }

  function Joined(cs: seq<Chunk>): string {
    if cs == [] then "" else cs[0].data + Joined(cs[1..])
  }

  /** Below 2^32 nothing is lost to the width of the size. */
  lemma {:induction false} SizeIsNumber(t: string)
    requires (forall i :: 0 <= i < |t| ==> IsHex(t[i])) && Number(t) < WORD
    ensures Size(t) == Number(t)
  {
    if t != "" { SizeIsNumber(t[..|t| - 1]); }
  }

  lemma {:induction false} LineEndAt(s: Memory, i: nat, t: string)
    requires Has(s, i, t) && (forall k :: 0 <= k < |t| ==> t[k] != '\r') && i + |t| < |s| && s[i + |t|] == '\r'
    ensures LineEnd(s, i) == i + |t|
    decreases |t|
  {
    if t != "" {
      HasAt(s, i, t, 0);
      assert t == t[..1] + t[1..];
      HasSplit(s, i, t[..1], t[1..]);
      LineEndAt(s, i + 1, t[1..]);
    }
  }

  lemma NoReturn(t: string)
    requires Digits(t)
    ensures forall k :: 0 <= k < |t| ==> IsHex(t[k]) && t[k] != '\r'
  {
  }

  /** A size line of digits: its value, and where the data behind it starts. */
  lemma SizeLine(s: Memory, i: nat, t: string)
    requires Digits(t) && Has(s, i, t + "\r\n") && Number(t) < WORD
    ensures i <= |s| && SizeAt(s, i) == Number(t) && DataAt(s, i) == i + |t| + 2 <= |s|
  {
    hide Size, Number, LineEnd, Has, Digits, IsHex;
    HasSplit(s, i, t, "\r\n");
    HasAt(s, i + |t|, "\r\n", 0);
    HasAt(s, i + |t|, "\r\n", 1);
    NoReturn(t);
    LineEndAt(s, i, t);
    SizeIsNumber(t);
    HasTake(s, i, t, |t|);
    assert t[..|t|] == t;
  }

  function Room(t: string): string { t[..Min(|t|, BODY_SIZE - 1)] }

  /** One chunk: the cursor moves just past it, and as much of its data as fits is taken over. */
  lemma ChunkTurn(s: Memory, i: nat, c: Chunk, got: string)
    requires ChunkOk(c) && Has(s, i, ChunkText(c)) && i + |ChunkText(c)| < |s| && |got| < BODY_SIZE
    ensures i <= |s| && SizeAt(s, i) == |c.data| && Turn(s, i) == i + |ChunkText(c)|
    ensures var d := DataAt(s, i); var n := ToCopy(s, |got|, d, SizeAt(s, i));
      d + n <= |s| && got + s[d..d + n] == Room(got + c.data)
  {
    hide SizeAt, DataAt, Has, Number, Turn, ToCopy, Digits, Room;
    var d := i + |c.size| + 2;
    assert c.size + ("\r\n" + (c.data + "\r\n")) == (c.size + "\r\n") + (c.data + "\r\n");
    HasSplit(s, i, c.size + "\r\n", c.data + "\r\n");
    HasSplit(s, d, c.data, "\r\n");
    HasFits(s, d, c.data);
    SizeLine(s, i, c.size);
    TurnPast(s, i);
    CopyRoom(s, got, d, c.data);
  }

  /** A turn over a chunk and its line end that both lie before the end of the text. */
  lemma TurnPast(s: Memory, i: nat)
    requires i <= |s| && DataAt(s, i) + SizeAt(s, i) + 2 < |s|
    ensures Turn(s, i) == DataAt(s, i) + SizeAt(s, i) + 2
  {
    hide DataAt, SizeAt;
  }

  lemma CopyRoom(s: Memory, got: string, d: nat, data: string)
    requires |got| < BODY_SIZE && Has(s, d, data) && d + |data| <= |s|
    ensures var n := ToCopy(s, |got|, d, |data|); d + n <= |s| && got + s[d..d + n] == Room(got + data)
  {
    hide Has;
    CopyFits(s, |got|, d, |data|);
    var n := ToCopy(s, |got|, d, |data|);
    assert n == Min(|data|, BODY_SIZE - 1 - |got|);
    HasTake(s, d, data, n);
    assert got + data[..n] == Room(got + data);
  }

  lemma HasTake(s: string, d: nat, t: string, n: nat)
    requires Has(s, d, t) && n <= |t|
    ensures d + n <= |s| && s[d..d + n] == t[..n]
  {
  }

  /** A fully received encoding decodes to the data of its chunks, cut to the body buffer, however the data was split
      into chunks and whatever follows the last one. */
  lemma {:induction false} DecodesAll(s: Memory, i: nat, cs: seq<Chunk>, zeros: string, got: string)
    requires ChunksOk(cs) && Digits(zeros) && Number(zeros) == 0 && Has(s, i, ChunksText(cs) + (zeros + "\r\n"))
    requires |got| < BODY_SIZE
    ensures Ends(s, i, |cs|) && Decoded(s, i, |cs|, got) == Room(got + Joined(cs))
    decreases |cs|
  {
    hide Has, SizeAt, Turn, ToCopy, DataAt, Number, ChunkText, Digits;
    if cs == [] {
      assert ChunksText(cs) + (zeros + "\r\n") == zeros + "\r\n";
      SizeLine(s, i, zeros);
      assert got + Joined(cs) == got;
    } else {
      var c, rest := cs[0], ChunksText(cs[1..]) + (zeros + "\r\n");
      assert ChunkOk(c);
      assert ChunksText(cs) + (zeros + "\r\n") == ChunkText(c) + rest;
      HasSplit(s, i, ChunkText(c), rest);
      HasFits(s, i + |ChunkText(c)|, rest);
      LastLine(zeros, rest, ChunksText(cs[1..]));
      ChunkTurn(s, i, c, got);
      ChunkLong(c);
      assert ChunksOk(cs[1..]);
      DecodesAll(s, i + |ChunkText(c)|, cs[1..], zeros, Room(got + c.data));
      RoomJoin(got, c.data, Joined(cs[1..]));
    }
  }

  lemma ChunkLong(c: Chunk)
    requires ChunkOk(c)
    ensures |ChunkText(c)| > 0 && |c.data| != 0
  {
  }

  lemma LastLine(zeros: string, rest: string, text: string)
    requires rest == text + (zeros + "\r\n")
    ensures |rest| > 0
  {
  }

  lemma RoomJoin(got: string, data: string, more: string)
    ensures Room(Room(got + data) + more) == Room(got + (data + more))
  {
    assert got + (data + more) == (got + data) + more;
    var all := got + data;
    if |all| >= BODY_SIZE - 1 {
      assert Room(all) == (all + more)[..BODY_SIZE - 1];
      assert Room(Room(all) + more) == Room(all);
    }
  }

  /** How the same data was split, and where it lies, does not matter. */
  lemma SplitIndependent(s: Memory, s': Memory, i: nat, i': nat, cs: seq<Chunk>, cs': seq<Chunk>, zeros: string, zeros': string)
    requires ChunksOk(cs) && ChunksOk(cs') && Joined(cs) == Joined(cs')
    requires Digits(zeros) && Number(zeros) == 0 && Has(s, i, ChunksText(cs) + (zeros + "\r\n"))
    requires Digits(zeros') && Number(zeros') == 0 && Has(s', i', ChunksText(cs') + (zeros' + "\r\n"))
    ensures Ends(s, i, |cs|) && Ends(s', i', |cs'|) && Decoded(s, i, |cs|, "") == Decoded(s', i', |cs'|, "")
  {
    DecodesAll(s, i, cs, zeros, "");
    DecodesAll(s', i', cs', zeros', "");
  }
}
