/** Machine integers and byte strings shared by the models.
    The kernel is a 32-bit program: every wrap-around is written out with `% WORD`. */
module Base {

  const WORD: int := 0x1_0000_0000

  type byte = x: int | 0 <= x < 256
  type u32 = x: int | 0 <= x < 0x1_0000_0000

  datatype Option<+T> = None | Some(value: T)

  function Min(a: int, b: int): int { if a <= b then a else b }

  function Max(a: int, b: int): int { if a >= b then a else b }

  /** A C string argument: the bytes before its terminating NUL. */
  predicate CString(s: seq<byte>) { 0 !in s }

  /** The C string stored in a fixed buffer: everything before the first NUL. */
  function CStr(buf: seq<byte>): (s: seq<byte>)
    ensures s <= buf && CString(s)
    ensures |s| < |buf| ==> buf[|s|] == 0
  {
    if |buf| == 0 || buf[0] == 0 then [] else [buf[0]] + CStr(buf[1..])
  }

  lemma {:induction false} CStrUnique(buf: seq<byte>, s: seq<byte>)
    requires s <= buf && CString(s)
    requires |s| < |buf| ==> buf[|s|] == 0
    ensures CStr(buf) == s
  {
    if |buf| != 0 && buf[0] != 0 {
      CStrUnique(buf[1..], s[1..]);
      assert s == [buf[0]] + s[1..];
    }
  }

  /** Little-endian bytes of a 32-bit word, the in-memory order of the i386. */
  function Le32(x: u32): (s: seq<byte>)
    ensures |s| == 4
  {
    [x % 256, x / 256 % 256, x / 256 / 256 % 256, x / 256 / 256 / 256]
  }

  function FromLe32(s: seq<byte>): u32
    requires |s| == 4
  {
    s[0] as int + 256 * (s[1] as int + 256 * (s[2] as int + 256 * s[3] as int))
  }

  lemma FromLe32OfLe32(x: u32)
    ensures FromLe32(Le32(x)) == x
  {
  }

  /** The sequence t stands at place i of s. */
  predicate Has<T(==)>(s: seq<T>, i: nat, t: seq<T>) { i + |t| <= |s| && s[i..i + |t|] == t }

  lemma HasSplit<T>(s: seq<T>, i: nat, a: seq<T>, b: seq<T>)
    ensures Has(s, i, a + b) <==> Has(s, i, a) && Has(s, i + |a|, b)
  {
    var n := i + |a|;
    if n + |b| <= |s| {
      assert s[i..n + |b|] == s[i..n] + s[n..n + |b|];
      if Has(s, i, a + b) {
        assert s[i..n] == (a + b)[..|a|] == a && s[n..n + |b|] == (a + b)[|a|..] == b;
      }
    }
  }

  lemma HasAt<T>(s: seq<T>, i: nat, t: seq<T>, k: nat)
    requires Has(s, i, t) && k < |t|
    ensures i + k < |s| && s[i + k] == t[k]
  {
    assert s[i + k] == s[i..i + |t|][k];
  }

  lemma HasFits<T>(s: seq<T>, i: nat, t: seq<T>)
    requires Has(s, i, t)
    ensures i + |t| <= |s|
  {
  }

  lemma SliceOfSlice<T>(s: seq<T>, p: nat, n: nat, i: nat, j: nat)
    requires p + n <= |s| && i <= j <= n
    ensures s[p..p + n][i..j] == s[p + i..p + j]
  {
    var t := s[p..p + n];
    var a, b := t[i..j], s[p + i..p + j];
    forall k | 0 <= k < |a| ensures a[k] == b[k] { assert a[k] == t[i + k] == s[p + i + k]; }
  }

  /** Network byte order. */
  function Be16(x: u32): (s: seq<byte>)
    ensures |s| == 2
  {
    [x / 256 % 256, x % 256]
  }

  function Be32(x: u32): (s: seq<byte>)
    ensures |s| == 4
  {
    [x / 256 / 256 / 256, x / 256 / 256 % 256, x / 256 % 256, x % 256]
  }

  function FromBe16(s: seq<byte>, i: nat): u32
    requires i + 2 <= |s|
  {
    s[i] as int * 256 + s[i + 1] as int
  }

  function FromBe32(s: seq<byte>, i: nat): u32
    requires i + 4 <= |s|
  {
    ((s[i] as int * 256 + s[i + 1] as int) * 256 + s[i + 2] as int) * 256 + s[i + 3] as int
  }

  // ---- hexadecimal digits and signed words

  predicate IsHex(c: char) { '0' <= c <= '9' || 'a' <= c <= 'f' || 'A' <= c <= 'F' }

  function HexValue(c: char): (d: nat)
    requires IsHex(c)
    ensures d < 16
  {
    if c <= '9' then c as int - '0' as int else if c <= 'F' then c as int - 'A' as int + 10 else c as int - 'a' as int + 10
  }

  /** A 32-bit word read as a signed number. */
  function Int32(x: int): int { (x + 0x8000_0000) % WORD - 0x8000_0000 }
}
