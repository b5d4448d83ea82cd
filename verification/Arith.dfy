/** Division and remainder by the constants of the machine, one fact at a time. */
module Arith {
  lemma Even(x: int, y: int)
    ensures (2 * x + y) % 2 == y % 2
  {
  }

  lemma Times4(x: int)
    ensures (4 * x) % 4 == 0
  {
  }

  lemma Times16(x: int)
    ensures (16 * x) % 16 == 0
  {
  }

  lemma Div2(x: int, f: int)
    ensures (2 * x + f) / 2 == x + f / 2
  {
  }

  lemma Div4(x: int, f: int)
    ensures (4 * x + f) / 4 == x + f / 4
  {
  }

  lemma Div8(x: int, f: int)
    ensures (8 * x + f) / 8 == x + f / 8
  {
  }

  lemma Div16(x: int, f: int)
    ensures (16 * x + f) / 16 == x + f / 16
  {
  }

  lemma Div128(x: int, f: int)
    ensures (128 * x + f) / 128 == x + f / 128
  {
  }

  lemma Div512(x: int, f: int)
    ensures (512 * x + f) / 512 == x + f / 512
  {
  }

  lemma Div512Grows(x: int, y: int)
    requires x <= y
    ensures x / 512 <= y / 512
  {
  }

  lemma Next4(x: int, y: int)
    requires x % 4 == 0 && y % 4 == 0
    ensures x > y ==> x >= y + 4
  {
  }

  lemma Next16(x: int, y: int)
    requires y % 16 == 0
    ensures (x % 16 == 0 && x > y ==> x >= y + 16) && (x == y + 16 ==> x % 16 == 0)
  {
  }

  lemma Next32(x: int, y: int)
    requires y % 32 == 0
    ensures (x % 32 == 0 && x > y ==> x >= y + 32) && (x == y + 32 ==> x % 32 == 0)
  {
  }

  lemma Next64(x: int, y: int)
    requires y % 64 == 0
    ensures (x % 64 == 0 && x > y ==> x >= y + 64) && (x == y + 64 ==> x % 64 == 0)
  {
  }

  lemma Next128(x: int, y: int)
    requires y % 128 == 0
    ensures (x % 128 == 0 && x > y ==> x >= y + 128) && (x == y + 128 ==> x % 128 == 0)
  {
  }

  lemma Next256(x: int, y: int)
    requires y % 256 == 0
    ensures (x % 256 == 0 && x > y ==> x >= y + 256) && (x == y + 256 ==> x % 256 == 0)
  {
  }
}
