/** Bytes and 32-bit words: network order on the wire, little-endian in payload files. */
module Bytes {

  type Byte = x: nat | x < 0x100
  type U32 = x: nat | x < 0x1_0000_0000

  const U32_MAX: nat := 0xFFFF_FFFF
  const U64_MAX: nat := 0xFFFF_FFFF_FFFF_FFFF

  function Word(b3: Byte, b2: Byte, b1: Byte, b0: Byte): U32 {
    0x100_0000 * b3 + 0x1_0000 * b2 + 0x100 * b1 + b0
  }

  function BigEndian(v: U32): (b: seq<Byte>)
    ensures |b| == 4
  {
    [v / 0x100 / 0x100 / 0x100, v / 0x100 / 0x100 % 0x100, v / 0x100 % 0x100, v % 0x100]
  }

  function LittleEndian(v: U32): (b: seq<Byte>)
    ensures |b| == 4
  {
    [v % 0x100, v / 0x100 % 0x100, v / 0x100 / 0x100 % 0x100, v / 0x100 / 0x100 / 0x100]
  }

  function FromBigEndian(b: seq<Byte>): U32
    requires |b| == 4
  {
    Word(b[0], b[1], b[2], b[3])
  }

  function FromLittleEndian(b: seq<Byte>): U32
    requires |b| == 4
  {
    Word(b[3], b[2], b[1], b[0])
  }

  lemma WordOfBytes(v: U32)
    ensures Word(v / 0x100 / 0x100 / 0x100, v / 0x100 / 0x100 % 0x100, v / 0x100 % 0x100, v % 0x100) == v
  {
    var a := v / 0x100;
    var b := a / 0x100;
    assert v == 0x100 * a + v % 0x100 && a == 0x100 * b + a % 0x100 && b == 0x100 * (b / 0x100) + b % 0x100;
  }

  lemma BytesOfWord(b3: Byte, b2: Byte, b1: Byte, b0: Byte)
    ensures var v := Word(b3, b2, b1, b0);
      v / 0x100 / 0x100 / 0x100 == b3 && v / 0x100 / 0x100 % 0x100 == b2 && v / 0x100 % 0x100 == b1 && v % 0x100 == b0
  {
    var v := Word(b3, b2, b1, b0);
    assert v / 0x100 == 0x1_0000 * b3 + 0x100 * b2 + b1;
    assert v / 0x100 / 0x100 == 0x100 * b3 + b2;
  }

  lemma RoundTrips(v: U32, b: seq<Byte>)
    requires |b| == 4
    ensures FromBigEndian(BigEndian(v)) == v && FromLittleEndian(LittleEndian(v)) == v
    ensures BigEndian(FromBigEndian(b)) == b && LittleEndian(FromLittleEndian(b)) == b
  {
    WordOfBytes(v);
    BytesOfWord(b[0], b[1], b[2], b[3]);
    BytesOfWord(b[3], b[2], b[1], b[0]);
  }

  /** A run of little-endian words. */
  function Words(vs: seq<U32>): (b: seq<Byte>)
    ensures |b| == 4 * |vs|
  {
    if vs == [] then [] else LittleEndian(vs[0]) + Words(vs[1..])
  }

  function ReadWords(b: seq<Byte>, n: nat): (vs: seq<U32>)
    requires 4 * n <= |b|
    ensures |vs| == n
  {
    if n == 0 then [] else [FromLittleEndian(b[..4])] + ReadWords(b[4..], n - 1)
  }

  lemma {:induction false} ReadBack(vs: seq<U32>, rest: seq<Byte>)
    ensures ReadWords(Words(vs) + rest, |vs|) == vs
  {
    hide LittleEndian, FromLittleEndian;
    if vs != [] {
      var b := Words(vs) + rest;
      assert b[..4] == LittleEndian(vs[0]);
      assert b[4..] == Words(vs[1..]) + rest;
      RoundTrips(vs[0], [0, 0, 0, 0]);
      ReadBack(vs[1..], rest);
    }
  }

  lemma {:induction false} WriteBack(b: seq<Byte>, n: nat)
    requires 4 * n <= |b|
    ensures Words(ReadWords(b, n)) == b[..4 * n]
  {
    if n > 0 {
      WriteBack(b[4..], n - 1);
      WordsCons(b, n);
    }
  }

  lemma WordsCons(b: seq<Byte>, n: nat)
    requires 0 < n && 4 * n <= |b|
    requires Words(ReadWords(b[4..], n - 1)) == b[4..][..4 * (n - 1)]
    ensures Words([FromLittleEndian(b[..4])] + ReadWords(b[4..], n - 1)) == b[..4 * n]
  {
    hide LittleEndian, FromLittleEndian, ReadWords;
    var v, vs := FromLittleEndian(b[..4]), ReadWords(b[4..], n - 1);
    assert ([v] + vs)[1..] == vs;
    assert LittleEndian(v) == b[..4] by {
      hide *;
      RoundTrips(0, b[..4]);
    }
    assert b[..4] + b[4..][..4 * (n - 1)] == b[..4 * n];
  }

  lemma {:induction false} WordsConcat(a: seq<U32>, b: seq<U32>)
    ensures Words(a + b) == Words(a) + Words(b)
  {
    if a == [] {
      assert a + b == b;
    } else {
      assert (a + b)[1..] == a[1..] + b;
      WordsConcat(a[1..], b);
    }
  }
}
