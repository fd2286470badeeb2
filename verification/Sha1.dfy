/** The store's streaming SHA-1, against the definition in FIPS 180-4: padding as in
    section 5.1.1, and the compression of each block as in section 6.1.2. */
module Sha1 {
  import opened Chunks

  type U8 = bv8
  type U32 = bv32

  datatype Hash = Hash(a: U32, b: U32, c: U32, d: U32, e: U32)

  const INITIAL: Hash := Hash(0x67452301, 0xefcdab89, 0x98badcfe, 0x10325476, 0xc3d2e1f0)
  type U64 = x: nat | x < TWO_64

  const TWO_64: nat := 0x1_0000_0000_0000_0000

  /** 64-bit unsigned arithmetic. */
  function Mod64(n: nat): U64 { n % TWO_64 }

  // ---- The standard's definitions ----

  function Ch(x: U32, y: U32, z: U32): U32 { (x & y) ^ (!x & z) }

  function Parity(x: U32, y: U32, z: U32): U32 { x ^ y ^ z }

  function Maj(x: U32, y: U32, z: U32): U32 { (x & y) ^ (x & z) ^ (y & z) }

  function Mix(t: nat, x: U32, y: U32, z: U32): U32 {
    if t < 20 then Ch(x, y, z) else if t < 40 then Parity(x, y, z)
    else if t < 60 then Maj(x, y, z) else Parity(x, y, z)
  }

  function K(t: nat): U32 {
    if t < 20 then 0x5a827999 else if t < 40 then 0x6ed9eba1 else if t < 60 then 0x8f1bbcdc else 0xca62c1d6
  }

  /** Big-endian 32-bit words. */
  function Load(b0: U8, b1: U8, b2: U8, b3: U8): U32 {
    ((b0 as U32) << 24) | ((b1 as U32) << 16) | ((b2 as U32) << 8) | (b3 as U32)
  }

  /** The message schedule. */
  function W(block: seq<U8>, t: nat): U32
    requires |block| == 64
  {
    if t < 16 then Load(block[4 * t], block[4 * t + 1], block[4 * t + 2], block[4 * t + 3])
    else Rot(Schedule(W(block, t - 3), W(block, t - 8), W(block, t - 14), W(block, t - 16)), 1)
  }

  /** Addition modulo 2^32. */
  function Sum(x: U32, y: U32, z: U32, k: U32, w: U32): U32 { x + y + z + k + w }

  function Rot(v: U32, n: nat): U32
    requires n < 32
  {
    v.RotateLeft(n)
  }

  function Schedule(x: U32, y: U32, z: U32, w: U32): U32 { x ^ y ^ z ^ w }

  function Round(v: Hash, t: nat, w: U32): Hash {
    Hash(Sum(Rot(v.a, 5), Mix(t, v.b, v.c, v.d), v.e, K(t), w), v.a, Rot(v.b, 30), v.c, v.d)
  }

  /** One step of section 6.1.2, with the standard's rotations and constants. */
  lemma RoundInWords(v: Hash, t: nat, w: U32)
    requires t < 80
    ensures var r := Round(v, t, w);
      var k: U32 := if t < 20 then 1518500249 else if t < 40 then 1859775393 else if t < 60 then 2400959708 else 3395469782;
      && r.a == Sum(Rol(v.a, 5), Mix(t, v.b, v.c, v.d), v.e, k, w)
      && r.b == v.a && r.c == Rol(v.b, 30) && r.d == v.c && r.e == v.d
  {
    RolIsRotation(v.a);
    RolIsRotation(v.b);
    hide Rot, Mix, Rol, Sum;
  }

  lemma SumsCommute(x: U32, y: U32, z: U32, k: U32, w: U32)
    ensures Sum(x, y, z, k, w) == w + k + z + y + x
  {
  }

  /** The functions of section 4.1.1: `x` chooses between `y` and `z`; the bits that differ
      an odd number of times; the bits that two of the three have. */
  lemma MixInWords(t: nat, x: U32, y: U32, z: U32)
    ensures t < 20 ==> Mix(t, x, y, z) == z ^ (x & (y ^ z))
    ensures 20 <= t < 40 || 60 <= t ==> Mix(t, x, y, z) == z ^ y ^ x
    ensures 40 <= t < 60 ==> Mix(t, x, y, z) == (x & y) | (z & (x | y))
  {
    Chooses(x, y, z);
    Majority(x, y, z);
    Odd(x, y, z);
    hide Ch, Maj, Parity;
  }

  lemma Chooses(x: U32, y: U32, z: U32)
    ensures Ch(x, y, z) == z ^ (x & (y ^ z))
  {
  }

  lemma Majority(x: U32, y: U32, z: U32)
    ensures Maj(x, y, z) == (x & y) | (z & (x | y))
  {
  }

  lemma Odd(x: U32, y: U32, z: U32)
    ensures Parity(x, y, z) == z ^ y ^ x
  {
  }

  /** The schedule, each word by those before it, and where the hash starts. */
  lemma ScheduleInWords(block: seq<U8>, t: nat)
    requires |block| == 64
    ensures t < 16 ==> W(block, t) == Load(block[4 * t], block[4 * t + 1], block[4 * t + 2], block[4 * t + 3])
    ensures t >= 16 ==> W(block, t) == Rol(Xors(W(block, t - 16), W(block, t - 14), W(block, t - 8), W(block, t - 3)), 1)
    ensures INITIAL == Hash(1732584193, 4023233417, 2562383102, 271733878, 3285377520)
  {
    hide Load, Rot, Rol, Schedule, Xors;
    if t >= 16 {
      var x3, x8, x14, x16 := W(block, t - 3), W(block, t - 8), W(block, t - 14), W(block, t - 16);
      XorsCommute(x3, x8, x14, x16);
      RolIsRotation(Xors(x16, x14, x8, x3));
    }
  }

  function Xors(x: U32, y: U32, z: U32, w: U32): U32 { x ^ y ^ z ^ w }

  lemma XorsCommute(x: U32, y: U32, z: U32, w: U32)
    ensures Schedule(x, y, z, w) == Xors(w, z, y, x)
  {
  }

  function Words(block: seq<U8>): (w: seq<U32>)
    requires |block| == 64
    ensures |w| == 80
  {
    seq(80, t requires 0 <= t < 80 => W(block, t))
  }

  function Rounds(v: Hash, w: seq<U32>, t: nat): Hash
    requires t <= |w|
  {
    if t == 0 then v else Round(Rounds(v, w, t - 1), t - 1, w[t - 1])
  }

  function Add(v: Hash, r: Hash): Hash { Hash(v.a + r.a, v.b + r.b, v.c + r.c, v.d + r.d, v.e + r.e) }

  function Compress(v: Hash, block: seq<U8>): Hash
    requires |block| == 64
  {
    var w := Words(block);
    Add(v, Rounds(v, w, |w|))
  }

  /** The hash of a whole number of blocks. */
  function Fold(v: Hash, m: seq<U8>): Hash
    requires |m| % 64 == 0
    decreases |m|
  {
    if |m| < 64 then v else Fold(Compress(v, m[..64]), m[64..])
  }

  /** A big-endian 64-bit number. */
  function Load64(b: seq<U8>): bv64
    requires |b| == 8
  {
    Join(Load(b[0], b[1], b[2], b[3]), Load(b[4], b[5], b[6], b[7]))
  }

  function Join(high: U32, low: U32): bv64 { ((high as bv64) << 32) | (low as bv64) }

  function Zeros(n: nat): (z: seq<U8>)
    ensures |z| == n
  {
    seq(n, _ => 0 as U8)
  }

  /** Whether `k` zeros after the 1 bit leave just the room for the length. */
  predicate Leaves(m: seq<U8>, k: nat) { (|m| + 1 + k) % 64 == 56 }

  /** A padding of `m`: the 1 bit, the fewest zeros that leave room for the length, and
      the length in bits as a 64-bit number. */
  ghost predicate IsPadded(m: seq<U8>, p: seq<U8>, k: nat, length: seq<U8>) {
    && p == m + [0x80] + Zeros(k) + length
    && Leaves(m, k) && (forall j: nat :: Leaves(m, j) ==> k <= j)
    && |length| == 8 && Load64(length) == Mod64(8 * |m|) as bv64
  }

  /** The digest's 20 bytes: the words of the hash of the padded message. */
  ghost predicate IsDigest(m: seq<U8>, out: seq<U8>) {
    && |out| == 20
    && exists p, k, length ::
         && IsPadded(m, p, k, length) && |p| % 64 == 0
         && Fold(INITIAL, p) == Words5(out)
  }

  /** Five big-endian words. */
  function Words5(b: seq<U8>): Hash
    requires |b| == 20
  {
    Hash(Load(b[0], b[1], b[2], b[3]), Load(b[4], b[5], b[6], b[7]), Load(b[8], b[9], b[10], b[11]),
         Load(b[12], b[13], b[14], b[15]), Load(b[16], b[17], b[18], b[19]))
  }

  // ---- The code's own expressions ----

  function Rol(v: U32, n: nat): U32
    requires 0 < n < 32
  {
    (v << n) | (v >> (32 - n))
  }

  lemma RolIsRotation(v: U32)
    ensures Rol(v, 1) == Rot(v, 1) && Rol(v, 5) == Rot(v, 5) && Rol(v, 30) == Rot(v, 30)
  {
  }

  lemma ChoiceByOr(x: U32, y: U32, z: U32)
    ensures (x & y) | (!x & z) == Ch(x, y, z)
  {
  }

  lemma MajorityByOr(x: U32, y: U32, z: U32)
    ensures (x & y) | (x & z) | (y & z) == Maj(x, y, z)
  {
  }

  function Stored(v: U32): (b: seq<U8>)
    ensures |b| == 4
  {
    [((v >> 24) & 0xFF) as U8, ((v >> 16) & 0xFF) as U8, ((v >> 8) & 0xFF) as U8, (v & 0xFF) as U8]
  }

  lemma StoredLoads(v: U32)
    ensures var b := Stored(v); Load(b[0], b[1], b[2], b[3]) == v
  {
  }

  function Low(v: bv64): U8 { (v & 0xFF) as U8 }

  /** `v` shifted right by `8 * i` bits. */
  function Shifted(v: bv64, i: nat): bv64 { if i == 0 then v else Shift(Shifted(v, i - 1)) }

  function Shift(v: bv64): bv64 { v >> 8 }

  lemma ShiftedStep(v: bv64, i: nat)
    ensures Shifted(v, 0) == v && Shifted(v, i + 1) == Shift(Shifted(v, i))
  {
  }

  lemma BytesLoad(v0: bv64, v1: bv64, v2: bv64, v3: bv64, v4: bv64, v5: bv64, v6: bv64, v7: bv64)
    requires v1 == Shift(v0) && v2 == Shift(v1) && v3 == Shift(v2) && v4 == Shift(v3)
    requires v5 == Shift(v4) && v6 == Shift(v5) && v7 == Shift(v6)
    ensures Load64([Low(v7), Low(v6), Low(v5), Low(v4), Low(v3), Low(v2), Low(v1), Low(v0)]) == v0
  {
  }

  lemma {:induction false} FoldAppends(v: Hash, a: seq<U8>, b: seq<U8>)
    requires |a| % 64 == 0 && |b| % 64 == 0
    ensures Fold(v, a + b) == Fold(Fold(v, a), b)
    decreases |a|
  {
    hide Compress;
    if |a| < 64 {
      assert a == [] && a + b == b;
    } else {
      assert (a + b)[..64] == a[..64] && (a + b)[64..] == a[64..] + b;
      FoldAppends(Compress(v, a[..64]), a[64..], b);
    }
  }

  lemma FoldBlock(v: Hash, a: seq<U8>, block: seq<U8>)
    requires |a| % 64 == 0 && |block| == 64
    ensures Fold(v, a + block) == Compress(Fold(v, a), block)
  {
    hide Compress;
    FoldAppends(v, a, block);
    assert block[..64] == block && block[64..] == [];
  }

  /** The round function as the code writes it. */
  function CodeMix(t: nat, b: U32, c: U32, d: U32): U32 {
    if t < 20 then (b & c) | (!b & d) else if t < 40 then b ^ c ^ d
    else if t < 60 then (b & c) | (b & d) | (c & d) else b ^ c ^ d
  }

  lemma MixByCode(t: nat, b: U32, c: U32, d: U32)
    ensures CodeMix(t, b, c, d) == Mix(t, b, c, d)
  {
    ChoiceByOr(b, c, d);
    MajorityByOr(b, c, d);
    hide Ch, Maj;
  }

  /** Builds the schedule in place, words 0 to 15 from the block. */
  method Expand(block: array<U8>) returns (w: array<U32>)
    requires block.Length == 64
    ensures fresh(w) && w[..] == Words(block[..])
  {
    hide Load, Rol, Rot, Schedule;
    w := new U32[80];
    for i := 0 to 16
      invariant forall j :: 0 <= j < i ==> w[j] == W(block[..], j)
    {
      w[i] := Load(block[4 * i], block[4 * i + 1], block[4 * i + 2], block[4 * i + 3]);
    }
    for i := 16 to 80
      invariant forall j :: 0 <= j < i ==> w[j] == W(block[..], j)
    {
      var x := Schedule(w[i - 3], w[i - 8], w[i - 14], w[i - 16]);
      RolIsRotation(x);
      w[i] := Rol(x, 1);
    }
  }

  method Transform(h: Hash, block: array<U8>) returns (r: Hash)
    requires block.Length == 64
    ensures r == Compress(h, block[..])
  {
    hide Rol, Rot, Mix, CodeMix, Sum, K, Words, Add;
    var w := Expand(block);
    ghost var words := Words(block[..]);
    var v := h;
    for i := 0 to 80
      invariant w[..] == words && v == Rounds(h, words, i)
    {
      RolIsRotation(v.a);
      RolIsRotation(v.b);
      MixByCode(i, v.b, v.c, v.d);
      var tmp := Sum(Rol(v.a, 5), CodeMix(i, v.b, v.c, v.d), v.e, K(i), w[i]);
      v := Hash(tmp, v.a, Rol(v.b, 30), v.c, v.d);
    }
    assert v == Rounds(h, words, |words|);
    r := Add(h, v);
  }

  lemma FoldIsAppendOnly(m: seq<U8>, n: nat, block: seq<U8>)
    requires n % 64 == 0 && n <= |m| && |block| == 64
    requires block == m[n..]
    ensures Fold(INITIAL, m) == Compress(Fold(INITIAL, m[..n]), block)
  {
    hide Compress, Fold;
    assert m == m[..n] + block;
    FoldBlock(INITIAL, m[..n], block);
  }

  /** The streaming context. `message` is everything it has been given. */
  class Context {
    var h: Hash
    var bytes: nat
    const block: array<U8>
    var used: nat
    ghost var message: seq<U8>

    ghost predicate Valid()
      reads this, block
    {
      && block.Length == 64 && used < 64
      && bytes == Mod64(|message|) && used == |message| % 64
      && Holds(message)
    }

    /** The hash covers the message's whole blocks, the buffer holds the rest. */
    ghost predicate Holds(m: seq<U8>)
      requires block.Length == 64
      reads this, block
    {
      && used <= 64 && used <= |m| && (|m| - used) % 64 == 0
      && h == Fold(INITIAL, m[..|m| - used]) && block[..used] == m[|m| - used..]
    }

    constructor ()
      ensures Valid() && message == [] && fresh(block)
    {
      h, bytes, block, used, message := INITIAL, 0, new U8[64], 0, [];
    }

    /** Copies as much of `p` from `at` on as the buffer takes, and empties a full buffer
        into the hash. */
    method Absorb(p: seq<U8>, at: nat, ghost m: seq<U8>) returns (n: nat)
      requires block.Length == 64 && used < 64 && Holds(m) && at < |p|
      modifies `h, `used, block
      ensures used < 64 && 0 < n <= |p| - at && Holds(m + p[at..at + n])
    {
      hide Fold, Compress;
      n := 64 - used;
      if n > |p| - at { n := |p| - at; }
      ghost var m' := m + p[at..at + n];
      ghost var filled := block[..used];
      forall i | 0 <= i < n { block[used + i] := p[at + i]; }
      assert block[..used + n] == filled + p[at..at + n];
      used := used + n;
      assert m'[|m'| - used..] == block[..used] && m'[..|m'| - used] == m[..|m'| - used];
      if used == 64 {
        assert block[..] == block[..64];
        FoldIsAppendOnly(m', |m'| - 64, block[..]);
        h := Transform(h, block);
        used := 0;
        assert m'[..|m'| - used] == m';
      }
    }

    lemma UsedIs(m: seq<U8>)
      requires block.Length == 64 && used < 64 && Holds(m)
      ensures used == |m| % 64
    {
    }

    /** Appends `p`, however long, to the message. */
    method Update(p: seq<U8>)
      requires Valid()
      modifies this, block
      ensures Valid() && message == old(message) + p
    {
      hide Fold, Compress, Mod64;
      ghost var was := message;
      bytes := Mod64(bytes + |p|);
      var at := 0;
      assert was + p[..0] == was;
      hide Holds;
      while at < |p|
        invariant at <= |p| && used < 64 && message == was
        invariant bytes == Mod64(old(bytes) + |p|)
        invariant Holds(was + p[..at])
      {
        var n := Absorb(p, at, was + p[..at]);
        assert was + p[..at] + p[at..at + n] == was + p[..at + n];
        at := at + n;
      }
      message := was + p;
      assert p[..at] == p;
      CountBytes(|was|, |p|);
      UsedIs(was + p);
    }

    /** Pads the message, and returns its digest. */
    method Final() returns (out: seq<U8>)
      requires Valid()
      modifies this, block
      ensures IsDigest(old(message), out)
    {
      hide Fold, Compress, Load64, Stored, Holds, Mod64;
      ghost var m := message;
      var bits := Mod64(bytes * 8);
      BitsOf(|m|);
      ghost var k := PadWithZeros();
      var length := LengthBytes(bits as bv64);
      Update(length);
      out := Stored(h.a) + Stored(h.b) + Stored(h.c) + Stored(h.d) + Stored(h.e);
      RoomForLength(|m| + 1 + k);
      HoldsAll();
      DigestIs(m, message, k, length, h, out);
    }

    lemma HoldsAll()
      requires block.Length == 64 && used == 0 && Holds(message)
      ensures |message| % 64 == 0 && h == Fold(INITIAL, message)
    {
      hide Fold;
      assert message[..|message|] == message;
    }

    /** Appends the 1 bit and zeros until eight bytes are left in the buffer. */
    method PadWithZeros() returns (ghost k: nat)
      requires Valid()
      modifies this, block
      ensures Valid() && message == old(message) + [0x80] + Zeros(k)
      ensures used == 56 && Leaves(old(message), k) && forall j: nat :: Leaves(old(message), j) ==> k <= j
    {
      hide Holds;
      Update([0x80]);
      k := 0;
      while used != 56
        invariant Valid() && message == old(message) + [0x80] + Zeros(k)
        invariant forall j: nat :: j < k ==> !Leaves(old(message), j)
        decreases if used > 56 then 120 - used else 56 - used
      {
        NextUsed(|message|);
        Update([0]);
        assert Zeros(k) + [0] == Zeros(k + 1);
        k := k + 1;
      }
    }
  }

  method LengthBytes(bits: bv64) returns (b: seq<U8>)
    ensures |b| == 8 && Load64(b) == bits
  {
    hide Load64, Low, Shift;
    var length := new U8[8];
    var rest := bits;
    for i := 0 to 8
      invariant rest == Shifted(bits, i)
      invariant forall j :: 0 <= j < i ==> length[7 - j] == Low(Shifted(bits, j))
    {
      length[7 - i] := Low(rest);
      ShiftedStep(bits, i);
      rest := Shift(rest);
    }
    LengthLoads(bits);
    assert length[..] == LengthOf(bits);
    b := length[..];
  }

  function LengthOf(v: bv64): seq<U8> {
    [Low(Shifted(v, 7)), Low(Shifted(v, 6)), Low(Shifted(v, 5)), Low(Shifted(v, 4)),
     Low(Shifted(v, 3)), Low(Shifted(v, 2)), Low(Shifted(v, 1)), Low(Shifted(v, 0))]
  }

  lemma LengthLoads(v: bv64)
    ensures Load64(LengthOf(v)) == v
  {
    hide Load64, Low, Shift;
    ShiftedStep(v, 0);
    ShiftedStep(v, 1);
    ShiftedStep(v, 2);
    ShiftedStep(v, 3);
    ShiftedStep(v, 4);
    ShiftedStep(v, 5);
    ShiftedStep(v, 6);
    hide Shifted;
    BytesLoad(v, Shifted(v, 1), Shifted(v, 2), Shifted(v, 3), Shifted(v, 4), Shifted(v, 5), Shifted(v, 6), Shifted(v, 7));
  }

  lemma DigestIs(m: seq<U8>, p: seq<U8>, k: nat, length: seq<U8>, h: Hash, out: seq<U8>)
    requires IsPadded(m, p, k, length) && |p| % 64 == 0 && h == Fold(INITIAL, p)
    requires out == Stored(h.a) + Stored(h.b) + Stored(h.c) + Stored(h.d) + Stored(h.e)
    ensures IsDigest(m, out)
  {
    StoredLoads(h.a);
    StoredLoads(h.b);
    StoredLoads(h.c);
    StoredLoads(h.d);
    StoredLoads(h.e);
    hide Stored, Load, Fold;
  }

  lemma BitsOf(n: nat)
    ensures Mod64(Mod64(n) * 8) == Mod64(8 * n)
  {
    var q := n / TWO_64;
    assert 8 * n == (n % TWO_64) * 8 + (8 * q) * TWO_64;
  }

  lemma NextUsed(n: nat)
    ensures (n + 1) % 64 == if n % 64 == 63 then 0 else n % 64 + 1
  {
  }

  lemma RoomForLength(n: nat)
    requires n % 64 == 56
    ensures (n + 8) % 64 == 0
  {
  }

  lemma CountBytes(n: nat, k: nat)
    ensures Mod64(Mod64(n) + k) == Mod64(n + k)
  {
    assert n + k == (n % TWO_64 + k) + (n / TWO_64) * TWO_64;
  }

  lemma LoadInjective(a: seq<U8>, b: seq<U8>)
    requires |a| == |b| == 4 && Load(a[0], a[1], a[2], a[3]) == Load(b[0], b[1], b[2], b[3])
    ensures a == b
  {
    assert a[0] == b[0] && a[1] == b[1] && a[2] == b[2] && a[3] == b[3];
  }

  lemma JoinInjective(h: U32, l: U32, h': U32, l': U32)
    requires Join(h, l) == Join(h', l')
    ensures h == h' && l == l'
  {
  }

  lemma Load64Injective(a: seq<U8>, b: seq<U8>)
    requires |a| == |b| == 8 && Load64(a) == Load64(b)
    ensures a == b
  {
    hide Load, Join;
    JoinInjective(Load(a[0], a[1], a[2], a[3]), Load(a[4], a[5], a[6], a[7]),
                  Load(b[0], b[1], b[2], b[3]), Load(b[4], b[5], b[6], b[7]));
    LoadInjective(a[..4], b[..4]);
    LoadInjective(a[4..], b[4..]);
    assert a == a[..4] + a[4..] && b == b[..4] + b[4..];
  }

  lemma Words5Injective(a: seq<U8>, b: seq<U8>)
    requires |a| == |b| == 20 && Words5(a) == Words5(b)
    ensures a == b
  {
    hide Load;
    LoadInjective(a[..4], b[..4]);
    LoadInjective(a[4..8], b[4..8]);
    LoadInjective(a[8..12], b[8..12]);
    LoadInjective(a[12..16], b[12..16]);
    LoadInjective(a[16..], b[16..]);
    assert a == a[..4] + a[4..8] + a[8..12] + a[12..16] + a[16..];
    assert b == b[..4] + b[4..8] + b[8..12] + b[12..16] + b[16..];
  }

  lemma PaddingIsUnique(m: seq<U8>, p: seq<U8>, k: nat, l: seq<U8>, p': seq<U8>, k': nat, l': seq<U8>)
    requires IsPadded(m, p, k, l) && IsPadded(m, p', k', l')
    ensures p == p'
  {
    hide Load64, Leaves;
    assert k <= k' <= k;
    Load64Injective(l, l');
  }

  /** A message has one digest. */
  lemma DigestIsUnique(m: seq<U8>, a: seq<U8>, b: seq<U8>)
    requires IsDigest(m, a) && IsDigest(m, b)
    ensures a == b
  {
    hide Fold, IsPadded, Words5;
    var p, k, l :| IsPadded(m, p, k, l) && |p| % 64 == 0 && Fold(INITIAL, p) == Words5(a);
    var p', k', l' :| IsPadded(m, p', k', l') && |p'| % 64 == 0 && Fold(INITIAL, p') == Words5(b);
    PaddingIsUnique(m, p, k, l, p', k', l');
    Words5Injective(a, b);
  }

  /** Below 2^61 bytes the length field is the length itself. */
  lemma LengthIsExact(m: seq<U8>)
    requires |m| < TWO_64 / 8
    ensures Mod64(8 * |m|) == 8 * |m|
  {
  }

  /** However a message is split into updates, the result is its digest. */
  method HashChunks(chunks: seq<seq<U8>>) returns (out: seq<U8>)
    ensures IsDigest(Concat(chunks), out)
  {
    hide *;
    var c := new Context();
    ConcatStep(chunks, 0);
    for i := 0 to |chunks|
      invariant c.Valid() && c.message == Concat(chunks[..i]) && fresh(c) && fresh(c.block)
    {
      ConcatStep(chunks, i);
      c.Update(chunks[i]);
    }
    assert chunks[..|chunks|] == chunks;
    out := c.Final();
  }
}
