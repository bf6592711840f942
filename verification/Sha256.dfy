/**
 SHA-256: the in-place implementation against the padding of section 5.1.1 and the hash
 computation of section 6.2.2 of FIPS 180-4.
 */
module Sha256 {

  newtype byte = x: int | 0 <= x < 256

  type Word = bv32

  // -------------------------------------------------------------- padding (5.1.1)

  function Zeros(k: nat): (z: seq<byte>)
    ensures |z| == k && forall i :: 0 <= i < k ==> z[i] == 0
  {
    seq(k, _ => 0)
  }

  /** The least number of zero bytes that leaves eight bytes to the next multiple of 64. */
  function ZeroCount(length: nat): nat {
    (119 - length % 64) % 64
  }

  lemma ZeroCountIsLeast(length: nat, k: nat)
    ensures (length + 1 + ZeroCount(length)) % 64 == 56
    ensures (length + 1 + k) % 64 == 56 ==> k >= ZeroCount(length)
  {
    var r := length % 64;
    assert length == 64 * (length / 64) + r;
    assert (length + 1 + k) % 64 == (r + 1 + k) % 64;
  }

  function Pow256(i: nat): nat {
    if i == 0 then 1 else 256 * Pow256(i - 1)
  }

  /** Byte i, counted from the least significant, of a number. */
  function ByteAt(n: nat, i: nat): byte {
    PowPositive(i);
    ((n / Pow256(i)) % 256) as byte
  }

  lemma PowPositive(i: nat)
    ensures Pow256(i) > 0
  {
  }

  /** The 64-bit big-endian form of a number. */
  function LengthBytes(n: nat): (b: seq<byte>)
    ensures |b| == 8
  {
    seq(8, i requires 0 <= i < 8 => ByteAt(n, 7 - i))
  }

  /** The message, a one bit, zero bits, and the message length in bits. */
  function Padded(m: seq<byte>): seq<byte> {
    m + [0x80] + Zeros(ZeroCount(|m|)) + LengthBytes(8 * |m|)
  }

  /** A padded message is a whole number of 512-bit blocks. */
  lemma PaddedIsBlocks(m: seq<byte>)
    ensures |Padded(m)| % 64 == 0 && |Padded(m)| >= 64
  {
    ZeroCountIsLeast(|m|, 0);
    var n := |m| + 1 + ZeroCount(|m|);
    assert |Padded(m)| == n + 8;
  }

  lemma PowEight()
    ensures Pow256(8) == 0x1_0000_0000_0000_0000
  {
    assert Pow256(2) == 0x1_0000;
    assert Pow256(4) == 0x1_0000_0000;
    assert Pow256(6) == 0x1_0000_0000_0000;
  }

  /** Eight bytes determine every number below 2^64. */
  lemma LengthBytesInjective(a: nat, b: nat)
    requires a < 0x1_0000_0000_0000_0000 && b < 0x1_0000_0000_0000_0000
    requires LengthBytes(a) == LengthBytes(b)
    ensures a == b
  {
    forall i | 0 <= i < 8
      ensures ByteAt(a, i) == ByteAt(b, i)
    {
      assert LengthBytes(a)[7-i] == ByteAt(a, 7 - (7 - i)) && LengthBytes(b)[7-i] == ByteAt(b, 7 - (7 - i));
    }
    PowPositive(8);
    SameBytesSameNumber(a, b, 8);
    PowEight();
    ModUnique(a, Pow256(8), 0, a);
    ModUnique(b, Pow256(8), 0, b);
  }

  lemma {:induction false} SameBytesSameNumber(a: nat, b: nat, n: nat)
    requires Pow256(n) > 0
    requires forall i :: 0 <= i < n ==> ByteAt(a, i) == ByteAt(b, i)
    ensures a % Pow256(n) == b % Pow256(n)
  {
    if n > 0 {
      PowPositive(n - 1);
      SameBytesSameNumber(a, b, n - 1);
      SplitOff(a, Pow256(n - 1));
      SplitOff(b, Pow256(n - 1));
      assert ByteAt(a, n - 1) == ByteAt(b, n - 1);
    }
  }

  /** a mod 256p is the byte above p and the rest below it. */
  lemma SplitOff(a: nat, p: nat)
    requires p > 0
    ensures a % (256 * p) == a % p + p * ((a / p) % 256)
  {
    var q, r := a / p, a % p;
    var q2, r2 := q / 256, q % 256;
    assert a == p * q + r;
    Distribute(p, q2, r2);
    BelowProduct(p, r2, r);
    ModUnique(a, 256 * p, q2, p * r2 + r);
  }

  lemma Distribute(p: nat, q: nat, r: nat)
    ensures p * (256 * q + r) == (256 * p) * q + p * r
  {
  }

  lemma BelowProduct(p: nat, d: nat, r: nat)
    requires d < 256 && r < p
    ensures 0 <= p * d + r < 256 * p
  {
    assert p * d <= p * 255;
  }

  lemma ModUnique(a: nat, m: nat, q: nat, r: nat)
    requires 0 <= r < m && a == m * q + r
    ensures a % m == r
  {
    var q', r' := a / m, a % m;
    assert a == m * q' + r';
    assert m * (q' - q) == r - r';
    MultipleGap(m, q' - q);
  }

  lemma MultipleGap(m: nat, d: int)
    ensures d >= 1 ==> m * d >= m
    ensures d <= -1 ==> m * d + m <= 0
  {}

  /** Different messages under 2^61 bytes stay different when padded. */
  lemma PaddedInjective(a: seq<byte>, b: seq<byte>)
    requires |a| < 0x2000_0000_0000_0000 && |b| < 0x2000_0000_0000_0000
    requires Padded(a) == Padded(b)
    ensures a == b
  {
    var n := |Padded(a)|;
    assert Padded(a)[n-8..] == LengthBytes(8 * |a|);
    assert Padded(b)[n-8..] == LengthBytes(8 * |b|);
    LengthBytesInjective(8 * |a|, 8 * |b|);
    assert Padded(a)[..|a|] == a && Padded(b)[..|b|] == b;
  }

  // --------------------------------------------------------- hash computation (6.2.2)

  /** The word operations of section 3.2. The algorithm is proved for whatever these operations are;
      `BITS` below gives them their meaning on 32-bit words. */
  datatype Operations = Operations(
    add: (Word, Word) -> Word,
    add4: (Word, Word, Word, Word) -> Word,
    and: (Word, Word) -> Word,
    xor: (Word, Word) -> Word,
    not: Word -> Word,
    rotr: (Word, nat) -> Word,
    shr: (Word, nat) -> Word,
    bigEndian: (byte, byte, byte, byte) -> Word)

  function Plus(x: Word, y: Word): Word { x + y }

  function Plus4(x: Word, y: Word, z: Word, w: Word): Word { x + y + z + w }

  function And(x: Word, y: Word): Word { x & y }

  function Xor(x: Word, y: Word): Word { x ^ y }

  function Not(x: Word): Word { !x }

  function Rotr(x: Word, n: nat): Word { if n < 32 then (x >> n) | (x << (32 - n)) else x }

  function Shr(x: Word, n: nat): Word { if n < 32 then x >> n else 0 }

  function BigEndian(b0: byte, b1: byte, b2: byte, b3: byte): Word {
    ((b0 as bv32) << 24) | ((b1 as bv32) << 16) | ((b2 as bv32) << 8) | (b3 as bv32)
  }

  const BITS: Operations := Operations(Plus, Plus4, And, Xor, Not, Rotr, Shr, BigEndian)

  /** Sums may be taken in either order: the standard and the program write some of them the other way round. */
  ghost predicate OrderFree(o: Operations) {
    && (forall a, b :: o.add(a, b) == o.add(b, a))
    && forall a, b, c, d :: o.add4(a, b, c, d) == o.add4(d, c, b, a)
  }

  /** Addition modulo 2^32 is of that kind. */
  lemma OrderImmaterial()
    ensures OrderFree(BITS)
  {
  }

  lemma Reorder(o: Operations, a: Word, b: Word, c: Word, d: Word)
    requires OrderFree(o)
    ensures o.add4(a, b, c, d) == o.add4(d, c, b, a)
  {
  }

  lemma Swap(o: Operations, a: Word, b: Word)
    requires OrderFree(o)
    ensures o.add(a, b) == o.add(b, a)
  {
  }

  function Ch(o: Operations, x: Word, y: Word, z: Word): Word {
    o.xor(o.and(x, y), o.and(o.not(x), z))
  }

  function Maj(o: Operations, x: Word, y: Word, z: Word): Word {
    o.xor(o.xor(o.and(x, y), o.and(x, z)), o.and(y, z))
  }

  function BigSigma0(o: Operations, x: Word): Word {
    o.xor(o.xor(o.rotr(x, 2), o.rotr(x, 13)), o.rotr(x, 22))
  }

  function BigSigma1(o: Operations, x: Word): Word {
    o.xor(o.xor(o.rotr(x, 6), o.rotr(x, 11)), o.rotr(x, 25))
  }

  function SmallSigma0(o: Operations, x: Word): Word {
    o.xor(o.xor(o.rotr(x, 7), o.rotr(x, 18)), o.shr(x, 3))
  }

  function SmallSigma1(o: Operations, x: Word): Word {
    o.xor(o.xor(o.rotr(x, 17), o.rotr(x, 19)), o.shr(x, 10))
  }

  /** Word t of the message schedule of a block. */
  ghost function Schedule(o: Operations, block: seq<byte>, t: nat): Word
    requires |block| == 64
  {
    if t < 16 then o.bigEndian(block[4*t], block[4*t+1], block[4*t+2], block[4*t+3])
    else
      o.add4(SmallSigma1(o, Schedule(o, block, t - 2)), Schedule(o, block, t - 7),
             SmallSigma0(o, Schedule(o, block, t - 15)), Schedule(o, block, t - 16))
  }

  /** The first n words of the message schedule. */
  ghost function ScheduleWords(o: Operations, block: seq<byte>, n: nat): (words: seq<Word>)
    requires |block| == 64
    ensures |words| == n
  {
    if n == 0 then [] else ScheduleWords(o, block, n - 1) + [Schedule(o, block, n - 1)]
  }

  lemma {:induction false} ScheduleWordAt(o: Operations, block: seq<byte>, n: nat, t: nat)
    requires |block| == 64 && t < n
    ensures ScheduleWords(o, block, n)[t] == Schedule(o, block, t)
  {
    if t < n - 1 {
      ScheduleWordAt(o, block, n - 1, t);
    }
  }

  datatype Hash = Hash(a: Word, b: Word, c: Word, d: Word, e: Word, f: Word, g: Word, h: Word)

  function Round(o: Operations, s: Hash, k: Word, w: Word): Hash {
    var t1 := o.add(o.add(o.add(o.add(s.h, BigSigma1(o, s.e)), Ch(o, s.e, s.f, s.g)), k), w);
    var t2 := o.add(BigSigma0(o, s.a), Maj(o, s.a, s.b, s.c));
    Hash(o.add(t1, t2), s.a, s.b, s.c, o.add(s.d, t1), s.e, s.f, s.g)
  }

  /** The working variables after n rounds over schedule words w. */
  ghost function Rounds(o: Operations, s: Hash, k: seq<Word>, w: seq<Word>, n: nat): Hash
    requires n <= |k| == |w|
  {
    if n == 0 then s else Round(o, Rounds(o, s, k, w, n - 1), k[n-1], w[n-1])
  }

  /** Adds two hash values word by word. */
  function Sum(o: Operations, s: Hash, r: Hash): Hash {
    Hash(o.add(s.a, r.a), o.add(s.b, r.b), o.add(s.c, r.c), o.add(s.d, r.d),
         o.add(s.e, r.e), o.add(s.f, r.f), o.add(s.g, r.g), o.add(s.h, r.h))
  }

  /** The hash value after one more block. */
  ghost function HashBlock(o: Operations, s: Hash, k: seq<Word>, block: seq<byte>): Hash
    requires |block| == 64
  {
    Sum(o, Rounds(o, s, k, ScheduleWords(o, block, |k|), |k|), s)
  }

  /** The hash value after all 64-byte blocks of a message, one after the other. */
  ghost function HashBlocks(o: Operations, s: Hash, k: seq<Word>, msg: seq<byte>): Hash
    decreases |msg|
  {
    if |msg| < 64 then s else HashBlocks(o, HashBlock(o, s, k, msg[..64]), k, msg[64..])
  }

  function HexDigit(d: nat): char
    requires d < 16
  {
    "0123456789abcdef"[d]
  }

  /** Lower-case hexadecimal without leading zeros, as a stream prints it. */
  function Hex(n: nat): (s: string)
    ensures s != []
  {
    if n < 16 then [HexDigit(n)] else Hex(n / 16) + [HexDigit(n % 16)]
  }

  function PadZero(s: string, width: nat): string {
    if |s| >= width then s else seq(width - |s|, _ => '0') + s
  }

  /** A word in eight hexadecimal digits. */
  function HexWord(w: Word): string {
    PadZero(Hex(w as nat), 8)
  }

  /** The digest: eight words of eight hexadecimal digits. */
  function HexDigest(h: Hash): string {
    HexWord(h.a) + HexWord(h.b) + HexWord(h.c) + HexWord(h.d)
    + HexWord(h.e) + HexWord(h.f) + HexWord(h.g) + HexWord(h.h)
  }

  const H0: Hash := Hash(
    0x6a09e667, 0xbb67ae85, 0x3c6ef372, 0xa54ff53a,
    0x510e527f, 0x9b05688c, 0x1f83d9ab, 0x5be0cd19)

  const K: seq<Word> :=
      [0x428a2f98, 0x71374491, 0xb5c0fbcf, 0xe9b5dba5, 0x3956c25b, 0x59f111f1, 0x923f82a4, 0xab1c5ed5]
    + [0xd807aa98, 0x12835b01, 0x243185be, 0x550c7dc3, 0x72be5d74, 0x80deb1fe, 0x9bdc06a7, 0xc19bf174]
    + [0xe49b69c1, 0xefbe4786, 0x0fc19dc6, 0x240ca1cc, 0x2de92c6f, 0x4a7484aa, 0x5cb0a9dc, 0x76f988da]
    + [0x983e5152, 0xa831c66d, 0xb00327c8, 0xbf597fc7, 0xc6e00bf3, 0xd5a79147, 0x06ca6351, 0x14292967]
    + [0x27b70a85, 0x2e1b2138, 0x4d2c6dfc, 0x53380d13, 0x650a7354, 0x766a0abb, 0x81c2c92e, 0x92722c85]
    + [0xa2bfe8a1, 0xa81a664b, 0xc24b8b70, 0xc76c51a3, 0xd192e819, 0xd6990624, 0xf40e3585, 0x106aa070]
    + [0x19a4c116, 0x1e376c08, 0x2748774c, 0x34b0bcb5, 0x391c0cb3, 0x4ed8aa4a, 0x5b9cca4f, 0x682e6ff3]
    + [0x748f82ee, 0x78a5636f, 0x84c87814, 0x8cc70208, 0x90befffa, 0xa4506ceb, 0xbef9a3f7, 0xc67178f2]

  /** The digest of a message, for given operations and constants. */
  ghost function DigestWith(o: Operations, h0: Hash, k: seq<Word>, m: seq<byte>): string
    requires |k| == 64
  {
    PaddedIsBlocks(m);
    HexDigest(HashBlocks(o, h0, k, Padded(m)))
  }

  /** The digest FIPS 180-4 defines for a message. */
  ghost function Digest(m: seq<byte>): string {
    DigestWith(BITS, H0, K, m)
  }

  // ---------------------------------------------------------------- implementation

  method PadMessage(data: seq<byte>) returns (msg: seq<byte>)
    ensures |msg| % 64 == 0
    ensures |data| < 0x2000_0000_0000_0000 ==> msg == Padded(data)
  {
    hide ByteAt;
    msg := data;
    var bitLen := (|msg| * 8) % 0x1_0000_0000_0000_0000;
    msg := msg + [0x80];
    ghost var zeros := 0;
    while |msg| % 64 != 56
      invariant zeros <= ZeroCount(|data|)
      invariant msg == data + [0x80] + Zeros(zeros)
      decreases ZeroCount(|data|) - zeros
    {
      ZeroCountIsLeast(|data|, zeros);
      msg := msg + [0x00];
      zeros := zeros + 1;
    }
    ZeroCountIsLeast(|data|, zeros);
    msg := AppendLength(msg, bitLen);
  }

  method AppendLength(body: seq<byte>, bitLen: nat) returns (msg: seq<byte>)
    ensures msg == body + LengthBytes(bitLen)
  {
    msg := body;
    var i := 7;
    while i >= 0
      invariant -1 <= i <= 7
      invariant msg == body + LengthBytes(bitLen)[..7-i]
    {
      hide ByteAt;
      msg := msg + [ByteAt(bitLen, i)];
      i := i - 1;
    }
    assert LengthBytes(bitLen)[..8] == LengthBytes(bitLen);
  }

  method ExpandBlock(o: Operations, block: seq<byte>) returns (w: array<Word>)
    requires OrderFree(o) && |block| == 64
    ensures w.Length == 64 && fresh(w)
    ensures w[..] == ScheduleWords(o, block, 64)
  {
    hide OrderFree;
    w := new Word[64](_ => 0);
    for i := 0 to 16
      invariant w[..i] == ScheduleWords(o, block, i)
    {
      ghost var done := w[..i];
      var word := FirstWord(o, block, i, done);
      w[i] := word;
      assert w[..i+1] == done + [word];
    }
    for i := 16 to 64
      invariant w[..i] == ScheduleWords(o, block, i)
    {
      ghost var done := w[..i];
      var word := MixWords(o, block, i, done, w[i-16], w[i-15], w[i-7], w[i-2]);
      w[i] := word;
      assert w[..i+1] == done + [word];
    }
    assert w[..] == w[..64];
  }

  /** One of the first 16 words: four bytes of the block. */
  method FirstWord(o: Operations, block: seq<byte>, i: nat, ghost done: seq<Word>) returns (w: Word)
    requires |block| == 64 && i < 16 && done == ScheduleWords(o, block, i)
    ensures done + [w] == ScheduleWords(o, block, i + 1)
  {
    w := o.bigEndian(block[i*4], block[i*4+1], block[i*4+2], block[i*4+3]);
  }

  /** Word i of the schedule from four earlier ones. */
  method MixWords(o: Operations, ghost block: seq<byte>, ghost i: nat, ghost done: seq<Word>,
                  w16: Word, w15: Word, w7: Word, w2: Word) returns (w: Word)
    requires OrderFree(o) && |block| == 64 && 16 <= i && done == ScheduleWords(o, block, i)
    requires w16 == done[i-16] && w15 == done[i-15] && w7 == done[i-7] && w2 == done[i-2]
    ensures done + [w] == ScheduleWords(o, block, i + 1)
  {
    hide OrderFree;
    ScheduleWordAt(o, block, i, i - 16);
    ScheduleWordAt(o, block, i, i - 15);
    ScheduleWordAt(o, block, i, i - 7);
    ScheduleWordAt(o, block, i, i - 2);
    var s0 := o.xor(o.xor(o.rotr(w15, 7), o.rotr(w15, 18)), o.shr(w15, 3));
    var s1 := o.xor(o.xor(o.rotr(w2, 17), o.rotr(w2, 19)), o.shr(w2, 10));
    w := o.add4(w16, s0, w7, s1);
    Reorder(o, w16, s0, w7, s1);
  }

  method CompressBlock(o: Operations, s: Hash, k: seq<Word>, block: seq<byte>) returns (next: Hash)
    requires OrderFree(o) && |block| == 64 && |k| == 64
    ensures next == HashBlock(o, s, k, block)
  {
    hide OrderFree;
    var w := ExpandBlock(o, block);
    ghost var words := ScheduleWords(o, block, |k|);
    assert forall i :: 0 <= i < 64 ==> w[i] == w[..][i];
    var a, b, c, d, e, f, g, hh := s.a, s.b, s.c, s.d, s.e, s.f, s.g, s.h;
    for i := 0 to 64
      invariant Hash(a, b, c, d, e, f, g, hh) == Rounds(o, s, k, words, i)
    {
      var S1 := o.xor(o.xor(o.rotr(e, 6), o.rotr(e, 11)), o.rotr(e, 25));
      var ch := o.xor(o.and(e, f), o.and(o.not(e), g));
      var temp1 := o.add(o.add(o.add(o.add(hh, S1), ch), k[i]), w[i]);
      var S0 := o.xor(o.xor(o.rotr(a, 2), o.rotr(a, 13)), o.rotr(a, 22));
      var maj := o.xor(o.xor(o.and(a, b), o.and(a, c)), o.and(b, c));
      var temp2 := o.add(S0, maj);
      hh := g;
      g := f;
      f := e;
      e := o.add(d, temp1);
      d := c;
      c := b;
      b := a;
      a := o.add(temp1, temp2);
    }
    next := Hash(o.add(s.a, a), o.add(s.b, b), o.add(s.c, c), o.add(s.d, d),
                 o.add(s.e, e), o.add(s.f, f), o.add(s.g, g), o.add(s.h, hh));
    SwapSum(o, s, Hash(a, b, c, d, e, f, g, hh));
  }

  lemma SwapSum(o: Operations, s: Hash, r: Hash)
    requires OrderFree(o)
    ensures Sum(o, s, r) == Sum(o, r, s)
  {
    hide OrderFree;
    Swap(o, s.a, r.a);
    Swap(o, s.b, r.b);
    Swap(o, s.c, r.c);
    Swap(o, s.d, r.d);
    Swap(o, s.e, r.e);
    Swap(o, s.f, r.f);
    Swap(o, s.g, r.g);
    Swap(o, s.h, r.h);
  }

  method HashMessage(o: Operations, h0: Hash, k: seq<Word>, msg: seq<byte>) returns (h: Hash)
    requires OrderFree(o) && |k| == 64 && |msg| % 64 == 0
    ensures h == HashBlocks(o, h0, k, msg)
  {
    hide HashBlock, OrderFree;
    h := h0;
    var chunk := 0;
    assert msg[0..] == msg;
    while chunk < |msg|
      invariant chunk <= |msg| && chunk % 64 == 0
      invariant HashBlocks(o, h, k, msg[chunk..]) == HashBlocks(o, h0, k, msg)
    {
      h := NextBlock(o, k, msg, chunk, h);
      chunk := chunk + 64;
    }
  }

  method NextBlock(o: Operations, k: seq<Word>, msg: seq<byte>, chunk: nat, h: Hash) returns (next: Hash)
    requires OrderFree(o) && |k| == 64 && chunk + 64 <= |msg|
    ensures HashBlocks(o, next, k, msg[chunk+64..]) == HashBlocks(o, h, k, msg[chunk..])
  {
    hide OrderFree;
    var block := msg[chunk..chunk+64];
    assert msg[chunk..][..64] == block && msg[chunk..][64..] == msg[chunk+64..];
    next := CompressBlock(o, h, k, block);
  }

  method ComputeWith(o: Operations, h0: Hash, k: seq<Word>, data: seq<byte>) returns (digest: string)
    requires OrderFree(o) && |k| == 64
    ensures |data| < 0x2000_0000_0000_0000 ==> digest == DigestWith(o, h0, k, data)
  {
    hide OrderFree;
    var msg := PadMessage(data);
    var h := HashMessage(o, h0, k, msg);
    digest := HexDigest(h);
  }

  /** The program computes the standard's digest of every message under 2^61 bytes. */
  method Compute(data: seq<byte>) returns (digest: string)
    ensures |data| < 0x2000_0000_0000_0000 ==> digest == Digest(data)
  {
    hide OrderFree;
    OrderImmaterial();
    digest := ComputeWith(BITS, H0, K, data);
  }
}
