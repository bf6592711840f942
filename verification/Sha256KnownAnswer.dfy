/**
 A known answer: the digest of the three letters "abc", computed step by step from the definitions. It fixes the
 padding, the byte order, every rotation and every constant at once.
 */
module Sha256KnownAnswer {
  import opened Sha256

  // ----------------------------------------------------------- hexadecimal digits

  function Pow16(i: nat): (p: nat)
    ensures p > 0
  {
    if i == 0 then 1 else 16 * Pow16(i - 1)
  }

  /** Padded to k places, hexadecimal digit number i from the right is digit i of the number. */
  lemma {:induction false} HexPlaces(n: nat, k: nat)
    requires k > 0 && n < Pow16(k)
    ensures |Hex(n)| <= k && |PadZero(Hex(n), k)| == k
    ensures forall i :: 0 <= i < k ==> PadZero(Hex(n), k)[k-1-i] == HexDigit((n / Pow16(i)) % 16)
  {
    var s := PadZero(Hex(n), k);
    if n < 16 {
      forall i | 0 < i < k
        ensures s[k-1-i] == HexDigit((n / Pow16(i)) % 16)
      {
        SmallerThanPower(n, i);
      }
    } else {
      assert k > 1;
      HexPlaces(n / 16, k - 1);
      LastDigit(n, k);
      hide Hex, PadZero;
      OneMoreDigit(n, k, PadZero(Hex(n / 16), k - 1), s);
    }
  }

  lemma OneMoreDigit(n: nat, k: nat, front: string, s: string)
    requires k > 1 && |front| == k - 1 && s == front + [HexDigit(n % 16)]
    requires forall i :: 0 <= i < k - 1 ==> front[k-2-i] == HexDigit((n / 16 / Pow16(i)) % 16)
    ensures forall i :: 0 <= i < k ==> s[k-1-i] == HexDigit((n / Pow16(i)) % 16)
  {
    assert Pow16(0) == 1 && n / 1 == n;
    hide Pow16, HexDigit;
    forall i | 0 < i < k
      ensures s[k-1-i] == HexDigit((n / Pow16(i)) % 16)
    {
      var above := i - 1;
      assert front[k-2-above] == HexDigit((n / 16 / Pow16(above)) % 16);
      DigitAbove(n, i);
    }
  }

  lemma DigitAbove(n: nat, i: nat)
    requires i > 0
    ensures n / 16 / Pow16(i - 1) == n / Pow16(i)
  {
    QuotientOfQuotient(n, Pow16(i - 1));
  }

  lemma LastDigit(n: nat, k: nat)
    requires n >= 16 && k > 1 && |Hex(n / 16)| < k
    ensures |Hex(n)| <= k && PadZero(Hex(n), k) == PadZero(Hex(n / 16), k - 1) + [HexDigit(n % 16)]
  {
  }

  lemma SmallerThanPower(n: nat, i: nat)
    requires n < 16 && i > 0
    ensures n / Pow16(i) == 0
  {
    assert Pow16(i) >= 16;
    ModUnique(n, Pow16(i), 0, n);
    assert n == Pow16(i) * (n / Pow16(i)) + n % Pow16(i);
  }

  lemma QuotientOfQuotient(n: nat, p: nat)
    requires p > 0
    ensures n / 16 / p == n / (16 * p)
  {
    var q, s := n / 16, n % 16;
    var q2, r2 := q / p, q % p;
    assert n == 16 * q + s && q == p * q2 + r2;
    assert n == (16 * p) * q2 + (16 * r2 + s);
    QuotientUnique(n, 16 * p, q2, 16 * r2 + s);
  }

  lemma QuotientUnique(a: nat, m: nat, q: nat, r: nat)
    requires r < m && a == m * q + r
    ensures a / m == q
  {
    ModUnique(a, m, q, r);
    assert a == m * (a / m) + a % m;
    assert m * (a / m) == m * q;
    MultipleGap(m, a / m - q);
  }

  /** A word prints as its eight hexadecimal digits, the most significant first. */
  lemma HexWordDigits(w: Word)
    ensures |HexWord(w)| == 8
    ensures forall i :: 0 <= i < 8 ==> HexWord(w)[7-i] == HexDigit((w as nat / Pow16(i)) % 16)
  {
    assert Pow16(8) == 0x1_0000_0000 by {
      assert Pow16(4) == 0x1_0000;
    }
    HexPlaces(w as nat, 8);
  }

  // ---------------------------------------------------------------- the padded message

  const ABC: seq<byte> := [0x61, 0x62, 0x63]

  lemma AbcBlock()
    ensures var m := Padded(ABC);
            && |m| == 64 && m[0] == 0x61 && m[1] == 0x62 && m[2] == 0x63 && m[3] == 0x80 && m[63] == 24
            && forall i :: 4 <= i < 63 ==> m[i] == 0
  {
    var length := LengthBytes(24);
    forall i | 0 <= i < 7
      ensures length[i] == 0
    {
      BeyondByte(24, 7 - i);
    }
    assert length[7] == ByteAt(24, 7 - 7) == 24;
  }

  lemma BeyondByte(n: nat, i: nat)
    requires n < 256 && i > 0
    ensures ByteAt(n, i) == 0
  {
    PowPositive(i - 1);
    assert Pow256(i) >= 256;
    QuotientUnique(n, Pow256(i), 0, n);
  }

  // ---------------------------------------------------------------------- the schedule

  ghost predicate WordIs(t: nat, w: Word) {
    |Padded(ABC)| == 64 && Schedule(BITS, Padded(ABC), t) == w
  }

  lemma FirstWords()
    ensures WordIs(0, 0x61626380) && WordIs(1, 0x00000000) && WordIs(2, 0x00000000) && WordIs(3, 0x00000000)
    ensures WordIs(4, 0x00000000) && WordIs(5, 0x00000000) && WordIs(6, 0x00000000) && WordIs(7, 0x00000000)
    ensures WordIs(8, 0x00000000) && WordIs(9, 0x00000000) && WordIs(10, 0x00000000) && WordIs(11, 0x00000000)
    ensures WordIs(12, 0x00000000) && WordIs(13, 0x00000000) && WordIs(14, 0x00000000) && WordIs(15, 0x00000018)
  {
    AbcBlock();
  }

  lemma Words16()
    ensures WordIs(16, 0x61626380) && WordIs(17, 0x000f0000) && WordIs(18, 0x7da86405) && WordIs(19, 0x600003c6)
    ensures WordIs(20, 0x3e9d7b78) && WordIs(21, 0x0183fc00) && WordIs(22, 0x12dcbfdb) && WordIs(23, 0xe2e2c38e)
  {
    FirstWords();
  }

  lemma Words24()
    ensures WordIs(24, 0xc8215c1a) && WordIs(25, 0xb73679a2) && WordIs(26, 0xe5bc3909) && WordIs(27, 0x32663c5b)
    ensures WordIs(28, 0x9d209d67) && WordIs(29, 0xec8726cb) && WordIs(30, 0x702138a4) && WordIs(31, 0xd3b7973b)
  {
    FirstWords();
    Words16();
  }

  lemma Words32()
    ensures WordIs(32, 0x93f5997f) && WordIs(33, 0x3b68ba73) && WordIs(34, 0xaff4ffc1) && WordIs(35, 0xf10a5c62)
    ensures WordIs(36, 0x0a8b3996) && WordIs(37, 0x72af830a) && WordIs(38, 0x9409e33e) && WordIs(39, 0x24641522)
  {
    Words16();
    Words24();
  }

  lemma Words40()
    ensures WordIs(40, 0x9f47bf94) && WordIs(41, 0xf0a64f5a) && WordIs(42, 0x3e246a79) && WordIs(43, 0x27333ba3)
    ensures WordIs(44, 0x0c4763f2) && WordIs(45, 0x840abf27) && WordIs(46, 0x7a290d5d) && WordIs(47, 0x065c43da)
  {
    Words24();
    Words32();
  }

  lemma Words48()
    ensures WordIs(48, 0xfb3e89cb) && WordIs(49, 0xcc7617db) && WordIs(50, 0xb9e66c34) && WordIs(51, 0xa9993667)
    ensures WordIs(52, 0x84badedd) && WordIs(53, 0xc21462bc) && WordIs(54, 0x1487472c) && WordIs(55, 0xb20f7a99)
  {
    Words32();
    Words40();
  }

  lemma Words56()
    ensures WordIs(56, 0xef57b9cd) && WordIs(57, 0xebe6b238) && WordIs(58, 0x9fe3095e) && WordIs(59, 0x78bc8d4b)
    ensures WordIs(60, 0xa43fcf15) && WordIs(61, 0x668b2ff8) && WordIs(62, 0xeeaba2cc) && WordIs(63, 0x12b1edeb)
  {
    Words40();
    Words48();
  }

  // ------------------------------------------------------------------------ the rounds

  ghost function AbcWords(): (words: seq<Word>)
    ensures |words| == 64
  {
    AbcBlock();
    ScheduleWords(BITS, Padded(ABC), 64)
  }

  /** The working variables after n rounds. */
  ghost predicate StateIs(n: nat, s: Hash) {
    n <= 64 == |K| && Rounds(BITS, H0, K, AbcWords(), n) == s
  }

  ghost predicate ConstantIs(n: nat, k: Word) {
    n < 64 == |K| && K[n] == k
  }

  /** One more round, with its constant and its word. */
  lemma NextState(n: nat, s: Hash, k: Word, w: Word)
    requires StateIs(n, s) && ConstantIs(n, k) && WordIs(n, w)
    ensures StateIs(n + 1, Round(BITS, s, k, w))
  {
    AbcBlock();
    ScheduleWordAt(BITS, Padded(ABC), 64, n);
  }

  lemma LowWords()
    ensures WordIs(0, 0x61626380) && WordIs(1, 0x00000000) && WordIs(2, 0x00000000) && WordIs(3, 0x00000000)
    ensures WordIs(4, 0x00000000) && WordIs(5, 0x00000000) && WordIs(6, 0x00000000) && WordIs(7, 0x00000000)
    ensures WordIs(8, 0x00000000) && WordIs(9, 0x00000000) && WordIs(10, 0x00000000) && WordIs(11, 0x00000000)
    ensures WordIs(12, 0x00000000) && WordIs(13, 0x00000000) && WordIs(14, 0x00000000) && WordIs(15, 0x00000018)
    ensures WordIs(16, 0x61626380) && WordIs(17, 0x000f0000) && WordIs(18, 0x7da86405) && WordIs(19, 0x600003c6)
    ensures WordIs(20, 0x3e9d7b78) && WordIs(21, 0x0183fc00) && WordIs(22, 0x12dcbfdb) && WordIs(23, 0xe2e2c38e)
    ensures WordIs(24, 0xc8215c1a) && WordIs(25, 0xb73679a2) && WordIs(26, 0xe5bc3909) && WordIs(27, 0x32663c5b)
    ensures WordIs(28, 0x9d209d67) && WordIs(29, 0xec8726cb) && WordIs(30, 0x702138a4) && WordIs(31, 0xd3b7973b)
  {
    FirstWords();
    hide WordIs;
    Words16();
    Words24();
  }

  lemma HighWords()
    ensures WordIs(32, 0x93f5997f) && WordIs(33, 0x3b68ba73) && WordIs(34, 0xaff4ffc1) && WordIs(35, 0xf10a5c62)
    ensures WordIs(36, 0x0a8b3996) && WordIs(37, 0x72af830a) && WordIs(38, 0x9409e33e) && WordIs(39, 0x24641522)
    ensures WordIs(40, 0x9f47bf94) && WordIs(41, 0xf0a64f5a) && WordIs(42, 0x3e246a79) && WordIs(43, 0x27333ba3)
    ensures WordIs(44, 0x0c4763f2) && WordIs(45, 0x840abf27) && WordIs(46, 0x7a290d5d) && WordIs(47, 0x065c43da)
    ensures WordIs(48, 0xfb3e89cb) && WordIs(49, 0xcc7617db) && WordIs(50, 0xb9e66c34) && WordIs(51, 0xa9993667)
    ensures WordIs(52, 0x84badedd) && WordIs(53, 0xc21462bc) && WordIs(54, 0x1487472c) && WordIs(55, 0xb20f7a99)
    ensures WordIs(56, 0xef57b9cd) && WordIs(57, 0xebe6b238) && WordIs(58, 0x9fe3095e) && WordIs(59, 0x78bc8d4b)
    ensures WordIs(60, 0xa43fcf15) && WordIs(61, 0x668b2ff8) && WordIs(62, 0xeeaba2cc) && WordIs(63, 0x12b1edeb)
  {
    FirstWords();
    hide WordIs;
    Words16();
    Words24();
    Words32();
    Words40();
    Words48();
    Words56();
  }

  lemma Constants0()
    ensures ConstantIs(0, 0x428a2f98) && ConstantIs(1, 0x71374491)
    ensures ConstantIs(2, 0xb5c0fbcf) && ConstantIs(3, 0xe9b5dba5)
    ensures ConstantIs(4, 0x3956c25b) && ConstantIs(5, 0x59f111f1)
    ensures ConstantIs(6, 0x923f82a4) && ConstantIs(7, 0xab1c5ed5)
  {
  }

  lemma Constants8()
    ensures ConstantIs(8, 0xd807aa98) && ConstantIs(9, 0x12835b01)
    ensures ConstantIs(10, 0x243185be) && ConstantIs(11, 0x550c7dc3)
    ensures ConstantIs(12, 0x72be5d74) && ConstantIs(13, 0x80deb1fe)
    ensures ConstantIs(14, 0x9bdc06a7) && ConstantIs(15, 0xc19bf174)
  {
  }

  lemma Constants16()
    ensures ConstantIs(16, 0xe49b69c1) && ConstantIs(17, 0xefbe4786)
    ensures ConstantIs(18, 0x0fc19dc6) && ConstantIs(19, 0x240ca1cc)
    ensures ConstantIs(20, 0x2de92c6f) && ConstantIs(21, 0x4a7484aa)
    ensures ConstantIs(22, 0x5cb0a9dc) && ConstantIs(23, 0x76f988da)
  {
  }

  lemma Constants24()
    ensures ConstantIs(24, 0x983e5152) && ConstantIs(25, 0xa831c66d)
    ensures ConstantIs(26, 0xb00327c8) && ConstantIs(27, 0xbf597fc7)
    ensures ConstantIs(28, 0xc6e00bf3) && ConstantIs(29, 0xd5a79147)
    ensures ConstantIs(30, 0x06ca6351) && ConstantIs(31, 0x14292967)
  {
  }

  lemma Constants32()
    ensures ConstantIs(32, 0x27b70a85) && ConstantIs(33, 0x2e1b2138)
    ensures ConstantIs(34, 0x4d2c6dfc) && ConstantIs(35, 0x53380d13)
    ensures ConstantIs(36, 0x650a7354) && ConstantIs(37, 0x766a0abb)
    ensures ConstantIs(38, 0x81c2c92e) && ConstantIs(39, 0x92722c85)
  {
  }

  lemma Constants40()
    ensures ConstantIs(40, 0xa2bfe8a1) && ConstantIs(41, 0xa81a664b)
    ensures ConstantIs(42, 0xc24b8b70) && ConstantIs(43, 0xc76c51a3)
    ensures ConstantIs(44, 0xd192e819) && ConstantIs(45, 0xd6990624)
    ensures ConstantIs(46, 0xf40e3585) && ConstantIs(47, 0x106aa070)
  {
  }

  lemma Constants48()
    ensures ConstantIs(48, 0x19a4c116) && ConstantIs(49, 0x1e376c08)
    ensures ConstantIs(50, 0x2748774c) && ConstantIs(51, 0x34b0bcb5)
    ensures ConstantIs(52, 0x391c0cb3) && ConstantIs(53, 0x4ed8aa4a)
    ensures ConstantIs(54, 0x5b9cca4f) && ConstantIs(55, 0x682e6ff3)
  {
  }

  lemma Constants56()
    ensures ConstantIs(56, 0x748f82ee) && ConstantIs(57, 0x78a5636f)
    ensures ConstantIs(58, 0x84c87814) && ConstantIs(59, 0x8cc70208)
    ensures ConstantIs(60, 0x90befffa) && ConstantIs(61, 0xa4506ceb)
    ensures ConstantIs(62, 0xbef9a3f7) && ConstantIs(63, 0xc67178f2)
  {
  }

  lemma AllConstants()
    ensures ConstantIs(0, 0x428a2f98) && ConstantIs(1, 0x71374491)
    ensures ConstantIs(2, 0xb5c0fbcf) && ConstantIs(3, 0xe9b5dba5)
    ensures ConstantIs(4, 0x3956c25b) && ConstantIs(5, 0x59f111f1)
    ensures ConstantIs(6, 0x923f82a4) && ConstantIs(7, 0xab1c5ed5)
    ensures ConstantIs(8, 0xd807aa98) && ConstantIs(9, 0x12835b01)
    ensures ConstantIs(10, 0x243185be) && ConstantIs(11, 0x550c7dc3)
    ensures ConstantIs(12, 0x72be5d74) && ConstantIs(13, 0x80deb1fe)
    ensures ConstantIs(14, 0x9bdc06a7) && ConstantIs(15, 0xc19bf174)
    ensures ConstantIs(16, 0xe49b69c1) && ConstantIs(17, 0xefbe4786)
    ensures ConstantIs(18, 0x0fc19dc6) && ConstantIs(19, 0x240ca1cc)
    ensures ConstantIs(20, 0x2de92c6f) && ConstantIs(21, 0x4a7484aa)
    ensures ConstantIs(22, 0x5cb0a9dc) && ConstantIs(23, 0x76f988da)
    ensures ConstantIs(24, 0x983e5152) && ConstantIs(25, 0xa831c66d)
    ensures ConstantIs(26, 0xb00327c8) && ConstantIs(27, 0xbf597fc7)
    ensures ConstantIs(28, 0xc6e00bf3) && ConstantIs(29, 0xd5a79147)
    ensures ConstantIs(30, 0x06ca6351) && ConstantIs(31, 0x14292967)
    ensures ConstantIs(32, 0x27b70a85) && ConstantIs(33, 0x2e1b2138)
    ensures ConstantIs(34, 0x4d2c6dfc) && ConstantIs(35, 0x53380d13)
    ensures ConstantIs(36, 0x650a7354) && ConstantIs(37, 0x766a0abb)
    ensures ConstantIs(38, 0x81c2c92e) && ConstantIs(39, 0x92722c85)
    ensures ConstantIs(40, 0xa2bfe8a1) && ConstantIs(41, 0xa81a664b)
    ensures ConstantIs(42, 0xc24b8b70) && ConstantIs(43, 0xc76c51a3)
    ensures ConstantIs(44, 0xd192e819) && ConstantIs(45, 0xd6990624)
    ensures ConstantIs(46, 0xf40e3585) && ConstantIs(47, 0x106aa070)
    ensures ConstantIs(48, 0x19a4c116) && ConstantIs(49, 0x1e376c08)
    ensures ConstantIs(50, 0x2748774c) && ConstantIs(51, 0x34b0bcb5)
    ensures ConstantIs(52, 0x391c0cb3) && ConstantIs(53, 0x4ed8aa4a)
    ensures ConstantIs(54, 0x5b9cca4f) && ConstantIs(55, 0x682e6ff3)
    ensures ConstantIs(56, 0x748f82ee) && ConstantIs(57, 0x78a5636f)
    ensures ConstantIs(58, 0x84c87814) && ConstantIs(59, 0x8cc70208)
    ensures ConstantIs(60, 0x90befffa) && ConstantIs(61, 0xa4506ceb)
    ensures ConstantIs(62, 0xbef9a3f7) && ConstantIs(63, 0xc67178f2)
  {
    hide ConstantIs;
    Constants0();
    Constants8();
    Constants16();
    Constants24();
    Constants32();
    Constants40();
    Constants48();
    Constants56();
  }

  lemma States0()
    ensures StateIs(2, Hash(0x5a6ad9ad, 0x5d6aebcd, 0x6a09e667, 0xbb67ae85, 0x78ce7989, 0xfa2a4622, 0x510e527f,
              0x9b05688c))
  {
    assert StateIs(0, H0);
    hide StateIs, WordIs, ConstantIs;
    LowWords();
    AllConstants();
    NextState(0, Hash(0x6a09e667, 0xbb67ae85, 0x3c6ef372, 0xa54ff53a, 0x510e527f, 0x9b05688c, 0x1f83d9ab, 0x5be0cd19),
              0x428a2f98, 0x61626380);
    NextState(1, Hash(0x5d6aebcd, 0x6a09e667, 0xbb67ae85, 0x3c6ef372, 0xfa2a4622, 0x510e527f, 0x9b05688c, 0x1f83d9ab),
              0x71374491, 0x00000000);
  }

  lemma States2()
    ensures StateIs(4, Hash(0xd550f666, 0xc8c347a7, 0x5a6ad9ad, 0x5d6aebcd, 0x24e00850, 0xf92939eb, 0x78ce7989,
              0xfa2a4622))
  {
    States0();
    hide StateIs, WordIs, ConstantIs;
    LowWords();
    AllConstants();
    NextState(2, Hash(0x5a6ad9ad, 0x5d6aebcd, 0x6a09e667, 0xbb67ae85, 0x78ce7989, 0xfa2a4622, 0x510e527f, 0x9b05688c),
              0xb5c0fbcf, 0x00000000);
    NextState(3, Hash(0xc8c347a7, 0x5a6ad9ad, 0x5d6aebcd, 0x6a09e667, 0xf92939eb, 0x78ce7989, 0xfa2a4622, 0x510e527f),
              0xe9b5dba5, 0x00000000);
  }

  lemma States4()
    ensures StateIs(6, Hash(0x2b4209f5, 0x04409a6a, 0xd550f666, 0xc8c347a7, 0x714260ad, 0x43ada245, 0x24e00850,
              0xf92939eb))
  {
    States2();
    hide StateIs, WordIs, ConstantIs;
    LowWords();
    AllConstants();
    NextState(4, Hash(0xd550f666, 0xc8c347a7, 0x5a6ad9ad, 0x5d6aebcd, 0x24e00850, 0xf92939eb, 0x78ce7989, 0xfa2a4622),
              0x3956c25b, 0x00000000);
    NextState(5, Hash(0x04409a6a, 0xd550f666, 0xc8c347a7, 0x5a6ad9ad, 0x43ada245, 0x24e00850, 0xf92939eb, 0x78ce7989),
              0x59f111f1, 0x00000000);
  }

  lemma States6()
    ensures StateIs(8, Hash(0x85a07b5f, 0xe5030380, 0x2b4209f5, 0x04409a6a, 0x0c657a79, 0x9b27a401, 0x714260ad,
              0x43ada245))
  {
    States4();
    hide StateIs, WordIs, ConstantIs;
    LowWords();
    AllConstants();
    NextState(6, Hash(0x2b4209f5, 0x04409a6a, 0xd550f666, 0xc8c347a7, 0x714260ad, 0x43ada245, 0x24e00850, 0xf92939eb),
              0x923f82a4, 0x00000000);
    NextState(7, Hash(0xe5030380, 0x2b4209f5, 0x04409a6a, 0xd550f666, 0x9b27a401, 0x714260ad, 0x43ada245, 0x24e00850),
              0xab1c5ed5, 0x00000000);
  }

  lemma States8()
    ensures StateIs(10, Hash(0x8c87346b, 0x8e04ecb9, 0x85a07b5f, 0xe5030380, 0x1cc92596, 0x32ca2d8c, 0x0c657a79,
              0x9b27a401))
  {
    States6();
    hide StateIs, WordIs, ConstantIs;
    LowWords();
    AllConstants();
    NextState(8, Hash(0x85a07b5f, 0xe5030380, 0x2b4209f5, 0x04409a6a, 0x0c657a79, 0x9b27a401, 0x714260ad, 0x43ada245),
              0xd807aa98, 0x00000000);
    NextState(9, Hash(0x8e04ecb9, 0x85a07b5f, 0xe5030380, 0x2b4209f5, 0x32ca2d8c, 0x0c657a79, 0x9b27a401, 0x714260ad),
              0x12835b01, 0x00000000);
  }

  lemma States10()
    ensures StateIs(12, Hash(0xf71fc5a9, 0x4798a3f4, 0x8c87346b, 0x8e04ecb9, 0x816fd6e9, 0x436b23e8, 0x1cc92596,
              0x32ca2d8c))
  {
    States8();
    hide StateIs, WordIs, ConstantIs;
    LowWords();
    AllConstants();
    NextState(10, Hash(0x8c87346b, 0x8e04ecb9, 0x85a07b5f, 0xe5030380, 0x1cc92596, 0x32ca2d8c, 0x0c657a79,
              0x9b27a401), 0x243185be, 0x00000000);
    NextState(11, Hash(0x4798a3f4, 0x8c87346b, 0x8e04ecb9, 0x85a07b5f, 0x436b23e8, 0x1cc92596, 0x32ca2d8c,
              0x0c657a79), 0x550c7dc3, 0x00000000);
  }

  lemma States12()
    ensures StateIs(14, Hash(0xd932eb16, 0x87912990, 0xf71fc5a9, 0x4798a3f4, 0x745a48de, 0x1e578218, 0x816fd6e9,
              0x436b23e8))
  {
    States10();
    hide StateIs, WordIs, ConstantIs;
    LowWords();
    AllConstants();
    NextState(12, Hash(0xf71fc5a9, 0x4798a3f4, 0x8c87346b, 0x8e04ecb9, 0x816fd6e9, 0x436b23e8, 0x1cc92596,
              0x32ca2d8c), 0x72be5d74, 0x00000000);
    NextState(13, Hash(0x87912990, 0xf71fc5a9, 0x4798a3f4, 0x8c87346b, 0x1e578218, 0x816fd6e9, 0x436b23e8,
              0x1cc92596), 0x80deb1fe, 0x00000000);
  }

  lemma States14()
    ensures StateIs(16, Hash(0xb0fa238e, 0xc0645fde, 0xd932eb16, 0x87912990, 0x07590dcd, 0x0b92f20c, 0x745a48de,
              0x1e578218))
  {
    States12();
    hide StateIs, WordIs, ConstantIs;
    LowWords();
    AllConstants();
    NextState(14, Hash(0xd932eb16, 0x87912990, 0xf71fc5a9, 0x4798a3f4, 0x745a48de, 0x1e578218, 0x816fd6e9,
              0x436b23e8), 0x9bdc06a7, 0x00000000);
    NextState(15, Hash(0xc0645fde, 0xd932eb16, 0x87912990, 0xf71fc5a9, 0x0b92f20c, 0x745a48de, 0x1e578218,
              0x816fd6e9), 0xc19bf174, 0x00000018);
  }

  lemma States16()
    ensures StateIs(18, Hash(0xc2fbd9d1, 0x21da9a9b, 0xb0fa238e, 0xc0645fde, 0x846ee454, 0x8034229c, 0x07590dcd,
              0x0b92f20c))
  {
    States14();
    hide StateIs, WordIs, ConstantIs;
    LowWords();
    AllConstants();
    NextState(16, Hash(0xb0fa238e, 0xc0645fde, 0xd932eb16, 0x87912990, 0x07590dcd, 0x0b92f20c, 0x745a48de,
              0x1e578218), 0xe49b69c1, 0x61626380);
    NextState(17, Hash(0x21da9a9b, 0xb0fa238e, 0xc0645fde, 0xd932eb16, 0x8034229c, 0x07590dcd, 0x0b92f20c,
              0x745a48de), 0xefbe4786, 0x000f0000);
  }

  lemma States18()
    ensures StateIs(20, Hash(0xe1f20c33, 0xfe777bbf, 0xc2fbd9d1, 0x21da9a9b, 0xb0638179, 0xcc899961, 0x846ee454,
              0x8034229c))
  {
    States16();
    hide StateIs, WordIs, ConstantIs;
    LowWords();
    AllConstants();
    NextState(18, Hash(0xc2fbd9d1, 0x21da9a9b, 0xb0fa238e, 0xc0645fde, 0x846ee454, 0x8034229c, 0x07590dcd,
              0x0b92f20c), 0x0fc19dc6, 0x7da86405);
    NextState(19, Hash(0xfe777bbf, 0xc2fbd9d1, 0x21da9a9b, 0xb0fa238e, 0xcc899961, 0x846ee454, 0x8034229c,
              0x07590dcd), 0x240ca1cc, 0x600003c6);
  }

  lemma States20()
    ensures StateIs(22, Hash(0xc2606d6d, 0x9dc68b63, 0xe1f20c33, 0xfe777bbf, 0xe1257970, 0x8ada8930, 0xb0638179,
              0xcc899961))
  {
    States18();
    hide StateIs, WordIs, ConstantIs;
    LowWords();
    AllConstants();
    NextState(20, Hash(0xe1f20c33, 0xfe777bbf, 0xc2fbd9d1, 0x21da9a9b, 0xb0638179, 0xcc899961, 0x846ee454,
              0x8034229c), 0x2de92c6f, 0x3e9d7b78);
    NextState(21, Hash(0x9dc68b63, 0xe1f20c33, 0xfe777bbf, 0xc2fbd9d1, 0x8ada8930, 0xb0638179, 0xcc899961,
              0x846ee454), 0x4a7484aa, 0x0183fc00);
  }

  lemma States22()
    ensures StateIs(24, Hash(0xc5d53d8d, 0xa7a3623f, 0xc2606d6d, 0x9dc68b63, 0xaa47c347, 0x49f5114a, 0xe1257970,
              0x8ada8930))
  {
    States20();
    hide StateIs, WordIs, ConstantIs;
    LowWords();
    AllConstants();
    NextState(22, Hash(0xc2606d6d, 0x9dc68b63, 0xe1f20c33, 0xfe777bbf, 0xe1257970, 0x8ada8930, 0xb0638179,
              0xcc899961), 0x5cb0a9dc, 0x12dcbfdb);
    NextState(23, Hash(0xa7a3623f, 0xc2606d6d, 0x9dc68b63, 0xe1f20c33, 0x49f5114a, 0xe1257970, 0x8ada8930,
              0xb0638179), 0x76f988da, 0xe2e2c38e);
  }

  lemma States24()
    ensures StateIs(26, Hash(0xcde8037d, 0x1c2c2838, 0xc5d53d8d, 0xa7a3623f, 0x14383d8e, 0x2823ef91, 0xaa47c347,
              0x49f5114a))
  {
    States22();
    hide StateIs, WordIs, ConstantIs;
    LowWords();
    AllConstants();
    NextState(24, Hash(0xc5d53d8d, 0xa7a3623f, 0xc2606d6d, 0x9dc68b63, 0xaa47c347, 0x49f5114a, 0xe1257970,
              0x8ada8930), 0x983e5152, 0xc8215c1a);
    NextState(25, Hash(0x1c2c2838, 0xc5d53d8d, 0xa7a3623f, 0xc2606d6d, 0x2823ef91, 0xaa47c347, 0x49f5114a,
              0xe1257970), 0xa831c66d, 0xb73679a2);
  }

  lemma States26()
    ensures StateIs(28, Hash(0x77d37528, 0xb62ec4bc, 0xcde8037d, 0x1c2c2838, 0xedffbff8, 0xc74c6516, 0x14383d8e,
              0x2823ef91))
  {
    States24();
    hide StateIs, WordIs, ConstantIs;
    LowWords();
    AllConstants();
    NextState(26, Hash(0xcde8037d, 0x1c2c2838, 0xc5d53d8d, 0xa7a3623f, 0x14383d8e, 0x2823ef91, 0xaa47c347,
              0x49f5114a), 0xb00327c8, 0xe5bc3909);
    NextState(27, Hash(0xb62ec4bc, 0xcde8037d, 0x1c2c2838, 0xc5d53d8d, 0xc74c6516, 0x14383d8e, 0x2823ef91,
              0xaa47c347), 0xbf597fc7, 0x32663c5b);
  }

  lemma States28()
    ensures StateIs(30, Hash(0xa0060b30, 0x363482c9, 0x77d37528, 0xb62ec4bc, 0xade79437, 0x6112a3b7, 0xedffbff8,
              0xc74c6516))
  {
    States26();
    hide StateIs, WordIs, ConstantIs;
    LowWords();
    AllConstants();
    NextState(28, Hash(0x77d37528, 0xb62ec4bc, 0xcde8037d, 0x1c2c2838, 0xedffbff8, 0xc74c6516, 0x14383d8e,
              0x2823ef91), 0xc6e00bf3, 0x9d209d67);
    NextState(29, Hash(0x363482c9, 0x77d37528, 0xb62ec4bc, 0xcde8037d, 0x6112a3b7, 0xedffbff8, 0xc74c6516,
              0x14383d8e), 0xd5a79147, 0xec8726cb);
  }

  lemma States30()
    ensures StateIs(32, Hash(0x73b33bf5, 0xea992a22, 0xa0060b30, 0x363482c9, 0xba591112, 0x0109ab3a, 0xade79437,
              0x6112a3b7))
  {
    States28();
    hide StateIs, WordIs, ConstantIs;
    LowWords();
    AllConstants();
    NextState(30, Hash(0xa0060b30, 0x363482c9, 0x77d37528, 0xb62ec4bc, 0xade79437, 0x6112a3b7, 0xedffbff8,
              0xc74c6516), 0x06ca6351, 0x702138a4);
    NextState(31, Hash(0xea992a22, 0xa0060b30, 0x363482c9, 0x77d37528, 0x0109ab3a, 0xade79437, 0x6112a3b7,
              0xedffbff8), 0x14292967, 0xd3b7973b);
  }

  lemma States32()
    ensures StateIs(34, Hash(0xfe604df5, 0x98e12507, 0x73b33bf5, 0xea992a22, 0x59249dd3, 0x9cd9f5f6, 0xba591112,
              0x0109ab3a))
  {
    States30();
    hide StateIs, WordIs, ConstantIs;
    HighWords();
    AllConstants();
    NextState(32, Hash(0x73b33bf5, 0xea992a22, 0xa0060b30, 0x363482c9, 0xba591112, 0x0109ab3a, 0xade79437,
              0x6112a3b7), 0x27b70a85, 0x93f5997f);
    NextState(33, Hash(0x98e12507, 0x73b33bf5, 0xea992a22, 0xa0060b30, 0x9cd9f5f6, 0xba591112, 0x0109ab3a,
              0xade79437), 0x2e1b2138, 0x3b68ba73);
  }

  lemma States34()
    ensures StateIs(36, Hash(0x65a0cfe4, 0xa9a7738c, 0xfe604df5, 0x98e12507, 0xf4b002d6, 0x085f3833, 0x59249dd3,
              0x9cd9f5f6))
  {
    States32();
    hide StateIs, WordIs, ConstantIs;
    HighWords();
    AllConstants();
    NextState(34, Hash(0xfe604df5, 0x98e12507, 0x73b33bf5, 0xea992a22, 0x59249dd3, 0x9cd9f5f6, 0xba591112,
              0x0109ab3a), 0x4d2c6dfc, 0xaff4ffc1);
    NextState(35, Hash(0xa9a7738c, 0xfe604df5, 0x98e12507, 0x73b33bf5, 0x085f3833, 0x59249dd3, 0x9cd9f5f6,
              0xba591112), 0x53380d13, 0xf10a5c62);
  }

  lemma States36()
    ensures StateIs(38, Hash(0x34df1604, 0x41a65cb1, 0x65a0cfe4, 0xa9a7738c, 0xa507a53d, 0x0772a26b, 0xf4b002d6,
              0x085f3833))
  {
    States34();
    hide StateIs, WordIs, ConstantIs;
    HighWords();
    AllConstants();
    NextState(36, Hash(0x65a0cfe4, 0xa9a7738c, 0xfe604df5, 0x98e12507, 0xf4b002d6, 0x085f3833, 0x59249dd3,
              0x9cd9f5f6), 0x650a7354, 0x0a8b3996);
    NextState(37, Hash(0x41a65cb1, 0x65a0cfe4, 0xa9a7738c, 0xfe604df5, 0x0772a26b, 0xf4b002d6, 0x085f3833,
              0x59249dd3), 0x766a0abb, 0x72af830a);
  }

  lemma States38()
    ensures StateIs(40, Hash(0x79ea687a, 0x6dc57a8a, 0x34df1604, 0x41a65cb1, 0x1efbc0a0, 0xf0781bc8, 0xa507a53d,
              0x0772a26b))
  {
    States36();
    hide StateIs, WordIs, ConstantIs;
    HighWords();
    AllConstants();
    NextState(38, Hash(0x34df1604, 0x41a65cb1, 0x65a0cfe4, 0xa9a7738c, 0xa507a53d, 0x0772a26b, 0xf4b002d6,
              0x085f3833), 0x81c2c92e, 0x9409e33e);
    NextState(39, Hash(0x6dc57a8a, 0x34df1604, 0x41a65cb1, 0x65a0cfe4, 0xf0781bc8, 0xa507a53d, 0x0772a26b,
              0xf4b002d6), 0x92722c85, 0x24641522);
  }

  lemma States40()
    ensures StateIs(42, Hash(0xdf46652f, 0xd6670766, 0x79ea687a, 0x6dc57a8a, 0x838b2711, 0x26352d63, 0x1efbc0a0,
              0xf0781bc8))
  {
    States38();
    hide StateIs, WordIs, ConstantIs;
    HighWords();
    AllConstants();
    NextState(40, Hash(0x79ea687a, 0x6dc57a8a, 0x34df1604, 0x41a65cb1, 0x1efbc0a0, 0xf0781bc8, 0xa507a53d,
              0x0772a26b), 0xa2bfe8a1, 0x9f47bf94);
    NextState(41, Hash(0xd6670766, 0x79ea687a, 0x6dc57a8a, 0x34df1604, 0x26352d63, 0x1efbc0a0, 0xf0781bc8,
              0xa507a53d), 0xa81a664b, 0xf0a64f5a);
  }

  lemma States42()
    ensures StateIs(44, Hash(0x9d4baf93, 0x17aa0dfe, 0xdf46652f, 0xd6670766, 0xfda24c2e, 0xdecd4715, 0x838b2711,
              0x26352d63))
  {
    States40();
    hide StateIs, WordIs, ConstantIs;
    HighWords();
    AllConstants();
    NextState(42, Hash(0xdf46652f, 0xd6670766, 0x79ea687a, 0x6dc57a8a, 0x838b2711, 0x26352d63, 0x1efbc0a0,
              0xf0781bc8), 0xc24b8b70, 0x3e246a79);
    NextState(43, Hash(0x17aa0dfe, 0xdf46652f, 0xd6670766, 0x79ea687a, 0xdecd4715, 0x838b2711, 0x26352d63,
              0x1efbc0a0), 0xc76c51a3, 0x27333ba3);
  }

  lemma States44()
    ensures StateIs(46, Hash(0x72ab4b91, 0x26628815, 0x9d4baf93, 0x17aa0dfe, 0xb7755da1, 0xa80f11f0, 0xfda24c2e,
              0xdecd4715))
  {
    States42();
    hide StateIs, WordIs, ConstantIs;
    HighWords();
    AllConstants();
    NextState(44, Hash(0x9d4baf93, 0x17aa0dfe, 0xdf46652f, 0xd6670766, 0xfda24c2e, 0xdecd4715, 0x838b2711,
              0x26352d63), 0xd192e819, 0x0c4763f2);
    NextState(45, Hash(0x26628815, 0x9d4baf93, 0x17aa0dfe, 0xdf46652f, 0xa80f11f0, 0xfda24c2e, 0xdecd4715,
              0x838b2711), 0xd6990624, 0x840abf27);
  }

  lemma States46()
    ensures StateIs(48, Hash(0x4172328d, 0xa14c14b0, 0x72ab4b91, 0x26628815, 0xfecf0bc6, 0xd57b94a9, 0xb7755da1,
              0xa80f11f0))
  {
    States44();
    hide StateIs, WordIs, ConstantIs;
    HighWords();
    AllConstants();
    NextState(46, Hash(0x72ab4b91, 0x26628815, 0x9d4baf93, 0x17aa0dfe, 0xb7755da1, 0xa80f11f0, 0xfda24c2e,
              0xdecd4715), 0xf40e3585, 0x7a290d5d);
    NextState(47, Hash(0xa14c14b0, 0x72ab4b91, 0x26628815, 0x9d4baf93, 0xd57b94a9, 0xb7755da1, 0xa80f11f0,
              0xfda24c2e), 0x106aa070, 0x065c43da);
  }

  lemma States48()
    ensures StateIs(50, Hash(0xf11bfaa8, 0x05757ceb, 0x4172328d, 0xa14c14b0, 0x6e5c390c, 0xbd714038, 0xfecf0bc6,
              0xd57b94a9))
  {
    States46();
    hide StateIs, WordIs, ConstantIs;
    HighWords();
    AllConstants();
    NextState(48, Hash(0x4172328d, 0xa14c14b0, 0x72ab4b91, 0x26628815, 0xfecf0bc6, 0xd57b94a9, 0xb7755da1,
              0xa80f11f0), 0x19a4c116, 0xfb3e89cb);
    NextState(49, Hash(0x05757ceb, 0x4172328d, 0xa14c14b0, 0x72ab4b91, 0xbd714038, 0xfecf0bc6, 0xd57b94a9,
              0xb7755da1), 0x1e376c08, 0xcc7617db);
  }

  lemma States50()
    ensures StateIs(52, Hash(0x886e7a22, 0x7a0508a1, 0xf11bfaa8, 0x05757ceb, 0x49231c1e, 0x52f1ccf7, 0x6e5c390c,
              0xbd714038))
  {
    States48();
    hide StateIs, WordIs, ConstantIs;
    HighWords();
    AllConstants();
    NextState(50, Hash(0xf11bfaa8, 0x05757ceb, 0x4172328d, 0xa14c14b0, 0x6e5c390c, 0xbd714038, 0xfecf0bc6,
              0xd57b94a9), 0x2748774c, 0xb9e66c34);
    NextState(51, Hash(0x7a0508a1, 0xf11bfaa8, 0x05757ceb, 0x4172328d, 0x52f1ccf7, 0x6e5c390c, 0xbd714038,
              0xfecf0bc6), 0x34b0bcb5, 0xa9993667);
  }

  lemma States52()
    ensures StateIs(54, Hash(0xf5702fdb, 0x101fd28f, 0x886e7a22, 0x7a0508a1, 0x9f4787c3, 0x529e7d00, 0x49231c1e,
              0x52f1ccf7))
  {
    States50();
    hide StateIs, WordIs, ConstantIs;
    HighWords();
    AllConstants();
    NextState(52, Hash(0x886e7a22, 0x7a0508a1, 0xf11bfaa8, 0x05757ceb, 0x49231c1e, 0x52f1ccf7, 0x6e5c390c,
              0xbd714038), 0x391c0cb3, 0x84badedd);
    NextState(53, Hash(0x101fd28f, 0x886e7a22, 0x7a0508a1, 0xf11bfaa8, 0x529e7d00, 0x49231c1e, 0x52f1ccf7,
              0x6e5c390c), 0x4ed8aa4a, 0xc21462bc);
  }

  lemma States54()
    ensures StateIs(56, Hash(0x38cc9913, 0x3ec45cdb, 0xf5702fdb, 0x101fd28f, 0x54cb266b, 0xe50e1b4f, 0x9f4787c3,
              0x529e7d00))
  {
    States52();
    hide StateIs, WordIs, ConstantIs;
    HighWords();
    AllConstants();
    NextState(54, Hash(0xf5702fdb, 0x101fd28f, 0x886e7a22, 0x7a0508a1, 0x9f4787c3, 0x529e7d00, 0x49231c1e,
              0x52f1ccf7), 0x5b9cca4f, 0x1487472c);
    NextState(55, Hash(0x3ec45cdb, 0xf5702fdb, 0x101fd28f, 0x886e7a22, 0xe50e1b4f, 0x9f4787c3, 0x529e7d00,
              0x49231c1e), 0x682e6ff3, 0xb20f7a99);
  }

  lemma States56()
    ensures StateIs(58, Hash(0xc062d46f, 0xfcd1887b, 0x38cc9913, 0x3ec45cdb, 0x7e44008e, 0x9b5e906c, 0x54cb266b,
              0xe50e1b4f))
  {
    States54();
    hide StateIs, WordIs, ConstantIs;
    HighWords();
    AllConstants();
    NextState(56, Hash(0x38cc9913, 0x3ec45cdb, 0xf5702fdb, 0x101fd28f, 0x54cb266b, 0xe50e1b4f, 0x9f4787c3,
              0x529e7d00), 0x748f82ee, 0xef57b9cd);
    NextState(57, Hash(0xfcd1887b, 0x38cc9913, 0x3ec45cdb, 0xf5702fdb, 0x9b5e906c, 0x54cb266b, 0xe50e1b4f,
              0x9f4787c3), 0x78a5636f, 0xebe6b238);
  }

  lemma States58()
    ensures StateIs(60, Hash(0xb6ae8fff, 0xffb70472, 0xc062d46f, 0xfcd1887b, 0xb21bad3d, 0x6d83bfc6, 0x7e44008e,
              0x9b5e906c))
  {
    States56();
    hide StateIs, WordIs, ConstantIs;
    HighWords();
    AllConstants();
    NextState(58, Hash(0xc062d46f, 0xfcd1887b, 0x38cc9913, 0x3ec45cdb, 0x7e44008e, 0x9b5e906c, 0x54cb266b,
              0xe50e1b4f), 0x84c87814, 0x9fe3095e);
    NextState(59, Hash(0xffb70472, 0xc062d46f, 0xfcd1887b, 0x38cc9913, 0x6d83bfc6, 0x7e44008e, 0x9b5e906c,
              0x54cb266b), 0x8cc70208, 0x78bc8d4b);
  }

  lemma States60()
    ensures StateIs(62, Hash(0x04d24d6c, 0xb85e2ce9, 0xb6ae8fff, 0xffb70472, 0x948d25b6, 0x961f4894, 0xb21bad3d,
              0x6d83bfc6))
  {
    States58();
    hide StateIs, WordIs, ConstantIs;
    HighWords();
    AllConstants();
    NextState(60, Hash(0xb6ae8fff, 0xffb70472, 0xc062d46f, 0xfcd1887b, 0xb21bad3d, 0x6d83bfc6, 0x7e44008e,
              0x9b5e906c), 0x90befffa, 0xa43fcf15);
    NextState(61, Hash(0xb85e2ce9, 0xb6ae8fff, 0xffb70472, 0xc062d46f, 0x961f4894, 0xb21bad3d, 0x6d83bfc6,
              0x7e44008e), 0xa4506ceb, 0x668b2ff8);
  }

  lemma States62()
    ensures StateIs(64, Hash(0x506e3058, 0xd39a2165, 0x04d24d6c, 0xb85e2ce9, 0x5ef50f24, 0xfb121210, 0x948d25b6,
              0x961f4894))
  {
    States60();
    hide StateIs, WordIs, ConstantIs;
    HighWords();
    AllConstants();
    NextState(62, Hash(0x04d24d6c, 0xb85e2ce9, 0xb6ae8fff, 0xffb70472, 0x948d25b6, 0x961f4894, 0xb21bad3d,
              0x6d83bfc6), 0xbef9a3f7, 0xeeaba2cc);
    NextState(63, Hash(0xd39a2165, 0x04d24d6c, 0xb85e2ce9, 0xb6ae8fff, 0xfb121210, 0x948d25b6, 0x961f4894,
              0xb21bad3d), 0xc67178f2, 0x12b1edeb);
  }

  // ------------------------------------------------------------------------ the digest

  lemma AbcHash()
    ensures HashBlocks(BITS, H0, K, Padded(ABC))
         == Hash(0xba7816bf, 0x8f01cfea, 0x414140de, 0x5dae2223, 0xb00361a3, 0x96177a9c, 0xb410ff61, 0xf20015ad)
  {
    AbcBlock();
    States62();
    var m := Padded(ABC);
    assert m[..64] == m && m[64..] == [];
  }

  lemma Powers()
    ensures Pow16(0) == 1 && Pow16(1) == 0x10 && Pow16(2) == 0x100 && Pow16(3) == 0x1000
    ensures Pow16(4) == 0x1_0000 && Pow16(5) == 0x10_0000 && Pow16(6) == 0x100_0000 && Pow16(7) == 0x1000_0000
  {
  }

  lemma Printed0()
    ensures HexWord(0xba7816bf) == "ba7816bf"
  {
    HexWordDigits(0xba7816bf);
    Powers();
  }

  lemma Printed1()
    ensures HexWord(0x8f01cfea) == "8f01cfea"
  {
    HexWordDigits(0x8f01cfea);
    Powers();
  }

  lemma Printed2()
    ensures HexWord(0x414140de) == "414140de"
  {
    HexWordDigits(0x414140de);
    Powers();
  }

  lemma Printed3()
    ensures HexWord(0x5dae2223) == "5dae2223"
  {
    HexWordDigits(0x5dae2223);
    Powers();
  }

  lemma Printed4()
    ensures HexWord(0xb00361a3) == "b00361a3"
  {
    HexWordDigits(0xb00361a3);
    Powers();
  }

  lemma Printed5()
    ensures HexWord(0x96177a9c) == "96177a9c"
  {
    HexWordDigits(0x96177a9c);
    Powers();
  }

  lemma Printed6()
    ensures HexWord(0xb410ff61) == "b410ff61"
  {
    HexWordDigits(0xb410ff61);
    Powers();
  }

  lemma Printed7()
    ensures HexWord(0xf20015ad) == "f20015ad"
  {
    HexWordDigits(0xf20015ad);
    Powers();
  }

  /** The digest of "abc". */
  lemma DigestOfAbc()
    ensures Digest(ABC) == "ba7816bf" + "8f01cfea" + "414140de" + "5dae2223" + "b00361a3" + "96177a9c" + "b410ff61" +
              "f20015ad"
  {
    AbcHash();
    hide HexWord;
    Printed0();
    Printed1();
    Printed2();
    Printed3();
    Printed4();
    Printed5();
    Printed6();
    Printed7();
  }
}
