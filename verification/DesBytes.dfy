/** What the chaining routines make of bytes, in terms of the cipher of the standard alone. */
module DesBytes {
  import opened DesRounds
  import opened DesBits
  import opened DesStandard
  import opened DesBlock
  import opened DesChaining

  // ---------- bytes and bits ----------

  /** Bit `i` of a byte, the least significant one being bit 0. */
  predicate ByteBit(a: Byte, i: nat)
    requires i < 8
  {
    Meets(a as Word, Low(i))
  }

  /** The bits of a string of bytes, the most significant bit of each byte first. */
  function BytesBits(s: seq<Byte>): (b: Bits)
    ensures |b| == 8 * |s|
  {
    seq(8 * |s|, n requires 0 <= n < 8 * |s| => ByteBit(s[n / 8], 7 - n % 8))
  }

  function XorByte(a: Byte, b: Byte): Byte {
    a ^ b
  }

  function XorBytes(s: seq<Byte>, t: seq<Byte>): (x: seq<Byte>)
    requires |s| <= |t|
    ensures |x| == |s|
  {
    seq(|s|, j requires 0 <= j < |s| => XorByte(s[j], t[j]))
  }

  /** Eight bytes from `p` on, zero where there is none. */
  function Eight(s: seq<Byte>, p: nat): (e: seq<Byte>)
    ensures |e| == 8
  {
    seq(8, j requires 0 <= j < 8 => ByteAt(s, p + j))
  }

  // ---------- the cipher and the chaining on bits ----------

  /** The block cipher, with one schedule or three. */
  function StandardWith(k: Keyed, b: Bits, encrypt: bool): (p: Bits)
    requires |b| == 64
    ensures |p| == 64
  {
    match k
    case Single(c) => Standard(c, b, encrypt)
    case Triple(c1, c2, c3) =>
      if encrypt then Standard(c3, Standard(c2, Standard(c1, b, true), false), true)
      else Standard(c1, Standard(c2, Standard(c3, b, false), true), false)
  }

  /** The block that block `i` is chained with: the ciphertext before it, and the initial vector for the first. */
  function Before(iv: seq<Byte>, c: seq<Byte>, i: nat): (b: seq<Byte>)
    requires |iv| == 8 && 8 * i <= |c|
    ensures |b| == 8
  {
    if i == 0 then iv else c[8 * i - 8..8 * i]
  }

  /** Ciphertext block `i` is the cipher of the plaintext bytes, filled up with zeros, xored with the block before. */
  predicate EncipheredAt(k: Keyed, iv: seq<Byte>, p: seq<Byte>, c: seq<Byte>, i: nat)
    requires |iv| == 8
  {
    8 * i + 8 <= |c| &&
    BytesBits(c[8 * i..8 * i + 8]) == StandardWith(k, BytesBits(XorBytes(Eight(p, 8 * i), Before(iv, c, i))), true)
  }

  /** `c` is the ciphertext of `p` under cipher block chaining. */
  ghost predicate Enciphers(k: Keyed, iv: seq<Byte>, p: seq<Byte>, c: seq<Byte>)
    requires |iv| == 8
  {
    && |c| % 8 == 0 && |p| <= |c| < |p| + 8
    && forall i :: 0 <= i < |c| / 8 ==> EncipheredAt(k, iv, p, c, i)
  }

  function PartEnd(n: nat, i: nat): (e: nat)
    requires 8 * i <= n
    ensures 8 * i <= e <= n
  {
    if 8 * i + 8 <= n then 8 * i + 8 else n
  }

  /** Plaintext block `i`, which may be short, xored with the block before is what the cipher makes of block `i`. */
  predicate DecipheredAt(k: Keyed, iv: seq<Byte>, c: seq<Byte>, p: seq<Byte>, i: nat)
    requires |iv| == 8
  {
    8 * i <= |p| && 8 * i + 8 <= |c| &&
    BytesBits(XorBytes(p[8 * i..PartEnd(|p|, i)], Before(iv, c, i)))
    <= StandardWith(k, BytesBits(c[8 * i..8 * i + 8]), false)
  }

  /** `p` is the plaintext of `c` under cipher block chaining. */
  ghost predicate Deciphers(k: Keyed, iv: seq<Byte>, c: seq<Byte>, p: seq<Byte>)
    requires |iv| == 8
  {
    && |c| % 8 == 0 && |p| <= |c| < |p| + 8
    && forall i :: 0 <= i < |c| / 8 ==> DecipheredAt(k, iv, c, p, i)
  }

  // ---------- words take their bytes least significant first ----------

  lemma LoadMeets(a: Byte, b: Byte, c: Byte, d: Byte, l: Word)
    requires l <= 0x80
    ensures var w := LoadWord(a, b, c, d);
      && Meets(w, l) == Meets(a as Word, l) && Meets(w, l << 8) == Meets(b as Word, l)
      && Meets(w, l << 16) == Meets(c as Word, l) && Meets(w, l << 24) == Meets(d as Word, l)
  {
  }

  lemma LowBound(i: nat)
    requires i < 8
    ensures Low(i) <= 0x80
  {
  }

  lemma LoadBit(a: Byte, b: Byte, c: Byte, d: Byte, i: nat)
    requires i < 8
    ensures var w := LoadWord(a, b, c, d);
      && Bit(w, i) == ByteBit(a, i) && Bit(w, 8 + i) == ByteBit(b, i)
      && Bit(w, 16 + i) == ByteBit(c, i) && Bit(w, 24 + i) == ByteBit(d, i)
  {
    hide Meets, LoadWord, Low;
    LowBound(i);
    LoadMeets(a, b, c, d, Low(i));
  }

  lemma Second(w: Word, b: Byte)
    requires w < 0x100
    ensures var v := w | ((b as Word) << 8); v < 0x1_0000 && v as int == w as int + 0x100 * b as int
  {
  }

  lemma Third(w: Word, c: Byte)
    requires w < 0x1_0000
    ensures var v := w | ((c as Word) << 16); v < 0x100_0000 && v as int == w as int + 0x1_0000 * c as int
  {
  }

  lemma Fourth(w: Word, d: Byte)
    requires w < 0x100_0000
    ensures (w | ((d as Word) << 24)) as int == w as int + 0x100_0000 * d as int
  {
  }

  /** A word takes its bytes least significant first. */
  lemma WordValue(a: Byte, b: Byte, c: Byte, d: Byte)
    ensures LoadWord(a, b, c, d) as int == a as int + 0x100 * b as int + 0x1_0000 * c as int + 0x100_0000 * d as int
  {
    var w := a as Word;
    var v := w | ((b as Word) << 8);
    Second(w, b);
    Third(v, c);
    Fourth(v | ((c as Word) << 16), d);
  }

  lemma LoadBitsAt(s: seq<Byte>, h: nat, g: nat)
    requires |s| == 8 && h < 8 && g < 8
    ensures Bit(if h < 4 then Load(s).d0 else Load(s).d1, h % 4 * 8 + g) == ByteBit(s[h], g)
  {
    hide Bit, ByteBit, LoadWord;
    if h < 4 {
      LoadBit(s[0], s[1], s[2], s[3], g);
    } else {
      LoadBit(s[4], s[5], s[6], s[7], g);
    }
  }

  lemma LoadBits(s: seq<Byte>)
    requires |s| == 8
    ensures BlockBits(Load(s)) == BytesBits(s)
  {
    hide Bit, ByteBit, Place, Load, BlockBits, BytesBits;
    forall n | 0 <= n < 64
      ensures BlockBits(Load(s))[n] == BytesBits(s)[n]
    {
      var h, g := n / 8, n % 8;
      assert n == 8 * h + g;
      PlaceOf(h, g);
      BitOfBlock(Load(s), n);
      BitOfBytes(s, n);
      LoadBitsAt(s, h, 7 - g);
    }
  }

  lemma BitOfBytes(s: seq<Byte>, n: nat)
    requires n < 8 * |s|
    ensures BytesBits(s)[n] == ByteBit(s[n / 8], 7 - n % 8)
  {
    hide ByteBit;
  }

  lemma StoreBits(b: Block)
    ensures BytesBits(Store(b)) == BlockBits(b)
  {
    hide Load, Store, BlockBits, BytesBits;
    LoadStore(b);
    LoadBits(Store(b));
  }

  lemma LoadWordXor(a: Byte, b: Byte, c: Byte, d: Byte, a': Byte, b': Byte, c': Byte, d': Byte)
    ensures LoadWord(XorByte(a, a'), XorByte(b, b'), XorByte(c, c'), XorByte(d, d')) ==
      Sum(LoadWord(a, b, c, d), LoadWord(a', b', c', d'))
  {
  }

  lemma LoadXor(s: seq<Byte>, t: seq<Byte>)
    requires |s| == |t| == 8
    ensures Load(XorBytes(s, t)) == Xor(Load(s), Load(t))
  {
    hide LoadWord, XorByte, Sum;
    LoadWordXor(s[0], s[1], s[2], s[3], t[0], t[1], t[2], t[3]);
    LoadWordXor(s[4], s[5], s[6], s[7], t[4], t[5], t[6], t[7]);
  }

  lemma ByteXorTwice(a: Byte, b: Byte)
    ensures XorByte(XorByte(a, b), b) == a
  {
  }

  lemma XorBytesTwice(s: seq<Byte>, t: seq<Byte>)
    requires |s| <= |t|
    ensures XorBytes(XorBytes(s, t), t) == s
  {
    hide XorByte;
    forall j | 0 <= j < |s|
      ensures XorBytes(XorBytes(s, t), t)[j] == s[j]
    {
      ByteXorTwice(s[j], t[j]);
    }
  }

  lemma StoreXor(a: Block, t: seq<Byte>)
    requires |t| == 8
    ensures Store(Xor(a, Load(t))) == XorBytes(Store(a), t)
  {
    hide Load, Store, XorBytes, Xor;
    var x := XorBytes(Store(a), t);
    LoadStore(a);
    LoadXor(Store(a), t);
    StoreLoad(x);
    assert Store(Load(x))[..8] == Store(Load(x));
  }

  // ---------- encryption ----------

  lemma EncryptBits(k: Keyed, b: Block)
    ensures BlockBits(EncryptWith(k, b)) == StandardWith(k, BlockBits(b), true)
  {
    hide Crypt, Encrypt3, Standard, BlockBits;
    match k
    case Single(c) => CryptStandard(c, b, true);
    case Triple(c1, c2, c3) => TripleStandard(c1, c2, c3, b);
  }

  lemma FirstEnciphered(k: Keyed, iv: seq<Byte>, m: seq<Byte>, n: nat)
    requires |iv| == 8 && n == FirstPart(m)
    ensures BytesBits(Store(EncryptWith(k, Xor(Load(m[..n]), Load(iv))))) ==
      StandardWith(k, BytesBits(XorBytes(Eight(m, 0), iv)), true)
  {
    hide EncryptWith, StandardWith, Xor, LoadWord, Store, BlockBits, BytesBits;
    var e := Eight(m, 0);
    assert Load(m[..n]) == Load(e);
    LoadXor(e, iv);
    LoadBits(XorBytes(e, iv));
    EncryptBits(k, Load(XorBytes(e, iv)));
    StoreBits(EncryptWith(k, Load(XorBytes(e, iv))));
  }

  lemma LaterBlock(b: seq<Byte>, c: seq<Byte>, i: nat)
    requires |b| == 8 && 8 * i + 8 <= |c|
    ensures (b + c)[8 * (i + 1)..8 * (i + 1) + 8] == c[8 * i..8 * i + 8]
  {
  }

  lemma LaterBefore(iv: seq<Byte>, b: seq<Byte>, c: seq<Byte>, i: nat)
    requires |iv| == |b| == 8 && 8 * i <= |c|
    ensures Before(iv, b + c, i + 1) == Before(b, c, i)
  {
    if i == 0 {
      assert (b + c)[0..8] == b;
    } else {
      assert (b + c)[8 * i..8 * i + 8] == c[8 * i - 8..8 * i];
    }
  }

  lemma LaterEight(m: seq<Byte>, p: nat)
    requires |m| >= 8
    ensures Eight(m, 8 + p) == Eight(m[8..], p)
  {
    forall j | 0 <= j < 8
      ensures Eight(m, 8 + p)[j] == Eight(m[8..], p)[j]
    {
      assert Eight(m, 8 + p)[j] == ByteAt(m, 8 + p + j) && Eight(m[8..], p)[j] == ByteAt(m[8..], p + j);
    }
  }

  /** A ciphertext that goes on after the first block goes on as its own chain, started by that block. */
  lemma LaterEnciphered(k: Keyed, iv: seq<Byte>, m: seq<Byte>, b: seq<Byte>, c: seq<Byte>, i: nat)
    requires |iv| == |b| == 8 && |m| >= 8 && EncipheredAt(k, b, m[8..], c, i)
    ensures EncipheredAt(k, iv, m, b + c, i + 1)
  {
    hide StandardWith, XorBytes, BytesBits, Before, Eight;
    LaterBlock(b, c, i);
    LaterBefore(iv, b, c, i);
    LaterEight(m, 8 * i);
  }

  lemma BeforeEnd(iv: seq<Byte>, b: seq<Byte>, c: seq<Byte>, i: nat)
    requires |iv| == |b| == 8 && |c| == 8 * i
    ensures |c| / 8 == i && |b + c| / 8 == i + 1
    ensures Before(iv, b + c, |b + c| / 8) == Before(b, c, |c| / 8)
  {
    hide Before;
    LaterBefore(iv, b, c, i);
  }

  lemma EnciphersOn(k: Keyed, iv: seq<Byte>, m: seq<Byte>, b: seq<Byte>, c: seq<Byte>)
    requires |iv| == |b| == 8 && m != [] && EncipheredAt(k, iv, m, b + c, 0)
    requires Enciphers(k, b, if |m| < 8 then [] else m[8..], c)
    ensures Enciphers(k, iv, m, b + c)
    ensures Before(iv, b + c, |b + c| / 8) == Before(b, c, |c| / 8)
  {
    hide EncipheredAt, Before;
    BeforeEnd(iv, b, c, |c| / 8);
    forall i | 0 < i < |c| / 8 + 1
      ensures EncipheredAt(k, iv, m, b + c, i)
    {
      LaterEnciphered(k, iv, m, b, c, i - 1);
    }
  }

  lemma EncryptNothing(k: Keyed, iv: seq<Byte>)
    requires |iv| == 8
    ensures var r := CbcEncrypt(k, Load(iv), []);
      r.out == [] && Enciphers(k, iv, [], []) && Store(r.last) == Before(iv, [], 0)
  {
    hide Load, Store, EncipheredAt, Before;
    EmptyChain(iv);
  }

  lemma EncryptFirst(k: Keyed, iv: Block, m: seq<Byte>)
    requires m != []
    ensures var n := FirstPart(m);
      var b := EncryptWith(k, Xor(Load(m[..n]), iv));
      var r := CbcEncrypt(k, b, m[n..]);
      CbcEncrypt(k, iv, m) == Chained(Store(b) + r.out, r.last)
    ensures m[FirstPart(m)..] == if |m| < 8 then [] else m[8..]
  {
    hide EncryptWith, Xor, Load, Store;
  }

  /** Encryption chains blocks for every length, and leaves the last ciphertext block to go on with. */
  lemma {:induction false} EncryptChains(k: Keyed, iv: seq<Byte>, m: seq<Byte>)
    requires |iv| == 8
    ensures var r := CbcEncrypt(k, Load(iv), m);
      Enciphers(k, iv, m, r.out) && Store(r.last) == Before(iv, r.out, |r.out| / 8)
    decreases |m|
  {
    hide EncryptWith, Xor, Load, Store, CbcEncrypt, EncipheredAt, Enciphers, Before;
    if m == [] {
      EncryptNothing(k, iv);
    } else {
      var n := FirstPart(m);
      var b := EncryptWith(k, Xor(Load(m[..n]), Load(iv)));
      LoadStore(b);
      EncryptFirst(k, Load(iv), m);
      EncryptChains(k, Store(b), m[n..]);
      var c := CbcEncrypt(k, b, m[n..]).out;
      FirstOfChain(k, iv, m, n, c);
      EnciphersOn(k, iv, m, Store(b), c);
    }
  }

  lemma EmptyChain(iv: seq<Byte>)
    requires |iv| == 8
    ensures Store(Load(iv)) == Before(iv, [], 0)
  {
    hide Load, Store;
    StoreLoad(iv);
    assert Store(Load(iv))[..8] == Store(Load(iv));
  }

  lemma FirstOfChain(k: Keyed, iv: seq<Byte>, m: seq<Byte>, n: nat, c: seq<Byte>)
    requires |iv| == 8 && n == FirstPart(m)
    ensures EncipheredAt(k, iv, m, Store(EncryptWith(k, Xor(Load(m[..n]), Load(iv)))) + c, 0)
  {
    hide EncryptWith, StandardWith, Xor, Load, Store, XorBytes, BytesBits;
    var b := Store(EncryptWith(k, Xor(Load(m[..n]), Load(iv))));
    FirstEnciphered(k, iv, m, n);
    assert (b + c)[0..8] == b;
  }

  // ---------- decryption ----------

  lemma DecryptBits(k: Keyed, b: Block)
    ensures BlockBits(DecryptWith(k, b)) == StandardWith(k, BlockBits(b), false)
  {
    hide Crypt, Decrypt3, Standard, BlockBits;
    match k
    case Single(c) => CryptStandard(c, b, false);
    case Triple(c1, c2, c3) => TripleStandard(c1, c2, c3, b);
  }

  lemma PartOfBits(s: seq<Byte>, n: nat)
    requires n <= |s|
    ensures BytesBits(s[..n]) <= BytesBits(s)
  {
    hide ByteBit;
  }

  lemma FirstDeciphered(k: Keyed, iv: seq<Byte>, x: seq<Byte>, n: nat)
    requires |iv| == |x| == 8 && n <= 8
    ensures var p := Store(Xor(DecryptWith(k, Load(x)), Load(iv)))[..n];
      BytesBits(XorBytes(p, iv)) <= StandardWith(k, BytesBits(x), false)
  {
    hide DecryptWith, StandardWith, Xor, Load, Store, BlockBits, BytesBits;
    var d := DecryptWith(k, Load(x));
    StoreXor(d, iv);
    XorBytesTwice(Store(d), iv);
    assert XorBytes(XorBytes(Store(d), iv)[..n], iv) == Store(d)[..n];
    PartOfBits(Store(d), n);
    StoreBits(d);
    DecryptBits(k, Load(x));
    LoadBits(x);
  }

  lemma LaterPart(q: seq<Byte>, p: seq<Byte>, i: nat)
    requires |q| == 8 && 8 * i <= |p|
    ensures (q + p)[8 * (i + 1)..PartEnd(|q + p|, i + 1)] == p[8 * i..PartEnd(|p|, i)]
  {
  }

  lemma LaterDeciphered(k: Keyed, iv: seq<Byte>, b: seq<Byte>, c: seq<Byte>, q: seq<Byte>, p: seq<Byte>, i: nat)
    requires |iv| == |b| == |q| == 8 && DecipheredAt(k, b, c, p, i)
    ensures DecipheredAt(k, iv, b + c, q + p, i + 1)
  {
    hide StandardWith, XorBytes, BytesBits, Before, PartEnd;
    LaterBlock(b, c, i);
    LaterBefore(iv, b, c, i);
    LaterPart(q, p, i);
  }

  lemma FirstOfPlain(k: Keyed, iv: seq<Byte>, c: seq<Byte>, n: nat, p: seq<Byte>)
    requires |iv| == 8 && |c| >= 8 && n <= 8 && (n < 8 ==> p == [])
    ensures DecipheredAt(k, iv, c, Store(Xor(DecryptWith(k, Load(c[..8])), Load(iv)))[..n] + p, 0)
  {
    hide DecryptWith, StandardWith, Xor, Load, Store, XorBytes, BytesBits;
    var q := Store(Xor(DecryptWith(k, Load(c[..8])), Load(iv)))[..n];
    FirstDeciphered(k, iv, c[..8], n);
    assert (q + p)[0..PartEnd(|q + p|, 0)] == q;
    assert c[0..8] == c[..8];
  }

  lemma DecryptNothing(k: Keyed, iv: seq<Byte>)
    requires |iv| == 8
    ensures var r := CbcDecrypt(k, Load(iv), [], 0);
      r.out == [] && Deciphers(k, iv, [], []) && Store(r.last) == Before(iv, [], 0)
  {
    hide Load, Store, DecipheredAt, Before;
    EmptyChain(iv);
  }

  lemma DecryptFirst(k: Keyed, iv: Block, c: seq<Byte>, n: nat)
    requires |c| == RoundUp(n) && n > 0
    ensures var n' := if n < 8 then 0 else n - 8;
      var q := Store(Xor(DecryptWith(k, Load(c[..8])), iv))[..n - n'];
      var r := CbcDecrypt(k, Load(c[..8]), c[8..], n');
      CbcDecrypt(k, iv, c, n) == Chained(q + r.out, r.last)
  {
    hide DecryptWith, Xor, Load, Store;
    var q := Store(Xor(DecryptWith(k, Load(c[..8])), iv));
    assert q[..8] == q && q[..n - if n < 8 then 0 else n - 8] + [] == q[..n - if n < 8 then 0 else n - 8];
  }

  lemma DeciphersOn(k: Keyed, iv: seq<Byte>, b: seq<Byte>, c: seq<Byte>, q: seq<Byte>, p: seq<Byte>)
    requires |iv| == |b| == 8 && 0 < |q| <= 8 && (|q| < 8 ==> c == [])
    requires Deciphers(k, b, c, p) && DecipheredAt(k, iv, b + c, q + p, 0)
    ensures Deciphers(k, iv, b + c, q + p)
    ensures Before(iv, b + c, |b + c| / 8) == Before(b, c, |c| / 8)
  {
    hide DecipheredAt, Before;
    BeforeEnd(iv, b, c, |c| / 8);
    forall i | 0 < i < |c| / 8 + 1
      ensures DecipheredAt(k, iv, b + c, q + p, i)
    {
      LaterDeciphered(k, iv, b, c, q, p, i - 1);
    }
  }

  /** Decryption undoes the chaining, for every length, and leaves the last ciphertext block. */
  lemma {:induction false} DecryptChains(k: Keyed, iv: seq<Byte>, c: seq<Byte>, n: nat)
    requires |iv| == 8 && |c| == RoundUp(n)
    ensures var r := CbcDecrypt(k, Load(iv), c, n);
      Deciphers(k, iv, c, r.out) && Store(r.last) == Before(iv, c, |c| / 8)
    decreases n
  {
    hide DecryptWith, Xor, Load, Store, CbcDecrypt, DecipheredAt, Deciphers, Before;
    if n == 0 {
      DecryptNothing(k, iv);
    } else {
      var b := c[..8];
      var n' := if n < 8 then 0 else n - 8;
      var q := Store(Xor(DecryptWith(k, Load(b)), Load(iv)))[..n - n'];
      var p := CbcDecrypt(k, Load(b), c[8..], n').out;
      DecryptFirst(k, Load(iv), c, n);
      DecryptChains(k, b, c[8..], n');
      assert c == b + c[8..];
      FirstOfPlain(k, iv, c, n - n', p);
      DeciphersOn(k, iv, b, c[8..], q, p);
    }
  }
}
