/** Cipher block chaining over byte strings of any length, as values. */
module DesChaining {
  import opened DesRounds
  import opened DesBlock

  type Byte = bv8

  /** One schedule, or three for encrypt-decrypt-encrypt. */
  datatype Keyed = Single(c: Cipher) | Triple(c1: Cipher, c2: Cipher, c3: Cipher)

  function EncryptWith(k: Keyed, b: Block): Block {
    match k
    case Single(c) => Crypt(c, b, true)
    case Triple(c1, c2, c3) => Encrypt3(c1, c2, c3, b)
  }

  function DecryptWith(k: Keyed, b: Block): Block {
    match k
    case Single(c) => Crypt(c, b, false)
    case Triple(c1, c2, c3) => Decrypt3(c1, c2, c3, b)
  }

  lemma DecryptsBack(k: Keyed, b: Block)
    ensures DecryptWith(k, EncryptWith(k, b)) == b
  {
    hide Crypt, Encrypt3, Decrypt3;
    match k
    case Single(c) => CryptInverse(c, b, true);
    case Triple(c1, c2, c3) => TripleInverse(c1, c2, c3, b);
  }

  function Xor(a: Block, b: Block): Block {
    Block(Sum(a.d0, b.d0), Sum(a.d1, b.d1))
  }

  lemma XorTwice(a: Block, b: Block)
    ensures Xor(Xor(a, b), b) == a
  {
  }

  // ---------- bytes and words ----------

  function LoadWord(a: Byte, b: Byte, c: Byte, d: Byte): Word {
    (a as Word) | ((b as Word) << 8) | ((c as Word) << 16) | ((d as Word) << 24)
  }

  function ByteOf(w: Word, n: Word): Byte
    requires n <= 24
  {
    ((w >> n) & 0xff) as Byte
  }

  lemma WordBytes(a: Byte, b: Byte, c: Byte, d: Byte)
    ensures var w := LoadWord(a, b, c, d);
      ByteOf(w, 0) == a && ByteOf(w, 8) == b && ByteOf(w, 16) == c && ByteOf(w, 24) == d
  {
  }

  lemma BytesWord(w: Word)
    ensures LoadWord(ByteOf(w, 0), ByteOf(w, 8), ByteOf(w, 16), ByteOf(w, 24)) == w
  {
  }

  function ByteAt(s: seq<Byte>, i: nat): Byte {
    if i < |s| then s[i] else 0
  }

  /** Up to eight bytes, least significant first; missing ones count as zero. */
  function Load(s: seq<Byte>): Block {
    Block(LoadWord(ByteAt(s, 0), ByteAt(s, 1), ByteAt(s, 2), ByteAt(s, 3)),
          LoadWord(ByteAt(s, 4), ByteAt(s, 5), ByteAt(s, 6), ByteAt(s, 7)))
  }

  function Store(b: Block): (s: seq<Byte>)
    ensures |s| == 8
  {
    [ByteOf(b.d0, 0), ByteOf(b.d0, 8), ByteOf(b.d0, 16), ByteOf(b.d0, 24),
     ByteOf(b.d1, 0), ByteOf(b.d1, 8), ByteOf(b.d1, 16), ByteOf(b.d1, 24)]
  }

  lemma LoadStore(b: Block)
    ensures Load(Store(b)) == b
  {
    hide LoadWord, ByteOf;
    BytesWord(b.d0);
    BytesWord(b.d1);
  }

  /** Storing a loaded block gives its bytes back, however many there were. */
  lemma StoreLoad(s: seq<Byte>)
    requires |s| <= 8
    ensures Store(Load(s))[..|s|] == s
  {
    hide LoadWord, ByteOf;
    WordBytes(ByteAt(s, 0), ByteAt(s, 1), ByteAt(s, 2), ByteAt(s, 3));
    WordBytes(ByteAt(s, 4), ByteAt(s, 5), ByteAt(s, 6), ByteAt(s, 7));
  }

  // ---------- chaining ----------

  /** The bytes that whole blocks for `n` bytes take. */
  function RoundUp(n: nat): (r: nat)
    ensures n <= r < n + 8
  {
    if n == 0 then 0 else if n < 8 then 8 else 8 + RoundUp(n - 8)
  }

  predicate WholeBlocks(n: nat) {
    RoundUp(n) == n
  }

  lemma {:induction false} WholeBlocksAre(n: nat)
    ensures WholeBlocks(n) <==> n % 8 == 0
    ensures RoundUp(n) % 8 == 0
  {
    if n >= 8 {
      WholeBlocksAre(n - 8);
    }
  }

  /** The output and the chaining block that is left at the end. */
  datatype Chained = Chained(out: seq<Byte>, last: Block)

  function FirstPart(m: seq<Byte>): (n: nat)
    ensures n <= |m| && n <= 8 && (n == 0 <==> m == [])
  {
    if |m| < 8 then |m| else 8
  }

  function CbcEncrypt(k: Keyed, iv: Block, m: seq<Byte>): (r: Chained)
    ensures |r.out| == RoundUp(|m|)
    decreases |m|
  {
    if m == [] then Chained([], iv)
    else
      var n := FirstPart(m);
      var b := EncryptWith(k, Xor(Load(m[..n]), iv));
      var r := CbcEncrypt(k, b, m[n..]);
      Chained(Store(b) + r.out, r.last)
  }

  function CbcDecrypt(k: Keyed, iv: Block, c: seq<Byte>, n: nat): (r: Chained)
    requires |c| == RoundUp(n)
    ensures |r.out| == n
    decreases n
  {
    if n == 0 then Chained([], iv)
    else
      var x := Load(c[..8]);
      var b := Xor(DecryptWith(k, x), iv);
      if n < 8 then Chained(Store(b)[..n], x)
      else
        var r := CbcDecrypt(k, x, c[8..], n - 8);
        Chained(Store(b) + r.out, r.last)
  }

  /** Decryption undoes encryption for every length, key and chaining block, and both leave the same chaining block. */
  lemma {:induction false} CbcRoundTrip(k: Keyed, iv: Block, m: seq<Byte>)
    ensures var e := CbcEncrypt(k, iv, m);
      CbcDecrypt(k, iv, e.out, |m|) == Chained(m, e.last)
    decreases |m|
  {
    hide Store, Load, Xor, EncryptWith, DecryptWith;
    if m != [] {
      var n := FirstPart(m);
      var p := Load(m[..n]);
      var b := EncryptWith(k, Xor(p, iv));
      var r := CbcEncrypt(k, b, m[n..]);
      var c := Store(b) + r.out;
      CbcRoundTrip(k, b, m[n..]);
      assert c[..8] == Store(b) && c[8..] == r.out;
      LoadStore(b);
      DecryptsBack(k, Xor(p, iv));
      XorTwice(p, iv);
      StoreLoad(m[..n]);
      assert m[..n] + m[n..] == m;
    }
  }

  lemma {:induction false} RoundUpSum(a: nat, n: nat)
    requires WholeBlocks(a)
    ensures RoundUp(a + n) == a + RoundUp(n)
  {
    if a > 0 {
      RoundUpSum(a - 8, n);
    }
  }

  lemma CbcFirstBlock(k: Keyed, iv: Block, m: seq<Byte>)
    requires |m| >= 8
    ensures var b := EncryptWith(k, Xor(Load(m[..8]), iv));
      var r := CbcEncrypt(k, b, m[8..]);
      CbcEncrypt(k, iv, m) == Chained(Store(b) + r.out, r.last)
  {
    hide Store, Load, Xor, EncryptWith;
  }

  lemma Associates(a: seq<Byte>, b: seq<Byte>, c: seq<Byte>)
    ensures (a + b) + c == a + (b + c)
  {
  }

  /** Two calls, cut at a multiple of eight and with the chaining block carried over, equal one. */
  lemma {:induction false} CbcEncryptSplit(k: Keyed, iv: Block, a: seq<Byte>, b: seq<Byte>)
    requires WholeBlocks(|a|)
    ensures var x := CbcEncrypt(k, iv, a);
      var y := CbcEncrypt(k, x.last, b);
      CbcEncrypt(k, iv, a + b) == Chained(x.out + y.out, y.last)
    decreases |a|
  {
    hide Store, Load, Xor, EncryptWith, CbcEncrypt;
    if a == [] {
      CbcNothing(k, iv);
      assert a + b == b;
    } else {
      var iv' := EncryptWith(k, Xor(Load(a[..8]), iv));
      CbcEncryptSplit(k, iv', a[8..], b);
      assert (a + b)[..8] == a[..8] && (a + b)[8..] == a[8..] + b;
      SplitStep(k, iv, a, b, iv');
    }
  }

  lemma CbcNothing(k: Keyed, iv: Block)
    ensures CbcEncrypt(k, iv, []) == Chained([], iv)
  {
  }

  lemma SplitStep(k: Keyed, iv: Block, a: seq<Byte>, b: seq<Byte>, iv': Block)
    requires |a| >= 8 && iv' == EncryptWith(k, Xor(Load(a[..8]), iv)) && (a + b)[..8] == a[..8]
    requires (a + b)[8..] == a[8..] + b
    requires var x := CbcEncrypt(k, iv', a[8..]);
      var y := CbcEncrypt(k, x.last, b);
      CbcEncrypt(k, iv', a[8..] + b) == Chained(x.out + y.out, y.last)
    ensures var x := CbcEncrypt(k, iv, a);
      var y := CbcEncrypt(k, x.last, b);
      CbcEncrypt(k, iv, a + b) == Chained(x.out + y.out, y.last)
  {
    hide Store, Load, Xor, EncryptWith, CbcEncrypt;
    CbcFirstBlock(k, iv, a);
    CbcFirstBlock(k, iv, a + b);
    var x := CbcEncrypt(k, iv', a[8..]);
    Associates(Store(iv'), x.out, CbcEncrypt(k, x.last, b).out);
  }

  /** Decryption that goes on with `b` where `x` has ended. */
  function GoOn(k: Keyed, x: Chained, b: seq<Byte>, n: nat): Chained
    requires |b| == RoundUp(n)
  {
    var y := CbcDecrypt(k, x.last, b, n);
    Chained(x.out + y.out, y.last)
  }

  lemma {:induction false} CbcDecryptSplit(k: Keyed, iv: Block, a: seq<Byte>, b: seq<Byte>, n: nat)
    requires WholeBlocks(|a|) && |b| == RoundUp(n)
    ensures |a + b| == RoundUp(|a| + n)
    ensures CbcDecrypt(k, iv, a + b, |a| + n) == GoOn(k, CbcDecrypt(k, iv, a, |a|), b, n)
    decreases |a|
  {
    hide Store, Load, Xor, DecryptWith;
    RoundUpSum(|a|, n);
    if a == [] {
      assert a + b == b;
    } else {
      assert (a + b)[..8] == a[..8] && (a + b)[8..] == a[8..] + b;
      CbcDecryptSplit(k, Load(a[..8]), a[8..], b, n);
    }
  }
}
