/** Single and triple DES on two words of data, and the crypt(3) loop. */
module DesBlock {
  import opened DesRounds
  import opened DesStandard

  // ---------- the round loops ----------

  lemma FourRounds(c: Cipher, h: Halves, s: seq<KeyIndex>, a: KeyIndex, b: KeyIndex, d: KeyIndex, e: KeyIndex)
    ensures Rounds(c, h, s + [a, b, d, e]) == Round(c, Round(c, Round(c, Round(c, Rounds(c, h, s), a), b), d), e)
  {
    hide Rounds, Round;
    RoundsAppend(c, h, s, a);
    RoundsAppend(c, h, s + [a], b);
    RoundsAppend(c, h, s + [a] + [b], d);
    RoundsAppend(c, h, s + [a] + [b] + [d], e);
    assert s + [a] + [b] + [d] + [e] == s + [a, b, d, e];
  }

  method FourSteps(c: Cipher, l0: Word, r0: Word, a: KeyIndex, b: KeyIndex, d: KeyIndex, e: KeyIndex)
    returns (l: Word, r: Word)
    ensures Halves(l, r) == Round(c, Round(c, Round(c, Round(c, Halves(l0, r0), a), b), d), e)
  {
    hide Feistel;
    l, r := l0, r0;
    l := Feistel(c, l, r, a);
    r := Feistel(c, r, l, b);
    l := Feistel(c, l, r, d);
    r := Feistel(c, r, l, e);
  }

  /** Sixteen rounds, four in one turn of the loop. */
  method RoundLoop(c: Cipher, l0: Word, r0: Word, encrypt: bool) returns (l: Word, r: Word)
    ensures Halves(l, r) == Rounds(c, Halves(l0, r0), Order(encrypt))
  {
    if encrypt {
      l, r := LoopUp(c, l0, r0);
    } else {
      l, r := LoopDown(c, l0, r0);
    }
  }

  method LoopUp(c: Cipher, l0: Word, r0: Word) returns (l: Word, r: Word)
    ensures Halves(l, r) == Rounds(c, Halves(l0, r0), Order(true))
  {
    hide Rounds, Round;
    l, r := l0, r0;
    ghost var h, o := Halves(l0, r0), Order(true);
    NoRounds(c, h);
    var i: int := 0;
    while i < 32
      invariant 0 <= i <= 32 && i % 8 == 0
      invariant Halves(l, r) == Rounds(c, h, o[..i / 2])
    {
      FourRounds(c, h, o[..i / 2], i, i + 2, i + 4, i + 6);
      assert o[..i / 2] + [i, i + 2, i + 4, i + 6] == o[..(i + 8) / 2];
      l, r := FourSteps(c, l, r, i, i + 2, i + 4, i + 6);
      i := i + 8;
    }
    assert o[..16] == o;
  }

  method LoopDown(c: Cipher, l0: Word, r0: Word) returns (l: Word, r: Word)
    ensures Halves(l, r) == Rounds(c, Halves(l0, r0), Order(false))
  {
    hide Rounds, Round;
    l, r := l0, r0;
    ghost var h, o, n := Halves(l0, r0), Order(false), 0;
    NoRounds(c, h);
    var i: int := 30;
    while i > 0
      invariant 0 <= n <= 4 && i == 30 - 8 * n
      invariant Halves(l, r) == Rounds(c, h, o[..4 * n])
    {
      FourRounds(c, h, o[..4 * n], i, i - 2, i - 4, i - 6);
      assert o[..4 * n] + [i, i - 2, i - 4, i - 6] == o[..4 * (n + 1)];
      l, r := FourSteps(c, l, r, i, i - 2, i - 4, i - 6);
      i, n := i - 8, n + 1;
    }
    assert o[..16] == o;
  }

  lemma NoRounds(c: Cipher, h: Halves)
    ensures Rounds(c, h, []) == h
  {
  }

  /** The same sixteen rounds written out. */
  method Unrolled(c: Cipher, l0: Word, r0: Word, encrypt: bool) returns (l: Word, r: Word)
    ensures Halves(l, r) == Rounds(c, Halves(l0, r0), Order(encrypt))
  {
    hide Rounds, Round;
    l, r := l0, r0;
    Unrolling(c, Halves(l0, r0), encrypt);
    if encrypt {
      l, r := FourSteps(c, l, r, 0, 2, 4, 6);
      l, r := FourSteps(c, l, r, 8, 10, 12, 14);
      l, r := FourSteps(c, l, r, 16, 18, 20, 22);
      l, r := FourSteps(c, l, r, 24, 26, 28, 30);
    } else {
      l, r := FourSteps(c, l, r, 30, 28, 26, 24);
      l, r := FourSteps(c, l, r, 22, 20, 18, 16);
      l, r := FourSteps(c, l, r, 14, 12, 10, 8);
      l, r := FourSteps(c, l, r, 6, 4, 2, 0);
    }
  }

  function Four(c: Cipher, h: Halves, a: KeyIndex, b: KeyIndex, d: KeyIndex, e: KeyIndex): Halves {
    Round(c, Round(c, Round(c, Round(c, h, a), b), d), e)
  }

  lemma Unrolling(c: Cipher, h: Halves, encrypt: bool)
    ensures Rounds(c, h, Order(encrypt)) ==
      if encrypt then Four(c, Four(c, Four(c, Four(c, h, 0, 2, 4, 6), 8, 10, 12, 14), 16, 18, 20, 22), 24, 26, 28, 30)
      else Four(c, Four(c, Four(c, Four(c, h, 30, 28, 26, 24), 22, 20, 18, 16), 14, 12, 10, 8), 6, 4, 2, 0)
  {
    hide Rounds, Round;
    NoRounds(c, h);
    if encrypt {
      FourRounds(c, h, [], 0, 2, 4, 6);
      FourRounds(c, h, [] + [0, 2, 4, 6], 8, 10, 12, 14);
      FourRounds(c, h, [] + [0, 2, 4, 6] + [8, 10, 12, 14], 16, 18, 20, 22);
      FourRounds(c, h, [] + [0, 2, 4, 6] + [8, 10, 12, 14] + [16, 18, 20, 22], 24, 26, 28, 30);
      assert [] + [0, 2, 4, 6] + [8, 10, 12, 14] + [16, 18, 20, 22] + [24, 26, 28, 30] == Order(true);
    } else {
      FourRounds(c, h, [], 30, 28, 26, 24);
      FourRounds(c, h, [] + [30, 28, 26, 24], 22, 20, 18, 16);
      FourRounds(c, h, [] + [30, 28, 26, 24] + [22, 20, 18, 16], 14, 12, 10, 8);
      FourRounds(c, h, [] + [30, 28, 26, 24] + [22, 20, 18, 16] + [14, 12, 10, 8], 6, 4, 2, 0);
      assert [] + [30, 28, 26, 24] + [22, 20, 18, 16] + [14, 12, 10, 8] + [6, 4, 2, 0] == Order(false);
    }
  }

  // ---------- single DES ----------

  method DesEncrypt(data: array<Word>, c: Cipher, encrypt: bool)
    requires data.Length == 2
    modifies data
    ensures Block(data[0], data[1]) == Crypt(c, Block(old(data[0]), old(data[1])), encrypt)
    ensures BlockBits(Block(data[0], data[1])) == Standard(c, BlockBits(Block(old(data[0]), old(data[1]))), encrypt)
  {
    hide Rounds, Order, Rotate, IP, FP, BlockBits, Standard;
    var r, l := data[0], data[1];
    var p := IP(r, l);
    r, l := Rotate(p.x, 29), Rotate(p.y, 29);
    l, r := RoundLoop(c, l, r, encrypt);
    l, r := Rotate(l, 3), Rotate(r, 3);
    var q := FP(r, l);
    r, l := q.x, q.y;
    data[0] := l;
    data[1] := r;
    CryptStandard(c, Block(old(data[0]), old(data[1])), encrypt);
  }

  // ---------- without the permutations, and triple DES ----------

  function Crypt2(c: Cipher, b: Block, encrypt: bool): Block {
    var h := Rounds(c, Halves(Rotate(b.d1, 29), Rotate(b.d0, 29)), Order(encrypt));
    Block(Rotate(h.l, 3), Rotate(h.r, 3))
  }

  lemma Crypt2Inverse(c: Cipher, b: Block, encrypt: bool)
    ensures Crypt2(c, Crypt2(c, b, encrypt), !encrypt) == b
  {
    hide Rounds, Order, Rotate;
    var h := Halves(Rotate(b.d1, 29), Rotate(b.d0, 29));
    var g := Rounds(c, h, Order(encrypt));
    RotateCancels(b.d0);
    RotateCancels(b.d1);
    RotateCancels(g.l);
    RotateCancels(g.r);
    RoundsUndo(c, h, Order(encrypt));
    OrderReversed(encrypt);
  }

  method DesEncrypt2(data: array<Word>, c: Cipher, encrypt: bool)
    requires data.Length == 2
    modifies data
    ensures Block(data[0], data[1]) == Crypt2(c, Block(old(data[0]), old(data[1])), encrypt)
  {
    hide Rounds, Order, Rotate;
    var r, l := data[0], data[1];
    r, l := Rotate(r, 29), Rotate(l, 29);
    l, r := RoundLoop(c, l, r, encrypt);
    data[0] := Rotate(l, 3);
    data[1] := Rotate(r, 3);
  }

  function Initial(b: Block): Block {
    var p := IP(b.d0, b.d1);
    Block(p.x, p.y)
  }

  function Final(b: Block): Block {
    var q := FP(b.d1, b.d0);
    Block(q.y, q.x)
  }

  lemma InitialFinal(b: Block)
    ensures Initial(Final(b)) == b && Final(Initial(b)) == b
  {
    hide IP, FP;
    InitialAfterFinal(b.d1, b.d0);
    FinalAfterInitial(b.d0, b.d1);
  }

  function Encrypt3(c1: Cipher, c2: Cipher, c3: Cipher, b: Block): Block {
    Final(Crypt2(c3, Crypt2(c2, Crypt2(c1, Initial(b), true), false), true))
  }

  function Decrypt3(c1: Cipher, c2: Cipher, c3: Cipher, b: Block): Block {
    Final(Crypt2(c1, Crypt2(c2, Crypt2(c3, Initial(b), false), true), false))
  }

  /** Triple decryption inverts triple encryption, and the other way round, for any three schedules. */
  lemma TripleInverse(c1: Cipher, c2: Cipher, c3: Cipher, b: Block)
    ensures Decrypt3(c1, c2, c3, Encrypt3(c1, c2, c3, b)) == b
    ensures Encrypt3(c1, c2, c3, Decrypt3(c1, c2, c3, b)) == b
  {
    hide Crypt2, Initial, Final;
    var i := Initial(b);
    InitialFinal(b);
    var e1 := Crypt2(c1, i, true);
    var e2 := Crypt2(c2, e1, false);
    InitialFinal(Crypt2(c3, e2, true));
    Crypt2Inverse(c1, i, true);
    Crypt2Inverse(c2, e1, false);
    Crypt2Inverse(c3, e2, true);
    var d3 := Crypt2(c3, i, false);
    var d2 := Crypt2(c2, d3, true);
    InitialFinal(Crypt2(c1, d2, false));
    Crypt2Inverse(c3, i, false);
    Crypt2Inverse(c2, d3, true);
    Crypt2Inverse(c1, d2, false);
  }

  lemma CryptByParts(c: Cipher, b: Block, encrypt: bool)
    ensures Crypt(c, b, encrypt) == Final(Crypt2(c, Initial(b), encrypt))
  {
    hide IP, FP, Rotate, Rounds, Order;
  }

  /** With one schedule used three times, triple DES is single DES. */
  lemma TripleOfOne(c: Cipher, b: Block)
    ensures Encrypt3(c, c, c, b) == Crypt(c, b, true)
    ensures Decrypt3(c, c, c, b) == Crypt(c, b, false)
  {
    hide Crypt2, Crypt, Initial, Final;
    Crypt2Inverse(c, Initial(b), true);
    Crypt2Inverse(c, Initial(b), false);
    CryptByParts(c, b, true);
    CryptByParts(c, b, false);
  }

  /** Triple encryption is encryption with the first schedule, decryption with the second, encryption with the third. */
  lemma TripleByOnes(c1: Cipher, c2: Cipher, c3: Cipher, b: Block)
    ensures Encrypt3(c1, c2, c3, b) == Crypt(c3, Crypt(c2, Crypt(c1, b, true), false), true)
    ensures Decrypt3(c1, c2, c3, b) == Crypt(c1, Crypt(c2, Crypt(c3, b, false), true), false)
  {
    hide Crypt, Crypt2, Initial, Final;
    var e1, d3 := Crypt(c1, b, true), Crypt(c3, b, false);
    var e2, d2 := Crypt(c2, e1, false), Crypt(c2, d3, true);
    CryptByParts(c1, b, true);
    CryptByParts(c2, e1, false);
    CryptByParts(c3, e2, true);
    CryptByParts(c3, b, false);
    CryptByParts(c2, d3, true);
    CryptByParts(c1, d2, false);
    InitialFinal(Crypt2(c1, Initial(b), true));
    InitialFinal(Crypt2(c2, Initial(e1), false));
    InitialFinal(Crypt2(c3, Initial(b), false));
    InitialFinal(Crypt2(c2, Initial(d3), true));
  }

  /** Triple DES in terms of the standard. */
  lemma TripleStandard(c1: Cipher, c2: Cipher, c3: Cipher, b: Block)
    ensures BlockBits(Encrypt3(c1, c2, c3, b)) ==
      Standard(c3, Standard(c2, Standard(c1, BlockBits(b), true), false), true)
    ensures BlockBits(Decrypt3(c1, c2, c3, b)) ==
      Standard(c1, Standard(c2, Standard(c3, BlockBits(b), false), true), false)
  {
    hide Crypt, Encrypt3, Decrypt3, Standard, BlockBits;
    var e1, d3 := Crypt(c1, b, true), Crypt(c3, b, false);
    var e2, d2 := Crypt(c2, e1, false), Crypt(c2, d3, true);
    TripleByOnes(c1, c2, c3, b);
    CryptStandard(c1, b, true);
    CryptStandard(c2, e1, false);
    CryptStandard(c3, e2, true);
    CryptStandard(c3, b, false);
    CryptStandard(c2, d3, true);
    CryptStandard(c1, d2, false);
  }

  method DesEncrypt3(data: array<Word>, c1: Cipher, c2: Cipher, c3: Cipher)
    requires data.Length == 2
    modifies data
    ensures Block(data[0], data[1]) == Encrypt3(c1, c2, c3, Block(old(data[0]), old(data[1])))
    ensures BlockBits(Block(data[0], data[1])) ==
      Standard(c3, Standard(c2, Standard(c1, BlockBits(Block(old(data[0]), old(data[1]))), true), false), true)
  {
    hide Crypt2, IP, FP, BlockBits, Standard;
    var p := IP(data[0], data[1]);
    data[0], data[1] := p.x, p.y;
    DesEncrypt2(data, c1, true);
    DesEncrypt2(data, c2, false);
    DesEncrypt2(data, c3, true);
    var q := FP(data[1], data[0]);
    data[0], data[1] := q.y, q.x;
    TripleStandard(c1, c2, c3, Block(old(data[0]), old(data[1])));
  }

  method DesDecrypt3(data: array<Word>, c1: Cipher, c2: Cipher, c3: Cipher)
    requires data.Length == 2
    modifies data
    ensures Block(data[0], data[1]) == Decrypt3(c1, c2, c3, Block(old(data[0]), old(data[1])))
    ensures BlockBits(Block(data[0], data[1])) ==
      Standard(c1, Standard(c2, Standard(c3, BlockBits(Block(old(data[0]), old(data[1]))), false), true), false)
  {
    hide Crypt2, IP, FP, BlockBits, Standard;
    var p := IP(data[0], data[1]);
    data[0], data[1] := p.x, p.y;
    DesEncrypt2(data, c3, false);
    DesEncrypt2(data, c2, true);
    DesEncrypt2(data, c1, false);
    var q := FP(data[1], data[0]);
    data[0], data[1] := q.y, q.x;
    TripleStandard(c1, c2, c3, Block(old(data[0]), old(data[1])));
  }

  // ---------- crypt(3) ----------

  /** The whole block encryption, `n` times. */
  function Iterated(c: Cipher, n: nat): Block {
    if n == 0 then Block(0, 0) else Crypt(c, Iterated(c, n - 1), true)
  }

  /** Sixteen rounds and the exchange that ends each turn of the loop in fcrypt_body, `n` times. */
  function Inner(c: Cipher, n: nat): Halves {
    if n == 0 then Halves(0, 0) else Swap(Rounds(c, Inner(c, n - 1), Order(true)))
  }

  lemma ZeroEnters()
    ensures Enter(Block(0, 0)) == Halves(0, 0)
  {
  }

  /** Between two block encryptions the permutations and rotations cancel. */
  lemma {:induction false} InnerIsIterated(c: Cipher, n: nat)
    ensures Enter(Iterated(c, n)) == Inner(c, n)
    ensures n > 0 ==> Leave(Swap(Inner(c, n))) == Iterated(c, n)
  {
    hide Enter, Leave, Rounds, Order;
    if n == 0 {
      ZeroEnters();
    } else {
      InnerIsIterated(c, n - 1);
      EnterLeave(Rounds(c, Inner(c, n - 1), Order(true)));
    }
  }

  /** The cipher of the standard, `n` times on 64 zero bits. */
  function StandardIterated(c: Cipher, n: nat): (b: Bits)
    ensures |b| == 64
  {
    if n == 0 then seq(64, _ => false) else Standard(c, StandardIterated(c, n - 1), true)
  }

  lemma {:induction false} IteratedStandard(c: Cipher, n: nat)
    ensures BlockBits(Iterated(c, n)) == StandardIterated(c, n)
  {
    hide Crypt, Standard;
    if n > 0 {
      IteratedStandard(c, n - 1);
      CryptStandard(c, Iterated(c, n - 1), true);
    }
  }

  method FcryptBody(sp: Boxes, ks: Schedule, e0: Word, e1: Word) returns (out0: Word, out1: Word)
    ensures Block(out0, out1) == Iterated(Salted(sp, ks, e0, e1), 25)
    ensures BlockBits(Block(out0, out1)) == StandardIterated(Salted(sp, ks, e0, e1), 25)
  {
    hide Rounds, Order, Enter, Rotate, FP, Iterated, BlockBits, StandardIterated;
    var l: Word, r: Word, j := 0, 0, 0;
    var c := Salted(sp, ks, e0, e1);
    while j < 25
      invariant 0 <= j <= 25 && Halves(l, r) == Inner(c, j)
    {
      l, r := Unrolled(c, l, r, true);
      l, r := r, l;
      j := j + 1;
    }
    InnerIsIterated(c, 25);
    IteratedStandard(c, 25);
    l, r := Rotate(l, 3), Rotate(r, 3);
    var q := FP(l, r);
    out0, out1 := q.y, q.x;
  }

  lemma NoSalt(sp: Boxes, ks: Schedule, r: Word, i: KeyIndex)
    ensures RoundWord(Salted(sp, ks, 0, 0), r, i) == RoundWord(Plain(sp, ks), r, i)
  {
    hide Mix, SaltedWord, Sum;
    MaskedOut(r, ks[i]);
    MaskedOut(r, ks[i + 1]);
  }

  lemma MaskedOut(r: Word, k: Word)
    ensures SaltedWord(r, 0, k) == Sum(r, k)
  {
  }

  lemma NoSaltRound(sp: Boxes, ks: Schedule, h: Halves, i: KeyIndex)
    ensures Round(Salted(sp, ks, 0, 0), h, i) == Round(Plain(sp, ks), h, i)
  {
    hide RoundWord, Sum;
    NoSalt(sp, ks, h.r, i);
  }

  lemma {:induction false} NoSaltRounds(sp: Boxes, ks: Schedule, h: Halves, s: seq<KeyIndex>)
    ensures Rounds(Salted(sp, ks, 0, 0), h, s) == Rounds(Plain(sp, ks), h, s)
    decreases |s|
  {
    hide Round;
    if s != [] {
      NoSaltRound(sp, ks, h, s[0]);
      NoSaltRounds(sp, ks, Round(Plain(sp, ks), h, s[0]), s[1..]);
    }
  }

  /** Without salt, crypt(3)'s loop is plain DES applied 25 times. */
  lemma {:induction false} NoSaltIterated(sp: Boxes, ks: Schedule, n: nat)
    ensures Iterated(Salted(sp, ks, 0, 0), n) == Iterated(Plain(sp, ks), n)
  {
    hide Rounds, Order, Enter, Leave;
    if n > 0 {
      NoSaltIterated(sp, ks, n - 1);
      NoSaltRounds(sp, ks, Enter(Iterated(Plain(sp, ks), n - 1)), Order(true));
    }
  }
}
