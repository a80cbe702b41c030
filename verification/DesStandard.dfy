/** DES as FIPS PUB 46 describes it, on sequences of bits, and that the words of des_encrypt carry out just that. */
module DesStandard {
  import opened DesRounds
  import opened DesBits

  type Bits = seq<bool>

  // ---------- the tables of the standard, which numbers bits from 1 ----------

  /** Eight bits of IP: the numbers of the input bits they come from. */
  function InitialRow(r: nat): (s: seq<nat>)
    requires r < 8
    ensures |s| == 8 && forall m :: 0 <= m < 8 ==> 1 <= s[m] <= 64
  {
    match r
    case 0 => [58, 50, 42, 34, 26, 18, 10, 2]
    case 1 => [60, 52, 44, 36, 28, 20, 12, 4]
    case 2 => [62, 54, 46, 38, 30, 22, 14, 6]
    case 3 => [64, 56, 48, 40, 32, 24, 16, 8]
    case 4 => [57, 49, 41, 33, 25, 17, 9, 1]
    case 5 => [59, 51, 43, 35, 27, 19, 11, 3]
    case 6 => [61, 53, 45, 37, 29, 21, 13, 5]
    case 7 => [63, 55, 47, 39, 31, 23, 15, 7]
  }

  /** Eight bits of the inverse of IP. */
  function FinalRow(r: nat): (s: seq<nat>)
    requires r < 8
    ensures |s| == 8 && forall m :: 0 <= m < 8 ==> 1 <= s[m] <= 64
  {
    match r
    case 0 => [40, 8, 48, 16, 56, 24, 64, 32]
    case 1 => [39, 7, 47, 15, 55, 23, 63, 31]
    case 2 => [38, 6, 46, 14, 54, 22, 62, 30]
    case 3 => [37, 5, 45, 13, 53, 21, 61, 29]
    case 4 => [36, 4, 44, 12, 52, 20, 60, 28]
    case 5 => [35, 3, 43, 11, 51, 19, 59, 27]
    case 6 => [34, 2, 42, 10, 50, 18, 58, 26]
    case 7 => [33, 1, 41, 9, 49, 17, 57, 25]
  }

  /** The six bits of the right half that E gives to one S-box. */
  function ExpansionRow(k: nat): (s: seq<nat>)
    requires k < 8
    ensures |s| == 6 && forall m :: 0 <= m < 6 ==> 1 <= s[m] <= 32
  {
    match k
    case 0 => [32, 1, 2, 3, 4, 5]
    case 1 => [4, 5, 6, 7, 8, 9]
    case 2 => [8, 9, 10, 11, 12, 13]
    case 3 => [12, 13, 14, 15, 16, 17]
    case 4 => [16, 17, 18, 19, 20, 21]
    case 5 => [20, 21, 22, 23, 24, 25]
    case 6 => [24, 25, 26, 27, 28, 29]
    case 7 => [28, 29, 30, 31, 32, 1]
  }

  // ---------- the cipher of the standard ----------

  function Initially(b: Bits): (p: Bits)
    requires |b| == 64
    ensures |p| == 64
  {
    seq(64, k requires 0 <= k < 64 => b[InitialRow(k / 8)[k % 8] - 1])
  }

  function Finally(b: Bits): (p: Bits)
    requires |b| == 64
    ensures |p| == 64
  {
    seq(64, k requires 0 <= k < 64 => b[FinalRow(k / 8)[k % 8] - 1])
  }

  /** E: 32 bits to 48. */
  function Expanded(r: Bits): (e: Bits)
    requires |r| == 32
    ensures |e| == 48
  {
    seq(48, j requires 0 <= j < 48 => r[ExpansionRow(j / 6)[j % 6] - 1])
  }

  /** Where a word holds bit `j` of the 48: four bits on from S-box to S-box, and two bits up. */
  function Position(j: nat): (p: nat)
    requires j < 48
    ensures p < 32
  {
    (4 * (j / 6) + j % 6 + 2) % 32
  }

  /** S-boxes 0, 2, 4 and 6 have their bits in the first of two words, the others in the second. */
  predicate PairedBit(w0: Word, w1: Word, j: nat)
    requires j < 48
  {
    if j / 6 % 2 == 0 then Bit(w0, Position(j)) else Bit(w1, Position(j))
  }

  /**
    * In crypt(3), what the salt makes of bit `j`: a set salt bit exchanges the bit with the one 24 places away, which
    * lies 16 away in its word. (A salt bit in the upper half of its word cancels the bit that it stands at.)
    */
  predicate SaltedBit(x: Bits, e: Word, j: nat)
    requires |x| == 48 && j < 48
  {
    var p := Position(j);
    var v := if Bit(e, p % 16) then x[(j + 24) % 48] else x[j];
    if p < 16 then v else v != (Bit(e, p) && x[j])
  }

  /** The bit that goes with subkey bit `j`. */
  predicate Chosen(c: Cipher, x: Bits, j: nat)
    requires |x| == 48 && j < 48
  {
    match c
    case Plain(_, _) => x[j]
    case Salted(_, _, e0, e1) => if j / 6 % 2 == 0 then SaltedBit(x, e0, j) else SaltedBit(x, e1, j)
  }

  /** The 48 bits that enter the S-boxes. */
  function Entering(c: Cipher, r: Bits, i: KeyIndex): (x: Bits)
    requires |r| == 32
    ensures |x| == 48
  {
    seq(48, j requires 0 <= j < 48 => Chosen(c, Expanded(r), j) != PairedBit(c.ks[i], c.ks[i + 1], j))
  }

  /** Six bits as an index, the first one least significant. */
  function Six(b0: bool, b1: bool, b2: bool, b3: bool, b4: bool, b5: bool): Word {
    (if b0 then 0x01 else 0) | (if b1 then 0x02 else 0) | (if b2 then 0x04 else 0)
    | (if b3 then 0x08 else 0) | (if b4 then 0x10 else 0) | (if b5 then 0x20 else 0)
  }

  function BoxIndex(x: Bits, k: nat): Word
    requires |x| == 48 && k < 8
  {
    Six(x[6 * k], x[6 * k + 1], x[6 * k + 2], x[6 * k + 3], x[6 * k + 4], x[6 * k + 5])
  }

  /** The bits of a word as the rounds hold it, which is rotated by three. */
  function HalfBits(w: Word): (h: Bits)
    ensures |h| == 32
  {
    seq(32, k requires 0 <= k < 32 => Bit(w, (k + 3) % 32))
  }

  /** Bit `n` of what the first `k` boxes give together; the table has the permutation P applied. */
  predicate BoxesBit(sp: Boxes, x: Bits, n: nat, k: nat)
    requires |x| == 48 && n < 32 && k <= 8
  {
    k > 0 && BoxesBit(sp, x, n, k - 1) != HalfBits(sp(k - 1, BoxIndex(x, k - 1)))[n]
  }

  /** The function f of the standard, on the right half and the subkey of a round. */
  function F(c: Cipher, r: Bits, i: KeyIndex): (f: Bits)
    requires |r| == 32
    ensures |f| == 32
  {
    var x := Entering(c, r, i);
    seq(32, n requires 0 <= n < 32 => BoxesBit(c.sp, x, n, 8))
  }

  function XorBits(a: Bits, b: Bits): (s: Bits)
    requires |a| == |b|
    ensures |s| == |a|
  {
    seq(|a|, n requires 0 <= n < |a| => a[n] != b[n])
  }

  /** Rounds `n` to 15; decryption takes the subkeys in reverse order. The halves come out exchanged. */
  function Preoutput(c: Cipher, l: Bits, r: Bits, n: nat, encrypt: bool): (p: Bits)
    requires |l| == |r| == 32 && n <= 16
    ensures |p| == 64
    decreases 16 - n
  {
    if n == 16 then r + l
    else Preoutput(c, r, XorBits(l, F(c, r, if encrypt then 2 * n else 30 - 2 * n)), n + 1, encrypt)
  }

  /** The cipher on a block of 64 bits. */
  function Standard(c: Cipher, b: Bits, encrypt: bool): (p: Bits)
    requires |b| == 64
    ensures |p| == 64
  {
    var p := Initially(b);
    Finally(Preoutput(c, p[..32], p[32..], 0, encrypt))
  }

  /** A block as bits: words hold their bytes least significant first, bytes their bits most significant first. */
  function BlockBits(b: Block): (s: Bits)
    ensures |s| == 64
  {
    seq(64, n requires 0 <= n < 64 => Bit(if n < 32 then b.d0 else b.d1, n % 32 / 8 * 8 + 7 - n % 8))
  }

  // ---------- the bits of words combined ----------

  lemma AndSingle(a: Word, b: Word, c: Word)
    requires c & (c - 1) == 0
    ensures Meets(a & b, c) == (Meets(a, c) && Meets(b, c))
  {
  }

  lemma AndBit(a: Word, b: Word, i: nat)
    requires i < 32
    ensures Bit(And(a, b), i) == (Bit(a, i) && Bit(b, i))
  {
    hide One, Meets;
    OneSingle(i);
    AndSingle(a, b, One(i));
  }

  lemma DownBit(a: Word, i: nat)
    requires i < 32
    ensures Bit(Down(a, 16), i) == (i < 16 && Bit(a, i + 16))
  {
    hide One, Meets, Down, Up;
    Shifts16(a, One(i));
    NoneMet(a);
    if i < 16 {
      Raised16(i);
    } else {
      RaisedOut(i);
    }
  }

  lemma RaisedOut(i: nat)
    requires 16 <= i < 32
    ensures Up(One(i), 16) == 0
  {
  }

  lemma UpBit(a: Word, i: nat)
    requires i < 32
    ensures Bit(Up(a, 16), i) == (i >= 16 && Bit(a, i - 16))
  {
    hide One, Meets, Down, Up;
    Shifts16(a, One(i));
    NoneMet(a);
    Lowered16(i);
  }

  // ---------- the permutations ----------

  function Digit(b: bool, n: nat): nat {
    if b then n else 0
  }

  function Address(b4: bool, b3: bool, b2: bool, b1: bool, b0: bool): (i: nat)
    ensures i < 32
  {
    Digit(b4, 16) + Digit(b3, 8) + Digit(b2, 4) + Digit(b1, 2) + Digit(b0, 1)
  }

  /** A bit of two words, addressed by six binary digits. */
  predicate At(p: Pair, w: bool, b4: bool, b3: bool, b2: bool, b1: bool, b0: bool) {
    Bit(if w then p.y else p.x, Address(b4, b3, b2, b1, b0))
  }

  // An exchange at distance n exchanges the digit worth n with the one that chooses the word.

  lemma Swaps4(a: Word, b: Word, w: bool, b4: bool, b3: bool, b2: bool, b1: bool, b0: bool)
    ensures At(PermOp(a, b, 4, 0x0f0f0f0f), w, b4, b3, b2, b1, b0) == At(Pair(a, b), b2, b4, b3, w, b1, b0)
  {
    hide PermOp, Bit;
    Exchange4(a, b, Address(b4, b3, b2, b1, b0));
  }

  lemma Swaps16(a: Word, b: Word, w: bool, b4: bool, b3: bool, b2: bool, b1: bool, b0: bool)
    ensures At(PermOp(a, b, 16, 0x0000ffff), w, b4, b3, b2, b1, b0) == At(Pair(a, b), b4, w, b3, b2, b1, b0)
  {
    hide PermOp, Bit;
    Exchange16(a, b, Address(b4, b3, b2, b1, b0));
  }

  lemma Swaps2(a: Word, b: Word, w: bool, b4: bool, b3: bool, b2: bool, b1: bool, b0: bool)
    ensures At(PermOp(a, b, 2, 0x33333333), w, b4, b3, b2, b1, b0) == At(Pair(a, b), b1, b4, b3, b2, w, b0)
  {
    hide PermOp, Bit;
    Exchange2(a, b, Address(b4, b3, b2, b1, b0));
  }

  lemma Swaps8(a: Word, b: Word, w: bool, b4: bool, b3: bool, b2: bool, b1: bool, b0: bool)
    ensures At(PermOp(a, b, 8, 0x00ff00ff), w, b4, b3, b2, b1, b0) == At(Pair(a, b), b3, b4, w, b2, b1, b0)
  {
    hide PermOp, Bit;
    Exchange8(a, b, Address(b4, b3, b2, b1, b0));
  }

  lemma Swaps1(a: Word, b: Word, w: bool, b4: bool, b3: bool, b2: bool, b1: bool, b0: bool)
    ensures At(PermOp(a, b, 1, 0x55555555), w, b4, b3, b2, b1, b0) == At(Pair(a, b), b0, b4, b3, b2, b1, w)
  {
    hide PermOp, Bit;
    Exchange1(a, b, Address(b4, b3, b2, b1, b0));
  }

  lemma InitialAt(x: Word, y: Word, w: bool, b4: bool, b3: bool, b2: bool, b1: bool, b0: bool)
    ensures At(IP(x, y), w, b4, b3, b2, b1, b0) == At(Pair(x, y), !b2, !b1, !b0, !b4, !b3, !w)
  {
    hide PermOp, Bit, Address;
    var p := PermOp(y, x, 4, 0x0f0f0f0f);
    var q := PermOp(p.y, p.x, 16, 0x0000ffff);
    var s := PermOp(q.y, q.x, 2, 0x33333333);
    var t := PermOp(s.y, s.x, 8, 0x00ff00ff);
    Swaps1(t.y, t.x, !w, b4, b3, b2, b1, b0);
    Swaps8(s.y, s.x, !b0, b4, b3, b2, b1, !w);
    Swaps2(q.y, q.x, !b3, b4, !b0, b2, b1, !w);
    Swaps16(p.y, p.x, !b1, b4, !b0, b2, !b3, !w);
    Swaps4(y, x, !b4, !b1, !b0, b2, !b3, !w);
  }

  lemma FinalAt(x: Word, y: Word, w: bool, b4: bool, b3: bool, b2: bool, b1: bool, b0: bool)
    ensures At(FP(x, y), w, b4, b3, b2, b1, b0) == At(Pair(x, y), b0, !b2, !b1, w, !b4, !b3)
  {
    hide PermOp, Bit, Address;
    var p := PermOp(x, y, 1, 0x55555555);
    var q := PermOp(p.y, p.x, 8, 0x00ff00ff);
    var s := PermOp(q.y, q.x, 2, 0x33333333);
    var t := PermOp(s.y, s.x, 16, 0x0000ffff);
    Swaps4(t.y, t.x, w, b4, b3, b2, b1, b0);
    Swaps16(s.y, s.x, !b2, b4, b3, w, b1, b0);
    Swaps2(q.y, q.x, !b4, !b2, b3, w, b1, b0);
    Swaps8(p.y, p.x, !b1, !b2, b3, w, !b4, b0);
    Swaps1(x, y, !b3, !b2, !b1, w, !b4, b0);
  }

  // The tables by their addresses.

  lemma Digits(i: nat)
    requires i < 32
    ensures Address(i / 16 % 2 == 1, i / 8 % 2 == 1, i / 4 % 2 == 1, i / 2 % 2 == 1, i % 2 == 1) == i
  {
  }

  lemma InitialRule(r: nat, m: nat)
    requires r < 8 && m < 8
    ensures InitialRow(r)[m] == (if r < 4 then 58 + 2 * r else 49 + 2 * r) - 8 * m
  {
  }

  lemma FinalRule(r: nat, m: nat)
    requires r < 8 && m < 8
    ensures FinalRow(r)[m] == (if m % 2 == 0 then 40 else 8) + m / 2 * 8 - r
  {
  }

  lemma ExpansionRule(k: nat, m: nat)
    requires k < 8 && m < 6
    ensures ExpansionRow(k)[m] == (4 * k + m + 31) % 32 + 1
  {
  }

  /** Where a block holds its bit `n`. */
  function Place(n: nat): (i: nat)
    requires n < 64
    ensures i < 32
  {
    n % 32 / 8 * 8 + 7 - n % 8
  }

  lemma ByEight(h: nat, g: nat)
    requires h < 4 && g < 8
    ensures (8 * h + g) / 8 == h && (8 * h + g) % 8 == g
  {
  }

  lemma PlaceOf(h: nat, g: nat)
    requires h < 8 && g < 8
    ensures (8 * h + g < 32 <==> h < 4) && Place(8 * h + g) == h % 4 * 8 + 7 - g
  {
    var k := if h < 4 then h else h - 4;
    ByEight(k, g);
    assert (8 * h + g) % 32 == 8 * k + g && (8 * h + g) % 8 == (8 * k + g) % 8;
  }

  lemma InitialPlace(w: bool, b4: bool, b3: bool, b2: bool, b1: bool, b0: bool)
    ensures var r, m := Digit(!w, 4) + Digit(b4, 2) + Digit(b3, 1), Digit(b2, 4) + Digit(b1, 2) + Digit(b0, 1);
      var n := InitialRow(r)[m] - 1;
      && (n < 32 <==> b2) && Place(n) == Address(!b1, !b0, !b4, !b3, !w)
  {
    hide InitialRow, Place;
    var r, m := Digit(!w, 4) + Digit(b4, 2) + Digit(b3, 1), Digit(b2, 4) + Digit(b1, 2) + Digit(b0, 1);
    InitialRule(r, m);
    PlaceOf(7 - m, Digit(b4, 4) + Digit(b3, 2) + Digit(w, 1));
  }

  lemma FinalSource(w: bool, b4: bool, b3: bool, b2: bool, b1: bool, b0: bool)
    ensures var h, g := Digit(!w, 4) + Digit(b4, 2) + Digit(b3, 1), Digit(!b2, 4) + Digit(!b1, 2) + Digit(!b0, 1);
      FinalRow(h)[g] - 1 == Address(!b2, !b1, w, !b4, !b3) + Digit(b0, 32)
  {
    hide FinalRow;
    var h, g := Digit(!w, 4) + Digit(b4, 2) + Digit(b3, 1), Digit(!b2, 4) + Digit(!b1, 2) + Digit(!b0, 1);
    FinalRule(h, g);
    assert g % 2 == Digit(!b0, 1) && g / 2 == Digit(!b2, 2) + Digit(!b1, 1);
  }

  lemma FinalPlace(w: bool, b4: bool, b3: bool, b2: bool, b1: bool, b0: bool)
    ensures var h, g := Digit(!w, 4) + Digit(b4, 2) + Digit(b3, 1), Digit(!b2, 4) + Digit(!b1, 2) + Digit(!b0, 1);
      (8 * h + g < 32 <==> w) && Place(8 * h + g) == Address(b4, b3, b2, b1, b0)
  {
    hide Place;
    PlaceOf(Digit(!w, 4) + Digit(b4, 2) + Digit(b3, 1), Digit(!b2, 4) + Digit(!b1, 2) + Digit(!b0, 1));
  }

  lemma BitOfBlock(b: Block, n: nat)
    requires n < 64
    ensures BlockBits(b)[n] == Bit(if n < 32 then b.d0 else b.d1, Place(n))
  {
    hide Bit;
  }

  lemma InitialTable(b: Bits, r: nat, m: nat)
    requires |b| == 64 && r < 8 && m < 8
    ensures Initially(b)[8 * r + m] == b[InitialRow(r)[m] - 1]
  {
    hide InitialRow;
    assert (8 * r + m) / 8 == r && (8 * r + m) % 8 == m;
  }

  lemma FinalTable(b: Bits, r: nat, m: nat)
    requires |b| == 64 && r < 8 && m < 8
    ensures Finally(b)[8 * r + m] == b[FinalRow(r)[m] - 1]
  {
    hide FinalRow;
    assert (8 * r + m) / 8 == r && (8 * r + m) % 8 == m;
  }

  /** IP on words is IP on bits, the second word holding the first half of the result. */
  lemma InitialBit(b: Block, w: bool, b4: bool, b3: bool, b2: bool, b1: bool, b0: bool)
    ensures var r, m := Digit(!w, 4) + Digit(b4, 2) + Digit(b3, 1), Digit(b2, 4) + Digit(b1, 2) + Digit(b0, 1);
      Initially(BlockBits(b))[8 * r + m] == At(IP(b.d0, b.d1), w, b4, b3, b2, b1, b0)
  {
    hide IP, InitialRow, Bit, Place, Address, Initially, BlockBits;
    var r, m := Digit(!w, 4) + Digit(b4, 2) + Digit(b3, 1), Digit(b2, 4) + Digit(b1, 2) + Digit(b0, 1);
    InitialAt(b.d0, b.d1, w, b4, b3, b2, b1, b0);
    InitialPlace(w, b4, b3, b2, b1, b0);
    InitialTable(BlockBits(b), r, m);
    BitOfBlock(b, InitialRow(r)[m] - 1);
  }

  lemma Octal(w: bool, k: nat)
    requires k < 32
    ensures var r := Digit(!w, 4) + Digit(k / 16 % 2 == 1, 2) + Digit(k / 8 % 2 == 1, 1);
      var m := Digit(k / 4 % 2 == 1, 4) + Digit(k / 2 % 2 == 1, 2) + Digit(k % 2 == 1, 1);
      8 * r + m == Digit(!w, 32) + k
  {
    Digits(k);
  }

  lemma InitialBits(b: Block, w: bool, k: nat)
    requires k < 32
    ensures var p := IP(b.d0, b.d1);
      Initially(BlockBits(b))[if w then k else 32 + k] == Bit(if w then p.y else p.x, k)
  {
    hide IP, Bit, Address, Initially, BlockBits;
    Digits(k);
    Octal(w, k);
    InitialBit(b, w, k / 16 % 2 == 1, k / 8 % 2 == 1, k / 4 % 2 == 1, k / 2 % 2 == 1, k % 2 == 1);
  }

  /** FP on words is the inverse permutation on bits. */
  lemma FinalBit(x: Word, y: Word, b: Bits, w: bool, b4: bool, b3: bool, b2: bool, b1: bool, b0: bool)
    requires |b| == 64 && forall k :: 0 <= k < 32 ==> b[k] == Bit(x, k) && b[32 + k] == Bit(y, k)
    ensures var h, g := Digit(!w, 4) + Digit(b4, 2) + Digit(b3, 1), Digit(!b2, 4) + Digit(!b1, 2) + Digit(!b0, 1);
      var q := FP(x, y);
      Finally(b)[8 * h + g] == BlockBits(Block(q.y, q.x))[8 * h + g]
  {
    hide FP, FinalRow, Bit, Place, Address, Finally, BlockBits;
    var h, g := Digit(!w, 4) + Digit(b4, 2) + Digit(b3, 1), Digit(!b2, 4) + Digit(!b1, 2) + Digit(!b0, 1);
    var q := FP(x, y);
    FinalAt(x, y, w, b4, b3, b2, b1, b0);
    FinalSource(w, b4, b3, b2, b1, b0);
    FinalPlace(w, b4, b3, b2, b1, b0);
    FinalTable(b, h, g);
    BitOfBlock(Block(q.y, q.x), 8 * h + g);
  }

  lemma FinalBits(x: Word, y: Word, b: Bits)
    requires |b| == 64 && forall k :: 0 <= k < 32 ==> b[k] == Bit(x, k) && b[32 + k] == Bit(y, k)
    ensures var q := FP(x, y); Finally(b) == BlockBits(Block(q.y, q.x))
  {
    hide FP, Bit, Finally, BlockBits;
    var q := FP(x, y);
    forall n | 0 <= n < 64
      ensures Finally(b)[n] == BlockBits(Block(q.y, q.x))[n]
    {
      var w, k := n < 32, n % 32;
      Octal(w, k);
      FinalBit(x, y, b, w, k / 16 % 2 == 1, k / 8 % 2 == 1, !(k / 4 % 2 == 1), !(k / 2 % 2 == 1), !(k % 2 == 1));
    }
  }

  // ---------- the round function ----------

  /** Seen through the rotation by three, E takes from the word the bits that lie where the subkey word has its own. */
  lemma ExpandedBit(r: Word, j: nat)
    requires j < 48
    ensures Expanded(HalfBits(r))[j] == Bit(r, Position(j))
  {
    hide ExpansionRow, Bit;
    ExpansionRule(j / 6, j % 6);
    assert ((4 * (j / 6) + j % 6 + 31) % 32 + 3) % 32 == Position(j);
  }

  lemma SaltedWordBit(r: Word, e: Word, k: Word, p: nat)
    requires p < 32
    ensures p < 16 ==>
      Bit(SaltedWord(r, e, k), p) == ((if Bit(e, p) then Bit(r, p + 16) else Bit(r, p)) != Bit(k, p))
    ensures p >= 16 ==>
      Bit(SaltedWord(r, e, k), p) ==
      (((if Bit(e, p - 16) then Bit(r, p - 16) else Bit(r, p)) != (Bit(e, p) && Bit(r, p))) != Bit(k, p))
  {
    hide Bit, Sum, And, Down, Up;
    var w := Sum(r, Down(r, 16));
    var u := And(w, e);
    SumBit(Sum(u, Sum(r, k)), Up(u, 16), p);
    SumBit(u, Sum(r, k), p);
    SumBit(r, k, p);
    UpBit(u, p);
    SaltedPart(r, e, p);
    if p >= 16 {
      SaltedPart(r, e, p - 16);
    }
  }

  lemma SaltedPart(r: Word, e: Word, p: nat)
    requires p < 32
    ensures Bit(And(Sum(r, Down(r, 16)), e), p) == ((Bit(r, p) != (p < 16 && Bit(r, p + 16))) && Bit(e, p))
  {
    hide Bit, Sum, And, Down;
    AndBit(Sum(r, Down(r, 16)), e, p);
    SumBit(r, Down(r, 16), p);
    DownBit(r, p);
  }

  /** The words that select from the boxes, four each. */
  function Selecting(c: Cipher, r: Word, i: KeyIndex): Pair {
    match c
    case Plain(_, ks) => Pair(Sum(r, ks[i]), Sum(r, ks[i + 1]))
    case Salted(_, ks, e0, e1) => Pair(SaltedWord(r, e0, ks[i]), SaltedWord(r, e1, ks[i + 1]))
  }

  lemma PositionOf(k: nat, m: nat)
    requires k < 8 && m < 6
    ensures Position(6 * k + m) == (4 * k + m + 2) % 32
  {
    assert (6 * k + m) / 6 == k && (6 * k + m) % 6 == m;
  }

  lemma Opposite(k: nat, k': nat, m: nat)
    requires k < 8 && m < 6 && k' == if k < 4 then k + 4 else k - 4
    ensures (6 * k + m + 24) % 48 == 6 * k' + m && (6 * k' + m) / 6 % 2 == k % 2
    ensures var p := (4 * k + m + 2) % 32; (4 * k' + m + 2) % 32 == if p < 16 then p + 16 else p - 16
  {
  }

  lemma PositionOpposite(j: nat)
    requires j < 48
    ensures Position((j + 24) % 48) == if Position(j) < 16 then Position(j) + 16 else Position(j) - 16
    ensures (j + 24) % 48 / 6 % 2 == j / 6 % 2
  {
    hide Position;
    var k, m := j / 6, j % 6;
    var k' := if k < 4 then k + 4 else k - 4;
    assert j == 6 * k + m;
    PositionOf(k, m);
    PositionOf(k', m);
    Opposite(k, k', m);
  }

  lemma SaltedSelects(r: Word, e: Word, k: Word, j: nat)
    requires j < 48
    ensures Bit(SaltedWord(r, e, k), Position(j)) == (SaltedBit(Expanded(HalfBits(r)), e, j) != Bit(k, Position(j)))
  {
    hide Bit, Position, SaltedWord, Expanded, HalfBits;
    ExpandedBit(r, j);
    ExpandedBit(r, (j + 24) % 48);
    PositionOpposite(j);
    SaltedWordBit(r, e, k, Position(j));
  }

  lemma RoundSelects(c: Cipher, r: Word, i: KeyIndex)
    ensures var s := Selecting(c, r, i); RoundWord(c, r, i) == Mix(c.sp, s.x, s.y)
  {
    hide Mix, SaltedWord, Sum;
  }

  lemma EnteringAt(c: Cipher, r: Bits, i: KeyIndex, j: nat)
    requires |r| == 32 && j < 48
    ensures Entering(c, r, i)[j] == (Chosen(c, Expanded(r), j) != PairedBit(c.ks[i], c.ks[i + 1], j))
  {
    hide Expanded, PairedBit, Chosen;
  }

  /** Bit `j` of what enters the boxes is bit Position(j) of one of the two selecting words. */
  lemma SelectingBit(c: Cipher, r: Word, i: KeyIndex, j: nat)
    requires j < 48
    ensures var s := Selecting(c, r, i); PairedBit(s.x, s.y, j) == Entering(c, HalfBits(r), i)[j]
  {
    hide Bit, Position, Sum, SaltedWord, SaltedBit, Expanded, HalfBits, Entering;
    ExpandedBit(r, j);
    EnteringAt(c, HalfBits(r), i, j);
    match c
    case Plain(_, ks) =>
      SumBit(r, if j / 6 % 2 == 0 then ks[i] else ks[i + 1], Position(j));
    case Salted(_, ks, e0, e1) =>
      if j / 6 % 2 == 0 {
        SaltedSelects(r, e0, ks[i], j);
      } else {
        SaltedSelects(r, e1, ks[i + 1], j);
      }
  }

  // The six bits that the shifts and the mask of a round take from a word.

  lemma Six2(u: Word)
    ensures SixAt(u, 2) == Six(Bit(u, 2), Bit(u, 3), Bit(u, 4), Bit(u, 5), Bit(u, 6), Bit(u, 7))
  {
  }

  lemma Six10(u: Word)
    ensures SixAt(u, 10) == Six(Bit(u, 10), Bit(u, 11), Bit(u, 12), Bit(u, 13), Bit(u, 14), Bit(u, 15))
  {
  }

  lemma Six18(u: Word)
    ensures SixAt(u, 18) == Six(Bit(u, 18), Bit(u, 19), Bit(u, 20), Bit(u, 21), Bit(u, 22), Bit(u, 23))
  {
  }

  lemma Six26(u: Word)
    ensures SixAt(u, 26) == Six(Bit(u, 26), Bit(u, 27), Bit(u, 28), Bit(u, 29), Bit(u, 30), Bit(u, 31))
  {
  }

  /** Six bits of a word from position `p` on, running round its end. */
  function SixFrom(w: Word, p: nat): Word
    requires p < 32
  {
    Six(Bit(w, p), Bit(w, (p + 1) % 32), Bit(w, (p + 2) % 32), Bit(w, (p + 3) % 32), Bit(w, (p + 4) % 32),
        Bit(w, (p + 5) % 32))
  }

  lemma RotatedAt(t: Word, p: nat, m: nat)
    requires p <= 26 && m < 6
    ensures Bit(Rotate(t, 4), (p + m) % 32) == Bit(t, ((p + 4) % 32 + m) % 32)
  {
    hide Bit, Rotate;
    Rotate4(t, p + m);
  }

  /** In the word rotated by four, the bits at `p` are those that lie four higher. */
  lemma SixRotated(t: Word, p: nat)
    requires p <= 26
    ensures SixFrom(Rotate(t, 4), p) == SixFrom(t, (p + 4) % 32)
  {
    hide Bit, Rotate, Six;
    assert p % 32 == p;
    var q := (p + 4) % 32;
    assert q % 32 == q;
    RotatedAt(t, p, 0);
    RotatedAt(t, p, 1);
    RotatedAt(t, p, 2);
    RotatedAt(t, p, 3);
    RotatedAt(t, p, 4);
    RotatedAt(t, p, 5);
  }

  lemma ShiftedSix(w: Word)
    ensures SixAt(w, 2) == SixFrom(w, 2) && SixAt(w, 10) == SixFrom(w, 10)
    ensures SixAt(w, 18) == SixFrom(w, 18) && SixAt(w, 26) == SixFrom(w, 26)
  {
    hide Bit, Six, SixAt;
    Six2(w);
    Six10(w);
    Six18(w);
    Six26(w);
  }

  /** What box `k` gives when the selecting words are `u` and `t`. */
  function BoxWord(sp: Boxes, u: Word, t: Word, k: nat): Word
    requires k < 8
  {
    sp(k, SixFrom(if k % 2 == 0 then u else t, (4 * k + 2) % 32))
  }

  lemma EvenBoxes(sp: Boxes, u: Word, t: Word)
    ensures BoxWord(sp, u, t, 0) == sp(0, SixAt(u, 2)) && BoxWord(sp, u, t, 2) == sp(2, SixAt(u, 10))
    ensures BoxWord(sp, u, t, 4) == sp(4, SixAt(u, 18)) && BoxWord(sp, u, t, 6) == sp(6, SixAt(u, 26))
  {
    hide SixFrom, SixAt;
    ShiftedSix(u);
  }

  lemma OddBoxes(sp: Boxes, u: Word, t: Word)
    ensures var t4 := Rotate(t, 4);
      && BoxWord(sp, u, t, 1) == sp(1, SixAt(t4, 2)) && BoxWord(sp, u, t, 3) == sp(3, SixAt(t4, 10))
      && BoxWord(sp, u, t, 5) == sp(5, SixAt(t4, 18)) && BoxWord(sp, u, t, 7) == sp(7, SixAt(t4, 26))
  {
    hide SixFrom, SixAt, Rotate;
    ShiftedSix(Rotate(t, 4));
    SixRotated(t, 2);
    SixRotated(t, 10);
    SixRotated(t, 18);
    SixRotated(t, 26);
  }

  lemma MixSums(sp: Boxes, u: Word, t: Word)
    ensures Mix(sp, u, t) == Sum(Sum(Sum(Sum(Sum(Sum(Sum(
      BoxWord(sp, u, t, 0), BoxWord(sp, u, t, 2)), BoxWord(sp, u, t, 4)), BoxWord(sp, u, t, 6)),
      BoxWord(sp, u, t, 1)), BoxWord(sp, u, t, 3)), BoxWord(sp, u, t, 5)), BoxWord(sp, u, t, 7))
  {
    hide BoxWord, SixAt, Rotate, Sum;
    EvenBoxes(sp, u, t);
    OddBoxes(sp, u, t);
  }

  /** The bits for box `k` start at position `p` of their word. */
  predicate StartsAt(k: nat, p: nat)
    requires k < 8
  {
    p == (4 * k + 2) % 32
  }

  lemma PositionFrom(k: nat, p: nat, m: nat)
    requires k < 8 && m < 6 && StartsAt(k, p)
    ensures Position(6 * k + m) == (p + m) % 32 && (6 * k + m) / 6 == k
  {
    PositionOf(k, m);
  }

  lemma BoxBit(c: Cipher, r: Word, i: KeyIndex, k: nat, w: Word, p: nat, m: nat)
    requires k < 8 && m < 6 && p < 32 && StartsAt(k, p)
    requires var s := Selecting(c, r, i); w == if k % 2 == 0 then s.x else s.y
    ensures Entering(c, HalfBits(r), i)[6 * k + m] == Bit(w, (p + m) % 32)
  {
    hide Bit, Position, Selecting, HalfBits, Entering;
    PositionFrom(k, p, m);
    SelectingBit(c, r, i, 6 * k + m);
  }

  lemma SameSix(x: Bits, k: nat, w: Word, p: nat)
    requires |x| == 48 && k < 8 && p < 32
    requires x[6 * k] == Bit(w, p) && x[6 * k + 1] == Bit(w, (p + 1) % 32) && x[6 * k + 2] == Bit(w, (p + 2) % 32)
    requires x[6 * k + 3] == Bit(w, (p + 3) % 32) && x[6 * k + 4] == Bit(w, (p + 4) % 32)
    requires x[6 * k + 5] == Bit(w, (p + 5) % 32)
    ensures BoxIndex(x, k) == SixFrom(w, p)
  {
    hide Bit, Six;
  }

  lemma BoxIndexAt(c: Cipher, r: Word, i: KeyIndex, k: nat, w: Word, p: nat)
    requires k < 8 && p < 32 && StartsAt(k, p)
    requires var s := Selecting(c, r, i); w == if k % 2 == 0 then s.x else s.y
    ensures BoxIndex(Entering(c, HalfBits(r), i), k) == SixFrom(w, p)
  {
    hide Bit, Position, Selecting, HalfBits, Entering, StartsAt, BoxIndex, SixFrom;
    var x := Entering(c, HalfBits(r), i);
    BoxBit(c, r, i, k, w, p, 0);
    BoxBit(c, r, i, k, w, p, 1);
    BoxBit(c, r, i, k, w, p, 2);
    BoxBit(c, r, i, k, w, p, 3);
    BoxBit(c, r, i, k, w, p, 4);
    BoxBit(c, r, i, k, w, p, 5);
    assert x[6 * k] == Bit(w, p);
    SameSix(x, k, w, p);
  }

  lemma SumBits(a: Word, b: Word, c: Word, d: Word, e: Word, f: Word, g: Word, h: Word, n: nat)
    requires n < 32
    ensures Bit(Sum(Sum(Sum(Sum(Sum(Sum(Sum(a, b), c), d), e), f), g), h), n) ==
      (((((((Bit(a, n) != Bit(b, n)) != Bit(c, n)) != Bit(d, n)) != Bit(e, n)) != Bit(f, n)) != Bit(g, n)) != Bit(h, n))
  {
    hide Bit, Sum;
    SumBit(a, b, n);
    SumBit(Sum(a, b), c, n);
    SumBit(Sum(Sum(a, b), c), d, n);
    SumBit(Sum(Sum(Sum(a, b), c), d), e, n);
    SumBit(Sum(Sum(Sum(Sum(a, b), c), d), e), f, n);
    SumBit(Sum(Sum(Sum(Sum(Sum(a, b), c), d), e), f), g, n);
    SumBit(Sum(Sum(Sum(Sum(Sum(Sum(a, b), c), d), e), f), g), h, n);
  }

  /** The bits that boxes 0 to `k` - 1 give together, from the selecting words. */
  predicate WordsBit(sp: Boxes, u: Word, t: Word, n: nat, k: nat)
    requires n < 32 && k <= 8
  {
    k > 0 && WordsBit(sp, u, t, n, k - 1) != Bit(BoxWord(sp, u, t, k - 1), n)
  }

  lemma MixBit(sp: Boxes, u: Word, t: Word, n: nat)
    requires n < 32
    ensures Bit(Mix(sp, u, t), n) == WordsBit(sp, u, t, n, 8)
  {
    hide Bit, Sum, BoxWord, Mix, WordsBit;
    MixSums(sp, u, t);
    SumBits(BoxWord(sp, u, t, 0), BoxWord(sp, u, t, 2), BoxWord(sp, u, t, 4), BoxWord(sp, u, t, 6),
            BoxWord(sp, u, t, 1), BoxWord(sp, u, t, 3), BoxWord(sp, u, t, 5), BoxWord(sp, u, t, 7), n);
    WordsStep(sp, u, t, n, 0);
    WordsStep(sp, u, t, n, 1);
    WordsStep(sp, u, t, n, 2);
    WordsStep(sp, u, t, n, 3);
    WordsStep(sp, u, t, n, 4);
    WordsStep(sp, u, t, n, 5);
    WordsStep(sp, u, t, n, 6);
    WordsStep(sp, u, t, n, 7);
  }

  lemma WordsStep(sp: Boxes, u: Word, t: Word, n: nat, k: nat)
    requires n < 32 && k < 8
    ensures !WordsBit(sp, u, t, n, 0)
    ensures WordsBit(sp, u, t, n, k + 1) == (WordsBit(sp, u, t, n, k) != Bit(BoxWord(sp, u, t, k), n))
  {
    hide Bit, BoxWord;
  }

  lemma {:induction false} BoxesAre(c: Cipher, r: Word, i: KeyIndex, n: nat, k: nat)
    requires n < 32 && k <= 8
    ensures var s := Selecting(c, r, i);
      BoxesBit(c.sp, Entering(c, HalfBits(r), i), n, k) == WordsBit(c.sp, s.x, s.y, (n + 3) % 32, k)
  {
    hide Bit, SixFrom, Selecting, BoxIndex, Entering;
    if k > 0 {
      BoxesAre(c, r, i, n, k - 1);
      var s := Selecting(c, r, i);
      BoxIndexAt(c, r, i, k - 1, if (k - 1) % 2 == 0 then s.x else s.y, (4 * (k - 1) + 2) % 32);
    }
  }

  /** The word that a round adds is the function f of the standard, for every half, subkey, table and salt. */
  lemma RoundBits(c: Cipher, r: Word, i: KeyIndex)
    ensures HalfBits(RoundWord(c, r, i)) == F(c, HalfBits(r), i)
  {
    hide Bit, Selecting, BoxesBit, WordsBit, Entering, RoundWord, Mix;
    var s := Selecting(c, r, i);
    RoundSelects(c, r, i);
    forall n | 0 <= n < 32
      ensures HalfBits(RoundWord(c, r, i))[n] == F(c, HalfBits(r), i)[n]
    {
      MixBit(c.sp, s.x, s.y, (n + 3) % 32);
      BoxesAre(c, r, i, n, 8);
    }
  }

  // ---------- the whole transformation ----------

  lemma HalfOfRotated(w: Word, k: nat)
    requires k < 32
    ensures HalfBits(Rotate(w, 29))[k] == Bit(w, k) && HalfBits(w)[k] == Bit(Rotate(w, 3), k)
  {
    hide Bit, Rotate;
    Rotate29(w, (k + 3) % 32);
    Rotate3(w, k);
  }

  lemma EnterBits(b: Block)
    ensures var h, p := Enter(b), Initially(BlockBits(b)); HalfBits(h.l) == p[..32] && HalfBits(h.r) == p[32..]
  {
    hide Bit, IP, Rotate, Initially, BlockBits, HalfBits;
    var p := IP(b.d0, b.d1);
    forall k | 0 <= k < 32
      ensures HalfBits(Enter(b).l)[k] == Initially(BlockBits(b))[k]
      ensures HalfBits(Enter(b).r)[k] == Initially(BlockBits(b))[32 + k]
    {
      HalfOfRotated(p.y, k);
      HalfOfRotated(p.x, k);
      InitialBits(b, true, k);
      InitialBits(b, false, k);
    }
  }

  lemma LeaveBits(h: Halves)
    ensures BlockBits(Leave(h)) == Finally(HalfBits(h.r) + HalfBits(h.l))
  {
    hide Bit, FP, Rotate, Finally, BlockBits, HalfBits;
    forall k | 0 <= k < 32
      ensures HalfBits(h.r)[k] == Bit(Rotate(h.r, 3), k) && HalfBits(h.l)[k] == Bit(Rotate(h.l, 3), k)
    {
      HalfOfRotated(h.r, k);
      HalfOfRotated(h.l, k);
    }
    FinalBits(Rotate(h.r, 3), Rotate(h.l, 3), HalfBits(h.r) + HalfBits(h.l));
  }

  lemma FeistelBits(c: Cipher, h: Halves, i: KeyIndex)
    ensures HalfBits(Feistel(c, h.l, h.r, i)) == XorBits(HalfBits(h.l), F(c, HalfBits(h.r), i))
  {
    hide Bit, Sum, RoundWord, F;
    RoundBits(c, h.r, i);
    forall k | 0 <= k < 32
      ensures HalfBits(Feistel(c, h.l, h.r, i))[k] == XorBits(HalfBits(h.l), F(c, HalfBits(h.r), i))[k]
    {
      SumBit(h.l, RoundWord(c, h.r, i), (k + 3) % 32);
    }
  }

  lemma {:induction false} RoundsBits(c: Cipher, h: Halves, n: nat, encrypt: bool)
    requires n <= 16
    ensures var g := Rounds(c, h, Order(encrypt)[n..]);
      Preoutput(c, HalfBits(h.l), HalfBits(h.r), n, encrypt) == HalfBits(g.r) + HalfBits(g.l)
    decreases 16 - n
  {
    hide F, XorBits, HalfBits, Feistel;
    if n < 16 {
      var i := if encrypt then 2 * n else 30 - 2 * n;
      assert Order(encrypt)[n] == i;
      FeistelBits(c, h, i);
      RoundsBits(c, Round(c, h, i), n + 1, encrypt);
      assert Order(encrypt)[n..][1..] == Order(encrypt)[n + 1..];
    }
  }

  /** des_encrypt is the cipher of the standard, for every block, subkeys, table, salt and direction. */
  lemma CryptStandard(c: Cipher, b: Block, encrypt: bool)
    ensures BlockBits(Crypt(c, b, encrypt)) == Standard(c, BlockBits(b), encrypt)
  {
    hide Rounds, Preoutput, Order, Initially, Finally, BlockBits, HalfBits, Enter, Leave;
    EnterBits(b);
    RoundsBits(c, Enter(b), 0, encrypt);
    LeaveBits(Rounds(c, Enter(b), Order(encrypt)));
    assert Order(encrypt)[0..] == Order(encrypt);
  }

  /** The eight selections of a round leave out no bit of a word. */
  lemma SelectionsCover(a: Word, b: Word)
    requires SixAt(a, 2) == SixAt(b, 2) && SixAt(a, 10) == SixAt(b, 10)
    requires SixAt(a, 18) == SixAt(b, 18) && SixAt(a, 26) == SixAt(b, 26)
    requires SixAt(Rotate(a, 4), 2) == SixAt(Rotate(b, 4), 2) && SixAt(Rotate(a, 4), 10) == SixAt(Rotate(b, 4), 10)
    requires SixAt(Rotate(a, 4), 18) == SixAt(Rotate(b, 4), 18) && SixAt(Rotate(a, 4), 26) == SixAt(Rotate(b, 4), 26)
    ensures a == b
  {
  }

  lemma SameSelections(a: Word, b: Word)
    requires forall i :: 0 <= i < 32 ==> Bit(a, i) == Bit(b, i)
    ensures SixAt(a, 2) == SixAt(b, 2) && SixAt(a, 10) == SixAt(b, 10)
    ensures SixAt(a, 18) == SixAt(b, 18) && SixAt(a, 26) == SixAt(b, 26)
  {
    hide Bit, Six, SixAt;
    ShiftedSix(a);
    ShiftedSix(b);
  }

  lemma SameWord(a: Word, b: Word)
    requires forall i :: 0 <= i < 32 ==> Bit(a, i) == Bit(b, i)
    ensures a == b
  {
    hide Bit, SixAt, Rotate;
    forall i | 0 <= i < 32
      ensures Bit(Rotate(a, 4), i) == Bit(Rotate(b, 4), i)
    {
      Rotate4(a, i);
      Rotate4(b, i);
    }
    SameSelections(a, b);
    SameSelections(Rotate(a, 4), Rotate(b, 4));
    SelectionsCover(a, b);
  }

  /** Blocks of the same bits are the same: the bits of a result leave no choice. */
  lemma SameBlock(a: Block, b: Block)
    requires BlockBits(a) == BlockBits(b)
    ensures a == b
  {
    hide Bit, Place, BlockBits;
    forall i | 0 <= i < 32
      ensures Bit(a.d0, i) == Bit(b.d0, i) && Bit(a.d1, i) == Bit(b.d1, i)
    {
      var h, g := i / 8, 7 - i % 8;
      PlaceOf(h, g);
      PlaceOf(4 + h, g);
      BitOfBlock(a, 8 * h + g);
      BitOfBlock(b, 8 * h + g);
      BitOfBlock(a, 8 * (4 + h) + g);
      BitOfBlock(b, 8 * (4 + h) + g);
    }
    SameWord(a.d0, b.d0);
    SameWord(a.d1, b.d1);
  }

  /** With the upper halves of the salt words clear, as crypt(3) leaves them, the salt exchanges bits and no more. */
  lemma SaltExchanges(x: Bits, e: Word, j: nat)
    requires |x| == 48 && j < 48 && forall p :: 16 <= p < 32 ==> !Bit(e, p)
    ensures (j + 24) % 48 < 48 && ((j + 24) % 48 + 24) % 48 == j
    ensures var j' := (j + 24) % 48;
      && Position(j') == (Position(j) + 16) % 32
      && SaltedBit(x, e, j) == x[if Bit(e, Position(j) % 16) then j' else j]
      && SaltedBit(x, e, j') == x[if Bit(e, Position(j) % 16) then j else j']
  {
    hide Position, Bit;
    PositionOpposite(j);
  }
}
