/** The DES block transformation on 32-bit words, for any S-box table and any key schedule. */
module DesRounds {

  type Word = bv32

  /** The table des_SPtrans: row and six-bit index to word. */
  type Boxes = (nat, Word) -> Word

  /** Two subkey words for each of the sixteen rounds. */
  type Schedule = ks: seq<Word> | |ks| == 32 witness seq(32, _ => 0)

  type KeyIndex = i: int | 0 <= i <= 30

  /** Plain DES, or the variant of crypt(3) with its two salt words. */
  datatype Cipher = Plain(sp: Boxes, ks: Schedule) | Salted(sp: Boxes, ks: Schedule, e0: Word, e1: Word)

  datatype Pair = Pair(x: Word, y: Word)

  /** The two halves as the round loop sees them. */
  datatype Halves = Halves(l: Word, r: Word)

  /** Two words of data, as passed in and out. */
  datatype Block = Block(d0: Word, d1: Word)

  function Swap(h: Halves): Halves {
    Halves(h.r, h.l)
  }

  // ---------- bit permutations ----------

  function Sum(l: Word, w: Word): Word {
    l ^ w
  }

  function And(w: Word, m: Word): Word {
    w & m
  }

  function Down(w: Word, n: Word): Word
    requires n < 32
  {
    w >> n
  }

  function Up(w: Word, n: Word): Word
    requires n < 32
  {
    w << n
  }

  /** The masked bits of `b` that differ from those of `a` lying `n` higher. */
  function Differing(a: Word, b: Word, n: Word, m: Word): Word
    requires n < 32
  {
    And(Sum(Down(a, n), b), m)
  }

  function Flip(a: Word, t: Word, n: Word): Word
    requires n < 32
  {
    Sum(a, Up(t, n))
  }

  /** PERM_OP: exchange of the masked bits of `b` with those of `a` that lie `n` higher. */
  function PermOp(a: Word, b: Word, n: Word, m: Word): (p: Pair)
    requires n < 32
  {
    var t := Differing(a, b, n, m);
    Pair(Flip(a, t, n), Sum(b, t))
  }

  /** The exchanges that occur: distance and mask. */
  predicate ExchangePair(n: Word, m: Word) {
    || (n == 4 && m == 0x0f0f0f0f) || (n == 16 && m == 0x0000ffff) || (n == 2 && m == 0x33333333)
    || (n == 8 && m == 0x00ff00ff) || (n == 1 && m == 0x55555555)
  }

  // Masked bits survive the shift up and down again, so that exchanging them leaves the same bits differing.

  lemma Differs4(a: Word, b: Word)
    ensures var t := ((a >> 4) ^ b) & 0x0f0f0f0f; (((a ^ (t << 4)) >> 4) ^ (b ^ t)) & 0x0f0f0f0f == t
  {
  }

  lemma Differs16(a: Word, b: Word)
    ensures var t := ((a >> 16) ^ b) & 0x0000ffff; (((a ^ (t << 16)) >> 16) ^ (b ^ t)) & 0x0000ffff == t
  {
  }

  lemma Differs2(a: Word, b: Word)
    ensures var t := ((a >> 2) ^ b) & 0x33333333; (((a ^ (t << 2)) >> 2) ^ (b ^ t)) & 0x33333333 == t
  {
  }

  lemma Differs8(a: Word, b: Word)
    ensures var t := ((a >> 8) ^ b) & 0x00ff00ff; (((a ^ (t << 8)) >> 8) ^ (b ^ t)) & 0x00ff00ff == t
  {
  }

  lemma Differs1(a: Word, b: Word)
    ensures var t := ((a >> 1) ^ b) & 0x55555555; (((a ^ (t << 1)) >> 1) ^ (b ^ t)) & 0x55555555 == t
  {
  }

  lemma StillDiffers(a: Word, b: Word, n: Word, m: Word)
    requires ExchangePair(n, m)
    ensures var t := Differing(a, b, n, m); Differing(Flip(a, t, n), b ^ t, n, m) == t
  {
    if {
      case n == 4 => Differs4(a, b);
      case n == 16 => Differs16(a, b);
      case n == 2 => Differs2(a, b);
      case n == 8 => Differs8(a, b);
      case n == 1 => Differs1(a, b);
    }
  }

  lemma XorTwice(a: Word, t: Word)
    ensures (a ^ t) ^ t == a
  {
  }

  lemma FlipTwice(a: Word, t: Word, n: Word)
    requires n < 32
    ensures Flip(Flip(a, t, n), t, n) == a
  {
    XorTwice(a, t << n);
  }

  /** With the masks used here no exchanged bit is lost: the exchange undoes itself. */
  lemma PermOpInvolution(a: Word, b: Word, n: Word, m: Word)
    requires ExchangePair(n, m)
    ensures var p := PermOp(a, b, n, m); PermOp(p.x, p.y, n, m) == Pair(a, b)
  {
    hide Differing, Flip;
    var t := Differing(a, b, n, m);
    StillDiffers(a, b, n, m);
    FlipTwice(a, t, n);
    XorTwice(b, t);
  }

  function IP(x: Word, y: Word): Pair {
    var p := PermOp(y, x, 4, 0x0f0f0f0f);
    var q := PermOp(p.y, p.x, 16, 0x0000ffff);
    var s := PermOp(q.y, q.x, 2, 0x33333333);
    var t := PermOp(s.y, s.x, 8, 0x00ff00ff);
    var u := PermOp(t.y, t.x, 1, 0x55555555);
    Pair(u.y, u.x)
  }

  function FP(x: Word, y: Word): Pair {
    var p := PermOp(x, y, 1, 0x55555555);
    var q := PermOp(p.y, p.x, 8, 0x00ff00ff);
    var s := PermOp(q.y, q.x, 2, 0x33333333);
    var t := PermOp(s.y, s.x, 16, 0x0000ffff);
    PermOp(t.y, t.x, 4, 0x0f0f0f0f)
  }

  /** The final permutation undoes the initial one, halves exchanged. */
  lemma FinalAfterInitial(x: Word, y: Word)
    ensures var p := IP(x, y); FP(p.y, p.x) == Pair(y, x)
  {
    hide PermOp;
    var p := PermOp(y, x, 4, 0x0f0f0f0f);
    var q := PermOp(p.y, p.x, 16, 0x0000ffff);
    var s := PermOp(q.y, q.x, 2, 0x33333333);
    var t := PermOp(s.y, s.x, 8, 0x00ff00ff);
    PermOpInvolution(y, x, 4, 0x0f0f0f0f);
    PermOpInvolution(p.y, p.x, 16, 0x0000ffff);
    PermOpInvolution(q.y, q.x, 2, 0x33333333);
    PermOpInvolution(s.y, s.x, 8, 0x00ff00ff);
    PermOpInvolution(t.y, t.x, 1, 0x55555555);
  }

  lemma InitialAfterFinal(x: Word, y: Word)
    ensures var q := FP(x, y); IP(q.y, q.x) == Pair(y, x)
  {
    hide PermOp;
    var p := PermOp(x, y, 1, 0x55555555);
    var q := PermOp(p.y, p.x, 8, 0x00ff00ff);
    var s := PermOp(q.y, q.x, 2, 0x33333333);
    var t := PermOp(s.y, s.x, 16, 0x0000ffff);
    PermOpInvolution(x, y, 1, 0x55555555);
    PermOpInvolution(p.y, p.x, 8, 0x00ff00ff);
    PermOpInvolution(q.y, q.x, 2, 0x33333333);
    PermOpInvolution(s.y, s.x, 16, 0x0000ffff);
    PermOpInvolution(t.y, t.x, 4, 0x0f0f0f0f);
  }

  /** ROTATE: to the right by `n`. */
  function Rotate(a: Word, n: Word): Word
    requires 0 < n < 32
  {
    (a >> n) + (a << (32 - n))
  }

  lemma RotateCancels(a: Word)
    ensures Rotate(Rotate(a, 29), 3) == a && Rotate(Rotate(a, 3), 29) == a
  {
  }

  // ---------- the rounds ----------

  /** Six bits of a word from bit `n` on, as the index into a box. */
  function SixAt(w: Word, n: Word): Word
    requires n < 32
  {
    And(Down(w, n), 0x3f)
  }

  function Mix(sp: Boxes, u: Word, t0: Word): Word {
    var t := Rotate(t0, 4);
    Sum(Sum(Sum(Sum(Sum(Sum(Sum(
      sp(0, SixAt(u, 2)), sp(2, SixAt(u, 10))), sp(4, SixAt(u, 18))), sp(6, SixAt(u, 26))),
      sp(1, SixAt(t, 2))), sp(3, SixAt(t, 10))), sp(5, SixAt(t, 18))), sp(7, SixAt(t, 26)))
  }

  /** What a round of crypt(3) selects with, from the half, a salt word and a subkey word. */
  function SaltedWord(r: Word, e: Word, k: Word): Word {
    var u := And(Sum(r, Down(r, 16)), e);
    Sum(Sum(u, Sum(r, k)), Up(u, 16))
  }

  /** What one round adds to the other half. */
  function RoundWord(c: Cipher, r: Word, i: KeyIndex): Word {
    match c
    case Plain(sp, ks) => Mix(sp, Sum(r, ks[i]), Sum(r, ks[i + 1]))
    case Salted(sp, ks, e0, e1) => Mix(sp, SaltedWord(r, e0, ks[i]), SaltedWord(r, e1, ks[i + 1]))
  }

  /** D_ENCRYPT. */
  function Feistel(c: Cipher, l: Word, r: Word, i: KeyIndex): Word {
    Sum(l, RoundWord(c, r, i))
  }

  /** One round, with the exchange of the halves. */
  function Round(c: Cipher, h: Halves, i: KeyIndex): Halves {
    Halves(h.r, Feistel(c, h.l, h.r, i))
  }

  /** Rounds in the order of `s`. */
  function Rounds(c: Cipher, h: Halves, s: seq<KeyIndex>): Halves
    decreases |s|
  {
    if s == [] then h else Rounds(c, Round(c, h, s[0]), s[1..])
  }

  function Order(encrypt: bool): seq<KeyIndex> {
    seq(16, i requires 0 <= i < 16 => if encrypt then 2 * i else 30 - 2 * i)
  }

  function Reversed(s: seq<KeyIndex>): (t: seq<KeyIndex>)
    ensures |t| == |s| && forall i :: 0 <= i < |s| ==> t[i] == s[|s| - 1 - i]
  {
    if s == [] then [] else Reversed(s[1..]) + [s[0]]
  }

  lemma {:induction false} RoundsAppend(c: Cipher, h: Halves, s: seq<KeyIndex>, i: KeyIndex)
    ensures Rounds(c, h, s + [i]) == Round(c, Rounds(c, h, s), i)
    decreases |s|
  {
    hide Round;
    if s == [] {
      assert s + [i] == [i];
    } else {
      assert (s + [i])[1..] == s[1..] + [i];
      RoundsAppend(c, Round(c, h, s[0]), s[1..], i);
    }
  }

  lemma RoundUndo(c: Cipher, h: Halves, i: KeyIndex)
    ensures Round(c, Swap(Round(c, h, i)), i) == Swap(h)
  {
    hide RoundWord;
    XorCancels(h.l, RoundWord(c, h.r, i));
  }

  lemma XorCancels(a: Word, b: Word)
    ensures (a ^ b) ^ b == a
  {
  }

  /** The same rounds in reverse order, on exchanged halves, undo them. */
  lemma {:induction false} RoundsUndo(c: Cipher, h: Halves, s: seq<KeyIndex>)
    ensures Rounds(c, Swap(Rounds(c, h, s)), Reversed(s)) == Swap(h)
    decreases |s|
  {
    hide Round, Swap;
    if s != [] {
      RoundsUndo(c, Round(c, h, s[0]), s[1..]);
      RoundsAppend(c, Swap(Rounds(c, h, s)), Reversed(s[1..]), s[0]);
      RoundUndo(c, h, s[0]);
    }
  }

  lemma OrderReversed(encrypt: bool)
    ensures Reversed(Order(encrypt)) == Order(!encrypt)
  {
  }

  // ---------- the block transformation ----------

  /** Initial permutation and rotation. */
  function Enter(b: Block): Halves {
    var p := IP(b.d0, b.d1);
    Halves(Rotate(p.y, 29), Rotate(p.x, 29))
  }

  /** Rotation back and final permutation. */
  function Leave(h: Halves): Block {
    var q := FP(Rotate(h.r, 3), Rotate(h.l, 3));
    Block(q.y, q.x)
  }

  lemma EnterLeave(h: Halves)
    ensures Enter(Leave(h)) == Swap(h)
  {
    hide FP, IP, Rotate;
    InitialAfterFinal(Rotate(h.r, 3), Rotate(h.l, 3));
    RotateCancels(h.l);
    RotateCancels(h.r);
  }

  lemma LeaveEnter(b: Block)
    ensures Leave(Swap(Enter(b))) == b
  {
    hide FP, IP, Rotate;
    var p := IP(b.d0, b.d1);
    FinalAfterInitial(b.d0, b.d1);
    RotateCancels(p.x);
    RotateCancels(p.y);
  }

  /** des_encrypt. */
  function Crypt(c: Cipher, b: Block, encrypt: bool): Block {
    Leave(Rounds(c, Enter(b), Order(encrypt)))
  }

  /** Decryption inverts encryption, and the other way round, for every table, schedule and block. */
  lemma CryptInverse(c: Cipher, b: Block, encrypt: bool)
    ensures Crypt(c, Crypt(c, b, encrypt), !encrypt) == b
  {
    hide Enter, Leave, Rounds, Order;
    var h := Rounds(c, Enter(b), Order(encrypt));
    EnterLeave(h);
    RoundsUndo(c, Enter(b), Order(encrypt));
    OrderReversed(encrypt);
    LeaveEnter(b);
  }
}
