/** Words bit by bit: what shifts, rotations, masks and the bit exchanges do to single bits. */
module DesBits {
  import opened DesRounds

  /** The word in which bit `i` alone is set. */
  function One(i: nat): Word
    requires i < 32
  {
    if i < 8 then Low(i)
    else if i < 16 then Low(i - 8) << 8
    else if i < 24 then Low(i - 16) << 16
    else Low(i - 24) << 24
  }

  function Low(i: nat): Word
    requires i < 8
  {
    match i
    case 0 => 0x01
    case 1 => 0x02
    case 2 => 0x04
    case 3 => 0x08
    case 4 => 0x10
    case 5 => 0x20
    case 6 => 0x40
    case 7 => 0x80
  }

  predicate Meets(w: Word, c: Word) {
    And(w, c) != 0
  }

  /** Bit `i`, the least significant one being bit 0. */
  predicate Bit(w: Word, i: nat)
    requires i < 32
  {
    Meets(w, One(i))
  }

  // ---------- sums and masks ----------

  predicate Single(c: Word) {
    c & (c - 1) == 0
  }

  lemma OneSingle(i: nat)
    requires i < 32
    ensures Single(One(i))
  {
  }

  lemma XorSingle(a: Word, b: Word, c: Word)
    requires c & (c - 1) == 0
    ensures ((a ^ b) & c != 0) == ((a & c != 0) != (b & c != 0))
  {
  }

  lemma SumSingle(a: Word, b: Word, c: Word)
    requires Single(c)
    ensures Meets(Sum(a, b), c) == (Meets(a, c) != Meets(b, c))
  {
    XorSingle(a, b, c);
  }

  lemma SumBit(a: Word, b: Word, i: nat)
    requires i < 32
    ensures Bit(Sum(a, b), i) == (Bit(a, i) != Bit(b, i))
  {
    hide One, Meets, Sum, Single;
    OneSingle(i);
    SumSingle(a, b, One(i));
  }

  // A mask, a shift or a rotation of a word shows the bits that the opposite one of `c` shows of the word.

  lemma AndTurns(a: Word, m: Word, c: Word)
    ensures And(And(a, m), c) == And(a, And(c, m))
  {
  }

  lemma AndMoves(a: Word, m: Word, c: Word)
    ensures Meets(And(a, m), c) == Meets(a, And(c, m))
  {
    hide And;
    AndTurns(a, m, c);
  }

  lemma NoneMet(a: Word)
    ensures !Meets(a, 0)
  {
  }

  // ---------- the bit exchanges ----------

  // For each distance n and its mask: where shifts take bits, which bits the mask has, and what the exchange does.

  lemma Shifts4(a: Word, c: Word)
    ensures Meets(Down(a, 4), c) == Meets(a, Up(c, 4))
    ensures Meets(Up(a, 4), c) == Meets(a, Down(c, 4))
  {
  }

  lemma Masked4(i: nat)
    requires i < 32
    ensures And(One(i), 0x0f0f0f0f) == if i % 8 < 4 then One(i) else 0
  {
  }

  lemma Raised4(i: nat)
    requires i + 4 < 32
    ensures Up(One(i), 4) == One(i + 4)
  {
  }

  lemma Lowered4(i: nat)
    requires i < 32
    ensures Down(One(i), 4) == if i < 4 then 0 else One(i - 4)
  {
  }

  lemma Differing4(a: Word, b: Word, i: nat)
    requires i < 32
    ensures i % 8 < 4 ==> i + 4 < 32
    ensures Bit(Differing(a, b, 4, 0x0f0f0f0f), i) == (i % 8 < 4 && Bit(a, i + 4) != Bit(b, i))
  {
    hide One, Meets, Sum, And, Down, Up;
    Masked4(i);
    if i % 8 < 4 {
      Raised4(i);
    }
    AndMoves(Sum(Down(a, 4), b), 0x0f0f0f0f, One(i));
    NoneMet(Sum(Down(a, 4), b));
    SumBit(Down(a, 4), b, i);
    Shifts4(a, One(i));
  }

  lemma Exchange4(a: Word, b: Word, i: nat)
    requires i < 32
    ensures var p := PermOp(a, b, 4, 0x0f0f0f0f);
      if i % 8 < 4 then i + 4 < 32 && Bit(p.x, i) == Bit(a, i) && Bit(p.y, i) == Bit(a, i + 4)
      else Bit(p.x, i) == Bit(b, i - 4) && Bit(p.y, i) == Bit(b, i)
  {
    hide One, Meets, Sum, Differing, Up, Down;
    var t := Differing(a, b, 4, 0x0f0f0f0f);
    Differing4(a, b, i);
    SumBit(b, t, i);
    SumBit(a, Up(t, 4), i);
    Shifts4(t, One(i));
    Lowered4(i);
    NoneMet(t);
    if i >= 4 {
      Differing4(a, b, i - 4);
    }
  }

  lemma Shifts16(a: Word, c: Word)
    ensures Meets(Down(a, 16), c) == Meets(a, Up(c, 16))
    ensures Meets(Up(a, 16), c) == Meets(a, Down(c, 16))
  {
  }

  lemma Masked16(i: nat)
    requires i < 32
    ensures And(One(i), 0x0000ffff) == if i % 32 < 16 then One(i) else 0
  {
  }

  lemma Raised16(i: nat)
    requires i + 16 < 32
    ensures Up(One(i), 16) == One(i + 16)
  {
  }

  lemma Lowered16(i: nat)
    requires i < 32
    ensures Down(One(i), 16) == if i < 16 then 0 else One(i - 16)
  {
  }

  lemma Differing16(a: Word, b: Word, i: nat)
    requires i < 32
    ensures i % 32 < 16 ==> i + 16 < 32
    ensures Bit(Differing(a, b, 16, 0x0000ffff), i) == (i % 32 < 16 && Bit(a, i + 16) != Bit(b, i))
  {
    hide One, Meets, Sum, And, Down, Up;
    Masked16(i);
    if i % 32 < 16 {
      Raised16(i);
    }
    AndMoves(Sum(Down(a, 16), b), 0x0000ffff, One(i));
    NoneMet(Sum(Down(a, 16), b));
    SumBit(Down(a, 16), b, i);
    Shifts16(a, One(i));
  }

  lemma Exchange16(a: Word, b: Word, i: nat)
    requires i < 32
    ensures var p := PermOp(a, b, 16, 0x0000ffff);
      if i % 32 < 16 then i + 16 < 32 && Bit(p.x, i) == Bit(a, i) && Bit(p.y, i) == Bit(a, i + 16)
      else Bit(p.x, i) == Bit(b, i - 16) && Bit(p.y, i) == Bit(b, i)
  {
    hide One, Meets, Sum, Differing, Up, Down;
    var t := Differing(a, b, 16, 0x0000ffff);
    Differing16(a, b, i);
    SumBit(b, t, i);
    SumBit(a, Up(t, 16), i);
    Shifts16(t, One(i));
    Lowered16(i);
    NoneMet(t);
    if i >= 16 {
      Differing16(a, b, i - 16);
    }
  }

  lemma Shifts2(a: Word, c: Word)
    ensures Meets(Down(a, 2), c) == Meets(a, Up(c, 2))
    ensures Meets(Up(a, 2), c) == Meets(a, Down(c, 2))
  {
  }

  lemma Masked2(i: nat)
    requires i < 32
    ensures And(One(i), 0x33333333) == if i % 4 < 2 then One(i) else 0
  {
  }

  lemma Raised2(i: nat)
    requires i + 2 < 32
    ensures Up(One(i), 2) == One(i + 2)
  {
  }

  lemma Lowered2(i: nat)
    requires i < 32
    ensures Down(One(i), 2) == if i < 2 then 0 else One(i - 2)
  {
  }

  lemma Differing2(a: Word, b: Word, i: nat)
    requires i < 32
    ensures i % 4 < 2 ==> i + 2 < 32
    ensures Bit(Differing(a, b, 2, 0x33333333), i) == (i % 4 < 2 && Bit(a, i + 2) != Bit(b, i))
  {
    hide One, Meets, Sum, And, Down, Up;
    Masked2(i);
    if i % 4 < 2 {
      Raised2(i);
    }
    AndMoves(Sum(Down(a, 2), b), 0x33333333, One(i));
    NoneMet(Sum(Down(a, 2), b));
    SumBit(Down(a, 2), b, i);
    Shifts2(a, One(i));
  }

  lemma Exchange2(a: Word, b: Word, i: nat)
    requires i < 32
    ensures var p := PermOp(a, b, 2, 0x33333333);
      if i % 4 < 2 then i + 2 < 32 && Bit(p.x, i) == Bit(a, i) && Bit(p.y, i) == Bit(a, i + 2)
      else Bit(p.x, i) == Bit(b, i - 2) && Bit(p.y, i) == Bit(b, i)
  {
    hide One, Meets, Sum, Differing, Up, Down;
    var t := Differing(a, b, 2, 0x33333333);
    Differing2(a, b, i);
    SumBit(b, t, i);
    SumBit(a, Up(t, 2), i);
    Shifts2(t, One(i));
    Lowered2(i);
    NoneMet(t);
    if i >= 2 {
      Differing2(a, b, i - 2);
    }
  }

  lemma Shifts8(a: Word, c: Word)
    ensures Meets(Down(a, 8), c) == Meets(a, Up(c, 8))
    ensures Meets(Up(a, 8), c) == Meets(a, Down(c, 8))
  {
  }

  lemma Masked8(i: nat)
    requires i < 32
    ensures And(One(i), 0x00ff00ff) == if i % 16 < 8 then One(i) else 0
  {
  }

  lemma Raised8(i: nat)
    requires i + 8 < 32
    ensures Up(One(i), 8) == One(i + 8)
  {
  }

  lemma Lowered8(i: nat)
    requires i < 32
    ensures Down(One(i), 8) == if i < 8 then 0 else One(i - 8)
  {
  }

  lemma Differing8(a: Word, b: Word, i: nat)
    requires i < 32
    ensures i % 16 < 8 ==> i + 8 < 32
    ensures Bit(Differing(a, b, 8, 0x00ff00ff), i) == (i % 16 < 8 && Bit(a, i + 8) != Bit(b, i))
  {
    hide One, Meets, Sum, And, Down, Up;
    Masked8(i);
    if i % 16 < 8 {
      Raised8(i);
    }
    AndMoves(Sum(Down(a, 8), b), 0x00ff00ff, One(i));
    NoneMet(Sum(Down(a, 8), b));
    SumBit(Down(a, 8), b, i);
    Shifts8(a, One(i));
  }

  lemma Exchange8(a: Word, b: Word, i: nat)
    requires i < 32
    ensures var p := PermOp(a, b, 8, 0x00ff00ff);
      if i % 16 < 8 then i + 8 < 32 && Bit(p.x, i) == Bit(a, i) && Bit(p.y, i) == Bit(a, i + 8)
      else Bit(p.x, i) == Bit(b, i - 8) && Bit(p.y, i) == Bit(b, i)
  {
    hide One, Meets, Sum, Differing, Up, Down;
    var t := Differing(a, b, 8, 0x00ff00ff);
    Differing8(a, b, i);
    SumBit(b, t, i);
    SumBit(a, Up(t, 8), i);
    Shifts8(t, One(i));
    Lowered8(i);
    NoneMet(t);
    if i >= 8 {
      Differing8(a, b, i - 8);
    }
  }

  lemma Shifts1(a: Word, c: Word)
    ensures Meets(Down(a, 1), c) == Meets(a, Up(c, 1))
    ensures Meets(Up(a, 1), c) == Meets(a, Down(c, 1))
  {
  }

  lemma Masked1(i: nat)
    requires i < 32
    ensures And(One(i), 0x55555555) == if i % 2 < 1 then One(i) else 0
  {
  }

  lemma Raised1(i: nat)
    requires i + 1 < 32
    ensures Up(One(i), 1) == One(i + 1)
  {
  }

  lemma Lowered1(i: nat)
    requires i < 32
    ensures Down(One(i), 1) == if i < 1 then 0 else One(i - 1)
  {
  }

  lemma Differing1(a: Word, b: Word, i: nat)
    requires i < 32
    ensures i % 2 < 1 ==> i + 1 < 32
    ensures Bit(Differing(a, b, 1, 0x55555555), i) == (i % 2 < 1 && Bit(a, i + 1) != Bit(b, i))
  {
    hide One, Meets, Sum, And, Down, Up;
    Masked1(i);
    if i % 2 < 1 {
      Raised1(i);
    }
    AndMoves(Sum(Down(a, 1), b), 0x55555555, One(i));
    NoneMet(Sum(Down(a, 1), b));
    SumBit(Down(a, 1), b, i);
    Shifts1(a, One(i));
  }

  lemma Exchange1(a: Word, b: Word, i: nat)
    requires i < 32
    ensures var p := PermOp(a, b, 1, 0x55555555);
      if i % 2 < 1 then i + 1 < 32 && Bit(p.x, i) == Bit(a, i) && Bit(p.y, i) == Bit(a, i + 1)
      else Bit(p.x, i) == Bit(b, i - 1) && Bit(p.y, i) == Bit(b, i)
  {
    hide One, Meets, Sum, Differing, Up, Down;
    var t := Differing(a, b, 1, 0x55555555);
    Differing1(a, b, i);
    SumBit(b, t, i);
    SumBit(a, Up(t, 1), i);
    Shifts1(t, One(i));
    Lowered1(i);
    NoneMet(t);
    if i >= 1 {
      Differing1(a, b, i - 1);
    }
  }

  // ---------- rotations ----------

  lemma Turns29(a: Word, c: Word)
    ensures Meets(Rotate(a, 29), c) == Meets(a, Rotate(c, 3))
  {
  }

  lemma OneTurned29(i: nat)
    requires i < 3
    ensures Rotate(One(i), 3) == One(i + 29)
  {
  }

  lemma OneRound29(i: nat)
    requires 3 <= i < 32
    ensures Rotate(One(i), 3) == One(i - 3)
  {
  }

  lemma Rotate29(a: Word, i: nat)
    requires i < 32
    ensures Bit(Rotate(a, 29), i) == Bit(a, (i + 29) % 32)
  {
    hide One, Meets, Rotate;
    Turns29(a, One(i));
    if i < 3 {
      OneTurned29(i);
    } else {
      OneRound29(i);
    }
  }

  lemma Turns3(a: Word, c: Word)
    ensures Meets(Rotate(a, 3), c) == Meets(a, Rotate(c, 29))
  {
  }

  lemma OneTurned3(i: nat)
    requires i < 29
    ensures Rotate(One(i), 29) == One(i + 3)
  {
  }

  lemma OneRound3(i: nat)
    requires 29 <= i < 32
    ensures Rotate(One(i), 29) == One(i - 29)
  {
  }

  lemma Rotate3(a: Word, i: nat)
    requires i < 32
    ensures Bit(Rotate(a, 3), i) == Bit(a, (i + 3) % 32)
  {
    hide One, Meets, Rotate;
    Turns3(a, One(i));
    if i < 29 {
      OneTurned3(i);
    } else {
      OneRound3(i);
    }
  }

  lemma Turns4(a: Word, c: Word)
    ensures Meets(Rotate(a, 4), c) == Meets(a, Rotate(c, 28))
  {
  }

  lemma OneTurned4(i: nat)
    requires i < 28
    ensures Rotate(One(i), 28) == One(i + 4)
  {
  }

  lemma OneRound4(i: nat)
    requires 28 <= i < 32
    ensures Rotate(One(i), 28) == One(i - 28)
  {
  }

  lemma Rotate4(a: Word, i: nat)
    requires i < 32
    ensures Bit(Rotate(a, 4), i) == Bit(a, (i + 4) % 32)
  {
    hide One, Meets, Rotate;
    Turns4(a, One(i));
    if i < 28 {
      OneTurned4(i);
    } else {
      OneRound4(i);
    }
  }
}
