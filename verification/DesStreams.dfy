/** The chaining routines as they run over byte buffers, in place or from one buffer to another. */
module DesStreams {
  import opened DesRounds
  import opened DesBlock
  import opened DesBytes
  import opened DesChaining

  // ---------- bytes to words and back ----------

  /** A byte put into its place in a word. */
  function Put(w: Word, a: Byte, n: Word): Word
    requires n <= 24
  {
    w | ((a as Word) << n)
  }

  lemma PutNothing(w: Word, n: Word)
    requires n <= 24
    ensures Put(w, 0, n) == w
  {
  }

  lemma PutAll(a: Byte, b: Byte, c: Byte, d: Byte)
    ensures Put(Put(Put(Put(0, d, 24), c, 16), b, 8), a, 0) == LoadWord(a, b, c, d)
  {
  }

  /** c2ln: one word from up to four bytes at `p`, the last of them first. */
  method BytesToWord(input: array<Byte>, p: nat, n: nat) returns (l: Word)
    requires n <= 4 && p + n <= input.Length
    ensures var s := input[p..p + n]; l == LoadWord(ByteAt(s, 0), ByteAt(s, 1), ByteAt(s, 2), ByteAt(s, 3))
  {
    hide LoadWord, Put;
    ghost var s := input[p..p + n];
    PutAll(ByteAt(s, 0), ByteAt(s, 1), ByteAt(s, 2), ByteAt(s, 3));
    l := 0;
    if n >= 4 {
      l := Put(l, input[p + 3], 24);
    }
    PutNothing(0, 24);
    ghost var l3 := l;
    if n >= 3 {
      l := Put(l, input[p + 2], 16);
    }
    PutNothing(l3, 16);
    ghost var l2 := l;
    if n >= 2 {
      l := Put(l, input[p + 1], 8);
    }
    PutNothing(l2, 8);
    ghost var l1 := l;
    if n >= 1 {
      l := Put(l, input[p], 0);
    }
    PutNothing(l1, 0);
  }

  lemma CutPart(s: seq<Byte>, p: nat, q: nat, n: nat)
    requires p + n <= q <= |s|
    ensures s[p..p + n] == s[p..q][..n] && s[p + n..q] == s[p..q][n..]
  {
  }

  /** c2l twice, or c2ln: the block of the `n` bytes at `p`. */
  method BytesToBlock(input: array<Byte>, p: nat, n: nat) returns (b: Block)
    requires n <= 8 && p + n <= input.Length
    ensures b == Load(input[p..p + n])
  {
    hide LoadWord;
    var n1 := if n <= 4 then n else 4;
    var l1 := BytesToWord(input, p, n1);
    var l2 := BytesToWord(input, p + n1, n - n1);
    b := Block(l1, l2);
    CutPart(input[..], p, p + n, n1);
    assert p + n1 + (n - n1) == p + n;
  }

  /** l2c twice, or l2cn: the first `n` bytes of the block to `p`, the last of them first. */
  method BlockToBytes(b: Block, output: array<Byte>, p: nat, n: nat)
    requires n <= 8 && p + n <= output.Length
    modifies output
    ensures output[..p] == old(output[..p])
    ensures output[p..p + n] == Store(b)[..n]
    ensures output[p + n..] == old(output[p + n..])
  {
    hide ByteOf;
    var i := n;
    while i > 0
      invariant 0 <= i <= n
      invariant output[..p + i] == old(output[..p + i])
      invariant output[p + i..p + n] == Store(b)[i..n]
      invariant output[p + n..] == old(output[p + n..])
    {
      i := i - 1;
      output[p + i] := Store(b)[i];
      assert output[p + i..p + n] == [output[p + i]] + output[p + i + 1..p + n];
    }
    assert old(output[..p + 0]) == old(output[..p]);
  }

  /** The two words of data go through the block routines in an array of their own. */
  method EncryptTin(k: Keyed, b: Block) returns (r: Block)
    ensures r == EncryptWith(k, b)
  {
    hide Crypt, Encrypt3;
    var tin := new Word[2];
    tin[0], tin[1] := b.d0, b.d1;
    match k
    case Single(c) =>
      DesEncrypt(tin, c, true);
      r := Block(tin[0], tin[1]);
    case Triple(c1, c2, c3) =>
      DesEncrypt3(tin, c1, c2, c3);
      r := Block(tin[0], tin[1]);
  }

  method DecryptTin(k: Keyed, b: Block) returns (r: Block)
    ensures r == DecryptWith(k, b)
  {
    hide Crypt, Decrypt3;
    var tin := new Word[2];
    tin[0], tin[1] := b.d0, b.d1;
    match k
    case Single(c) =>
      DesEncrypt(tin, c, false);
      r := Block(tin[0], tin[1]);
    case Triple(c1, c2, c3) =>
      DesDecrypt3(tin, c1, c2, c3);
      r := Block(tin[0], tin[1]);
  }

  // ---------- encryption ----------

  /** How far an encryption has got: `done` is written, `rest` still to come. */
  ghost predicate Encrypting(k: Keyed, iv: Block, m: seq<Byte>, done: seq<Byte>, last: Block, rest: seq<Byte>) {
    var r := CbcEncrypt(k, last, rest);
    CbcEncrypt(k, iv, m) == Chained(done + r.out, r.last)
  }

  lemma EncryptingStart(k: Keyed, iv: Block, m: seq<Byte>)
    ensures Encrypting(k, iv, m, [], iv, m)
  {
    hide CbcEncrypt;
    assert [] + CbcEncrypt(k, iv, m).out == CbcEncrypt(k, iv, m).out;
  }

  lemma EncryptingStep(k: Keyed, iv: Block, m: seq<Byte>, done: seq<Byte>, last: Block, rest: seq<Byte>)
    requires rest != [] && Encrypting(k, iv, m, done, last, rest)
    ensures var n := FirstPart(rest);
      var b := EncryptWith(k, Xor(Load(rest[..n]), last));
      Encrypting(k, iv, m, done + Store(b), b, rest[n..])
  {
    hide EncryptWith, Xor, Load, Store;
    var n := FirstPart(rest);
    var b := EncryptWith(k, Xor(Load(rest[..n]), last));
    Associates(done, Store(b), CbcEncrypt(k, b, rest[n..]).out);
  }

  lemma EncryptingEnd(k: Keyed, iv: Block, m: seq<Byte>, done: seq<Byte>, last: Block)
    requires Encrypting(k, iv, m, done, last, [])
    ensures CbcEncrypt(k, iv, m) == Chained(done, last)
  {
    hide EncryptWith, Xor, Load, Store;
    assert done + [] == done;
  }

  /** One block: `n` bytes at `p` are read, eight are written. */
  method EncryptPart(k: Keyed, input: array<Byte>, output: array<Byte>, p: nat, n: nat, last: Block) returns (b: Block)
    requires n <= 8 && p + n <= input.Length && p + 8 <= output.Length
    modifies output
    ensures b == EncryptWith(k, Xor(Load(old(input[p..p + n])), last))
    ensures output[..p] == old(output[..p]) && output[p..p + 8] == Store(b) && output[p + 8..] == old(output[p + 8..])
  {
    hide EncryptWith, Xor, Load, Store;
    var x := BytesToBlock(input, p, n);
    b := EncryptTin(k, Xor(x, last));
    BlockToBytes(b, output, p, 8);
    assert Store(b)[..8] == Store(b);
  }

  /** The same with what the loop needs: bytes still to be read are not touched, whether or not `input` is `output`. */
  method EncryptNext(k: Keyed, input: array<Byte>, output: array<Byte>, p: nat, n: nat, ghost m: seq<Byte>,
                     ghost end: nat, last: Block)
    returns (b: Block)
    requires p < |m| <= input.Length && p + 8 <= end <= output.Length
    requires n == FirstPart(m[p..]) && input[p..|m|] == m[p..]
    modifies output
    ensures b == EncryptWith(k, Xor(Load(m[p..][..n]), last))
    ensures output[..p + 8] == old(output[..p]) + Store(b) && output[end..] == old(output[end..])
    ensures input[p + n..|m|] == m[p + n..]
  {
    hide EncryptWith, Xor, Load, Store;
    CutPart(input[..], p, |m|, n);
    b := EncryptPart(k, input, output, p, n, last);
    assert output[..p + 8] == output[..p] + output[p..p + 8];
    AfterPart(output[..], old(output[..]), p, end);
    assert m[p..][n..] == m[p + n..];
    if input == output {
      if n == 8 {
        SameAfter(output[..], old(output[..]), p + 8, |m|);
      } else {
        assert p + n == |m|;
      }
    }
  }

  lemma SameAfter(now: seq<Byte>, before: seq<Byte>, p: nat, q: nat)
    requires |now| == |before| && p <= q <= |now| && now[p..] == before[p..]
    ensures now[p..q] == before[p..q]
  {
    assert now[p..q] == now[p..][..q - p] && before[p..q] == before[p..][..q - p];
  }

  lemma AfterPart(now: seq<Byte>, before: seq<Byte>, p: nat, end: nat)
    requires |now| == |before| && p + 8 <= end <= |now| && now[p + 8..] == before[p + 8..]
    ensures now[end..] == before[end..]
  {
    assert now[end..] == now[p + 8..][end - p - 8..] && before[end..] == before[p + 8..][end - p - 8..];
  }

  /** `input` may be `output`. */
  method EncryptStream(k: Keyed, input: array<Byte>, output: array<Byte>, length: nat, iv: Block) returns (last: Block)
    requires length <= input.Length && RoundUp(length) <= output.Length
    modifies output
    ensures Chained(output[..RoundUp(length)], last) == CbcEncrypt(k, iv, old(input[..length]))
    ensures output[RoundUp(length)..] == old(output[RoundUp(length)..])
  {
    hide EncryptWith, Xor, Load, Store, CbcEncrypt, Encrypting, RoundUp;
    ghost var m, end := input[..length], RoundUp(length);
    var p := 0;
    last := iv;
    EncryptingStart(k, iv, m);
    assert output[..0] == [] && m[0..] == m;
    while length - p >= 8
      invariant 0 <= p <= length && p + RoundUp(length - p) == end
      invariant input[p..length] == m[p..] && output[end..] == old(output[end..])
      invariant Encrypting(k, iv, m, output[..p], last, m[p..])
    {
      EncryptingStep(k, iv, m, output[..p], last, m[p..]);
      RoundUpStep(length - p);
      last := EncryptNext(k, input, output, p, 8, m, end, last);
      p := p + 8;
    }
    RoundUpStep(length - p);
    assert m[length..] == [];
    if p != length {
      EncryptingStep(k, iv, m, output[..p], last, m[p..]);
      assert m[p..][length - p..] == [];
      last := EncryptNext(k, input, output, p, length - p, m, end, last);
    }
    EncryptingEnd(k, iv, m, output[..end], last);
  }

  lemma RoundUpStep(n: nat)
    ensures RoundUp(n) == if n == 0 then 0 else if n < 8 then 8 else 8 + RoundUp(n - 8)
  {
  }

  // ---------- decryption ----------

  ghost predicate Decrypting(k: Keyed, iv: Block, c: seq<Byte>, n: nat, done: seq<Byte>, last: Block, rest: seq<Byte>,
                             left: nat)
    requires |c| == RoundUp(n) && |rest| == RoundUp(left)
  {
    var r := CbcDecrypt(k, last, rest, left);
    CbcDecrypt(k, iv, c, n) == Chained(done + r.out, r.last)
  }

  lemma DecryptingStart(k: Keyed, iv: Block, c: seq<Byte>, n: nat)
    requires |c| == RoundUp(n)
    ensures Decrypting(k, iv, c, n, [], iv, c, n)
  {
    hide CbcDecrypt;
    assert [] + CbcDecrypt(k, iv, c, n).out == CbcDecrypt(k, iv, c, n).out;
  }

  lemma DecryptingStep(k: Keyed, iv: Block, c: seq<Byte>, n: nat, done: seq<Byte>, last: Block, rest: seq<Byte>,
                       left: nat)
    requires |c| == RoundUp(n) && |rest| == RoundUp(left) && left >= 8
    requires Decrypting(k, iv, c, n, done, last, rest, left)
    ensures var x := Load(rest[..8]);
      Decrypting(k, iv, c, n, done + Store(Xor(DecryptWith(k, x), last)), x, rest[8..], left - 8)
  {
    hide DecryptWith, Xor, Load, Store;
    var x := Load(rest[..8]);
    Associates(done, Store(Xor(DecryptWith(k, x), last)), CbcDecrypt(k, x, rest[8..], left - 8).out);
  }

  lemma DecryptingEnd(k: Keyed, iv: Block, c: seq<Byte>, n: nat, done: seq<Byte>, last: Block, rest: seq<Byte>,
                      left: nat)
    requires |c| == RoundUp(n) && |rest| == RoundUp(left) && left < 8 && Decrypting(k, iv, c, n, done, last, rest, left)
    ensures CbcDecrypt(k, iv, c, n) ==
      if left == 0 then Chained(done, last)
      else var x := Load(rest[..8]); Chained(done + Store(Xor(DecryptWith(k, x), last))[..left], x)
  {
    hide DecryptWith, Xor, Load, Store;
    assert done + [] == done;
  }

  /** One block: eight bytes at `p` are read, `n` are written. */
  method DecryptPart(k: Keyed, input: array<Byte>, output: array<Byte>, p: nat, n: nat, last: Block) returns (x: Block)
    requires n <= 8 && p + 8 <= input.Length && p + n <= output.Length
    modifies output
    ensures x == Load(old(input[p..p + 8]))
    ensures output[..p + n] == old(output[..p]) + Store(Xor(DecryptWith(k, x), last))[..n]
    ensures output[p + n..] == old(output[p + n..])
  {
    hide DecryptWith, Xor, Load, Store;
    x := BytesToBlock(input, p, 8);
    var tin := DecryptTin(k, x);
    BlockToBytes(Xor(tin, last), output, p, n);
    assert output[..p + n] == output[..p] + output[p..p + n];
  }

  method DecryptNext(k: Keyed, input: array<Byte>, output: array<Byte>, p: nat, ghost c: seq<Byte>, ghost length: nat,
                     last: Block)
    returns (x: Block)
    requires p + 8 <= |c| <= input.Length && p + 8 <= length <= output.Length && input[p..|c|] == c[p..]
    modifies output
    ensures x == Load(c[p..][..8])
    ensures output[..p + 8] == old(output[..p]) + Store(Xor(DecryptWith(k, x), last))
    ensures output[length..] == old(output[length..]) && input[p + 8..|c|] == c[p + 8..]
  {
    hide DecryptWith, Xor, Load, Store;
    assert input[p..p + 8] == input[p..|c|][..8];
    x := DecryptPart(k, input, output, p, 8, last);
    ghost var b := Xor(DecryptWith(k, x), last);
    assert Store(b)[..8] == Store(b);
    AfterPart(output[..], old(output[..]), p, length);
    if input == output {
      AfterPart(output[..], old(output[..]), p, p + 8);
    }
    assert old(input[p..|c|])[8..] == c[p + 8..];
  }

  /** `input` may be `output`. */
  method DecryptStream(k: Keyed, input: array<Byte>, output: array<Byte>, length: nat, iv: Block) returns (last: Block)
    requires RoundUp(length) <= input.Length && length <= output.Length
    modifies output
    ensures Chained(output[..length], last) == CbcDecrypt(k, iv, old(input[..RoundUp(length)]), length)
    ensures output[length..] == old(output[length..])
  {
    hide DecryptWith, Xor, Load, Store, CbcDecrypt, Decrypting, RoundUp;
    ghost var end := RoundUp(length);
    ghost var c := input[..end];
    var p := 0;
    last := iv;
    DecryptingStart(k, iv, c, length);
    assert output[..0] == [] && c[0..] == c;
    while length - p >= 8
      invariant 0 <= p <= length && p + RoundUp(length - p) == end
      invariant input[p..end] == c[p..] && output[length..] == old(output[length..])
      invariant Decrypting(k, iv, c, length, output[..p], last, c[p..], length - p)
    {
      DecryptingStep(k, iv, c, length, output[..p], last, c[p..], length - p);
      RoundUpStep(length - p);
      last := DecryptNext(k, input, output, p, c, length, last);
      p := p + 8;
    }
    RoundUpStep(length - p);
    DecryptingEnd(k, iv, c, length, output[..p], last, c[p..], length - p);
    if p != length {
      assert input[p..p + 8] == c[p..][..8];
      last := DecryptPart(k, input, output, p, length - p, last);
    }
  }

  // ---------- the three chaining routines ----------

  method Ivec(ivec: array<Byte>) returns (iv: Block)
    requires ivec.Length == 8
    ensures iv == Load(ivec[..])
  {
    iv := BytesToBlock(ivec, 0, 8);
    assert ivec[0..0 + 8] == ivec[..];
  }

  method SetIvec(ivec: array<Byte>, last: Block)
    requires ivec.Length == 8
    modifies ivec
    ensures ivec[..] == Store(last)
  {
    BlockToBytes(last, ivec, 0, 8);
    assert ivec[..] == ivec[0..0 + 8] && Store(last)[..8] == Store(last);
  }

  /** What the routines write is the chain of the standard: ciphertext and the block to go on with. */
  ghost predicate Enciphered(k: Keyed, iv: seq<Byte>, p: seq<Byte>, c: seq<Byte>, next: seq<Byte>)
    requires |iv| == 8
  {
    Enciphers(k, iv, p, c) && next == Before(iv, c, |c| / 8)
  }

  ghost predicate Deciphered(k: Keyed, iv: seq<Byte>, c: seq<Byte>, p: seq<Byte>, next: seq<Byte>)
    requires |iv| == 8
  {
    Deciphers(k, iv, c, p) && next == Before(iv, c, |c| / 8)
  }

  /** des_ncbc_encrypt: the chaining block is written back. */
  method NcbcEncrypt(k: Keyed, input: array<Byte>, output: array<Byte>, length: nat, ivec: array<Byte>, encrypt: bool)
    requires ivec.Length == 8 && ivec != output
    requires length <= input.Length && length <= output.Length
    requires if encrypt then RoundUp(length) <= output.Length else RoundUp(length) <= input.Length
    modifies output, ivec
    ensures encrypt ==>
      var r := CbcEncrypt(k, Load(old(ivec[..])), old(input[..length]));
      && output[..RoundUp(length)] == r.out && ivec[..] == Store(r.last)
      && output[RoundUp(length)..] == old(output[RoundUp(length)..])
    ensures !encrypt ==>
      var r := CbcDecrypt(k, Load(old(ivec[..])), old(input[..RoundUp(length)]), length);
      output[..length] == r.out && output[length..] == old(output[length..]) && ivec[..] == Store(r.last)
    ensures encrypt ==>
      Enciphered(k, old(ivec[..]), old(input[..length]), output[..RoundUp(length)], ivec[..])
    ensures !encrypt ==>
      Deciphered(k, old(ivec[..]), old(input[..RoundUp(length)]), output[..length], ivec[..])
  {
    hide Load, Store, CbcEncrypt, CbcDecrypt, Enciphers, Deciphers, Before;
    var iv := Ivec(ivec);
    var last;
    if encrypt {
      EncryptChains(k, ivec[..], input[..length]);
      last := EncryptStream(k, input, output, length, iv);
    } else {
      DecryptChains(k, ivec[..], input[..RoundUp(length)], length);
      last := DecryptStream(k, input, output, length, iv);
    }
    SetIvec(ivec, last);
  }

  /** des_ede3_cbc_encrypt: the same with three schedules. */
  method Ede3CbcEncrypt(c1: Cipher, c2: Cipher, c3: Cipher, input: array<Byte>, output: array<Byte>, length: nat,
                        ivec: array<Byte>, encrypt: bool)
    requires ivec.Length == 8 && ivec != output
    requires length <= input.Length && length <= output.Length
    requires if encrypt then RoundUp(length) <= output.Length else RoundUp(length) <= input.Length
    modifies output, ivec
    ensures encrypt ==>
      var r := CbcEncrypt(Triple(c1, c2, c3), Load(old(ivec[..])), old(input[..length]));
      && output[..RoundUp(length)] == r.out && ivec[..] == Store(r.last)
      && output[RoundUp(length)..] == old(output[RoundUp(length)..])
    ensures !encrypt ==>
      var r := CbcDecrypt(Triple(c1, c2, c3), Load(old(ivec[..])), old(input[..RoundUp(length)]), length);
      output[..length] == r.out && output[length..] == old(output[length..]) && ivec[..] == Store(r.last)
    ensures encrypt ==>
      Enciphered(Triple(c1, c2, c3), old(ivec[..]), old(input[..length]), output[..RoundUp(length)], ivec[..])
    ensures !encrypt ==>
      Deciphered(Triple(c1, c2, c3), old(ivec[..]), old(input[..RoundUp(length)]), output[..length], ivec[..])
  {
    hide Load, Store, CbcEncrypt, CbcDecrypt, Enciphered, Deciphered;
    NcbcEncrypt(Triple(c1, c2, c3), input, output, length, ivec, encrypt);
  }

  /** des_cbc_encrypt: the same bytes, but the caller's chaining block stays as it was. */
  method CbcEncryptBytes(c: Cipher, input: array<Byte>, output: array<Byte>, length: nat, ivec: array<Byte>,
                         encrypt: bool)
    requires ivec.Length == 8 && ivec != output
    requires length <= input.Length && length <= output.Length
    requires if encrypt then RoundUp(length) <= output.Length else RoundUp(length) <= input.Length
    modifies output
    ensures encrypt ==>
      output[..RoundUp(length)] == CbcEncrypt(Single(c), Load(ivec[..]), old(input[..length])).out &&
      output[RoundUp(length)..] == old(output[RoundUp(length)..])
    ensures !encrypt ==>
      output[..length] == CbcDecrypt(Single(c), Load(ivec[..]), old(input[..RoundUp(length)]), length).out &&
      output[length..] == old(output[length..])
    ensures encrypt ==> Enciphers(Single(c), ivec[..], old(input[..length]), output[..RoundUp(length)])
    ensures !encrypt ==> Deciphers(Single(c), ivec[..], old(input[..RoundUp(length)]), output[..length])
  {
    hide Load, Store, CbcEncrypt, CbcDecrypt, Enciphers, Deciphers, Before;
    var iv := Ivec(ivec);
    var last;
    if encrypt {
      EncryptChains(Single(c), ivec[..], input[..length]);
      last := EncryptStream(Single(c), input, output, length, iv);
    } else {
      DecryptChains(Single(c), ivec[..], input[..RoundUp(length)], length);
      last := DecryptStream(Single(c), input, output, length, iv);
    }
  }
}
