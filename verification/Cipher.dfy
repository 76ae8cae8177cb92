// per_id.h and per_id.cpp: the XTEA block cipher and `ed`, which applies it to a buffer in place.
module Cipher {
  import opened Words

  type Key = k: seq<u32> | |k| == 4 witness [0, 0, 0, 0]

  // The two halves v[0], v[1] of a cipher block.
  datatype Block = Block(v0: u32, v1: u32)

  const DELTA: u32 := 0x9E3779B9
  const BLOCK_SIZE := 8
  const ROUNDS := 32

  // The mixing of one half with the sum and a key word, on registers and on numbers.
  function Mixed(v: bv32, sum: bv32, k: bv32): bv32 {
    (((v << 4) ^ (v >> 5)) + v) ^ (sum + k)
  }

  function Mix(v: u32, sum: u32, k: u32): u32 {
    Mixed(v as bv32, sum as bv32, k as bv32) as int
  }

  lemma MixedLaw(v: bv32, sum: bv32, k: bv32)
    ensures Mixed(v, sum, k) == (((v << 4) ^ (v >> 5)) + v) ^ (sum + k)
  {
  }

  // What a half-round adds, in the operators of C.
  lemma MixLaw(v: bv32, sum: bv32, k: bv32)
    ensures Mix(v as int, sum as int, k as int) == ((((v << 4) ^ (v >> 5)) + v) ^ (sum + k)) as int
  {
    MixedLaw(v, sum, k);
    hide Mixed;
    Reread(v);
    Reread(sum);
    Reread(k);
  }

  // One round of xtea_encipher; `sum` is its value before the round.
  function Forward(b: Block, sum: u32, key: Key): Block {
    var v0 := Add(b.v0, Mix(b.v1, sum, key[sum % 4]));
    var next := Add(sum, DELTA);
    Block(v0, Add(b.v1, Mix(v0, next, key[next / 2048 % 4])))
  }

  // One round of xtea_decipher; `sum` is its value before the round.
  function Backward(b: Block, sum: u32, key: Key): Block {
    var v1 := Sub(b.v1, Mix(b.v0, sum, key[sum / 2048 % 4]));
    var next := Sub(sum, DELTA);
    Block(Sub(b.v0, Mix(v1, next, key[next % 4])), v1)
  }

  // `sum` after n rounds of xtea_encipher.
  function SumAfter(n: nat): u32 {
    if n == 0 then 0 else Add(SumAfter(n - 1), DELTA)
  }

  function Enciphered(n: nat, b: Block, key: Key): Block {
    if n == 0 then b else Forward(Enciphered(n - 1, b, key), SumAfter(n - 1), key)
  }

  function Deciphered(n: nat, b: Block, key: Key): Block {
    if n == 0 then b else Deciphered(n - 1, Backward(b, SumAfter(n), key), key)
  }

  // xtea_decipher starts from delta*num_rounds, computed with wrap-around; the accumulated
  // sum of xtea_encipher ends there.
  lemma {:induction false} SumIsProduct(n: nat)
    ensures SumAfter(n) == DELTA * n % W32
  {
    var q := SumQuotient(n);
    Remainder(DELTA * n, q, SumAfter(n));
  }

  lemma {:induction false} SumQuotient(n: nat) returns (q: nat)
    ensures DELTA * n == W32 * q + SumAfter(n)
  {
    if n == 0 {
      q := 0;
    } else {
      var p := SumQuotient(n - 1);
      q := if SumAfter(n - 1) + DELTA < W32 then p else p + 1;
    }
  }

  lemma Remainder(x: nat, q: nat, r: u32)
    requires x == W32 * q + r
    ensures x % W32 == r
  {
  }

  lemma RoundInverse(b: Block, sum: u32, key: Key)
    ensures Backward(Forward(b, sum, key), Add(sum, DELTA), key) == b
    ensures Forward(Backward(b, Add(sum, DELTA), key), sum, key) == b
  {
    hide Mix, Add, Sub;
    AddSub(sum, DELTA);
    var next := Add(sum, DELTA);
    var f := Forward(b, sum, key);
    AddSub(b.v1, Mix(f.v0, next, key[next / 2048 % 4]));
    AddSub(b.v0, Mix(b.v1, sum, key[sum % 4]));
    var g := Backward(b, next, key);
    AddSub(b.v1, Mix(b.v0, next, key[next / 2048 % 4]));
    AddSub(b.v0, Mix(g.v1, sum, key[sum % 4]));
  }

  lemma {:induction false} DecipherUndoesEncipher(n: nat, b: Block, key: Key)
    ensures Deciphered(n, Enciphered(n, b, key), key) == b
  {
    hide Forward, Backward, Add, Sub;
    if n == 0 {
    } else {
      RoundInverse(Enciphered(n - 1, b, key), SumAfter(n - 1), key);
      DecipherUndoesEncipher(n - 1, b, key);
    }
  }

  lemma {:induction false} EncipherUndoesDecipher(n: nat, b: Block, key: Key)
    ensures Enciphered(n, Deciphered(n, b, key), key) == b
  {
    hide Forward, Backward, Add, Sub;
    if n == 0 {
    } else {
      RoundInverse(b, SumAfter(n - 1), key);
      EncipherUndoesDecipher(n - 1, Backward(b, SumAfter(n), key), key);
    }
  }

  method XteaEncipher(numRounds: u32, v: array<u32>, key: Key)
    requires v.Length == 2
    modifies v
    ensures Block(v[0], v[1]) == Enciphered(numRounds, old(Block(v[0], v[1])), key)
  {
    var v0, v1, sum: u32 := v[0], v[1], 0;
    var i := 0;
    while i < numRounds
      invariant i <= numRounds && sum == SumAfter(i)
      invariant Block(v0, v1) == Enciphered(i, old(Block(v[0], v[1])), key)
    {
      v0 := Add(v0, Mix(v1, sum, key[sum % 4]));
      sum := Add(sum, DELTA);
      v1 := Add(v1, Mix(v0, sum, key[sum / 2048 % 4]));
      i := i + 1;
    }
    v[0], v[1] := v0, v1;
  }

  method XteaDecipher(numRounds: u32, v: array<u32>, key: Key)
    requires v.Length == 2
    modifies v
    ensures Block(v[0], v[1]) == Deciphered(numRounds, old(Block(v[0], v[1])), key)
  {
    hide Mix, Add, Sub;
    var v0, v1, sum: u32 := v[0], v[1], DELTA * numRounds % W32;
    SumIsProduct(numRounds);
    var i := 0;
    while i < numRounds
      invariant i <= numRounds && sum == SumAfter(numRounds - i)
      invariant Deciphered(numRounds - i, Block(v0, v1), key)
             == Deciphered(numRounds, old(Block(v[0], v[1])), key)
    {
      ghost var b, n := Block(v0, v1), numRounds - i;
      AddSub(SumAfter(n - 1), DELTA);
      v1 := Sub(v1, Mix(v0, sum, key[sum / 2048 % 4]));
      sum := Sub(sum, DELTA);
      v0 := Sub(v0, Mix(v1, sum, key[sum % 4]));
      assert Block(v0, v1) == Backward(b, SumAfter(n), key);
      i := i + 1;
    }
    v[0], v[1] := v0, v1;
  }

  // --- ed ---

  // The (uint32_t*) view of eight buffer bytes, and back.
  function ToBlock(s: seq<byte>): Block
    requires |s| == BLOCK_SIZE
  {
    Block(FromLe32(s[..4]), FromLe32(s[4..]))
  }

  function FromBlock(b: Block): (s: seq<byte>)
    ensures |s| == BLOCK_SIZE
  {
    Le32(b.v0) + Le32(b.v1)
  }

  function Crypted(s: seq<byte>, key: Key, encrypt: bool): (r: seq<byte>)
    requires |s| == BLOCK_SIZE
    ensures |r| == BLOCK_SIZE
  {
    FromBlock(if encrypt then Enciphered(ROUNDS, ToBlock(s), key) else Deciphered(ROUNDS, ToBlock(s), key))
  }

  // The first n blocks of s, each ciphered on its own.
  function CryptBlocks(s: seq<byte>, n: nat, key: Key, encrypt: bool): (r: seq<byte>)
    requires n * BLOCK_SIZE <= |s|
    ensures |r| == n * BLOCK_SIZE
  {
    if n == 0 then []
    else CryptBlocks(s, n - 1, key, encrypt) + Crypted(s[n * BLOCK_SIZE - BLOCK_SIZE..n * BLOCK_SIZE], key, encrypt)
  }

  lemma BlockRoundTrip(b: Block)
    ensures ToBlock(FromBlock(b)) == b
  {
    var s := FromBlock(b);
    assert s[..4] == Le32(b.v0) && s[4..] == Le32(b.v1);
    Le32RoundTrip(b.v0);
    Le32RoundTrip(b.v1);
  }

  lemma BytesRoundTrip(s: seq<byte>)
    requires |s| == BLOCK_SIZE
    ensures FromBlock(ToBlock(s)) == s
  {
    Le32RoundTripBytes(s[..4]);
    Le32RoundTripBytes(s[4..]);
  }

  lemma CryptedInverse(s: seq<byte>, key: Key, encrypt: bool)
    requires |s| == BLOCK_SIZE
    ensures Crypted(Crypted(s, key, encrypt), key, !encrypt) == s
  {
    hide Enciphered, Deciphered, ToBlock, FromBlock;
    BytesRoundTrip(s);
    BlockRoundTrip(Enciphered(ROUNDS, ToBlock(s), key));
    BlockRoundTrip(Deciphered(ROUNDS, ToBlock(s), key));
    DecipherUndoesEncipher(ROUNDS, ToBlock(s), key);
    EncipherUndoesDecipher(ROUNDS, ToBlock(s), key);
  }

  lemma {:induction false} CryptBlocksPrefix(s: seq<byte>, t: seq<byte>, n: nat, key: Key, encrypt: bool)
    requires n * BLOCK_SIZE <= |s| && n * BLOCK_SIZE <= |t|
    requires s[..n * BLOCK_SIZE] == t[..n * BLOCK_SIZE]
    ensures CryptBlocks(s, n, key, encrypt) == CryptBlocks(t, n, key, encrypt)
  {
    hide Crypted;
    if n == 0 {
    } else {
      var m := n * BLOCK_SIZE - BLOCK_SIZE;
      assert s[..m] == s[..n * BLOCK_SIZE][..m] && t[..m] == t[..n * BLOCK_SIZE][..m];
      assert s[m..n * BLOCK_SIZE] == s[..n * BLOCK_SIZE][m..] && t[m..n * BLOCK_SIZE] == t[..n * BLOCK_SIZE][m..];
      CryptBlocksPrefix(s, t, n - 1, key, encrypt);
    }
  }

  // Ciphering the whole blocks one way and then the other gives every one of their bytes back.
  lemma {:induction false} CryptBlocksInverse(s: seq<byte>, n: nat, key: Key, encrypt: bool)
    requires n * BLOCK_SIZE <= |s|
    ensures CryptBlocks(CryptBlocks(s, n, key, encrypt), n, key, !encrypt) == s[..n * BLOCK_SIZE]
  {
    hide Crypted;
    if n == 0 {
    } else {
      var m := n * BLOCK_SIZE - BLOCK_SIZE;
      var block := s[m..n * BLOCK_SIZE];
      var done := CryptBlocks(s, n - 1, key, encrypt);
      var all := CryptBlocks(s, n, key, encrypt);
      assert all[..m] == done && all[m..n * BLOCK_SIZE] == Crypted(block, key, encrypt);
      assert done[..m] == done;
      CryptBlocksPrefix(all, done, n - 1, key, !encrypt);
      CryptBlocksInverse(s, n - 1, key, encrypt);
      CryptedInverse(block, key, encrypt);
      assert s[..m] + block == s[..n * BLOCK_SIZE];
    }
  }

  // What ed leaves in out[..len]: the whole blocks of the input ciphered one by one and, when
  // len is not a multiple of 8, the kept part of a last block whose missing bytes were junk.
  ghost predicate EdResult(input: seq<byte>, output: seq<byte>, key: Key, encrypt: bool) {
    && |output| == |input|
    && var n := |input| / BLOCK_SIZE;
       var whole := n * BLOCK_SIZE;
    && output[..whole] == CryptBlocks(input, n, key, encrypt)
    && (whole < |input| ==>
          RaggedTail(input[whole..], output[whole..], key, encrypt))
  }

  ghost predicate RaggedTail(tail: seq<byte>, output: seq<byte>, key: Key, encrypt: bool) {
    exists junk: seq<byte> :: TailResult(tail, junk, output, key, encrypt)
  }

  ghost predicate TailResult(tail: seq<byte>, junk: seq<byte>, output: seq<byte>, key: Key, encrypt: bool) {
    && |tail| == |output|
    && |tail| + |junk| == BLOCK_SIZE
    && output == Crypted(tail + junk, key, encrypt)[..|tail|]
  }

  method CryptAt(out: array<byte>, off: nat, key: Key, encrypt: bool)
    requires off + BLOCK_SIZE <= out.Length
    modifies out
    ensures out[off..off + BLOCK_SIZE] == Crypted(old(out[off..off + BLOCK_SIZE]), key, encrypt)
    ensures out[..off] == old(out[..off])
    ensures out[off + BLOCK_SIZE..] == old(out[off + BLOCK_SIZE..])
  {
    hide Enciphered, Deciphered;
    var v := new u32[2];
    ghost var block := out[off..off + BLOCK_SIZE];
    assert out[off..off + 4] == block[..4] && out[off + 4..off + BLOCK_SIZE] == block[4..];
    v[0], v[1] := FromLe32(out[off..off + 4]), FromLe32(out[off + 4..off + BLOCK_SIZE]);
    if encrypt {
      XteaEncipher(ROUNDS, v, key);
    } else {
      XteaDecipher(ROUNDS, v, key);
    }
    var bytes := Le32(v[0]) + Le32(v[1]);
    var i := 0;
    while i < BLOCK_SIZE
      invariant 0 <= i <= BLOCK_SIZE
      invariant out[..off] == old(out[..off])
      invariant out[off + BLOCK_SIZE..] == old(out[off + BLOCK_SIZE..])
      invariant forall j :: 0 <= j < i ==> out[off + j] == bytes[j]
    {
      out[off + i] := bytes[i];
      i := i + 1;
    }
  }

  // `ed(in + off, out, len, key, encrypt)`; memcpy demands that the two buffers do not overlap.
  method Ed(input: array<byte>, off: nat, out: array<byte>, len: nat, key: Key, encrypt: bool)
    requires input != out
    requires off + len <= input.Length && len <= out.Length
    modifies out
    ensures EdResult(input[off..off + len], out[..len], key, encrypt)
    ensures out[len..] == old(out[len..])
  {
    hide Crypted;
    ghost var src := input[off..off + len];
    Copy(input, off, out, 0, len);
    assert out[0..len] == out[..len];
    var whole := len / BLOCK_SIZE * BLOCK_SIZE;
    ghost var rest := out[whole..];
    EdBlocks(out, len, key, encrypt);
    assert out[whole..len] == rest[..len - whole] == src[whole..];
    ghost var done := out[..whole];
    if len % BLOCK_SIZE != 0 {
      EdTail(out, whole, len % BLOCK_SIZE, key, encrypt);
    }
    assert out[len..] == out[whole..][len - whole..];
    assert out[..len][..whole] == done && out[..len][whole..] == out[whole..len];
  }

  // The loop of ed over the whole blocks of out[..len].
  method EdBlocks(out: array<byte>, len: nat, key: Key, encrypt: bool)
    requires len <= out.Length
    modifies out
    ensures out[..len / BLOCK_SIZE * BLOCK_SIZE] == CryptBlocks(old(out[..len]), len / BLOCK_SIZE, key, encrypt)
    ensures out[len / BLOCK_SIZE * BLOCK_SIZE..] == old(out[len / BLOCK_SIZE * BLOCK_SIZE..])
  {
    hide Crypted;
    ghost var src := out[..];
    var n := len / BLOCK_SIZE;
    var i := 0;
    while i < n
      invariant 0 <= i <= n
      invariant out[..i * BLOCK_SIZE] == CryptBlocks(src, i, key, encrypt)
      invariant out[i * BLOCK_SIZE..] == src[i * BLOCK_SIZE..]
    {
      ghost var before := out[..];
      CryptAt(out, i * BLOCK_SIZE, key, encrypt);
      BlockStep(before, out[..], src, i, key, encrypt);
      i := i + 1;
    }
    CryptBlocksPrefix(src, src[..len], n, key, encrypt);
  }

  // The `len % BLOCK_SIZE != 0` part of ed. A fresh array stands for its uninitialised stack buffer.
  method EdTail(out: array<byte>, offset: nat, mod: nat, key: Key, encrypt: bool)
    requires mod < BLOCK_SIZE && offset + mod <= out.Length
    modifies out
    ensures RaggedTail(old(out[offset..offset + mod]), out[offset..offset + mod], key, encrypt)
    ensures out[..offset] == old(out[..offset]) && out[offset + mod..] == old(out[offset + mod..])
  {
    hide Crypted;
    ghost var tail := out[offset..offset + mod];
    var data := new byte[BLOCK_SIZE];
    ghost var junk := data[mod..];
    Copy(out, offset, data, 0, mod);
    assert data[0..BLOCK_SIZE] == data[0..mod] + data[mod..] == tail + junk;
    CryptAt(data, 0, key, encrypt);
    assert data[0..mod] == data[0..BLOCK_SIZE][..mod];
    Copy(data, 0, out, offset, mod);
    assert TailResult(tail, junk, out[offset..offset + mod], key, encrypt);
  }

  // One turn of the loop of ed, seen on the buffer contents.
  lemma BlockStep(before: seq<byte>, after: seq<byte>, src: seq<byte>, i: nat, key: Key, encrypt: bool)
    requires (i + 1) * BLOCK_SIZE <= |before| == |after| == |src|
    requires before[..i * BLOCK_SIZE] == CryptBlocks(src, i, key, encrypt)
    requires before[i * BLOCK_SIZE..] == src[i * BLOCK_SIZE..]
    requires after[i * BLOCK_SIZE..(i + 1) * BLOCK_SIZE]
          == Crypted(before[i * BLOCK_SIZE..(i + 1) * BLOCK_SIZE], key, encrypt)
    requires after[..i * BLOCK_SIZE] == before[..i * BLOCK_SIZE]
    requires after[(i + 1) * BLOCK_SIZE..] == before[(i + 1) * BLOCK_SIZE..]
    ensures after[..(i + 1) * BLOCK_SIZE] == CryptBlocks(src, i + 1, key, encrypt)
    ensures after[(i + 1) * BLOCK_SIZE..] == src[(i + 1) * BLOCK_SIZE..]
  {
    hide Crypted;
    var m, e := i * BLOCK_SIZE, (i + 1) * BLOCK_SIZE;
    assert before[m..e] == before[m..][..BLOCK_SIZE] == src[m..e];
    assert after[..e] == after[..m] + after[m..e];
    assert after[e..] == before[m..][BLOCK_SIZE..];
  }

  // memcpy between disjoint buffers.
  method Copy(src: array<byte>, from: nat, dst: array<byte>, to: nat, len: nat)
    requires src != dst && from + len <= src.Length && to + len <= dst.Length
    modifies dst
    ensures dst[to..to + len] == src[from..from + len]
    ensures dst[..to] == old(dst[..to]) && dst[to + len..] == old(dst[to + len..])
  {
    var i := 0;
    while i < len
      invariant 0 <= i <= len
      invariant dst[to..to + i] == src[from..from + i]
      invariant dst[..to] == old(dst[..to]) && dst[to + len..] == old(dst[to + len..])
    {
      dst[to + i] := src[from + i];
      i := i + 1;
    }
  }

  // Deciphering what ed enciphered, or the reverse, restores every byte of the whole blocks;
  // for a length that is a multiple of 8 that is the whole buffer.
  lemma EdRoundTrip(a: seq<byte>, b: seq<byte>, c: seq<byte>, key: Key, encrypt: bool)
    requires EdResult(a, b, key, encrypt) && EdResult(b, c, key, !encrypt)
    ensures |c| == |a| && c[..|a| / BLOCK_SIZE * BLOCK_SIZE] == a[..|a| / BLOCK_SIZE * BLOCK_SIZE]
    ensures |a| % BLOCK_SIZE == 0 ==> c == a
  {
    hide Crypted;
    var n := |a| / BLOCK_SIZE;
    var d := CryptBlocks(a, n, key, encrypt);
    CryptBlocksInverse(a, n, key, encrypt);
    assert d[..n * BLOCK_SIZE] == d;
    CryptBlocksPrefix(b, d, n, key, !encrypt);
  }

  // A ragged tail comes back when the bytes completing it are the ones the cipher block lost.
  lemma TailRoundTrip(tail: seq<byte>, junk: seq<byte>, out: seq<byte>, key: Key, encrypt: bool)
    requires TailResult(tail, junk, out, key, encrypt)
    ensures TailResult(out, Crypted(tail + junk, key, encrypt)[|tail|..], tail, key, !encrypt)
  {
    hide Crypted;
    var c := Crypted(tail + junk, key, encrypt);
    CryptedInverse(tail + junk, key, encrypt);
    assert out + c[|tail|..] == c;
  }
}
