// per_id.h: the verbs, the endpoint record ipp and the 112-byte datagram SrvCap. Offsets are
// those of gcc on x86-64, where __attribute__((aligned)) means 16.
module Capsule {
  import opened Words
  import opened Cipher
  import opened Address

  const SRV_REGISTER: byte := 1
  const SRV_REGISTERRED: byte := 2
  const SRV_SET_PEER: byte := 3
  const SRV_UNREGISTER: byte := 4
  const SRV_UNREGISTERED: byte := 5
  const SRV_PING: byte := 7
  const PER_PING: byte := 8
  const PER_AIH: byte := 9
  const PER_PONG: byte := 10
  const PER_LINKED: byte := 11
  const PER_DATA: byte := 58

  const MAX_UDP := 10024
  const TTLIVE := 15
  const REG_TICK := 10
  const IAM_HERE_TO := 15
  const SERVER_DOWN_TO := 30
  const MAX_ATTEMPS := 512

  // --- ipp ---

  // Address and port in host order, the peer type and the cipher key of the peer.
  datatype Ipp = Ipp(a: u32, p: u16, t: int, keys: Key)

  // ipp::operator==
  predicate SameIpp(l: Ipp, r: Ipp) {
    l.a == r.a && l.p == r.p && l.t == r.t
  }

  // ipp::operator=(const ipp&), which leaves _t alone.
  function Assign(dst: Ipp, src: Ipp): Ipp {
    Ipp(src.a, src.p, dst.t, src.keys)
  }

  // The SADDR_46 that udp_xdea::send makes of an ipp.
  function Destination(e: Ipp): Saddr {
    Saddr(Swap32(e.a), Swap16(e.p), 0xFFFF_FFFF)
  }

  // --- SrvCap ---

  const SIZE := 112
  const UNION := 16
  const UNION_END := 96
  const TYP := 74
  const ID := 75
  const ID_END := 91

  type SrvCap = c: seq<byte> | |c| == SIZE witness seq(SIZE, _ => 0)

  function Zeros(n: nat): (s: seq<byte>)
    ensures |s| == n
  {
    seq(n, _ => 0)
  }

  const ZERO_CAP: SrvCap := Zeros(SIZE)

  function Verb(c: SrvCap): byte {
    c[0]
  }

  function WithVerb(c: SrvCap, verb: byte): SrvCap {
    c[0 := verb]
  }

  // clear() zeroes the union; the verb and the padding stay.
  function Cleared(c: SrvCap): SrvCap {
    c[..UNION] + Zeros(UNION_END - UNION) + c[UNION_END..]
  }

  // Cleared, a capsule keeps its first 16 and its last 16 bytes and is zero between them.
  lemma ClearedBytes(c: SrvCap)
    ensures var d := Cleared(c); forall k :: 0 <= k < 112 ==> d[k] == if 16 <= k < 96 then 0 else c[k]
  {
  }

  // A C string: the bytes up to the first zero.
  function CStr(s: seq<byte>): seq<byte> {
    if s == [] || s[0] == 0 then [] else [s[0]] + CStr(s[1..])
  }

  function Meiot(c: SrvCap): seq<byte> {
    CStr(c[UNION..])
  }

  // _u.reg.id + 2
  function Name(c: SrvCap): seq<byte> {
    CStr(c[ID + 2..])
  }

  function Id(c: SrvCap): seq<byte> {
    CStr(c[ID..])
  }

  function Typ(c: SrvCap): int {
    if c[TYP] == 0 then 0 else 1
  }

  // _u.pp._public: _a at 16, _p at 20, _t at 24, _keys at 28.
  function Public(c: SrvCap): Ipp {
    Ipp(FromLe32(c[16..20]), FromLe16(c[20..22]), FromLe32(c[24..28]),
        [FromLe32(c[28..32]), FromLe32(c[32..36]), FromLe32(c[36..40]), FromLe32(c[40..44])])
  }

  // _u.pp._public = e
  function WithPublic(c: SrvCap, e: Ipp): SrvCap {
    c[..16] + Le32(e.a) + Le16(e.p) + c[22..28]
    + Le32(e.keys[0]) + Le32(e.keys[1]) + Le32(e.keys[2]) + Le32(e.keys[3]) + c[44..]
  }

  lemma PublicRoundTrip(c: SrvCap, e: Ipp)
    ensures Public(WithPublic(c, e)) == Assign(Public(c), e)
    ensures Verb(WithPublic(c, e)) == Verb(c)
  {
    hide FromLe32, FromLe16, Le32, Le16;
    var d := WithPublic(c, e);
    assert d[16..20] == Le32(e.a) && d[20..22] == Le16(e.p) && d[24..28] == c[24..28];
    assert d[28..32] == Le32(e.keys[0]) && d[32..36] == Le32(e.keys[1]);
    assert d[36..40] == Le32(e.keys[2]) && d[40..44] == Le32(e.keys[3]);
    Le32RoundTrip(e.a);
    Le16RoundTrip(e.p);
    forall i | 0 <= i < 4 ensures FromLe32(Le32(e.keys[i])) == e.keys[i] {
      Le32RoundTrip(e.keys[i]);
    }
  }

  // Where the endpoint lies in a capsule: address at 16, port at 20, type at 24 and the four keys
  // from 28 on, least significant byte first; writing one touches no other byte, nor the type.
  lemma PublicLayout(c: SrvCap, e: Ipp)
    ensures Public(c) == Ipp(FromLe32([c[16], c[17], c[18], c[19]]), FromLe16([c[20], c[21]]),
                             FromLe32([c[24], c[25], c[26], c[27]]),
                             [FromLe32([c[28], c[29], c[30], c[31]]), FromLe32([c[32], c[33], c[34], c[35]]),
                              FromLe32([c[36], c[37], c[38], c[39]]), FromLe32([c[40], c[41], c[42], c[43]])])
    ensures var d := WithPublic(c, e);
            && d[16..20] == Le32(e.a) && d[20..22] == Le16(e.p)
            && d[28..44] == Le32(e.keys[0]) + Le32(e.keys[1]) + Le32(e.keys[2]) + Le32(e.keys[3])
            && forall k :: 0 <= k < 16 || 22 <= k < 28 || 44 <= k < 112 ==> d[k] == c[k]
  {
    hide FromLe32, FromLe16, Le32, Le16;
    assert c[16..20] == [c[16], c[17], c[18], c[19]] && c[20..22] == [c[20], c[21]];
    assert c[24..28] == [c[24], c[25], c[26], c[27]] && c[28..32] == [c[28], c[29], c[30], c[31]];
    assert c[32..36] == [c[32], c[33], c[34], c[35]] && c[36..40] == [c[36], c[37], c[38], c[39]];
    assert c[40..44] == [c[40], c[41], c[42], c[43]];
  }

  lemma WithVerbKeepsPublic(c: SrvCap, verb: byte)
    ensures Public(WithVerb(c, verb)) == Public(c)
  {
    var d := WithVerb(c, verb);
    hide FromLe32, FromLe16;
    assert forall i, j :: 1 <= i <= j <= SIZE ==> d[i..j] == c[i..j];
    assert d[16..20] == c[16..20] && d[20..22] == c[20..22] && d[24..28] == c[24..28] && d[28..32] == c[28..32]
        && d[32..36] == c[32..36] && d[36..40] == c[36..40] && d[40..44] == c[40..44];
  }

  lemma {:induction false} CStrStops(s: seq<byte>, rest: seq<byte>)
    requires forall i :: 0 <= i < |s| ==> s[i] != 0
    requires rest == [] || rest[0] == 0
    ensures CStr(s + rest) == s
  {
    if s == [] {
      assert s + rest == rest;
    } else {
      assert (s + rest)[1..] == s[1..] + rest;
      CStrStops(s[1..], rest);
    }
  }

  // What follows the zero that ends a C string does not matter.
  lemma {:induction false} CStrEnds(s: seq<byte>, rest: seq<byte>)
    requires rest != [] && rest[0] == 0
    ensures CStr(s + rest) == CStr(s)
  {
    if s == [] {
      assert s + rest == rest;
    } else if s[0] != 0 {
      assert (s + rest)[1..] == s[1..] + rest;
      CStrEnds(s[1..], rest);
    }
  }

  // --- capsules on the wire ---

  // ed over a whole capsule: enciphered under a key, and deciphered.
  function Seal(c: SrvCap, key: Key): SrvCap {
    CryptBlocks(c, SIZE / BLOCK_SIZE, key, true)
  }

  function Open(c: SrvCap, key: Key): SrvCap {
    CryptBlocks(c, SIZE / BLOCK_SIZE, key, false)
  }

  lemma OpenUndoesSeal(c: SrvCap, key: Key)
    ensures Open(Seal(c, key), key) == c && Seal(Open(c, key), key) == c
  {
    hide CryptBlocks;
    CryptBlocksInverse(c, SIZE / BLOCK_SIZE, key, true);
    CryptBlocksInverse(c, SIZE / BLOCK_SIZE, key, false);
  }

  lemma SealIsEd(c: SrvCap, output: seq<byte>, key: Key, encrypt: bool)
    requires EdResult(c, output, key, encrypt)
    ensures output == if encrypt then Seal(c, key) else Open(c, key)
  {
    hide CryptBlocks;
    assert output[..SIZE] == output;
  }
}
