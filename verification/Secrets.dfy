// per_id.h, _tokeys: the keys are the words a secret spells. A secret is built here digit by
// digit, and read back.
module Secrets {
  import opened Words
  import opened Cipher
  import opened Capsule
  import opened Access

  function HexChar(d: nat, upper: bool): byte
    requires d < 16
  {
    if d < 10 then 48 + d else (if upper then 55 else 87) + d
  }

  function Pow16(n: nat): nat {
    if n == 0 then 1 else 16 * Pow16(n - 1)
  }

  // A number in as many hexadecimal digits as there are cases, each in upper or lower case.
  function Field(w: nat, cases: seq<bool>): (s: seq<byte>)
    ensures |s| == |cases|
  {
    if cases == [] then []
    else
      var n := |cases| - 1;
      Field(w / 16, cases[..n]) + [HexChar(w % 16, cases[n])]
  }

  // The words of a secret, one field each.
  function Spelled(words: seq<u32>, cases: seq<seq<bool>>): seq<byte>
    requires |words| == |cases|
  {
    if words == [] then [] else Field(words[0], cases[0]) + Spelled(words[1..], cases[1..])
  }

  predicate Ends(rest: seq<byte>) {
    rest == [] || HexDigit(rest[0]) < 0
  }

  // Full fields of eight digits, the last of which may be short; the text ends there unless all
  // the words from the i-th on are full.
  ghost predicate Legible(words: seq<u32>, cases: seq<seq<bool>>, rest: seq<byte>, i: nat) {
    && |words| == |cases| && i + |words| <= 4
    && (forall j :: 0 <= j < |words| ==> 1 <= |cases[j]| <= 8 && words[j] < Pow16(|cases[j]|))
    && (forall j :: 0 <= j < |words| - 1 ==> |cases[j]| == 8)
    && (Ends(rest) || (i + |words| == 4 && (words == [] || |cases[|words| - 1]| == 8)))
  }

  // Exactly the digits and the letters a to f in either case are digits.
  lemma HexDigits(b: byte)
    ensures HexDigit(b) >= 0 <==> exists d: nat, upper :: d < 16 && b == HexChar(d, upper)
    ensures forall d: nat, upper :: d < 16 ==> HexDigit(HexChar(d, upper)) == d
  {
    if HexDigit(b) >= 0 {
      assert b == HexChar(HexDigit(b), b < 97);
    }
  }

  lemma {:induction false} FieldScanned(w: nat, cases: seq<bool>, rest: seq<byte>, room: nat, sofar: Hex)
    requires w < Pow16(|cases|) && |cases| <= room
    ensures ScanHex(Field(w, cases) + rest, room, sofar)
         == ScanHex(rest, room - |cases|, Hex(sofar.used + |cases|, sofar.value * Pow16(|cases|) + w))
  {
    hide HexDigit, HexChar;
    if cases == [] {
      assert Field(w, cases) + rest == rest;
    } else {
      var n := |cases| - 1;
      var c := HexChar(w % 16, cases[n]);
      var tail := [c] + rest;
      assert Field(w, cases) + rest == Field(w / 16, cases[..n]) + tail;
      FieldScanned(w / 16, cases[..n], tail, room, sofar);
      HexDigits(c);
      assert tail[1..] == rest;
      Shifted(sofar.value, Pow16(n), w);
    }
  }

  lemma Shifted(v: nat, p: nat, w: nat)
    ensures (v * p + w / 16) * 16 + w % 16 == v * (16 * p) + w
  {
  }

  lemma EightDigits()
    ensures Pow16(8) == W32
  {
    assert Pow16(4) == 0x1_0000;
  }

  lemma {:induction false} EndsScan(rest: seq<byte>, room: nat, sofar: Hex)
    requires room == 0 || Ends(rest)
    ensures ScanHex(rest, room, sofar) == sofar
  {
  }

  lemma {:induction false} FieldRead(w: u32, cases: seq<bool>, rest: seq<byte>)
    requires 1 <= |cases| <= 8 && w < Pow16(|cases|) && (|cases| == 8 || Ends(rest))
    ensures ScanHex(Field(w, cases) + rest, 8, Hex(0, 0)) == Hex(|cases|, w)
  {
    hide HexDigit, HexChar, ScanHex, Field;
    FieldScanned(w, cases, rest, 8, Hex(0, 0));
    EndsScan(rest, 8 - |cases|, Hex(|cases|, w));
  }

  lemma LegibleRest(words: seq<u32>, cases: seq<seq<bool>>, rest: seq<byte>, i: nat)
    requires Legible(words, cases, rest, i) && words != []
    ensures 1 <= |cases[0]| <= 8 && words[0] < Pow16(|cases[0]|)
    ensures |cases[0]| == 8 || (|words| == 1 && Ends(rest))
    ensures Legible(words[1..], cases[1..], rest, i + 1)
  {
    hide Pow16, Ends;
    assert forall j :: 0 <= j < |words| - 1 ==> words[1..][j] == words[j + 1] && cases[1..][j] == cases[j + 1];
  }

  lemma WordTaken(s: seq<byte>, i: nat, keys: Key, used: nat, w: u32)
    requires i < 4 && 0 < used <= |s| && ScanHex(s, 8, Hex(0, 0)) == Hex(used, w)
    ensures ScanKeys(s, i, keys) == ScanKeys(s[used..], i + 1, keys[i := w])
  {
    hide ScanHex;
  }

  lemma {:induction false} KeysEnd(rest: seq<byte>, i: nat, keys: Key)
    requires i <= 4 && (i == 4 || Ends(rest))
    ensures ScanKeys(rest, i, keys) == keys
  {
    if i < 4 {
      EndsScan(rest, 8, Hex(0, 0));
    }
  }

  lemma Spliced(words: seq<u32>, i: nat, keys: Key)
    requires words != [] && i + |words| <= 4
    ensures var k := keys[i := words[0]];
            k[..i + 1] + words[1..] + k[i + |words|..] == keys[..i] + words + keys[i + |words|..]
  {
  }

  // From the i-th key on, as many keys as there are words become the words; the others stay.
  lemma {:induction false} SpelledScanned(words: seq<u32>, cases: seq<seq<bool>>, rest: seq<byte>, i: nat, keys: Key)
    requires Legible(words, cases, rest, i)
    ensures ScanKeys(Spelled(words, cases) + rest, i, keys) == keys[..i] + words + keys[i + |words|..]
    decreases |words|
  {
    hide Field, ScanHex, Pow16, Ends, ScanKeys;
    var s := Spelled(words, cases) + rest;
    if words == [] {
      assert s == rest;
      KeysEnd(rest, i, keys);
    } else {
      LegibleRest(words, cases, rest, i);
      hide Legible;
      var tail := Spelled(words[1..], cases[1..]) + rest;
      assert s == Field(words[0], cases[0]) + tail;
      if |words| == 1 {
        assert tail == rest;
      }
      FieldRead(words[0], cases[0], tail);
      WordTaken(s, i, keys, |cases[0]|, words[0]);
      assert s[|cases[0]|..] == tail;
      SpelledScanned(words[1..], cases[1..], rest, i + 1, keys[i := words[0]]);
      Spliced(words, i, keys);
    }
  }

  // Every legible secret: _tokeys sets the keys it spells, whatever was in the buffer, and leaves
  // the rest of the buffer alone.
  lemma {:induction false} KeysAreTheWords(words: seq<u32>, cases: seq<seq<bool>>, rest: seq<byte>, keys: Key)
    requires Legible(words, cases, rest, 0)
    ensures ToKeys(Spelled(words, cases) + rest, keys) == words + keys[|words|..]
  {
    hide ScanKeys, Spelled;
    SpelledScanned(words, cases, rest, 0, keys);
    assert keys[..0] + words == words;
  }

  // A client whose secret spells four words and is listed for its address or for all is let in,
  // and the keys the server ends up with are those words.
  lemma {:induction false} ClientAcceptedWithWords(mids: seq<Mid>, i: nat, c: SrvCap, ip4: u32, keys: Key, words: Key,
      cases: seq<seq<bool>>, rest: seq<byte>)
    requires i < |mids| && (mids[i].ip == ip4 || mids[i].ip == 0) && Meiot(c) == mids[i].mid
    requires Legible(words, cases, rest, 0) && mids[i].mid == Spelled(words, cases) + rest
    ensures var v := Authorized(mids, 0, Seal(c, words), ip4, keys);
            v.ok && (AcceptsNone(mids, i, Seal(c, words), ip4, keys) ==> v == Verdict(true, c, words))
  {
    hide Seal, Open, Meiot, Spelled, Legible, ToKeys, FullSecret;
    SpelledFixes(words, cases, rest);
    ClientAccepted(mids, i, c, ip4, keys);
  }

  lemma {:induction false} SpelledFixes(words: Key, cases: seq<seq<bool>>, rest: seq<byte>)
    requires Legible(words, cases, rest, 0)
    ensures FullSecret(Spelled(words, cases) + rest) && ClientKeys(Spelled(words, cases) + rest) == words
  {
    var s := Spelled(words, cases) + rest;
    hide Legible, ToKeys, Spelled, FullSecret;
    forall keys: Key ensures ToKeys(s, keys) == words {
      KeysAreTheWords(words, cases, rest, keys);
      assert words + keys[4..] == words;
    }
    FullSecretFixesKeys(s);
  }

  // The constant every peer is compiled with, cut into words.
  const MEIKEY := "51de1094" + "0c93f85b" + "02261266" + "cd362885" + "825a614183246bfcfef04a"

  function Bytes(s: string): seq<byte> {
    seq(|s|, k requires 0 <= k < |s| => if s[k] as int < 0x100 then s[k] as int else 0)
  }

  // Digits in lower case, first to last.
  function Number(d: seq<nat>): nat {
    if d == [] then 0 else 16 * Number(d[..|d| - 1]) + d[|d| - 1]
  }

  function Lower(n: nat): seq<bool> {
    seq(n, _ => false)
  }

  lemma {:induction false} LowerField(d: seq<nat>)
    requires forall k :: 0 <= k < |d| ==> d[k] < 16
    ensures Field(Number(d), Lower(|d|)) == seq(|d|, k requires 0 <= k < |d| => HexChar(d[k], false))
  {
    hide HexChar;
    if d == [] {
    } else {
      var front := d[..|d| - 1];
      LowerField(front);
      assert Lower(|d|)[..|d| - 1] == Lower(|front|);
      assert Number(d) / 16 == Number(front) && Number(d) % 16 == d[|d| - 1];
    }
  }

  lemma {:induction false} NumberPrefix(d: seq<nat>, n: nat)
    requires n < |d|
    ensures Number(d[..n + 1]) == 16 * Number(d[..n]) + d[n]
  {
    assert d[..n + 1][..n] == d[..n];
  }

  lemma {:induction false} NumberOf8(d: seq<nat>)
    requires |d| == 8
    ensures Number(d)
         == d[7] + 16 * (d[6] + 16 * (d[5] + 16 * (d[4] + 16 * (d[3] + 16 * (d[2] + 16 * (d[1] + 16 * d[0]))))))
  {
    hide Number;
    NumberPrefix(d, 0);
    NumberPrefix(d, 1);
    NumberPrefix(d, 2);
    NumberPrefix(d, 3);
    NumberPrefix(d, 4);
    NumberPrefix(d, 5);
    NumberPrefix(d, 6);
    NumberPrefix(d, 7);
    NoNumber();
    assert d[..0] == [] && d[..8] == d;
  }

  lemma NoNumber()
    ensures Number([]) == 0
  {
  }

  lemma {:induction false} NumberFits(d: seq<nat>)
    requires forall k :: 0 <= k < |d| ==> d[k] < 16
    ensures Number(d) < Pow16(|d|)
  {
    if d == [] {
    } else {
      NumberFits(d[..|d| - 1]);
    }
  }

  // Eight characters that are these digits are the field of this word.
  lemma {:induction false} FieldOf(mid: seq<byte>, d: seq<nat>, w: u32)
    requires |d| == 8 && forall k :: 0 <= k < 8 ==> d[k] < 16
    requires mid == [HexChar(d[0], false), HexChar(d[1], false), HexChar(d[2], false), HexChar(d[3], false),
                     HexChar(d[4], false), HexChar(d[5], false), HexChar(d[6], false), HexChar(d[7], false)]
    requires w == d[7] + 16 * (d[6] + 16 * (d[5] + 16 * (d[4] + 16 * (d[3] + 16 * (d[2] + 16 * (d[1] + 16 * d[0]))))))
    ensures Field(w, Lower(8)) == mid && w < Pow16(8)
  {
    hide HexChar, Field, Number, Pow16;
    NumberOf8(d);
    LowerField(d);
    NumberFits(d);
  }

  lemma FourFields(a: seq<byte>, b: seq<byte>, c: seq<byte>, d: seq<byte>, rest: seq<byte>, words: Key, keys: Key)
    requires Field(words[0], Lower(8)) == a && Field(words[1], Lower(8)) == b
    requires Field(words[2], Lower(8)) == c && Field(words[3], Lower(8)) == d
    requires forall k :: 0 <= k < 4 ==> words[k] < Pow16(8)
    ensures ToKeys(a + b + c + d + rest, keys) == words
  {
    hide Field, ToKeys, Pow16, Ends;
    var cases := [Lower(8), Lower(8), Lower(8), Lower(8)];
    assert Legible(words, cases, rest, 0);
    KeysAreTheWords(words, cases, rest, keys);
    SpelledFour(words, cases);
    assert words + keys[4..] == words;
  }

  lemma {:induction false} SpelledFour(words: Key, cases: seq<seq<bool>>)
    requires |cases| == 4
    ensures Spelled(words, cases)
         == Field(words[0], cases[0]) + Field(words[1], cases[1]) + Field(words[2], cases[2])
            + Field(words[3], cases[3])
  {
    hide Field;
    assert Spelled(words[3..], cases[3..]) == Field(words[3], cases[3]) by {
      assert words[3..][1..] == [] && cases[3..][1..] == [];
    }
    assert words[2..][1..] == words[3..] && cases[2..][1..] == cases[3..];
    assert Spelled(words[2..], cases[2..]) == Field(words[2], cases[2]) + Spelled(words[3..], cases[3..]);
    assert words[1..][1..] == words[2..] && cases[1..][1..] == cases[2..];
    assert Spelled(words[1..], cases[1..]) == Field(words[1], cases[1]) + Spelled(words[2..], cases[2..]);
  }

  // The keys of every peer, whatever the buffer held.
  lemma MeikeyKeys(keys: Key)
    ensures ToKeys(Bytes(MEIKEY), keys) == [0x51DE1094, 0x0C93F85B, 0x02261266, 0xCD362885]
  {
    hide ToKeys, Field, Pow16, Bytes;
    MeikeyFields();
    var s := Bytes(MEIKEY);
    BytesLength(MEIKEY);
    assert s == s[..8] + s[8..16] + s[16..24] + s[24..32] + s[32..];
    FourFields(s[..8], s[8..16], s[16..24], s[24..32], s[32..], [0x51DE1094, 0x0C93F85B, 0x02261266, 0xCD362885], keys);
  }

  lemma BytesLength(s: string)
    ensures |Bytes(s)| == |s|
  {
  }

  lemma BytesPart(s: string, i: nat, j: nat)
    requires i <= j <= |s|
    ensures Bytes(s)[i..j] == Bytes(s[i..j])
  {
  }

  lemma MeikeyFields()
    ensures |MEIKEY| >= 32 && |Bytes(MEIKEY)| == |MEIKEY|
    ensures var s := Bytes(MEIKEY);
            && Field(0x51DE1094, Lower(8)) == s[..8] && Field(0x0C93F85B, Lower(8)) == s[8..16]
            && Field(0x02261266, Lower(8)) == s[16..24] && Field(0xCD362885, Lower(8)) == s[24..32]
    ensures W32 == Pow16(8)
  {
    hide Field, Pow16, Bytes, Lower;
    EightDigits();
    BytesLength(MEIKEY);
    BytesPart(MEIKEY, 0, 8);
    BytesPart(MEIKEY, 8, 16);
    BytesPart(MEIKEY, 16, 24);
    BytesPart(MEIKEY, 24, 32);
    assert MEIKEY[0..8] == "51de1094" && MEIKEY[8..16] == "0c93f85b";
    assert MEIKEY[16..24] == "02261266" && MEIKEY[24..32] == "cd362885";
    Fields01();
    Fields23();
  }

  lemma Fields01()
    ensures Field(0x51DE1094, Lower(8)) == Bytes("51de1094") && Field(0x0C93F85B, Lower(8)) == Bytes("0c93f85b")
  {
    hide Field, Pow16, Lower;
    FieldOf(Bytes("51de1094"), [5, 1, 13, 14, 1, 0, 9, 4], 0x51DE1094);
    FieldOf(Bytes("0c93f85b"), [0, 12, 9, 3, 15, 8, 5, 11], 0x0C93F85B);
  }

  lemma Fields23()
    ensures Field(0x02261266, Lower(8)) == Bytes("02261266") && Field(0xCD362885, Lower(8)) == Bytes("cd362885")
  {
    hide Field, Pow16, Lower;
    FieldOf(Bytes("02261266"), [0, 2, 2, 6, 1, 2, 6, 6], 0x02261266);
    FieldOf(Bytes("cd362885"), [12, 13, 3, 6, 2, 8, 8, 5], 0xCD362885);
  }
}
