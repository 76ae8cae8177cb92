// sqliter.cpp: who may register. `mid` lists the accepted client secrets, `rej` counts the
// denials of each address.
module Access {
  import opened Words
  import opened Cipher
  import opened Capsule

  // A client secret, for one address or with ip 0 for all.
  datatype Mid = Mid(mid: seq<byte>, ip: u32)

  // --- _tokeys: the keys are the hexadecimal words a secret starts with ---

  function HexDigit(b: byte): int {
    if 48 <= b <= 57 then b - 48
    else if 65 <= b <= 70 then b - 55
    else if 97 <= b <= 102 then b - 87
    else -1
  }

  // One "%8X" of sscanf: at most `room` digits.
  datatype Hex = Hex(used: nat, value: nat)

  function ScanHex(s: seq<byte>, room: nat, sofar: Hex): Hex
    decreases room
  {
    if room == 0 || s == [] || HexDigit(s[0]) < 0 then sofar
    else ScanHex(s[1..], room - 1, Hex(sofar.used + 1, sofar.value * 16 + HexDigit(s[0])))
  }

  // The i-th word on; sscanf stops at the first one that has no digit.
  function ScanKeys(s: seq<byte>, i: nat, keys: Key): Key
    requires i <= 4
    decreases 4 - i
  {
    if i == 4 then keys
    else
      var h := ScanHex(s, 8, Hex(0, 0));
      if h.used == 0 || h.used > |s| then keys
      else ScanKeys(s[h.used..], i + 1, keys[i := h.value % W32])
  }

  // _tokeys(meiot, keys)
  function ToKeys(mid: seq<byte>, keys: Key): Key {
    ScanKeys(mid, 0, keys)
  }

  // The keys a client makes of its secret; they start as zero.
  function ClientKeys(mid: seq<byte>): Key {
    ToKeys(mid, [0, 0, 0, 0])
  }

  // A secret that starts with three full words and at least one digit of a fourth: "%8X" takes
  // a short field too.
  ghost predicate FullSecret(mid: seq<byte>) {
    Digits(mid, 25)
  }

  ghost predicate Digits(s: seq<byte>, n: nat) {
    |s| >= n && forall k :: 0 <= k < n ==> HexDigit(s[k]) >= 0
  }

  // A field takes all the digits there are, up to its width.
  lemma {:induction false} ScanLength(s: seq<byte>, room: nat, sofar: Hex)
    ensures var h := ScanHex(s, room, sofar);
            && sofar.used <= h.used <= sofar.used + room && h.used - sofar.used <= |s|
            && Digits(s, h.used - sofar.used)
            && (h.used < sofar.used + room ==> !Digits(s, h.used - sofar.used + 1))
    decreases room
  {
    if room == 0 || s == [] || HexDigit(s[0]) < 0 {
    } else {
      ScanLength(s[1..], room - 1, Hex(sofar.used + 1, sofar.value * 16 + HexDigit(s[0])));
      var used := ScanHex(s, room, sofar).used - sofar.used;
      assert forall k :: 0 <= k < |s| - 1 ==> s[1..][k] == s[k + 1];
      assert Digits(s[1..], used - 1);
      if used < room && Digits(s, used + 1) {
        assert Digits(s[1..], used);
      }
    }
  }

  // With digits for the words from the i-th on, the keys do not depend on what was there.
  lemma {:induction false} ScanFullKeys(s: seq<byte>, i: nat, keys: Key, other: Key)
    requires i <= 4 && keys[..i] == other[..i] && (i < 4 ==> Digits(s, 25 - 8 * i))
    ensures ScanKeys(s, i, keys) == ScanKeys(s, i, other)
    decreases 4 - i
  {
    hide HexDigit;
    if i == 4 {
      assert keys == keys[..4] == other[..4] == other;
    } else {
      ScanLength(s, 8, Hex(0, 0));
      var h := ScanHex(s, 8, Hex(0, 0));
      var v := h.value % W32;
      var k, o := keys[i := v], other[i := v];
      assert k[..i + 1] == keys[..i] + [v] && o[..i + 1] == other[..i] + [v];
      if i < 3 {
        assert h.used == 8;
      }
      ScanFullKeys(s[h.used..], i + 1, k, o);
    }
  }

  // Without them the last key is left as it was.
  lemma {:induction false} ScanLeavesLastKey(s: seq<byte>, i: nat, keys: Key)
    requires i < 4 && !Digits(s, 25 - 8 * i)
    ensures ScanKeys(s, i, keys)[3] == keys[3]
    decreases 4 - i
  {
    ScanLength(s, 8, Hex(0, 0));
    var h := ScanHex(s, 8, Hex(0, 0));
    hide HexDigit, ScanHex, Digits;
    DigitsEnd(s, h.used, 25 - 8 * i);
    if h.used == 0 {
    } else {
      var v: u32 := h.value % W32;
      ScanLeavesLastKey(s[h.used..], i + 1, keys[i := v]);
    }
  }

  lemma DigitsEnd(s: seq<byte>, used: nat, n: nat)
    requires used <= 8 && used <= |s| && Digits(s, used) && !Digits(s, n)
    requires used < 8 ==> !Digits(s, used + 1)
    ensures used < n && (n > 8 ==> !Digits(s[used..], n - 8))
  {
    hide HexDigit;
  }

  ghost predicate FixesKeys(mid: seq<byte>) {
    forall keys: Key :: ToKeys(mid, keys) == ClientKeys(mid)
  }

  // The keys made of a secret do not depend on what was in the buffer exactly when it is full.
  lemma FullSecretFixesKeys(mid: seq<byte>)
    ensures FixesKeys(mid) <==> FullSecret(mid)
  {
    hide ScanKeys, Digits;
    if FullSecret(mid) {
      forall keys: Key ensures ToKeys(mid, keys) == ClientKeys(mid) {
        ScanFullKeys(mid, 0, keys, [0, 0, 0, 0]);
      }
    } else {
      ScanLeavesLastKey(mid, 0, [0, 0, 0, 0]);
      ScanLeavesLastKey(mid, 0, [0, 0, 0, 1]);
      assert ToKeys(mid, [0, 0, 0, 1]) != ClientKeys(mid);
    }
  }

  // --- authorize ---

  // WHERE ip=ip4 OR ip='0'
  predicate Visible(row: Mid, ip4: u32) {
    row.ip == ip4 || row.ip == 0
  }

  // The keys after the first n rows have been tried.
  function KeysAfter(mids: seq<Mid>, n: nat, ip4: u32, keys: Key): Key
    requires n <= |mids|
  {
    if n == 0 then keys
    else
      var before := KeysAfter(mids, n - 1, ip4, keys);
      if Visible(mids[n - 1], ip4) then ToKeys(mids[n - 1].mid, before) else before
  }

  // The packet, deciphered under the keys of row n, names the secret of row n.
  predicate Accepts(mids: seq<Mid>, n: nat, pl: SrvCap, ip4: u32, keys: Key)
    requires n < |mids|
  {
    Visible(mids[n], ip4) && Meiot(Open(pl, KeysAfter(mids, n + 1, ip4, keys))) == mids[n].mid
  }

  ghost predicate AcceptsNone(mids: seq<Mid>, n: nat, pl: SrvCap, ip4: u32, keys: Key)
    requires n <= |mids|
  {
    forall j :: 0 <= j < n ==> !Accepts(mids, j, pl, ip4, keys)
  }

  datatype Verdict = Verdict(ok: bool, pl: SrvCap, keys: Key)

  // authorize from row n on: the first row that accepts decides, and `pl` becomes the
  // plaintext it found; the ciphertext is left alone until then.
  function Authorized(mids: seq<Mid>, n: nat, pl: SrvCap, ip4: u32, keys: Key): Verdict
    requires n <= |mids|
    decreases |mids| - n
  {
    if n == |mids| then Verdict(false, pl, KeysAfter(mids, n, ip4, keys))
    else if Accepts(mids, n, pl, ip4, keys) then
      var ks := KeysAfter(mids, n + 1, ip4, keys);
      Verdict(true, Open(pl, ks), ks)
    else Authorized(mids, n + 1, pl, ip4, keys)
  }

  lemma {:induction false} FirstRowDecides(mids: seq<Mid>, n: nat, i: nat, pl: SrvCap, ip4: u32, keys: Key)
    requires n <= i < |mids| && Accepts(mids, i, pl, ip4, keys)
    requires forall j :: n <= j < i ==> !Accepts(mids, j, pl, ip4, keys)
    ensures var ks := KeysAfter(mids, i + 1, ip4, keys);
            Authorized(mids, n, pl, ip4, keys) == Verdict(true, Open(pl, ks), ks)
    decreases i - n
  {
    hide Accepts, KeysAfter, Open;
    if n == i {
    } else {
      FirstRowDecides(mids, n + 1, i, pl, ip4, keys);
    }
  }

  lemma {:induction false} SomeRowDecides(mids: seq<Mid>, n: nat, pl: SrvCap, ip4: u32, keys: Key) returns (i: nat)
    requires n <= |mids| && Authorized(mids, n, pl, ip4, keys).ok
    ensures n <= i < |mids| && Accepts(mids, i, pl, ip4, keys)
    ensures forall j :: n <= j < i ==> !Accepts(mids, j, pl, ip4, keys)
    decreases |mids| - n
  {
    hide Accepts, KeysAfter;
    if Accepts(mids, n, pl, ip4, keys) {
      i := n;
    } else {
      i := SomeRowDecides(mids, n + 1, pl, ip4, keys);
    }
  }

  // A packet is accepted exactly when some row accepts it, and what is refused stays as it was.
  lemma {:induction false} AuthorizedIffSomeRow(mids: seq<Mid>, pl: SrvCap, ip4: u32, keys: Key)
    ensures Authorized(mids, 0, pl, ip4, keys).ok <==> !AcceptsNone(mids, |mids|, pl, ip4, keys)
    ensures !Authorized(mids, 0, pl, ip4, keys).ok ==> Authorized(mids, 0, pl, ip4, keys).pl == pl
  {
    hide Accepts, KeysAfter;
    if Authorized(mids, 0, pl, ip4, keys).ok {
      var i := SomeRowDecides(mids, 0, pl, ip4, keys);
    } else {
      RefusedUnchanged(mids, 0, pl, ip4, keys);
      if j :| 0 <= j < |mids| && Accepts(mids, j, pl, ip4, keys) {
        var i := LeastRow(mids, j, pl, ip4, keys);
        FirstRowDecides(mids, 0, i, pl, ip4, keys);
      }
    }
  }

  lemma {:induction false} RefusedUnchanged(mids: seq<Mid>, n: nat, pl: SrvCap, ip4: u32, keys: Key)
    requires n <= |mids| && !Authorized(mids, n, pl, ip4, keys).ok
    ensures Authorized(mids, n, pl, ip4, keys).pl == pl
    decreases |mids| - n
  {
    hide Accepts, KeysAfter;
    if n == |mids| {
    } else {
      RefusedUnchanged(mids, n + 1, pl, ip4, keys);
    }
  }

  lemma {:induction false} LeastRow(mids: seq<Mid>, j: nat, pl: SrvCap, ip4: u32, keys: Key) returns (i: nat)
    requires j < |mids| && Accepts(mids, j, pl, ip4, keys)
    ensures i <= j && Accepts(mids, i, pl, ip4, keys) && AcceptsNone(mids, i, pl, ip4, keys)
  {
    hide Accepts;
    if k :| 0 <= k < j && Accepts(mids, k, pl, ip4, keys) {
      i := LeastRow(mids, k, pl, ip4, keys);
    } else {
      i := j;
    }
  }

  // A client whose secret is listed is always let in; when no earlier row takes the packet for
  // its own, the server ends up with exactly the client's plaintext and the client's keys.
  lemma {:induction false} ClientAccepted(mids: seq<Mid>, i: nat, c: SrvCap, ip4: u32, keys: Key)
    requires i < |mids| && Visible(mids[i], ip4) && FullSecret(mids[i].mid)
    requires Meiot(c) == mids[i].mid
    ensures var pl := Seal(c, ClientKeys(mids[i].mid));
            var v := Authorized(mids, 0, pl, ip4, keys);
            v.ok && (AcceptsNone(mids, i, pl, ip4, keys) ==> v == Verdict(true, c, ClientKeys(mids[i].mid)))
  {
    hide Meiot, Seal, Open, ToKeys;
    var ks := ClientKeys(mids[i].mid);
    var pl := Seal(c, ks);
    FullSecretFixesKeys(mids[i].mid);
    assert KeysAfter(mids, i + 1, ip4, keys) == ks;
    OpenUndoesSeal(c, ks);
    assert Accepts(mids, i, pl, ip4, keys);
    hide Accepts;
    AuthorizedIffSomeRow(mids, pl, ip4, keys);
    if AcceptsNone(mids, i, pl, ip4, keys) {
      FirstRowDecides(mids, 0, i, pl, ip4, keys);
    }
  }

  // The rows the statement selects.
  function Selected(mids: seq<Mid>, ip4: u32): seq<Mid> {
    if mids == [] then []
    else
      var last := mids[|mids| - 1];
      Selected(mids[..|mids| - 1], ip4) + if last.ip == ip4 || last.ip == 0 then [last] else []
  }

  lemma {:induction false} SelectedPrefix(mids: seq<Mid>, n: nat, ip4: u32)
    requires n <= |mids|
    ensures Selected(mids[..n], ip4) <= Selected(mids, ip4)
  {
    if n == |mids| {
      assert mids[..n] == mids;
    } else {
      var front := mids[..|mids| - 1];
      assert front[..n] == mids[..n];
      SelectedPrefix(front, n, ip4);
    }
  }

  lemma {:induction false} SamePrefixKeys(mids: seq<Mid>, other: seq<Mid>, n: nat, ip4: u32, keys: Key)
    requires n <= |mids| && n <= |other| && mids[..n] == other[..n]
    ensures KeysAfter(mids, n, ip4, keys) == KeysAfter(other, n, ip4, keys)
  {
    hide ToKeys;
    if n == 0 {
    } else {
      assert mids[..n - 1] == mids[..n][..n - 1] && other[..n - 1] == other[..n][..n - 1];
      assert mids[n - 1] == mids[..n][n - 1] && other[n - 1] == other[..n][n - 1];
      SamePrefixKeys(mids, other, n - 1, ip4, keys);
    }
  }

  lemma {:induction false} SelectedKeys(mids: seq<Mid>, n: nat, ip4: u32, keys: Key)
    requires n <= |mids|
    ensures var rows := Selected(mids[..n], ip4); KeysAfter(mids, n, ip4, keys) == KeysAfter(rows, |rows|, ip4, keys)
  {
    hide ToKeys;
    if n == 0 {
      assert mids[..0] == [];
    } else {
      assert mids[..n][..n - 1] == mids[..n - 1] && mids[..n][n - 1] == mids[n - 1];
      SelectedKeys(mids, n - 1, ip4, keys);
      var before, rows := Selected(mids[..n - 1], ip4), Selected(mids[..n], ip4);
      if Visible(mids[n - 1], ip4) {
        assert rows == before + [mids[n - 1]] && rows[..|before|] == before[..|before|];
        SamePrefixKeys(rows, before, |before|, ip4, keys);
      } else {
        assert rows == before;
      }
    }
  }

  lemma {:induction false} SelectedDecide(mids: seq<Mid>, n: nat, pl: SrvCap, ip4: u32, keys: Key)
    requires n <= |mids|
    ensures var rows, m := Selected(mids, ip4), |Selected(mids[..n], ip4)|;
            m <= |rows| && Authorized(mids, n, pl, ip4, keys) == Authorized(rows, m, pl, ip4, keys)
    decreases |mids| - n
  {
    hide KeysAfter, Meiot, Open;
    var rows := Selected(mids, ip4);
    var before := Selected(mids[..n], ip4);
    SelectedPrefix(mids, n, ip4);
    SelectedKeys(mids, n, ip4, keys);
    if n == |mids| {
      assert mids[..n] == mids;
    } else {
      assert mids[..n + 1][..n] == mids[..n];
      var after := Selected(mids[..n + 1], ip4);
      SelectedPrefix(mids, n + 1, ip4);
      SelectedKeys(mids, n + 1, ip4, keys);
      assert rows[..|after|] == after[..|after|];
      SamePrefixKeys(rows, after, |after|, ip4, keys);
      SelectedDecide(mids, n + 1, pl, ip4, keys);
    }
  }

  // Rows for other addresses make no difference, not even to the keys that are left behind.
  lemma {:induction false} OnlySelectedRowsMatter(mids: seq<Mid>, pl: SrvCap, ip4: u32, keys: Key)
    ensures Authorized(mids, 0, pl, ip4, keys) == Authorized(Selected(mids, ip4), 0, pl, ip4, keys)
    ensures (forall row :: row in mids ==> row.ip != ip4 && row.ip != 0) ==>
              Authorized(mids, 0, pl, ip4, keys) == Verdict(false, pl, keys)
  {
    hide Authorized, Accepts;
    SelectedDecide(mids, 0, pl, ip4, keys);
    assert mids[..0] == [];
    if forall row :: row in mids ==> row.ip != ip4 && row.ip != 0 {
      NothingSelected(mids, ip4);
      NoRowDecides(pl, ip4, keys);
    }
  }

  lemma {:induction false} NoRowDecides(pl: SrvCap, ip4: u32, keys: Key)
    ensures Authorized([], 0, pl, ip4, keys) == Verdict(false, pl, keys)
  {
  }

  lemma {:induction false} NothingSelected(mids: seq<Mid>, ip4: u32)
    requires forall row :: row in mids ==> row.ip != ip4 && row.ip != 0
    ensures Selected(mids, ip4) == []
  {
    if mids == [] {
    } else {
      assert mids[|mids| - 1] in mids;
      NothingSelected(mids[..|mids| - 1], ip4);
    }
  }

  // What a packet that is let in shows: its plaintext names the secret of a row for its address or
  // for all, under whose keys it was enciphered.
  lemma AcceptedMeans(mids: seq<Mid>, pl: SrvCap, ip4: u32, keys: Key) returns (n: nat)
    requires Authorized(mids, 0, pl, ip4, keys).ok
    ensures var v := Authorized(mids, 0, pl, ip4, keys);
            && n < |mids| && (mids[n].ip == ip4 || mids[n].ip == 0)
            && v.pl == Open(pl, v.keys) && Meiot(v.pl) == mids[n].mid
            && (FullSecret(mids[n].mid) ==> v.keys == ClientKeys(mids[n].mid))
  {
    hide Meiot, Open, ToKeys, FullSecret;
    n := SomeRowDecides(mids, 0, pl, ip4, keys);
    FirstRowDecides(mids, 0, n, pl, ip4, keys);
    FullSecretFixesKeys(mids[n].mid);
  }

  // With full secrets a packet is refused exactly when no row for its address or for all has a
  // secret that the packet names under that secret's own keys.
  lemma RefusedMeans(mids: seq<Mid>, pl: SrvCap, ip4: u32, keys: Key)
    requires forall row :: row in mids ==> FullSecret(row.mid)
    ensures AcceptsNone(mids, |mids|, pl, ip4, keys)
       <==> forall row :: row in mids && (row.ip == ip4 || row.ip == 0) ==>
              Meiot(Open(pl, ClientKeys(row.mid))) != row.mid
  {
    hide Meiot, Open, ToKeys, FullSecret, Accepts;
    forall n | 0 <= n < |mids|
      ensures Accepts(mids, n, pl, ip4, keys)
         <==> (mids[n].ip == ip4 || mids[n].ip == 0) && Meiot(Open(pl, ClientKeys(mids[n].mid))) == mids[n].mid
    {
      assert mids[n] in mids;
      AcceptsMeans(mids, n, pl, ip4, keys);
    }
  }

  lemma AcceptsMeans(mids: seq<Mid>, n: nat, pl: SrvCap, ip4: u32, keys: Key)
    requires n < |mids| && FullSecret(mids[n].mid)
    ensures Accepts(mids, n, pl, ip4, keys)
       <==> (mids[n].ip == ip4 || mids[n].ip == 0) && Meiot(Open(pl, ClientKeys(mids[n].mid))) == mids[n].mid
  {
    hide Meiot, Open, ToKeys, FullSecret;
    FullSecretFixesKeys(mids[n].mid);
  }

  // --- deny ---

  datatype Rej = Rej(cnt: int, ip: u32)

  // The first row of that address, -1 when there is none.
  function FindRej(rej: seq<Rej>, ip4: u32): (n: int)
    ensures -1 <= n < |rej|
    ensures n >= 0 ==> rej[n].ip == ip4
  {
    if rej == [] then -1
    else if rej[0].ip == ip4 then 0
    else var n := FindRej(rej[1..], ip4); if n < 0 then -1 else n + 1
  }

  // INSERT for a new address, otherwise UPDATE of every row of the address.
  function Denied(rej: seq<Rej>, ip4: u32): seq<Rej> {
    if FindRej(rej, ip4) < 0 then rej + [Rej(1, ip4)]
    else seq(|rej|, n requires 0 <= n < |rej| => if rej[n].ip == ip4 then Rej(rej[n].cnt + 1, ip4) else rej[n])
  }

  // What deny answers: the address has more than MAX_ATTEMPS denials behind it.
  predicate Rejects(rej: seq<Rej>, ip4: u32) {
    Count(rej, ip4) > MAX_ATTEMPS
  }

  function Count(rej: seq<Rej>, ip4: u32): int {
    var n := FindRej(rej, ip4);
    if n < 0 then 0 else rej[n].cnt
  }

  lemma {:induction false} FindRejAppend(rej: seq<Rej>, row: Rej, ip4: u32)
    ensures FindRej(rej + [row], ip4)
         == if FindRej(rej, ip4) >= 0 then FindRej(rej, ip4) else if row.ip == ip4 then |rej| else -1
  {
    if rej == [] {
      assert (rej + [row])[1..] == [];
    } else {
      assert (rej + [row])[1..] == rej[1..] + [row];
      FindRejAppend(rej[1..], row, ip4);
    }
  }

  lemma {:induction false} FindRejSameRows(rej: seq<Rej>, other: seq<Rej>, ip4: u32)
    requires |rej| == |other| && forall n :: 0 <= n < |rej| ==> rej[n].ip == other[n].ip
    ensures FindRej(rej, ip4) == FindRej(other, ip4)
  {
    if rej == [] {
    } else {
      FindRejSameRows(rej[1..], other[1..], ip4);
    }
  }

  // A denial counts for its own address and for no other.
  lemma DeniedCounts(rej: seq<Rej>, ip4: u32, other: u32)
    ensures Count(Denied(rej, ip4), other) == Count(rej, other) + if other == ip4 then 1 else 0
  {
    var after := Denied(rej, ip4);
    if FindRej(rej, ip4) < 0 {
      FindRejAppend(rej, Rej(1, ip4), other);
    } else {
      FindRejSameRows(rej, after, other);
    }
  }

  function Times(ips: seq<u32>, ip4: u32): nat {
    if ips == [] then 0 else Times(ips[..|ips| - 1], ip4) + if ips[|ips| - 1] == ip4 then 1 else 0
  }

  // The table after denying each of these in turn.
  function DeniedAll(ips: seq<u32>): seq<Rej> {
    if ips == [] then [] else Denied(DeniedAll(ips[..|ips| - 1]), ips[|ips| - 1])
  }

  // Under any interleaving the count of an address is the number of its own denials, and the
  // next denial is answered with a rejection exactly from the 514th on.
  lemma {:induction false} DenialsAreCounted(ips: seq<u32>, ip4: u32)
    ensures Count(DeniedAll(ips), ip4) == Times(ips, ip4)
    ensures Rejects(DeniedAll(ips), ip4) <==> Times(ips, ip4) + 1 >= 514
  {
    if ips == [] {
    } else {
      DenialsAreCounted(ips[..|ips| - 1], ip4);
      DeniedCounts(DeniedAll(ips[..|ips| - 1]), ips[|ips| - 1], ip4);
    }
  }
}
