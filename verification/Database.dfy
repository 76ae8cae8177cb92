// sqliter.cpp: the class around the tables. SQL statements appear as their effect on the
// rows; the cursor loops are loops.
module Database {
  import opened Words
  import opened Cipher
  import opened Capsule
  import opened Tables
  import opened Access

  datatype Db = Db(pers: PersTable, mids: seq<Mid>, rej: seq<Rej>)

  // The rows as get_pers hands them to the server.
  function Listed(rows: seq<Pers>): (r: seq<Ipp>)
    ensures |r| == |rows|
  {
    seq(|rows|, n requires 0 <= n < |rows| => Ipp(rows[n].pa, rows[n].pp, rows[n].t, rows[n].mk))
  }

  // DELETE FROM pers WHERE K=... with whatever keys the statement happens to name.
  function Without(rows: seq<Pers>, ks: set<int>): seq<Pers> {
    if rows == [] then []
    else
      var last := rows[|rows| - 1];
      Without(rows[..|rows| - 1], ks) + if last.k in ks then [] else [last]
  }

  lemma {:induction false} WithoutRows(rows: seq<Pers>, ks: set<int>, row: Pers)
    ensures row in Without(rows, ks) <==> row in rows && row.k !in ks
  {
    if rows == [] {
    } else {
      var front := rows[..|rows| - 1];
      WithoutRows(front, ks, row);
      assert rows == front + [rows[|rows| - 1]];
    }
  }

  // ed over one capsule in fresh buffers.
  method EdCapsule(c: SrvCap, key: Key, encrypt: bool) returns (r: SrvCap)
    ensures r == if encrypt then Seal(c, key) else Open(c, key)
  {
    hide EdResult, Seal, Open;
    var input := new byte[SIZE](n requires 0 <= n < SIZE => c[n]);
    var output := new byte[SIZE];
    Ed(input, 0, output, SIZE, key, encrypt);
    assert input[0..SIZE] == c;
    r := output[..SIZE];
    SealIsEd(c, r, key, encrypt);
  }

  class Sqlyte {
    var pers: PersTable
    var mids: seq<Mid>
    var rej: seq<Rej>

    constructor (mids: seq<Mid>)
      ensures View() == Db(PersTable([], 1), mids, [])
    {
      this.pers, this.mids, this.rej := PersTable([], 1), mids, [];
    }

    ghost function View(): Db
      reads this
    {
      Db(pers, mids, rej)
    }

    // `now` is datetime('now'); `selected` tells whether the SELECT could be prepared.
    method StorePeer(name: seq<byte>, crc: int, pub: Ipp, keys: Key, now: int, selected: bool) returns (dirty: bool)
      modifies this
      ensures View() == old(View()).(pers := Stored(old(pers), name, crc, pub, keys, now, selected))
      ensures dirty <==> selected || !HasK(old(pers).rows, crc)
    {
      var refs := 0;
      dirty := false;
      var rows := pers.rows;
      if selected {
        var n := 0;
        while n < |rows|
          invariant 0 <= n <= |rows|
          invariant refs == LastRef(rows[..n], name)
        {
          if rows[n].i == name {
            refs := rows[n].r;
          }
          assert rows[..n + 1][..n] == rows[..n];
          n := n + 1;
        }
        assert rows[..n] == rows;
        dirty := true;
      }
      refs := refs + 1;
      if HasK(rows, crc) {
        pers := pers.(rows := Touched(rows, crc, now));
      } else {
        pers := PersTable(rows + [Pers(pers.next, now, name, crc, pub.a, pub.p, pub.t, refs, keys)], pers.next + 1);
        dirty := true;
      }
    }

    method GetPers() returns (v: seq<Ipp>)
      ensures v == Listed(pers.rows)
    {
      v := [];
      var n := 0;
      while n < |pers.rows|
        invariant 0 <= n <= |pers.rows|
        invariant v == Listed(pers.rows)[..n]
      {
        var row := pers.rows[n];
        v := v + [Ipp(row.pa, row.pp, row.t, row.mk)];
        n := n + 1;
      }
    }

    method Authorize(pl: SrvCap, ip4: u32, keys: Key) returns (v: Verdict)
      ensures v == Authorized(mids, 0, pl, ip4, keys)
    {
      hide Open, Meiot, Visible;
      v := Verdict(false, pl, keys);
      var n := 0;
      while n < |mids|
        invariant 0 <= n <= |mids|
        invariant v == Verdict(false, pl, KeysAfter(mids, n, ip4, keys))
        invariant Authorized(mids, n, pl, ip4, keys) == Authorized(mids, 0, pl, ip4, keys)
      {
        if Visible(mids[n], ip4) {
          v := v.(keys := ToKeys(mids[n].mid, v.keys));
          var plclear := EdCapsule(pl, v.keys, false);
          if Meiot(plclear) == mids[n].mid {
            v := Verdict(true, plclear, v.keys);
            return;
          }
        }
        n := n + 1;
      }
    }

    method Deny(ip4: u32) returns (breject: bool)
      modifies this
      ensures View() == old(View()).(rej := rej)
      ensures rej == Denied(old(rej), ip4)
      ensures forall ip: u32 :: Count(rej, ip) == Count(old(rej), ip) + if ip == ip4 then 1 else 0
      ensures breject <==> Count(old(rej), ip4) > MAX_ATTEMPS
    {
      breject := false;
      ghost var before := rej;
      var n := FindRej(rej, ip4);
      if n < 0 {
        rej := rej + [Rej(1, ip4)];
      } else {
        if rej[n].cnt > MAX_ATTEMPS {
          breject := true;
        }
        CountUp(ip4);
      }
      assert rej == Denied(before, ip4);
      forall ip: u32 ensures Count(rej, ip) == Count(before, ip) + if ip == ip4 then 1 else 0 {
        DeniedCounts(before, ip4, ip);
      }
    }

    // UPDATE rej SET cnt=cnt+1 WHERE ip=ip4, row by row.
    method CountUp(ip4: u32)
      modifies this`rej
      ensures |rej| == |old(rej)|
      ensures forall n :: 0 <= n < |rej| ==> rej[n].ip == old(rej)[n].ip
      ensures forall n :: 0 <= n < |rej| ==> rej[n].cnt == old(rej)[n].cnt + if rej[n].ip == ip4 then 1 else 0
    {
      var n := 0;
      while n < |rej|
        invariant 0 <= n <= |rej| == |old(rej)|
        invariant forall m :: 0 <= m < |rej| ==> rej[m].ip == old(rej)[m].ip
        invariant forall m :: 0 <= m < |rej| ==>
                    rej[m].cnt == old(rej)[m].cnt + if m < n && rej[m].ip == ip4 then 1 else 0
      {
        if rej[n].ip == ip4 {
          rej := rej[n := Rej(rej[n].cnt + 1, ip4)];
        }
        n := n + 1;
      }
    }

    // DELETE FROM pers WHERE D <= cutoff, row by row.
    method DelOldies(cutoff: int)
      modifies this
      ensures View() == old(View()).(pers := old(pers).(rows := pers.rows))
      ensures pers.rows == Younger(old(pers).rows, cutoff)
      ensures forall row :: row in pers.rows <==> row in old(pers).rows && row.d > cutoff
    {
      var young := [];
      var n := 0;
      while n < |pers.rows|
        invariant 0 <= n <= |pers.rows|
        invariant young == Younger(pers.rows[..n], cutoff)
      {
        assert pers.rows[..n + 1][..n] == pers.rows[..n];
        if pers.rows[n].d > cutoff {
          young := young + [pers.rows[n]];
        }
        n := n + 1;
      }
      assert pers.rows[..n] == pers.rows;
      forall row ensures row in young <==> row in pers.rows && row.d > cutoff {
        YoungerRows(pers.rows, cutoff, row);
      }
      pers := pers.(rows := young);
    }

    // UPDATE pers SET D=now WHERE PA=ip AND PP=port, row by row.
    method UpdatePeer(ip: u32, port: u16, now: int)
      modifies this
      ensures View() == old(View()).(pers := old(pers).(rows := pers.rows))
      ensures pers.rows == Seen(old(pers).rows, ip, port, now)
      ensures forall n :: 0 <= n < |pers.rows| ==> pers.rows[n] == old(pers).rows[n].(d := pers.rows[n].d)
      ensures forall n :: 0 <= n < |pers.rows| ==>
                pers.rows[n].d == if pers.rows[n].pa == ip && pers.rows[n].pp == port then now else old(pers).rows[n].d
    {
      ghost var before := pers.rows;
      var rows := pers.rows;
      var n := 0;
      while n < |rows|
        invariant 0 <= n <= |rows| == |before|
        invariant forall m :: 0 <= m < |rows| ==> rows[m] == before[m].(d := rows[m].d)
        invariant forall m :: 0 <= m < |rows| ==>
                    rows[m].d == if m < n && rows[m].pa == ip && rows[m].pp == port then now else before[m].d
      {
        if rows[n].pa == ip && rows[n].pp == port {
          rows := rows[n := rows[n].(d := now)];
        }
        n := n + 1;
      }
      assert rows == Seen(before, ip, port, now);
      pers := pers.(rows := rows);
    }

    // DELETE FROM pers WHERE K is one of these, row by row.
    method RemovePeer(ks: set<int>)
      modifies this
      ensures View() == old(View()).(pers := old(pers).(rows := pers.rows))
      ensures pers.rows == Without(old(pers).rows, ks)
      ensures forall row :: row in pers.rows <==> row in old(pers).rows && row.k !in ks
    {
      var kept := [];
      var n := 0;
      while n < |pers.rows|
        invariant 0 <= n <= |pers.rows|
        invariant kept == Without(pers.rows[..n], ks)
      {
        assert pers.rows[..n + 1][..n] == pers.rows[..n];
        if pers.rows[n].k !in ks {
          kept := kept + [pers.rows[n]];
        }
        n := n + 1;
      }
      assert pers.rows[..n] == pers.rows;
      forall row ensures row in kept <==> row in pers.rows && row.k !in ks {
        WithoutRows(pers.rows, ks, row);
      }
      pers := pers.(rows := kept);
    }
  }
}
