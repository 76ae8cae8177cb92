// sqliter.cpp: the server's three SQL tables as sequences of rows in Id order, with the
// effect of each statement and the cursor loops that read them.
module Tables {
  import opened Words
  import opened Cipher
  import opened Capsule

  // --- pers: the registered peers ---

  // D is the time of the last registration, I the name, K the unique hash, PA and PP the
  // address in host order, T the type, R the reference number within the name, MK the keys.
  datatype Pers = Pers(id: nat, d: int, i: seq<byte>, k: int, pa: u32, pp: u16, t: int, r: int, mk: Key)

  // `next` is the Id autoincrement hands out next.
  datatype PersTable = PersTable(rows: seq<Pers>, next: nat)

  predicate HasK(rows: seq<Pers>, k: int) {
    exists n :: 0 <= n < |rows| && rows[n].k == k
  }

  // R of the last row of that name, 0 when there is none: what the cursor leaves in `refs`.
  function LastRef(rows: seq<Pers>, name: seq<byte>): int {
    if rows == [] then 0
    else if rows[|rows| - 1].i == name then rows[|rows| - 1].r
    else LastRef(rows[..|rows| - 1], name)
  }

  // UPDATE pers SET D=now WHERE K=k
  function Touched(rows: seq<Pers>, k: int, now: int): (r: seq<Pers>)
    ensures |r| == |rows|
  {
    seq(|rows|, n requires 0 <= n < |rows| => if rows[n].k == k then rows[n].(d := now) else rows[n])
  }

  // UPDATE pers SET D=now WHERE PA=ip AND PP=port
  function Seen(rows: seq<Pers>, ip: u32, port: u16, now: int): (r: seq<Pers>)
    ensures |r| == |rows|
  {
    seq(|rows|, n requires 0 <= n < |rows| =>
      if rows[n].pa == ip && rows[n].pp == port then rows[n].(d := now) else rows[n])
  }

  // DELETE FROM pers WHERE D <= cutoff
  function Younger(rows: seq<Pers>, cutoff: int): seq<Pers> {
    if rows == [] then []
    else
      var last := rows[|rows| - 1];
      Younger(rows[..|rows| - 1], cutoff) + if last.d <= cutoff then [] else [last]
  }

  function NewRow(t: PersTable, name: seq<byte>, k: int, pub: Ipp, keys: Key, now: int, selected: bool): Pers {
    Pers(t.next, now, name, k, pub.a, pub.p, pub.t, (if selected then LastRef(t.rows, name) else 0) + 1, keys)
  }

  // store_peer: an INSERT that fails on the unique K turns into an update of D.
  function Stored(t: PersTable, name: seq<byte>, k: int, pub: Ipp, keys: Key, now: int, selected: bool): PersTable {
    if HasK(t.rows, k) then t.(rows := Touched(t.rows, k, now))
    else PersTable(t.rows + [NewRow(t, name, k, pub, keys, now, selected)], t.next + 1)
  }

  // K is unique, and Ids ascend below the next one.
  ghost predicate Keyed(t: PersTable) {
    && (forall m, n :: 0 <= m < n < |t.rows| ==> t.rows[m].id < t.rows[n].id && t.rows[m].k != t.rows[n].k)
    && (forall n :: 0 <= n < |t.rows| ==> t.rows[n].id < t.next)
  }

  // Within a name R grows with Id.
  ghost predicate RefOrder(rows: seq<Pers>) {
    && (forall n :: 0 <= n < |rows| ==> rows[n].r >= 1)
    && (forall m, n :: 0 <= m < n < |rows| && rows[m].i == rows[n].i ==> rows[m].r < rows[n].r)
  }

  predicate Named(rows: seq<Pers>, name: seq<byte>) {
    exists n :: 0 <= n < |rows| && rows[n].i == name
  }

  // The cursor leaves R of the last row of that name, and 0 when there is none.
  lemma {:induction false} LastRefIsLast(rows: seq<Pers>, name: seq<byte>)
    ensures !Named(rows, name) ==> LastRef(rows, name) == 0
    ensures Named(rows, name) ==>
              exists n :: 0 <= n < |rows| && rows[n].i == name && rows[n].r == LastRef(rows, name)
                       && forall m :: n < m < |rows| ==> rows[m].i != name
  {
    if rows == [] {
    } else {
      var front := rows[..|rows| - 1];
      LastRefIsLast(front, name);
      if rows[|rows| - 1].i == name {
        assert rows[|rows| - 1].r == LastRef(rows, name);
      } else if Named(rows, name) {
        var k :| 0 <= k < |rows| && rows[k].i == name;
        assert front[k].i == name;
      }
    }
  }

  lemma {:induction false} LastRefIsGreatest(rows: seq<Pers>, name: seq<byte>)
    requires RefOrder(rows)
    ensures forall n :: 0 <= n < |rows| && rows[n].i == name ==> rows[n].r <= LastRef(rows, name)
    ensures LastRef(rows, name) >= 0
  {
    if rows == [] {
    } else if rows[|rows| - 1].i != name {
      var front := rows[..|rows| - 1];
      LastRefIsGreatest(front, name);
      forall n | 0 <= n < |rows| && rows[n].i == name ensures rows[n].r <= LastRef(rows, name) {
        assert front[n] == rows[n];
      }
    }
  }

  lemma StoredKeepsKeyed(t: PersTable, name: seq<byte>, k: int, pub: Ipp, keys: Key, now: int, selected: bool)
    requires Keyed(t)
    ensures Keyed(Stored(t, name, k, pub, keys, now, selected))
  {
    hide LastRef;
  }

  // The reference numbers stay ascending exactly when the store refreshed a row, could read
  // the table, or met a new name.
  lemma StoredKeepsRefOrder(t: PersTable, name: seq<byte>, k: int, pub: Ipp, keys: Key, now: int, selected: bool)
    requires RefOrder(t.rows)
    ensures RefOrder(Stored(t, name, k, pub, keys, now, selected).rows)
       <==> HasK(t.rows, k) || selected || !Named(t.rows, name)
  {
    var u := Stored(t, name, k, pub, keys, now, selected).rows;
    if HasK(t.rows, k) {
      assert forall n :: 0 <= n < |u| ==> u[n].i == t.rows[n].i && u[n].r == t.rows[n].r;
    } else {
      LastRefIsGreatest(t.rows, name);
      hide LastRef, HasK;
      var last := |t.rows|;
      assert u[last] == NewRow(t, name, k, pub, keys, now, selected);
      if !selected && Named(t.rows, name) {
        var n :| 0 <= n < last && t.rows[n].i == name;
        assert u[n].i == u[last].i && u[n].r >= u[last].r;
      }
    }
  }

  lemma {:induction false} YoungerRows(rows: seq<Pers>, cutoff: int, row: Pers)
    ensures row in Younger(rows, cutoff) <==> row in rows && row.d > cutoff
  {
    if rows == [] {
    } else {
      var front := rows[..|rows| - 1];
      YoungerRows(front, cutoff, row);
      assert rows == front + [rows[|rows| - 1]];
    }
  }

  // Deleting rows keeps whatever holds between every row and the later ones.
  lemma {:induction false} YoungerPairwise(rows: seq<Pers>, cutoff: int, rel: (Pers, Pers) -> bool)
    requires forall m, n :: 0 <= m < n < |rows| ==> rel(rows[m], rows[n])
    ensures var young := Younger(rows, cutoff); forall m, n :: 0 <= m < n < |young| ==> rel(young[m], young[n])
  {
    if rows == [] {
    } else {
      var front := rows[..|rows| - 1];
      YoungerPairwise(front, cutoff, rel);
      var young := Younger(front, cutoff);
      forall n | 0 <= n < |young| ensures rel(young[n], rows[|rows| - 1]) {
        YoungerRows(front, cutoff, young[n]);
        var m :| 0 <= m < |front| && front[m] == young[n];
        assert rows[m] == young[n];
      }
    }
  }

  lemma {:induction false} YoungerKeepsKeyed(t: PersTable, cutoff: int)
    requires Keyed(t)
    ensures Keyed(t.(rows := Younger(t.rows, cutoff)))
  {
    YoungerPairwise(t.rows, cutoff, (a: Pers, b: Pers) => a.id < b.id && a.k != b.k);
    var young := Younger(t.rows, cutoff);
    forall n | 0 <= n < |young| ensures young[n].id < t.next {
      YoungerRows(t.rows, cutoff, young[n]);
    }
  }

  lemma {:induction false} YoungerKeepsRefOrder(rows: seq<Pers>, cutoff: int)
    requires RefOrder(rows)
    ensures RefOrder(Younger(rows, cutoff))
  {
    YoungerPairwise(rows, cutoff, (a: Pers, b: Pers) => a.i == b.i ==> a.r < b.r);
    var young := Younger(rows, cutoff);
    forall n | 0 <= n < |young| ensures young[n].r >= 1 {
      YoungerRows(rows, cutoff, young[n]);
    }
  }

  // --- the table as a map keyed by K ---

  // Each row of the table under its K.
  ghost predicate Represents(m: map<int, Pers>, rows: seq<Pers>) {
    && (forall n :: 0 <= n < |rows| ==> rows[n].k in m && m[rows[n].k] == rows[n])
    && (forall k :: k in m ==> m[k].k == k && m[k] in rows)
  }

  // A store overwrites D under its own K and nothing else, or adds one key.
  lemma StoredRefinesMap(m: map<int, Pers>, t: PersTable, name: seq<byte>, k: int, pub: Ipp, keys: Key, now: int,
                         selected: bool)
    requires Represents(m, t.rows) && Keyed(t)
    ensures HasK(t.rows, k) <==> k in m
    ensures Represents(if k in m then m[k := m[k].(d := now)]
                       else m[k := NewRow(t, name, k, pub, keys, now, selected)],
                       Stored(t, name, k, pub, keys, now, selected).rows)
  {
    hide LastRef;
    if k in m {
      var n :| 0 <= n < |t.rows| && t.rows[n] == m[k];
      assert HasK(t.rows, k);
      TouchedRefinesMap(m, t.rows, k, now);
    } else {
      assert !HasK(t.rows, k);
      AppendRefinesMap(m, t.rows, NewRow(t, name, k, pub, keys, now, selected));
    }
  }

  lemma TouchedRefinesMap(m: map<int, Pers>, rows: seq<Pers>, k: int, now: int)
    requires Represents(m, rows) && k in m
    ensures Represents(m[k := m[k].(d := now)], Touched(rows, k, now))
  {
    var u := Touched(rows, k, now);
    forall l | l in m ensures (if l == k then m[k].(d := now) else m[l]) in u {
      var j :| 0 <= j < |rows| && rows[j] == m[l];
      assert u[j].k == l;
    }
  }

  lemma AppendRefinesMap(m: map<int, Pers>, rows: seq<Pers>, row: Pers)
    requires Represents(m, rows) && row.k !in m
    ensures Represents(m[row.k := row], rows + [row])
  {
  }

  lemma SeenRefinesMap(m: map<int, Pers>, rows: seq<Pers>, ip: u32, port: u16, now: int)
    requires Represents(m, rows)
    ensures Represents(map k | k in m :: if m[k].pa == ip && m[k].pp == port then m[k].(d := now) else m[k],
                       Seen(rows, ip, port, now))
  {
    var u := Seen(rows, ip, port, now);
    forall k | k in m ensures (if m[k].pa == ip && m[k].pp == port then m[k].(d := now) else m[k]) in u {
      var j :| 0 <= j < |rows| && rows[j] == m[k];
      assert u[j].k == k;
    }
  }

  lemma {:induction false} YoungerRefinesMap(m: map<int, Pers>, rows: seq<Pers>, cutoff: int)
    requires Represents(m, rows)
    ensures Represents(map k | k in m && m[k].d > cutoff :: m[k], Younger(rows, cutoff))
  {
    var u := Younger(rows, cutoff);
    forall n | 0 <= n < |u| ensures u[n] in rows && u[n].d > cutoff {
      YoungerRows(rows, cutoff, u[n]);
    }
    forall k | k in m && m[k].d > cutoff ensures m[k] in u {
      YoungerRows(rows, cutoff, m[k]);
    }
  }

  datatype Op =
    | Store(name: seq<byte>, k: int, pub: Ipp, keys: Key, now: int, selected: bool)
    | Refresh(ip: u32, port: u16, now: int)
    | Expire(cutoff: int)

  function Apply(t: PersTable, op: Op): PersTable {
    match op
    case Store(name, k, pub, keys, now, selected) => Stored(t, name, k, pub, keys, now, selected)
    case Refresh(ip, port, now) => t.(rows := Seen(t.rows, ip, port, now))
    case Expire(cutoff) => t.(rows := Younger(t.rows, cutoff))
  }

  function ApplyMap(m: map<int, Pers>, t: PersTable, op: Op): map<int, Pers> {
    match op
    case Store(name, k, pub, keys, now, selected) =>
      if k in m then m[k := m[k].(d := now)] else m[k := NewRow(t, name, k, pub, keys, now, selected)]
    case Refresh(ip, port, now) => map k | k in m :: if m[k].pa == ip && m[k].pp == port then m[k].(d := now) else m[k]
    case Expire(cutoff) => map k | k in m && m[k].d > cutoff :: m[k]
  }

  function RunTable(ops: seq<Op>): PersTable {
    if ops == [] then PersTable([], 1) else Apply(RunTable(ops[..|ops| - 1]), ops[|ops| - 1])
  }

  function RunMap(ops: seq<Op>): map<int, Pers> {
    if ops == [] then map[]
    else ApplyMap(RunMap(ops[..|ops| - 1]), RunTable(ops[..|ops| - 1]), ops[|ops| - 1])
  }

  // After every sequence of stores, refreshes and expiries K is unique and the table is the map.
  lemma {:induction false} RunRefinesMap(ops: seq<Op>)
    ensures Keyed(RunTable(ops)) && Represents(RunMap(ops), RunTable(ops).rows)
  {
    if ops == [] {
    } else {
      var front := ops[..|ops| - 1];
      RunRefinesMap(front);
      hide RunTable, RunMap;
      ApplyRefinesMap(RunMap(front), RunTable(front), ops[|ops| - 1]);
    }
  }

  lemma ApplyRefinesMap(m: map<int, Pers>, t: PersTable, op: Op)
    requires Represents(m, t.rows) && Keyed(t)
    ensures Represents(ApplyMap(m, t, op), Apply(t, op).rows) && Keyed(Apply(t, op))
  {
    match op
    case Store(name, k, pub, keys, now, selected) =>
      hide Represents, Keyed;
      StoredRefinesMap(m, t, name, k, pub, keys, now, selected);
      StoredKeepsKeyed(t, name, k, pub, keys, now, selected);
    case Refresh(ip, port, now) =>
      SeenRefinesMap(m, t.rows, ip, port, now);
      hide Represents;
      SeenChangesTimes(t.rows, ip, port, now);
    case Expire(cutoff) =>
      hide Represents, Keyed;
      YoungerRefinesMap(m, t.rows, cutoff);
      YoungerKeepsKeyed(t, cutoff);
  }

  lemma SeenChangesTimes(rows: seq<Pers>, ip: u32, port: u16, now: int)
    ensures forall n :: 0 <= n < |rows| ==>
              var row := Seen(rows, ip, port, now)[n]; row == rows[n].(d := row.d)
  {
  }

  // A store that cannot read the table and inserts a row for a name that is there.
  predicate Blind(t: PersTable, op: Op) {
    op.Store? && !op.selected && !HasK(t.rows, op.k) && Named(t.rows, op.name)
  }

  lemma ApplyKeepsRefOrder(t: PersTable, op: Op)
    requires RefOrder(t.rows)
    ensures RefOrder(Apply(t, op).rows) <==> !Blind(t, op)
  {
    match op
    case Store(name, k, pub, keys, now, selected) =>
      hide RefOrder, HasK, Named, Stored;
      StoredKeepsRefOrder(t, name, k, pub, keys, now, selected);
    case Refresh(ip, port, now) =>
      SeenChangesTimes(t.rows, ip, port, now);
      hide Seen;
    case Expire(cutoff) =>
      hide RefOrder;
      YoungerKeepsRefOrder(t.rows, cutoff);
  }

  ghost predicate OrderedAfter(ops: seq<Op>, k: nat)
    requires k <= |ops|
  {
    RefOrder(RunTable(ops[..k]).rows)
  }

  predicate BlindAt(ops: seq<Op>, k: nat)
    requires k < |ops|
  {
    Blind(RunTable(ops[..k]), ops[k])
  }

  // The references of each name ascend all through a run.
  ghost predicate AlwaysOrdered(ops: seq<Op>) {
    forall k :: 0 <= k <= |ops| ==> OrderedAfter(ops, k)
  }

  predicate NeverBlind(ops: seq<Op>) {
    forall k :: 0 <= k < |ops| ==> !BlindAt(ops, k)
  }

  // They do exactly when no store of the run is blind.
  lemma {:induction false} RunKeepsRefOrder(ops: seq<Op>)
    ensures AlwaysOrdered(ops) <==> NeverBlind(ops)
  {
    hide OrderedAfter, BlindAt;
    if ops == [] {
      NothingIsOrdered();
    } else {
      var front := ops[..|ops| - 1];
      RunKeepsRefOrder(front);
      forall k | 0 <= k <= |front|
        ensures OrderedAfter(ops, k) <==> OrderedAfter(front, k)
        ensures k < |front| ==> (BlindAt(ops, k) <==> BlindAt(front, k))
      {
        SamePrefix(ops, k);
      }
      if OrderedAfter(front, |front|) {
        LastOp(ops);
      }
    }
  }

  lemma NothingIsOrdered()
    ensures OrderedAfter([], 0)
  {
  }

  lemma SamePrefix(ops: seq<Op>, k: nat)
    requires k < |ops|
    ensures OrderedAfter(ops, k) <==> OrderedAfter(ops[..|ops| - 1], k)
    ensures k < |ops| - 1 ==> (BlindAt(ops, k) <==> BlindAt(ops[..|ops| - 1], k))
  {
    hide RunTable, RefOrder, Blind;
    assert ops[..|ops| - 1][..k] == ops[..k];
  }

  lemma LastOp(ops: seq<Op>)
    requires ops != [] && OrderedAfter(ops[..|ops| - 1], |ops| - 1)
    ensures OrderedAfter(ops, |ops|) <==> !BlindAt(ops, |ops| - 1)
  {
    hide RefOrder, Blind, Apply;
    var front := ops[..|ops| - 1];
    assert ops[..|ops|] == ops && front[..|front|] == front;
    ApplyKeepsRefOrder(RunTable(front), ops[|ops| - 1]);
  }
}
