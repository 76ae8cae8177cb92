// What holds of the server over its turns and whole runs (u_server.cpp).
module ServerRuns {
  import opened Words
  import opened Cipher
  import opened Capsule
  import opened Udp
  import opened Tables
  import opened Access
  import opened Database
  import opened Announce
  import opened ServerModel

  // --- what happened to a registration ---

  // A whole capsule came in, authorize accepted it, and it asks to register.
  predicate Registering(st: State, i: Input) {
    i.rx.Some? && |i.rx.value.bytes| >= SIZE && Asked(st, i.rx.value).1
    && Verb(Asked(st, i.rx.value).0.pl) == SRV_REGISTER
  }

  // The state _process sees, with the plaintext in `pl` and the client's keys.
  function Plain(st: State, i: Input): State
    requires Registering(st, i)
  {
    Asked(st, i.rx.value).0
  }

  predicate Repeats(st: State, i: Input) {
    Registering(st, i) && Plain(st, i).prev == Plain(st, i).pl
  }

  predicate Stores(h: Hasher, st: State, i: Input) {
    Registering(st, i) && !Repeats(st, i) && StoreOk(h, Plain(st, i), i.rx.value.src, i.selected)
  }

  predicate StoreFails(h: Hasher, st: State, i: Input) {
    Registering(st, i) && !Repeats(st, i) && !StoreOk(h, Plain(st, i), i.rx.value.src, i.selected)
  }

  predicate Announces(h: Hasher, st: State, i: Input) {
    var t := Received(h, st, i).st;
    i.now - t.pingpers > TTLIVE || t.dirty
  }

  // The table right after the store, before the turn expires old rows.
  function RowsAfterStore(h: Hasher, st: State, i: Input): seq<Pers>
    requires Registering(st, i)
  {
    var t := Plain(st, i);
    var src := i.rx.value.src;
    Stored(t.db.pers, Name(t.pl), RowKey(h, src, t.pl, t.keys), PubOf(src, t.pl), t.keys, i.now, i.selected).rows
  }

  lemma StoredHasRow(t: PersTable, name: seq<byte>, k: int, pub: Ipp, keys: Key, now: int, selected: bool)
      returns (n: nat)
    ensures var rows := Stored(t, name, k, pub, keys, now, selected).rows; n < |rows| && rows[n].k == k
  {
    hide LastRef;
    if HasK(t.rows, k) {
      n :| 0 <= n < |t.rows| && t.rows[n].k == k;
    } else {
      n := |t.rows|;
    }
  }

  // Row n is told of every opposite row, and every opposite row of row n, exactly twice.
  ghost predicate ToldBothWays(pers: seq<Ipp>, n: nat) {
    forall m :: 0 <= m < |pers| && Opposite(pers, m, n) ==>
      Occurs(Notes(pers, |pers|), Naming(m, n)) == 2 && Occurs(Notes(pers, |pers|), Naming(n, m)) == 2
  }

  lemma EveryRowToldBothWays(pers: seq<Ipp>, n: nat)
    requires n < |pers|
    ensures ToldBothWays(pers, n)
  {
    hide Notes, Occurs;
    forall m | 0 <= m < |pers| && Opposite(pers, m, n)
      ensures Occurs(Notes(pers, |pers|), Naming(m, n)) == 2 && Occurs(Notes(pers, |pers|), Naming(n, m)) == 2
    {
      NoteCounts(pers, |pers|, m, n);
      NoteCounts(pers, |pers|, n, m);
    }
  }

  function Ack(st: State, i: Input): SrvCap
    requires Registering(st, i)
  {
    Cleared(WithVerb(Plain(st, i).pl, SRV_REGISTERRED))
  }

  lemma StoreEffect(h: Hasher, st: State, i: Input)
    requires Stores(h, st, i)
    ensures var e := Received(h, st, i);
            && e.sent == [Datagram(i.rx.value.src, Seal(Ack(st, i), Plain(st, i).keys))]
            && e.st.dirty && e.st.pl == Ack(st, i) && e.st.db.pers.rows == RowsAfterStore(h, st, i)
  {
    hide Seal, Stored, Cleared, Asked, RowKey;
  }

  // An accepted registration whose store succeeds is acknowledged and, in the same turn, the
  // row with its K is announced to and about every opposite row; then the duplicate filter is
  // empty again.
  lemma RegistrationAnnounced(h: Hasher, st: State, i: Input) returns (n: nat)
    requires Stores(h, st, i)
    ensures var t := Plain(st, i);
            var rows := RowsAfterStore(h, st, i);
            var e := Turn(h, st, i);
            && n < |rows| && rows[n].k == RowKey(h, i.rx.value.src, t.pl, t.keys) && ToldBothWays(Listed(rows), n)
            && e.sent == [Datagram(i.rx.value.src, Seal(Ack(st, i), t.keys))] + Announced(Ack(st, i), Listed(rows)).sent
            && e.st.prev == ZERO_CAP && !e.st.dirty
  {
    var t := Plain(st, i);
    var src := i.rx.value.src;
    n := StoredHasRow(t.db.pers, Name(t.pl), RowKey(h, src, t.pl, t.keys), PubOf(src, t.pl), t.keys, i.now, i.selected);
    StoreEffect(h, st, i);
    hide Seal, Stored, Announced, Asked, RowKey, Younger, StoreOk, Received, ToldBothWays, Ack;
    EveryRowToldBothWays(Listed(RowsAfterStore(h, st, i)), n);
  }

  // At the end of every turn nothing is left to announce, and the capsule the filter
  // remembers is none, the one from before, or one whose store just failed.
  lemma TurnEnds(h: Hasher, st: State, i: Input)
    ensures var e := Turn(h, st, i).st;
            && !e.dirty
            && (Announces(h, st, i) ==> e.prev == ZERO_CAP)
            && (!Announces(h, st, i) ==> e.prev == if StoreFails(h, st, i) then Plain(st, i).pl else st.prev)
  {
    hide Seal, Stored, Announced, Cleared, Listed, RowKey, Younger, Seen, Without, HasK, Authorized, Denied,
        Overwritten, Typ;
    if !st.dirty {
      assert Stores(h, st, i) ==> Received(h, st, i).st.dirty;
    }
  }

  // The filter remembers a capsule only after a store of it failed, with nothing announced since.
  lemma {:induction false} FilterNeedsFailure(h: Hasher, mids: seq<Mid>, keys: Key, ins: seq<Input>) returns (k: nat)
    requires Run(h, Start(mids, keys), ins).st.prev != ZERO_CAP
    ensures k < |ins| && Failed(h, mids, keys, ins, k, Run(h, Start(mids, keys), ins).st.prev)
    ensures forall j :: k <= j < |ins| ==> Quiet(h, mids, keys, ins, j)
  {
    hide Turn, Announces, StoreFails, Failed, Quiet, Registering, Plain;
    assert ins != [];
    var front := ins[..|ins| - 1];
    var last := ins[|ins| - 1];
    var st := Run(h, Start(mids, keys), front).st;
    assert Run(h, Start(mids, keys), ins).st == Turn(h, st, last).st;
    hide Run;
    TurnEnds(h, st, last);
    LastTurn(h, mids, keys, ins);
    if StoreFails(h, st, last) {
      k := |ins| - 1;
    } else {
      k := FilterNeedsFailure(h, mids, keys, front);
      forall j | k <= j < |ins| ensures Quiet(h, mids, keys, ins, j) {
        if j < |front| {
          EarlierTurn(h, mids, keys, ins, j, st.prev);
        }
      }
      EarlierTurn(h, mids, keys, ins, k, st.prev);
    }
  }

  // The last turn and the earlier ones, seen from the run without the last.
  lemma LastTurn(h: Hasher, mids: seq<Mid>, keys: Key, ins: seq<Input>)
    requires ins != []
    ensures var st := Run(h, Start(mids, keys), ins[..|ins| - 1]).st;
            var last := ins[|ins| - 1];
            && (Quiet(h, mids, keys, ins, |ins| - 1) <==> !Announces(h, st, last))
            && (StoreFails(h, st, last) ==> Failed(h, mids, keys, ins, |ins| - 1, Plain(st, last).pl))
  {
    hide Run, Announces, StoreOk;
  }

  lemma EarlierTurn(h: Hasher, mids: seq<Mid>, keys: Key, ins: seq<Input>, j: nat, c: SrvCap)
    requires j < |ins| - 1
    ensures Quiet(h, mids, keys, ins[..|ins| - 1], j) <==> Quiet(h, mids, keys, ins, j)
    ensures Failed(h, mids, keys, ins[..|ins| - 1], j, c) <==> Failed(h, mids, keys, ins, j, c)
  {
    hide Run, Announces, StoreFails;
    assert ins[..|ins| - 1][..j] == ins[..j];
  }

  // Turn k of the run tried to store c and failed.
  ghost predicate Failed(h: Hasher, mids: seq<Mid>, keys: Key, ins: seq<Input>, k: nat, c: SrvCap)
    requires k < |ins|
  {
    var st := Run(h, Start(mids, keys), ins[..k]).st;
    StoreFails(h, st, ins[k]) && Plain(st, ins[k]).pl == c
  }

  // Turn j of the run announced nothing.
  ghost predicate Quiet(h: Hasher, mids: seq<Mid>, keys: Key, ins: seq<Input>, j: nat)
    requires j < |ins|
  {
    !Announces(h, Run(h, Start(mids, keys), ins[..j]).st, ins[j])
  }

  // So in every run the filter drops a registration only as the repeat of one that failed.
  lemma OnlyFailuresAreFiltered(h: Hasher, mids: seq<Mid>, keys: Key, ins: seq<Input>, i: Input)
      returns (k: nat)
    requires Repeats(Run(h, Start(mids, keys), ins).st, i)
    ensures k < |ins| && Failed(h, mids, keys, ins, k, Plain(Run(h, Start(mids, keys), ins).st, i).pl)
    ensures forall j :: k <= j < |ins| ==> Quiet(h, mids, keys, ins, j)
  {
    var st := Run(h, Start(mids, keys), ins).st;
    hide Run, Authorized, Overwritten, Failed, Quiet;
    assert Verb(ZERO_CAP) == 0;
    assert Plain(st, i).prev == st.prev;
    k := FilterNeedsFailure(h, mids, keys, ins);
  }

  // --- the two types ---

  ghost predicate Typed(rows: seq<Pers>) {
    forall r :: r in rows ==> r.t == 0 || r.t == 1
  }

  lemma StoredTyped(t: PersTable, name: seq<byte>, k: int, pub: Ipp, keys: Key, now: int, selected: bool)
    requires Typed(t.rows) && (pub.t == 0 || pub.t == 1)
    ensures Typed(Stored(t, name, k, pub, keys, now, selected).rows)
  {
    hide LastRef, HasK;
    forall n | 0 <= n < |t.rows| ensures t.rows[n].t == 0 || t.rows[n].t == 1 {
      assert t.rows[n] in t.rows;
    }
  }

  lemma SeenTyped(rows: seq<Pers>, ip: u32, port: u16, now: int)
    requires Typed(rows)
    ensures Typed(Seen(rows, ip, port, now))
  {
    forall n | 0 <= n < |rows| ensures rows[n].t == 0 || rows[n].t == 1 {
      assert rows[n] in rows;
    }
  }

  lemma {:induction false} WithoutTyped(rows: seq<Pers>, ks: set<int>)
    requires Typed(rows)
    ensures Typed(Without(rows, ks))
  {
    if rows == [] {
    } else {
      WithoutTyped(rows[..|rows| - 1], ks);
    }
  }

  lemma {:induction false} YoungerTyped(rows: seq<Pers>, cutoff: int)
    requires Typed(rows)
    ensures Typed(Younger(rows, cutoff))
  {
    forall r | r in Younger(rows, cutoff) ensures r.t == 0 || r.t == 1 {
      YoungerRows(rows, cutoff, r);
    }
  }

  lemma ReceivedTyped(h: Hasher, st: State, i: Input)
    requires Typed(st.db.pers.rows)
    ensures Typed(Received(h, st, i).st.db.pers.rows)
  {
    if i.rx.Some? && |i.rx.value.bytes| >= SIZE && Asked(st, i.rx.value).1 {
      var t := Asked(st, i.rx.value).0;
      var src := i.rx.value.src;
      StoredTyped(t.db.pers, Name(t.pl), RowKey(h, src, t.pl, t.keys), PubOf(src, t.pl), t.keys, i.now, i.selected);
      SeenTyped(t.db.pers.rows, Swap32(src.addr), Swap16(src.port), i.now);
      WithoutTyped(t.db.pers.rows, i.removed);
    }
    hide Seal, Stored, Cleared, RowKey, Seen, Without, Authorized, Denied, Overwritten, Typed;
  }

  lemma {:induction false} RunTyped(h: Hasher, mids: seq<Mid>, keys: Key, ins: seq<Input>)
    ensures Typed(Run(h, Start(mids, keys), ins).st.db.pers.rows)
  {
    if ins == [] {
    } else {
      var st := Run(h, Start(mids, keys), ins[..|ins| - 1]).st;
      var i := ins[|ins| - 1];
      RunTyped(h, mids, keys, ins[..|ins| - 1]);
      ReceivedTyped(h, st, i);
      YoungerTyped(Received(h, st, i).st.db.pers.rows, i.cutoff);
      hide Received, Typed, Younger, Announced, Listed;
    }
  }

  // In every run an announcement to P providers and C consumers is P + C pings and 4*P*C
  // capsules naming a peer, and each datagram is what its note says.
  lemma {:induction false} AnnouncementInRun(h: Hasher, mids: seq<Mid>, keys: Key, ins: seq<Input>, i: Input)
    ensures var st := Received(h, Run(h, Start(mids, keys), ins).st, i).st;
            var pers := Listed(st.db.pers.rows);
            var p, c := OfType(pers, 1, |pers|), OfType(pers, 0, |pers|);
            var sent := Announced(st.pl, pers).sent;
            && AllInRange(Notes(pers, |pers|), |pers|)
            && |sent| == |Notes(pers, |pers|)| == p + c + 4 * (p * c)
            && forall k :: 0 <= k < |sent| ==> Tells(sent[k], pers, Notes(pers, |pers|)[k])
  {
    var before := Run(h, Start(mids, keys), ins).st;
    RunTyped(h, mids, keys, ins);
    hide Run;
    ReceivedTyped(h, before, i);
    var st := Received(h, before, i).st;
    hide Received;
    var pers := Listed(st.db.pers.rows);
    forall e | e in pers ensures e.t == 0 || e.t == 1 {
      var n :| 0 <= n < |pers| && pers[n] == e;
      assert st.db.pers.rows[n] in st.db.pers.rows;
    }
    AnnouncementSize(pers);
    NotesInRange(pers, |pers|);
    hide Notes, OfType, Tells, Rendered, InRange, Listed;
    RenderedLength(st.pl, pers, Notes(pers, |pers|));
    forall k | 0 <= k < |Notes(pers, |pers|)|
      ensures Tells(Announced(st.pl, pers).sent[k], pers, Notes(pers, |pers|)[k])
    {
      RenderedTells(st.pl, pers, Notes(pers, |pers|), k);
    }
  }
}
