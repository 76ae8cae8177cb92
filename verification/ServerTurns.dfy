// What the parts of a server turn do, seen from outside (u_server.cpp): the verbs, the refresh
// of a known peer, and when announcements and expiries are due.
module ServerTurns {
  import opened Words
  import opened Cipher
  import opened Capsule
  import opened Udp
  import opened Tables
  import opened Access
  import opened Database
  import opened Announce
  import opened ServerModel

  // --- the verbs ---

  // A whole packet that is let in, and the state with its plaintext.
  predicate LetIn(st: State, i: Input, t: State) {
    i.rx.Some? && |i.rx.value.bytes| >= SIZE && Asked(st, i.rx.value) == (t, true)
  }

  // Under PER_AIH the rows of the sender's address and port get a new time, and nothing is sent.
  lemma AihRefreshes(h: Hasher, st: State, i: Input, t: State)
    requires LetIn(st, i, t) && t.pl[0] == 9
    ensures var e := Received(h, st, i);
            var before, after := t.db.pers.rows, e.st.db.pers.rows;
            && e.sent == [] && e.st.dirty == t.dirty && |after| == |before|
            && forall n :: 0 <= n < |before| ==>
                 var mine := before[n].pa == Swap32(i.rx.value.src.addr) && before[n].pp == Swap16(i.rx.value.src.port);
                 after[n] == before[n].(d := if mine then i.now else before[n].d)
  {
    hide Asked, Swap32, Swap16;
  }

  // Under SRV_UNREGISTER the capsule goes back in clear as SRV_UNREGISTERED, and the rows the
  // statement hits are gone.
  lemma UnregisterAnswered(h: Hasher, st: State, i: Input, t: State)
    requires LetIn(st, i, t) && t.pl[0] == 4
    ensures var e := Received(h, st, i);
            && e.sent == [Datagram(i.rx.value.src, t.pl[0 := 5])] && e.st.dirty == i.removeOk
            && forall row :: row in e.st.db.pers.rows <==> row in t.db.pers.rows && row.k !in i.removed
  {
    hide Asked, Without;
    forall row ensures row in Without(t.db.pers.rows, i.removed) <==> row in t.db.pers.rows && row.k !in i.removed {
      WithoutRows(t.db.pers.rows, i.removed, row);
    }
  }

  lemma OtherVerbsDoNothing(h: Hasher, st: State, i: Input, t: State)
    requires LetIn(st, i, t) && t.pl[0] != 1 && t.pl[0] != 4 && t.pl[0] != 9
    ensures Received(h, st, i) == Effect(t, [])
  {
    hide Asked;
  }

  // A short packet overwrites the front of the shared capsule and does nothing else; a refused one
  // is left there as it came, and its sender is denied.
  lemma ShortOverwrites(h: Hasher, st: State, i: Input)
    requires i.rx.Some? && |i.rx.value.bytes| < 112
    ensures var bytes := i.rx.value.bytes;
            Received(h, st, i) == Effect(st.(pl := bytes + st.pl[|bytes|..]), [])
  {
  }

  lemma RefusedStays(h: Hasher, st: State, i: Input)
    requires i.rx.Some? && |i.rx.value.bytes| >= 112 && !Asked(st, i.rx.value).1
    ensures var e := Received(h, st, i);
            && e.sent == [] && e.st.pl == i.rx.value.bytes[..112]
            && e.st.db.rej == Denied(st.db.rej, Swap32(i.rx.value.src.addr))
            && e.st.db.pers == st.db.pers && e.st.dirty == st.dirty && e.st.prev == st.prev
  {
    AuthorizedIffSomeRow(st.db.mids, i.rx.value.bytes[..SIZE], Ip4(i.rx.value.src), st.keys);
    hide Authorized, Denied, AcceptsNone;
  }

  // --- storing ---

  // The K of the row a registration is for.
  function KOf(h: Hasher, src: Place, t: State): int {
    h(Swap32(src.addr), Swap16(src.port), CStr(t.pl[75..]), t.keys)
  }

  // The answer to a registration.
  function AckTo(src: Place, t: State): Datagram {
    Datagram(src, Seal(Cleared(WithVerb(t.pl, 2)), t.keys))
  }

  lemma StoreIsFor(h: Hasher, st: State, i: Input, t: State)
    requires LetIn(st, i, t) && t.pl[0] == 1
    ensures Received(h, st, i) == StorePeer(h, t, i.rx.value.src, i.now, i.selected)
    ensures RowKey(h, i.rx.value.src, t.pl, t.keys) == KOf(h, i.rx.value.src, t)
  {
    hide Asked, CStr, StorePeer;
  }

  // A known peer that registers again is acknowledged and announced when the table could be read,
  // and passed over when it could not; either way only its own row gets a new time.
  lemma RefreshAnswered(h: Hasher, st: State, i: Input, t: State)
    requires LetIn(st, i, t) && t.pl[0] == 1 && t.prev != t.pl
    requires HasK(t.db.pers.rows, KOf(h, i.rx.value.src, t))
    ensures var e := Received(h, st, i);
            var before, after := t.db.pers.rows, e.st.db.pers.rows;
            && e.sent == (if i.selected then [AckTo(i.rx.value.src, t)] else []) && e.st.dirty == i.selected
            && e.st.prev == t.pl && |after| == |before|
            && forall n :: 0 <= n < |before| ==>
                 after[n] == before[n].(d := if before[n].k == KOf(h, i.rx.value.src, t) then i.now else before[n].d)
  {
    StoreIsFor(h, st, i, t);
    hide Asked, KOf, Received, HasK, Seal, Cleared, Name, PubOf, LetIn, RowKey, NewRow;
  }

  // The row of a new peer.
  function NewcomerRow(h: Hasher, src: Place, i: Input, t: State): Pers {
    Pers(t.db.pers.next, i.now, CStr(t.pl[77..]), KOf(h, src, t), Swap32(src.addr), Swap16(src.port),
         if t.pl[74] == 0 then 0 else 1,
         (if i.selected then LastRef(t.db.pers.rows, CStr(t.pl[77..])) else 0) + 1, t.keys)
  }

  lemma NewRowIsFor(h: Hasher, src: Place, i: Input, t: State)
    ensures NewRow(t.db.pers, Name(t.pl), KOf(h, src, t), PubOf(src, t.pl), t.keys, i.now, i.selected)
         == NewcomerRow(h, src, i, t)
  {
    hide KOf, LastRef, CStr, Swap32, Swap16;
  }

  // A new peer is acknowledged and announced always, and its row says who and where it is.
  lemma NewcomerAnswered(h: Hasher, st: State, i: Input, t: State)
    requires LetIn(st, i, t) && t.pl[0] == 1 && t.prev != t.pl
    requires !HasK(t.db.pers.rows, KOf(h, i.rx.value.src, t))
    ensures var e := Received(h, st, i);
            var src := i.rx.value.src;
            && e.sent == [AckTo(src, t)] && e.st.dirty && e.st.prev == t.pl
            && e.st.db.pers.next == t.db.pers.next + 1
            && e.st.db.pers.rows == t.db.pers.rows + [NewcomerRow(h, src, i, t)]
  {
    StoreIsFor(h, st, i, t);
    NewRowIsFor(h, i.rx.value.src, i, t);
    hide Asked, KOf, Received, HasK, Seal, Cleared, LetIn, RowKey, NewRow, Name, PubOf, NewcomerRow;
  }

  // A repeat of what the filter remembers changes nothing.
  lemma RepeatDropped(h: Hasher, st: State, i: Input, t: State)
    requires LetIn(st, i, t) && t.pl[0] == 1 && t.prev == t.pl
    ensures Received(h, st, i) == Effect(t, [])
  {
    StoreIsFor(h, st, i, t);
    hide Asked, Received;
  }

  // --- announcing and expiring ---

  lemma ReceivedKeepsTimer(h: Hasher, st: State, i: Input)
    ensures Received(h, st, i).st.pingpers == st.pingpers
  {
    hide Authorized, Seal, Stored, Cleared, RowKey, Seen, Without, Denied, Overwritten, HasK;
  }

  // A turn announces exactly when 16 seconds have passed since the last time or something was
  // stored, and then exactly the rows past the limit stay.
  lemma TurnAnnounces(h: Hasher, st: State, i: Input)
    ensures var a, e := Received(h, st, i), Turn(h, st, i);
            if i.now - st.pingpers >= 16 || a.st.dirty then
              && e.sent == a.sent + Announced(a.st.pl, Listed(a.st.db.pers.rows)).sent && e.st.pingpers == i.now
              && (forall row :: row in e.st.db.pers.rows <==> row in a.st.db.pers.rows && row.d > i.cutoff)
            else e.sent == a.sent && e.st.pingpers == st.pingpers && e.st.db.pers.rows == a.st.db.pers.rows
  {
    ReceivedKeepsTimer(h, st, i);
    hide Received, Announced, Listed, Younger;
    var a := Received(h, st, i);
    forall row ensures row in Younger(a.st.db.pers.rows, i.cutoff) <==> row in a.st.db.pers.rows && row.d > i.cutoff {
      YoungerRows(a.st.db.pers.rows, i.cutoff, row);
    }
    assert a.sent + [] == a.sent;
  }

  // When the server last announced, told from its inputs and from what it stored.
  ghost function LastAnnounced(h: Hasher, mids: seq<Mid>, keys: Key, ins: seq<Input>): int {
    if ins == [] then 0
    else
      var front, last := ins[..|ins| - 1], ins[|ins| - 1];
      var before := LastAnnounced(h, mids, keys, front);
      if last.now - before >= 16 || Received(h, Run(h, Start(mids, keys), front).st, last).st.dirty then last.now
      else before
  }

  // So in every run announcements are due 16 seconds after the last ones, and at once after a store.
  lemma {:induction false} AnnouncementsInRun(h: Hasher, mids: seq<Mid>, keys: Key, ins: seq<Input>, i: Input)
    ensures var st := Run(h, Start(mids, keys), ins).st;
            var a := Received(h, st, i);
            && st.pingpers == LastAnnounced(h, mids, keys, ins)
            && (i.now - LastAnnounced(h, mids, keys, ins) >= 16 || a.st.dirty ==>
                  Turn(h, st, i).sent == a.sent + Announced(a.st.pl, Listed(a.st.db.pers.rows)).sent)
            && (i.now - LastAnnounced(h, mids, keys, ins) < 16 && !a.st.dirty ==> Turn(h, st, i).sent == a.sent)
  {
    hide Turn, Received, Announced, Listed;
    if ins == [] {
    } else {
      var front, last := ins[..|ins| - 1], ins[|ins| - 1];
      AnnouncementsInRun(h, mids, keys, front, last);
      TurnAnnounces(h, Run(h, Start(mids, keys), front).st, last);
    }
    TurnAnnounces(h, Run(h, Start(mids, keys), ins).st, i);
  }
}
