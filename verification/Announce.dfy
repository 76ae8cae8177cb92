// u_server.cpp, _ping_pers: who is told about whom. `Notes` lists what the nested loop sends
// by the rows concerned, `Rendered` the capsules and datagrams that come of it.
module Announce {
  import opened Capsule
  import opened Udp

  // A ping to a row, or a SRV_SET_PEER to one row naming another.
  datatype Note = Ping(to: nat) | Naming(to: nat, about: nat)

  // The inner loop of row i over the first n rows.
  function InnerNotes(pers: seq<Ipp>, i: nat, n: nat): seq<Note>
    requires i < |pers| && n <= |pers|
  {
    if n == 0 then [] else InnerNotes(pers, i, n - 1) + Pair(pers, i, n - 1)
  }

  // What the inner loop sends for rows i and j.
  function Pair(pers: seq<Ipp>, i: nat, j: nat): seq<Note>
    requires i < |pers| && j < |pers|
  {
    if pers[i].t != pers[j].t then [Naming(j, i), Naming(i, j)] else []
  }

  // The outer loop over the first m rows.
  function Notes(pers: seq<Ipp>, m: nat): seq<Note>
    requires m <= |pers|
  {
    if m == 0 then [] else Notes(pers, m - 1) + ([Ping(m - 1)] + InnerNotes(pers, m - 1, |pers|))
  }

  // --- the notes are exactly the ones the peers need ---

  predicate Opposite(pers: seq<Ipp>, a: nat, b: nat) {
    a < |pers| && b < |pers| && pers[a].t != pers[b].t
  }

  function One(b: bool): nat {
    if b then 1 else 0
  }

  function Occurs(notes: seq<Note>, x: Note): nat {
    multiset(notes)[x]
  }

  lemma OccursConcat(l: seq<Note>, r: seq<Note>, x: Note)
    ensures Occurs(l + r, x) == Occurs(l, x) + Occurs(r, x)
  {
  }

  lemma OccursNone(x: Note)
    ensures Occurs([], x) == 0
  {
  }

  lemma OccursOne(note: Note, x: Note)
    ensures Occurs([note], x) == One(note == x)
  {
  }

  lemma PairCounts(pers: seq<Ipp>, i: nat, j: nat, a: nat, b: nat)
    requires i < |pers| && j < |pers|
    ensures Occurs(Pair(pers, i, j), Naming(a, b))
         == One(Opposite(pers, a, b) && a == j && b == i) + One(Opposite(pers, a, b) && a == i && b == j)
    ensures Occurs(Pair(pers, i, j), Ping(a)) == 0
  {
  }

  lemma {:induction false} InnerCounts(pers: seq<Ipp>, i: nat, n: nat, a: nat, b: nat)
    requires i < |pers| && n <= |pers|
    ensures Occurs(InnerNotes(pers, i, n), Naming(a, b))
         == One(Opposite(pers, a, b) && b == i && a < n) + One(Opposite(pers, a, b) && a == i && b < n)
    ensures Occurs(InnerNotes(pers, i, n), Ping(a)) == 0
  {
    hide Occurs, Pair;
    if n == 0 {
      OccursNone(Naming(a, b));
      OccursNone(Ping(a));
    } else {
      InnerCounts(pers, i, n - 1, a, b);
      PairCounts(pers, i, n - 1, a, b);
      OccursConcat(InnerNotes(pers, i, n - 1), Pair(pers, i, n - 1), Naming(a, b));
      OccursConcat(InnerNotes(pers, i, n - 1), Pair(pers, i, n - 1), Ping(a));
    }
  }

  // Every row is pinged once, and of two rows each is told of the other exactly twice when
  // their types differ and never when they do not.
  lemma {:induction false} NoteCounts(pers: seq<Ipp>, m: nat, a: nat, b: nat)
    requires m <= |pers|
    ensures Occurs(Notes(pers, m), Ping(a)) == One(a < m)
    ensures Occurs(Notes(pers, m), Naming(a, b))
         == One(Opposite(pers, a, b) && b < m) + One(Opposite(pers, a, b) && a < m)
  {
    hide Occurs, InnerNotes;
    if m == 0 {
      OccursNone(Naming(a, b));
      OccursNone(Ping(a));
    } else {
      var before, ping, inner := Notes(pers, m - 1), [Ping(m - 1)], InnerNotes(pers, m - 1, |pers|);
      OccursOne(Ping(m - 1), Ping(a));
      OccursOne(Ping(m - 1), Naming(a, b));
      NoteCounts(pers, m - 1, a, b);
      InnerCounts(pers, m - 1, |pers|, a, b);
      OccursConcat(ping, inner, Ping(a));
      OccursConcat(ping, inner, Naming(a, b));
      OccursConcat(before, ping + inner, Ping(a));
      OccursConcat(before, ping + inner, Naming(a, b));
    }
  }

  // Rows of one type among the first m.
  function OfType(pers: seq<Ipp>, t: int, m: nat): nat
    requires m <= |pers|
  {
    if m == 0 then 0 else OfType(pers, t, m - 1) + One(pers[m - 1].t == t)
  }

  ghost predicate TwoTypes(pers: seq<Ipp>) {
    forall e :: e in pers ==> e.t == 0 || e.t == 1
  }

  lemma {:induction false} InnerLength(pers: seq<Ipp>, i: nat, n: nat)
    requires i < |pers| && n <= |pers| && TwoTypes(pers)
    ensures |InnerNotes(pers, i, n)| == 2 * OfType(pers, 1 - pers[i].t, n)
  {
    if n == 0 {
    } else {
      assert pers[i] in pers && pers[n - 1] in pers;
      InnerLength(pers, i, n - 1);
    }
  }

  // Four capsules for every opposite pair with one row among the first m, counted from both sides.
  lemma {:induction false} NotesLength(pers: seq<Ipp>, m: nat, p: nat, c: nat)
    requires m <= |pers| && TwoTypes(pers)
    requires p == OfType(pers, 1, |pers|) && c == OfType(pers, 0, |pers|)
    ensures |Notes(pers, m)| == m + 2 * (OfType(pers, 1, m) * c) + 2 * (OfType(pers, 0, m) * p)
  {
    hide InnerNotes;
    if m == 0 {
      assert OfType(pers, 1, 0) == OfType(pers, 0, 0) == 0;
    } else {
      assert pers[m - 1] in pers;
      NotesLength(pers, m - 1, p, c);
      InnerLength(pers, m - 1, |pers|);
      var p', c' := OfType(pers, 1, m - 1), OfType(pers, 0, m - 1);
      assert |Notes(pers, m)| == |Notes(pers, m - 1)| + 1 + |InnerNotes(pers, m - 1, |pers|)|;
      if pers[m - 1].t == 1 {
        Successor(p', c);
      } else {
        Successor(c', p);
      }
    }
  }

  lemma Successor(x: nat, y: nat)
    ensures (x + 1) * y == x * y + y
  {
  }

  lemma {:induction false} TypesPartition(pers: seq<Ipp>, m: nat)
    requires m <= |pers| && TwoTypes(pers)
    ensures OfType(pers, 1, m) + OfType(pers, 0, m) == m
  {
    if m == 0 {
    } else {
      assert pers[m - 1] in pers;
      TypesPartition(pers, m - 1);
    }
  }

  // With P providers and C consumers: P+C pings and 4*P*C capsules naming a peer.
  lemma {:induction false} AnnouncementSize(pers: seq<Ipp>)
    requires TwoTypes(pers)
    ensures var p, c := OfType(pers, 1, |pers|), OfType(pers, 0, |pers|);
            |pers| == p + c && |Notes(pers, |pers|)| == p + c + 4 * (p * c)
  {
    hide Notes, OfType;
    var p, c := OfType(pers, 1, |pers|), OfType(pers, 0, |pers|);
    NotesLength(pers, |pers|, p, c);
    TypesPartition(pers, |pers|);
    assert c * p == p * c;
  }

  // The order, for two rows of opposite types: each is pinged, and in its own turn it is the other
  // one that is told first.
  lemma OrderOfTwo(x: Ipp, y: Ipp)
    requires x.t != y.t
    ensures Notes([x, y], 2) == [Ping(0), Naming(1, 0), Naming(0, 1), Ping(1), Naming(0, 1), Naming(1, 0)]
  {
    var pers := [x, y];
    assert InnerNotes(pers, 0, 0) == [] && InnerNotes(pers, 1, 0) == [];
    assert InnerNotes(pers, 0, 1) == [] && InnerNotes(pers, 1, 1) == [Naming(0, 1), Naming(1, 0)];
    assert InnerNotes(pers, 0, 2) == [Naming(1, 0), Naming(0, 1)];
    assert InnerNotes(pers, 1, 2) == [Naming(0, 1), Naming(1, 0)];
    assert Notes(pers, 0) == [];
    assert Notes(pers, 1) == [Ping(0), Naming(1, 0), Naming(0, 1)];
  }

  // --- what goes out ---

  ghost predicate InRange(note: Note, n: nat) {
    note.to < n && (note.Naming? ==> note.about < n)
  }

  ghost predicate AllInRange(notes: seq<Note>, n: nat) {
    forall k :: 0 <= k < |notes| ==> InRange(notes[k], n)
  }

  lemma {:induction false} InnerInRange(pers: seq<Ipp>, i: nat, n: nat)
    requires i < |pers| && n <= |pers|
    ensures AllInRange(InnerNotes(pers, i, n), |pers|)
  {
    if n == 0 {
    } else {
      InnerInRange(pers, i, n - 1);
    }
  }

  lemma PingInRange(to: nat, n: nat)
    requires to < n
    ensures AllInRange([Ping(to)], n)
  {
  }

  lemma InRangeConcat(a: seq<Note>, b: seq<Note>, n: nat)
    requires AllInRange(a, n) && AllInRange(b, n)
    ensures AllInRange(a + b, n)
  {
    hide InRange;
  }

  lemma {:induction false} NotesInRange(pers: seq<Ipp>, m: nat)
    requires m <= |pers|
    ensures AllInRange(Notes(pers, m), |pers|)
  {
    hide InRange, InnerNotes;
    if m == 0 {
    } else {
      NotesInRange(pers, m - 1);
      InnerInRange(pers, m - 1, |pers|);
      PingInRange(m - 1, |pers|);
      InRangeConcat([Ping(m - 1)], InnerNotes(pers, m - 1, |pers|), |pers|);
      InRangeConcat(Notes(pers, m - 1), [Ping(m - 1)] + InnerNotes(pers, m - 1, |pers|), |pers|);
    }
  }

  // The capsule of a note, made from the shared capsule of the one before it.
  function Written(pl: SrvCap, pers: seq<Ipp>, note: Note): SrvCap
    requires InRange(note, |pers|)
  {
    match note
    case Ping(_) => WithVerb(pl, SRV_PING)
    case Naming(_, about) => WithPublic(WithVerb(pl, SRV_SET_PEER), pers[about])
  }

  function Addressed(c: SrvCap, e: Ipp): Datagram {
    Datagram(PlaceOf(Destination(e)), Seal(c, e.keys))
  }

  datatype Output = Output(pl: SrvCap, sent: seq<Datagram>)

  function Rendered(pl: SrvCap, pers: seq<Ipp>, notes: seq<Note>): Output
    requires AllInRange(notes, |pers|)
  {
    if notes == [] then Output(pl, [])
    else
      var last := notes[|notes| - 1];
      var o := Rendered(pl, pers, notes[..|notes| - 1]);
      var c := Written(o.pl, pers, last);
      Output(c, o.sent + [Addressed(c, pers[last.to])])
  }

  // A capsule carries the address and the keys of e; the type in it is whatever it was.
  predicate Carries(c: SrvCap, e: Ipp) {
    Public(c) == Assign(Public(c), e)
  }

  // What the receiver of the k-th datagram finds in it.
  ghost predicate Tells(d: Datagram, pers: seq<Ipp>, note: Note)
    requires InRange(note, |pers|)
  {
    var e := pers[note.to];
    exists c: SrvCap :: d == Addressed(c, e)
      && Verb(c) == (if note.Ping? then SRV_PING else SRV_SET_PEER)
      && (note.Naming? ==> Carries(c, pers[note.about]))
  }

  // The k-th datagram goes to the k-th note's row, enciphered under that row's keys, and
  // a SRV_SET_PEER carries the named row's address and keys.
  lemma {:induction false} RenderedTells(pl: SrvCap, pers: seq<Ipp>, notes: seq<Note>, k: nat)
    requires AllInRange(notes, |pers|) && k < |notes|
    ensures |Rendered(pl, pers, notes).sent| == |notes|
    ensures Tells(Rendered(pl, pers, notes).sent[k], pers, notes[k])
  {
    hide Seal, Public, WithPublic, Destination;
    var front := notes[..|notes| - 1];
    var last := notes[|notes| - 1];
    var o := Rendered(pl, pers, front);
    RenderedLength(pl, pers, front);
    if k < |front| {
      RenderedTells(pl, pers, front, k);
    } else {
      var c := Written(o.pl, pers, last);
      if last.Naming? {
        PublicRoundTrip(WithVerb(o.pl, SRV_SET_PEER), pers[last.about]);
      }
      assert Rendered(pl, pers, notes).sent[k] == Addressed(c, pers[last.to]);
    }
  }

  lemma {:induction false} RenderedLength(pl: SrvCap, pers: seq<Ipp>, notes: seq<Note>)
    requires AllInRange(notes, |pers|)
    ensures |Rendered(pl, pers, notes).sent| == |notes|
  {
    if notes == [] {
    } else {
      RenderedLength(pl, pers, notes[..|notes| - 1]);
    }
  }

  lemma {:induction false} RenderedMore(pl: SrvCap, pers: seq<Ipp>, notes: seq<Note>, note: Note)
    requires AllInRange(notes, |pers|) && InRange(note, |pers|)
    ensures AllInRange(notes + [note], |pers|)
    ensures var o := Rendered(pl, pers, notes);
            var c := Written(o.pl, pers, note);
            Rendered(pl, pers, notes + [note]) == Output(c, o.sent + [Addressed(c, pers[note.to])])
  {
    hide Written, Addressed;
    assert (notes + [note])[..|notes|] == notes;
  }

  // _ping_pers as a whole. The verb of the shared capsule ends as SRV_SET_PEER even when the
  // last row was told of nobody.
  function Announced(pl: SrvCap, pers: seq<Ipp>): Output {
    NotesInRange(pers, |pers|);
    var o := Rendered(pl, pers, Notes(pers, |pers|));
    if pers == [] then o else o.(pl := WithVerb(o.pl, SRV_SET_PEER))
  }

  // The bytes of the shared capsule that no note writes: all but the verb, the address and port of
  // the endpoint and its keys.
  ghost predicate SameElsewhere(c: SrvCap, d: SrvCap) {
    forall k :: 0 < k < 16 || 22 <= k < 28 || 44 <= k < 112 ==> c[k] == d[k]
  }

  lemma WrittenElsewhere(pl: SrvCap, pers: seq<Ipp>, note: Note)
    requires InRange(note, |pers|)
    ensures SameElsewhere(Written(pl, pers, note), pl)
  {
    match note
    case Ping(_) =>
    case Naming(_, about) =>
      PublicLayout(WithVerb(pl, SRV_SET_PEER), pers[about]);
      hide WithPublic;
  }

  // They go out in every datagram as the announcement found them, and stay in the shared capsule.
  lemma {:induction false} RenderedElsewhere(pl: SrvCap, pers: seq<Ipp>, notes: seq<Note>)
    requires AllInRange(notes, |pers|)
    ensures SameElsewhere(Rendered(pl, pers, notes).pl, pl)
    ensures forall d :: d in Rendered(pl, pers, notes).sent ==> CarriesElsewhere(d, pl)
  {
    hide Written, SameElsewhere, CarriesElsewhere;
    if notes == [] {
      SameAsItself(pl);
    } else {
      var front, last := notes[..|notes| - 1], notes[|notes| - 1];
      RenderedElsewhere(pl, pers, front);
      var o := Rendered(pl, pers, front);
      WrittenElsewhere(o.pl, pers, last);
      SentElsewhere(Written(o.pl, pers, last), o.pl, pl, pers[last.to]);
    }
  }

  lemma AnnouncedElsewhere(pl: SrvCap, pers: seq<Ipp>)
    ensures var o := Announced(pl, pers);
            && SameElsewhere(o.pl, pl) && (if pers == [] then o == Output(pl, []) else Verb(o.pl) == 3)
            && forall d :: d in o.sent ==> CarriesElsewhere(d, pl)
  {
    NotesInRange(pers, |pers|);
    RenderedElsewhere(pl, pers, Notes(pers, |pers|));
    hide Rendered, InRange, CarriesElsewhere;
    if pers == [] {
      RenderedNothing(pl, pers);
    }
    hide Notes;
  }

  lemma {:induction false} RenderedNothing(pl: SrvCap, pers: seq<Ipp>)
    ensures AllInRange([], |pers|) && Rendered(pl, pers, []) == Output(pl, [])
  {
  }

  // What the addressee finds.
  ghost predicate CarriesElsewhere(d: Datagram, pl: SrvCap) {
    exists c: SrvCap, e: Ipp :: d == Addressed(c, e) && SameElsewhere(c, pl)
  }

  lemma SameAsItself(pl: SrvCap)
    ensures SameElsewhere(pl, pl)
  {
  }

  lemma SentElsewhere(c: SrvCap, before: SrvCap, pl: SrvCap, e: Ipp)
    requires SameElsewhere(c, before) && SameElsewhere(before, pl)
    ensures SameElsewhere(c, pl) && CarriesElsewhere(Addressed(c, e), pl)
  {
    hide Seal;
  }

  // --- the loop, step by step ---

  // After sending the notes the log has grown by their datagrams and the shared capsule is
  // the last one's, or that with the verb already set for the inner loop.
  ghost predicate Shown(base: SrvCap, pers: seq<Ipp>, notes: seq<Note>, start: seq<Datagram>, pl: SrvCap,
      log: seq<Datagram>) {
    && AllInRange(notes, |pers|)
    && var o := Rendered(base, pers, notes);
    && log == start + o.sent
    && (pl == o.pl || pl == WithVerb(o.pl, SRV_SET_PEER))
  }

  lemma ShownMore(base: SrvCap, pers: seq<Ipp>, notes: seq<Note>, start: seq<Datagram>, pl: SrvCap, log: seq<Datagram>,
                  note: Note)
    requires InRange(note, |pers|) && Shown(base, pers, notes, start, pl, log)
    ensures var c := Written(pl, pers, note);
            Shown(base, pers, notes + [note], start, c, log + [Addressed(c, pers[note.to])])
  {
    hide WithPublic, Addressed, Rendered;
    var o := Rendered(base, pers, notes);
    RenderedMore(base, pers, notes, note);
    assert WithVerb(WithVerb(o.pl, SRV_SET_PEER), SRV_SET_PEER) == WithVerb(o.pl, SRV_SET_PEER);
    assert WithVerb(WithVerb(o.pl, SRV_SET_PEER), SRV_PING) == WithVerb(o.pl, SRV_PING);
    var d := [Addressed(Written(o.pl, pers, note), pers[note.to])];
    assert start + o.sent + d == start + (o.sent + d);
  }

  lemma ShownMarked(base: SrvCap, pers: seq<Ipp>, notes: seq<Note>, start: seq<Datagram>, pl: SrvCap,
        log: seq<Datagram>)
    requires Shown(base, pers, notes, start, pl, log)
    ensures Shown(base, pers, notes, start, WithVerb(pl, SRV_SET_PEER), log)
  {
    var o := Rendered(base, pers, notes);
    hide Rendered, InRange;
    assert WithVerb(WithVerb(o.pl, SRV_SET_PEER), SRV_SET_PEER) == WithVerb(o.pl, SRV_SET_PEER);
    var q := WithVerb(pl, SRV_SET_PEER);
    assert q == o.pl || q == WithVerb(o.pl, SRV_SET_PEER);
  }

  lemma NotesNext(pers: seq<Ipp>, n: nat)
    requires n < |pers|
    ensures Notes(pers, n) + [Ping(n)] + InnerNotes(pers, n, |pers|) == Notes(pers, n + 1)
  {
    hide InnerNotes;
  }

  lemma {:induction false} ShownNothing(base: SrvCap, pers: seq<Ipp>, start: seq<Datagram>)
    ensures Notes(pers, 0) == [] && Shown(base, pers, [], start, base, start)
  {
  }

  lemma {:induction false} NoNotes(pers: seq<Ipp>)
    ensures Notes(pers, 0) == []
  {
  }

  lemma {:induction false} ShownAll(base: SrvCap, pers: seq<Ipp>, start: seq<Datagram>, pl: SrvCap, log: seq<Datagram>)
    requires Shown(base, pers, Notes(pers, |pers|), start, pl, log)
    requires if pers == [] then pl == base else Verb(pl) == SRV_SET_PEER
    ensures pl == Announced(base, pers).pl && log == start + Announced(base, pers).sent
  {
    hide Notes, InRange;
    if pers != [] {
      var o := Rendered(base, pers, Notes(pers, |pers|));
      hide Rendered;
      assert WithVerb(pl, SRV_SET_PEER) == pl;
    } else {
      NoNotes(pers);
    }
  }

  lemma WrittenNaming(pl: SrvCap, pers: seq<Ipp>, note: Note)
    requires note.Naming? && InRange(note, |pers|) && Verb(pl) == SRV_SET_PEER
    ensures Written(pl, pers, note) == WithPublic(pl, pers[note.about])
    ensures Verb(Written(pl, pers, note)) == SRV_SET_PEER
  {
    hide Public, WithPublic;
    assert WithVerb(pl, SRV_SET_PEER) == pl;
    PublicRoundTrip(pl, pers[note.about]);
  }
}
