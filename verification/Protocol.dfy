// The whole system: one server and any number of peers on a network that loses, duplicates and
// reorders datagrams (a_peer.cpp with u_server.cpp), down to the bytes on the wire.
module Protocol {
  import opened Words
  import opened Cipher
  import opened Address
  import opened Capsule
  import opened Access
  import opened Tables
  import opened Database
  import opened Announce
  import opened Udp
  import Sends = PeerSends
  import P = PeerModel
  import S = ServerModel

  // The peers by their addresses, the server's address, the secret compiled into every peer,
  // the server's list of secrets and its row hash.
  datatype Config = Config(peers: map<Place, P.Config>, srv: Place, meikey: seq<byte>, mids: seq<Mid>, h: S.Hasher)

  // Every peer can be told from the server and registers under the secret they share.
  ghost predicate Sane(cfg: Config) {
    cfg.srv.port != 0 && FullSecret(cfg.meikey) && forall a :: a in cfg.peers ==> SanePeer(cfg, a)
  }

  // A peer uses neither the server's port nor port 0, which `==` on received addresses takes
  // for the server.
  ghost predicate SanePeer(cfg: Config, a: Place)
    requires a in cfg.peers
  {
    && a.port != 0 && a.port != cfg.srv.port
    && P.Usable(cfg.peers[a]) && cfg.peers[a].meikey == cfg.meikey && cfg.peers[a].srv == cfg.srv
    && exists n :: Lists(cfg, n, a)
  }

  // The server lists the secret in a row that peer a may use, and no earlier row takes the
  // registration of a for its own.
  ghost predicate Lists(cfg: Config, n: nat, a: Place)
    requires a in cfg.peers && P.Usable(cfg.peers[a])
  {
    && n < |cfg.mids| && cfg.mids[n].mid == cfg.meikey && Visible(cfg.mids[n], S.Ip4(a))
    && forall keys: Key :: AcceptsNone(cfg.mids, n, Seal(P.Registration(cfg.peers[a]), TheKey(cfg)), S.Ip4(a), keys)
  }

  // __key of every peer.
  function TheKey(cfg: Config): Key {
    ClientKeys(cfg.meikey)
  }

  // The first row the server creates in `mid` holds the secret of the peers, for any address.
  // Then the condition on the server's rows is met for every peer.
  lemma FirstRowListsAll(cfg: Config, a: Place)
    requires a in cfg.peers && P.Usable(cfg.peers[a])
    requires cfg.mids != [] && cfg.mids[0] == Mid(cfg.meikey, 0)
    ensures exists n :: Lists(cfg, n, a)
  {
    hide Accepts, Seal, P.Registration, ClientKeys;
    assert Lists(cfg, 0, a);
  }

  // K of the row a registration of peer a makes.
  function KOf(cfg: Config, a: Place): int
    requires a in cfg.peers
  {
    cfg.h(Swap32(a.addr), Swap16(a.port), cfg.peers[a].id, TheKey(cfg))
  }

  // A datagram on the network. Sources are truthful: they are where it was sent from.
  datatype Sent = Sent(src: Place, dst: Place, bytes: seq<byte>)

  // The log holds everything ever sent, in order; any part of it may arrive, at any time,
  // any number of times.
  datatype World = World(peers: map<Place, P.State>, server: S.State, log: seq<Sent>)

  datatype Step = PeerTurn(a: Place, i: P.Input) | ServerTurn(j: S.Input)

  function Stamped(src: Place, out: seq<Datagram>): (r: seq<Sent>)
    ensures |r| == |out|
  {
    seq(|out|, n requires 0 <= n < |out| => Sent(src, out[n].dst, out[n].bytes))
  }

  ghost predicate Arrives(log: seq<Sent>, dst: Place, src: Place, bytes: seq<byte>) {
    Sent(src, dst, bytes) in log
  }

  // What users type is sent in clear, and a peer reads anything as long as a capsule as one. A
  // line must not happen to decipher to a ping or a pong.
  predicate Harmless(cfg: Config, bytes: seq<byte>) {
    |bytes| < SIZE
    || (Verb(Open(bytes[..SIZE], TheKey(cfg))) != PER_PING && Verb(Open(bytes[..SIZE], TheKey(cfg))) != PER_PONG)
  }

  ghost predicate Allowed(cfg: Config, w: World, step: Step) {
    match step
    case PeerTurn(a, i) =>
      && a in cfg.peers && a in w.peers
      && (i.rx.Some? ==> Arrives(w.log, a, i.rx.value.src, i.rx.value.bytes))
      && (i.chat.Some? ==> Harmless(cfg, i.chat.value))
    case ServerTurn(i) => i.rx.Some? ==> Arrives(w.log, cfg.srv, i.rx.value.src, i.rx.value.bytes)
  }

  function Next(cfg: Config, w: World, step: Step): World {
    match step
    case PeerTurn(a, i) =>
      if a in cfg.peers && a in w.peers && |cfg.peers[a].meikey| < TYP - UNION && |cfg.peers[a].id| < ID_END - ID then
        var e := P.Turn(cfg.peers[a], w.peers[a], i);
        w.(peers := w.peers[a := e.st], log := w.log + Stamped(a, e.sent))
      else w
    case ServerTurn(i) =>
      var e := S.Turn(cfg.h, w.server, i);
      w.(server := e.st, log := w.log + Stamped(cfg.srv, e.sent))
  }

  function Start(cfg: Config, now: int, keys: Key): World {
    World(map a | a in cfg.peers :: P.Start(now), S.Start(cfg.mids, keys), [])
  }

  function Run(cfg: Config, w: World, steps: seq<Step>): World {
    if steps == [] then w else Next(cfg, Run(cfg, w, steps[..|steps| - 1]), steps[|steps| - 1])
  }

  ghost predicate AllowedRun(cfg: Config, w: World, steps: seq<Step>) {
    forall n :: 0 <= n < |steps| ==> Allowed(cfg, Run(cfg, w, steps[..n]), steps[n])
  }

  // --- the datagrams that matter, as their receivers understand them ---

  ghost predicate IsRegister(cfg: Config, p: Sent, a: Place) {
    && a in cfg.peers && P.Usable(cfg.peers[a])
    && p == Sent(a, cfg.srv, Seal(P.Registration(cfg.peers[a]), TheKey(cfg)))
  }

  // The verb a peer finds in the first capsule.
  ghost predicate Says(cfg: Config, p: Sent, verb: byte) {
    |p.bytes| >= SIZE && Verb(Open(p.bytes[..SIZE], TheKey(cfg))) == verb
  }

  // A SRV_SET_PEER to a that names b, with the key of all peers.
  ghost predicate IsSetPeer(cfg: Config, p: Sent, a: Place, b: Place) {
    && p.src == cfg.srv && p.dst == a && |p.bytes| == SIZE && Says(cfg, p, SRV_SET_PEER)
    && var e := Public(Open(p.bytes, TheKey(cfg)));
    PlaceOf(Destination(e)) == b && e.keys == TheKey(cfg)
  }

  ghost predicate IsPing(cfg: Config, p: Sent, a: Place, b: Place) {
    p.src == a && p.dst == b && Says(cfg, p, PER_PING)
  }

  ghost predicate IsPong(cfg: Config, p: Sent, a: Place, b: Place) {
    p.src == a && p.dst == b && Says(cfg, p, PER_PONG)
  }

  ghost predicate Registered(cfg: Config, log: seq<Sent>, a: Place) {
    exists k :: 0 <= k < |log| && IsRegister(cfg, log[k], a)
  }

  ghost predicate Introduced(cfg: Config, log: seq<Sent>, a: Place, b: Place) {
    exists k :: 0 <= k < |log| && IsSetPeer(cfg, log[k], a, b)
  }

  ghost predicate Pinged(cfg: Config, log: seq<Sent>, a: Place, b: Place) {
    exists k :: 0 <= k < |log| && IsPing(cfg, log[k], a, b)
  }

  ghost predicate Ponged(cfg: Config, log: seq<Sent>, a: Place, b: Place) {
    exists k :: 0 <= k < |log| && IsPong(cfg, log[k], a, b)
  }

  // Two peers of opposite types, whose rows fit into the table side by side.
  ghost predicate Opposed(cfg: Config, a: Place, b: Place) {
    && a in cfg.peers && b in cfg.peers
    && P.TypeOf(cfg.peers[a]) != P.TypeOf(cfg.peers[b]) && KOf(cfg, a) != KOf(cfg, b)
  }

  // --- why a datagram may be sent, given everything sent before it ---

  ghost predicate FromServerOk(cfg: Config, before: seq<Sent>, p: Sent) {
    && p.src == cfg.srv && p.dst in cfg.peers && |p.bytes| == SIZE
    && (Says(cfg, p, SRV_SET_PEER) ==>
          exists b :: IsSetPeer(cfg, p, p.dst, b) && Opposed(cfg, p.dst, b)
                   && Registered(cfg, before, p.dst) && Registered(cfg, before, b))
  }

  ghost predicate FromPeerOk(cfg: Config, before: seq<Sent>, p: Sent) {
    && p.src in cfg.peers
    && (IsRegister(cfg, p, p.src)
        || (&& p.dst in cfg.peers
            && (Says(cfg, p, PER_PING) ==> Introduced(cfg, before, p.src, p.dst))
            && (Says(cfg, p, PER_PONG) ==> Pinged(cfg, before, p.dst, p.src))))
  }

  ghost predicate Justified(cfg: Config, before: seq<Sent>, p: Sent) {
    FromServerOk(cfg, before, p) || FromPeerOk(cfg, before, p)
  }

  ghost predicate LogOk(cfg: Config, log: seq<Sent>) {
    forall k :: 0 <= k < |log| ==> Justified(cfg, log[..k], log[k])
  }

  // A row stands for a peer that registered, with its type and key.
  ghost predicate RowOk(cfg: Config, log: seq<Sent>, row: Pers) {
    exists a :: RowOf(cfg, row, a) && Registered(cfg, log, a)
  }

  predicate RowOf(cfg: Config, row: Pers, a: Place) {
    && a in cfg.peers
    && row.pa == Swap32(a.addr) && row.pp == Swap16(a.port)
    && row.t == P.TypeOf(cfg.peers[a]) as int && row.mk == TheKey(cfg) && row.k == KOf(cfg, a)
  }

  ghost predicate RowsOk(cfg: Config, log: seq<Sent>, rows: seq<Pers>) {
    forall row :: row in rows ==> RowOk(cfg, log, row)
  }

  ghost predicate LinksOk(cfg: Config, log: seq<Sent>, a: Place, pers: seq<Saddr>) {
    forall x :: x in pers ==> PlaceOf(x) in cfg.peers && Ponged(cfg, log, PlaceOf(x), a)
  }

  ghost predicate Inv(cfg: Config, w: World) {
    && w.peers.Keys == cfg.peers.Keys
    && LogOk(cfg, w.log)
    && w.server.db.mids == cfg.mids && RowsOk(cfg, w.log, w.server.db.pers.rows) && Keyed(w.server.db.pers)
    && (forall a :: a in w.peers ==> LinksOk(cfg, w.log, a, w.peers[a].pers))
  }

  // --- the log only grows ---

  lemma Grows(cfg: Config, log: seq<Sent>, more: seq<Sent>)
    requires log <= more
    ensures forall a :: Registered(cfg, log, a) ==> Registered(cfg, more, a)
    ensures forall a, b :: Introduced(cfg, log, a, b) ==> Introduced(cfg, more, a, b)
    ensures forall a, b :: Pinged(cfg, log, a, b) ==> Pinged(cfg, more, a, b)
    ensures forall a, b :: Ponged(cfg, log, a, b) ==> Ponged(cfg, more, a, b)
  {
    hide IsRegister, IsSetPeer, IsPing, IsPong;
    assert forall k :: 0 <= k < |log| ==> log[k] == more[k];
  }

  lemma JustifiedGrows(cfg: Config, log: seq<Sent>, more: seq<Sent>, p: Sent)
    requires log <= more && Justified(cfg, log, p)
    ensures Justified(cfg, more, p)
  {
    hide Registered, Introduced, Pinged, Ponged, IsRegister, IsSetPeer, Says;
    Grows(cfg, log, more);
  }

  ghost predicate SentOk(cfg: Config, log: seq<Sent>, src: Place, out: seq<Datagram>) {
    forall n :: 0 <= n < |out| ==> Justified(cfg, log, Sent(src, out[n].dst, out[n].bytes))
  }

  lemma SentConcat(cfg: Config, log: seq<Sent>, src: Place, out: seq<Datagram>, more: seq<Datagram>)
    requires SentOk(cfg, log, src, out) && SentOk(cfg, log, src, more)
    ensures SentOk(cfg, log, src, out + more)
  {
    hide Justified;
  }

  lemma LogGrows(cfg: Config, log: seq<Sent>, src: Place, out: seq<Datagram>)
    requires LogOk(cfg, log) && SentOk(cfg, log, src, out)
    ensures LogOk(cfg, log + Stamped(src, out))
  {
    hide Justified;
    var more := log + Stamped(src, out);
    forall k | 0 <= k < |more| ensures Justified(cfg, more[..k], more[k]) {
      if k < |log| {
        assert more[..k] == log[..k];
      } else {
        JustifiedGrows(cfg, log, more[..k], more[k]);
      }
    }
  }

  // --- a turn of a peer ---

  // Received addresses are compared by port alone.
  lemma ServerByPort(cfg: P.Config, src: Place)
    ensures P.FromServer(cfg, src) <==> src.port == 0 || cfg.srv.port == 0 || src.port == cfg.srv.port
  {
    AndZero(0xFFFF_FFFF);
    AndCommutes(0, 0xFFFF_FFFF);
    AndZero(src.addr);
    AndZero(cfg.srv.addr);
    hide And;
  }

  // What peer a makes of a capsule of the server.
  lemma CapsuleJustified(cfg: Config, log: seq<Sent>, a: Place, bytes: SrvCap, st: P.State, now: int, clock: int)
    requires Sane(cfg) && a in cfg.peers && Arrives(log, a, cfg.srv, bytes)
    requires FromServerOk(cfg, log, Sent(cfg.srv, a, bytes))
    ensures SentOk(cfg, log, a, P.SrvProcess(st, Open(bytes, TheKey(cfg)), now, clock).sent)
  {
    hide Open, Seal, TheKey, Public, Registered, Destination, IsRegister;
    var p := Sent(cfg.srv, a, bytes);
    var c := Open(bytes, TheKey(cfg));
    assert bytes[..SIZE] == bytes;
    if Verb(c) == SRV_SET_PEER {
      var b :| IsSetPeer(cfg, p, a, b) && Opposed(cfg, a, b);
      WithVerbKeepsPublic(c, PER_PING);
      var ping := WithVerb(c, PER_PING);
      OpenUndoesSeal(ping, TheKey(cfg));
      assert P.Peering(c) == Datagram(b, Seal(ping, TheKey(cfg)));
      assert Introduced(cfg, log, a, b);
      var q := Sent(a, b, Seal(ping, TheKey(cfg)));
      assert q.bytes[..SIZE] == q.bytes;
      assert Justified(cfg, log, q);
    }
  }

  // Where a datagram to peer a can come from.
  lemma ToPeer(cfg: Config, log: seq<Sent>, p: Sent)
    requires Sane(cfg) && LogOk(cfg, log) && p in log && p.dst in cfg.peers
    ensures P.FromServer(cfg.peers[p.dst], p.src) <==> p.src == cfg.srv
    ensures p.src == cfg.srv ==> FromServerOk(cfg, log, p)
    ensures p.src != cfg.srv ==> p.src in cfg.peers
  {
    hide Says, IsSetPeer, Registered, Introduced, Pinged, P.FromServer, TheKey, Lists;
    var k :| 0 <= k < |log| && log[k] == p;
    assert Justified(cfg, log[..k], p);
    JustifiedGrows(cfg, log[..k], log, p);
    ServerByPort(cfg.peers[p.dst], p.src);
    assert SanePeer(cfg, p.dst) && cfg.srv !in cfg.peers;
  }

  lemma PongJustified(cfg: Config, log: seq<Sent>, a: Place, src: Place, bytes: seq<byte>)
    requires a in cfg.peers && src in cfg.peers && Arrives(log, a, src, bytes)
    requires |bytes| >= SIZE && Verb(Open(bytes[..SIZE], TheKey(cfg))) == PER_PING
    ensures var pong := WithVerb(Open(bytes[..SIZE], TheKey(cfg)), PER_PONG);
            SentOk(cfg, log, a, [Datagram(src, Seal(pong, TheKey(cfg)))])
  {
    hide Open, Seal, TheKey, IsRegister;
    var k :| 0 <= k < |log| && log[k] == Sent(src, a, bytes);
    assert IsPing(cfg, log[k], src, a);
    var pong := WithVerb(Open(bytes[..SIZE], TheKey(cfg)), PER_PONG);
    OpenUndoesSeal(pong, TheKey(cfg));
    var q := Sent(a, src, Seal(pong, TheKey(cfg)));
    assert q.bytes[..SIZE] == q.bytes;
    assert Justified(cfg, log, q);
  }

  lemma {:induction false} LinkJustified(cfg: Config, log: seq<Sent>, a: Place, src: Place, bytes: seq<byte>,
        pers: seq<Saddr>)
    requires src in cfg.peers && Arrives(log, a, src, bytes) && LinksOk(cfg, log, a, pers)
    requires |bytes| >= SIZE && Verb(Open(bytes[..SIZE], TheKey(cfg))) == PER_PONG
    ensures LinksOk(cfg, log, a, Insert(pers, Remote(src)))
  {
    hide Open, TheKey, Insert;
    var k :| 0 <= k < |log| && log[k] == Sent(src, a, bytes);
    assert IsPong(cfg, log[k], src, a);
    assert Ponged(cfg, log, src, a);
    hide Ponged;
    forall x | x in Insert(pers, Remote(src)) ensures PlaceOf(x) in cfg.peers && Ponged(cfg, log, PlaceOf(x), a) {
      InsertElements(pers, Remote(src), x);
    }
  }

  // _per_process: a ping is answered, a pong makes a link.
  lemma AnswerJustified(cfg: Config, log: seq<Sent>, a: Place, src: Place, bytes: seq<byte>, st: P.State, now: int)
    requires a in cfg.peers && src in cfg.peers && Arrives(log, a, src, bytes)
    requires P.KeyOf(cfg.peers[a]) == TheKey(cfg)
    requires |P.Fitted(bytes)| >= SIZE && LinksOk(cfg, log, a, st.pers)
    ensures var e := P.PerProcess(cfg.peers[a], st, src, P.Fitted(bytes), now);
            SentOk(cfg, log, a, e.sent) && LinksOk(cfg, log, a, e.st.pers)
  {
    hide Open, Seal, TheKey, Insert, LinksOk, SentOk, P.KeyOf, Arrives;
    NothingSent(cfg, log, a);
    assert P.Fitted(bytes)[..SIZE] == bytes[..SIZE];
    var c := Open(bytes[..SIZE], TheKey(cfg));
    if Verb(c) == PER_PING {
      PongJustified(cfg, log, a, src, bytes);
    } else if Verb(c) == PER_PONG {
      LinkJustified(cfg, log, a, src, bytes, st.pers);
    }
  }

  lemma {:induction false} ChatJustified(cfg: Config, log: seq<Sent>, a: Place, pers: seq<Saddr>, n: nat,
        message: seq<byte>)
    requires a in cfg.peers && LinksOk(cfg, log, a, pers) && Harmless(cfg, message) && n <= |pers|
    ensures SentOk(cfg, log, a, P.Chatted(pers, n, message))
  {
    hide Open, TheKey, IsRegister, Ponged;
    if n == 0 {
    } else {
      ChatJustified(cfg, log, a, pers, n - 1, message);
      assert pers[n - 1] in pers;
      var q := Sent(a, PlaceOf(pers[n - 1]), message);
      assert Justified(cfg, log, q);
    }
  }

  lemma RegistrationJustified(cfg: Config, log: seq<Sent>, a: Place, st: P.State, now: int, sendOk: bool)
    requires Sane(cfg) && a in cfg.peers
    ensures var e := P.Registered(cfg.peers[a], st, now, sendOk);
            SentOk(cfg, log, a, e.sent) && e.st.pers == st.pers
  {
    hide Seal, P.Registration, ClientKeys, Lists;
    assert SanePeer(cfg, a);
    assert IsRegister(cfg, Sent(a, cfg.srv, Seal(P.Registration(cfg.peers[a]), TheKey(cfg))), a);
  }

  // _rec_udp with something that was sent to a.
  lemma ReceivedJustified(cfg: Config, log: seq<Sent>, a: Place, rx: Packet, st: P.State, now: int, clock: int)
    requires Sane(cfg) && LogOk(cfg, log) && a in cfg.peers && Arrives(log, a, rx.src, rx.bytes)
    requires LinksOk(cfg, log, a, st.pers)
    ensures var e := P.Received(cfg.peers[a], st, rx, now, clock);
            SentOk(cfg, log, a, e.sent) && LinksOk(cfg, log, a, e.st.pers)
  {
    hide LogOk, LinksOk, Says, P.PerProcess, P.SrvProcess, Open, P.FromServer, P.Delivered, SentOk, P.KeyOf, TheKey;
    var p := Sent(rx.src, a, rx.bytes);
    var bytes := P.Fitted(rx.bytes);
    ToPeer(cfg, log, p);
    if |bytes| >= SIZE {
      if rx.src == cfg.srv {
        OneCapsule(cfg, log, a, rx.bytes, st, now, clock);
      } else {
        KeyIsTheKey(cfg, a);
        AnswerJustified(cfg, log, a, rx.src, rx.bytes, st, now);
      }
    } else {
      NothingSent(cfg, log, a);
    }
  }

  lemma NothingSent(cfg: Config, log: seq<Sent>, a: Place)
    ensures SentOk(cfg, log, a, [])
  {
  }

  // A server datagram is one capsule.
  lemma {:induction false} OneCapsule(cfg: Config, log: seq<Sent>, a: Place, bytes: seq<byte>, st: P.State, now: int,
        clock: int)
    requires Sane(cfg) && a in cfg.peers && Arrives(log, a, cfg.srv, bytes)
    requires FromServerOk(cfg, log, Sent(cfg.srv, a, bytes))
    requires LinksOk(cfg, log, a, st.pers)
    ensures P.Fitted(bytes) == bytes && |bytes| == SIZE
    ensures var e := P.Capsules(cfg.peers[a], st, bytes, 1, now, clock);
            SentOk(cfg, log, a, e.sent) && LinksOk(cfg, log, a, e.st.pers)
  {
    hide LinksOk, Says, Open, SentOk, P.KeyOf, TheKey, P.Peering, Lists, Seal;
    assert SanePeer(cfg, a);
    assert P.KeyOf(cfg.peers[a]) == TheKey(cfg) by { KeyIsTheKey(cfg, a); }
    CapsuleJustified(cfg, log, a, bytes, st, now, clock);
    assert bytes[0..SIZE] == bytes;
    var f := P.SrvProcess(st, Open(bytes, TheKey(cfg)), now, clock);
    assert f.st.pers == st.pers;
    assert P.Capsules(cfg.peers[a], st, bytes, 0, now, clock) == P.Effect(st, []);
    assert [] + f.sent == f.sent;
  }

  lemma KeyIsTheKey(cfg: Config, a: Place)
    requires Sane(cfg) && a in cfg.peers
    ensures P.KeyOf(cfg.peers[a]) == TheKey(cfg)
  {
    assert SanePeer(cfg, a);
  }

  lemma PeerTurnJustified(cfg: Config, w: World, a: Place, i: P.Input)
    requires Sane(cfg) && Inv(cfg, w) && Allowed(cfg, w, PeerTurn(a, i))
    ensures P.Usable(cfg.peers[a])
    ensures var e := P.Turn(cfg.peers[a], w.peers[a], i);
            SentOk(cfg, w.log, a, e.sent) && LinksOk(cfg, w.log, a, e.st.pers)
  {
    assert SanePeer(cfg, a);
    hide LogOk, LinksOk, P.Received, SentOk, P.Chatted, P.Registered, RowsOk, Harmless, Lists, TheKey;
    var c, st := cfg.peers[a], w.peers[a];
    var e := P.Registered(c, st, i.now, i.sendOk);
    RegistrationJustified(cfg, w.log, a, st, i.now, i.sendOk);
    NothingSent(cfg, w.log, a);
    if st.running && e.st.running {
      var b := if i.rx.Some? then P.Received(c, e.st, i.rx.value, i.now, i.clock) else P.Effect(e.st, []);
      if i.rx.Some? {
        ReceivedJustified(cfg, w.log, a, i.rx.value, e.st, i.now, i.clock);
      }
      var t := P.Ticked(b.st, i.now);
      if i.chat.Some? {
        ChatJustified(cfg, w.log, a, t.pers, |t.pers|, i.chat.value);
      }
      var said := if t.status == PER_LINKED && i.chat.Some? then P.Chatted(t.pers, |t.pers|, i.chat.value) else [];
      SentConcat(cfg, w.log, a, e.sent, b.sent);
      SentConcat(cfg, w.log, a, e.sent + b.sent, said);
    }
  }

  // --- a turn of the server ---

  // Only registrations are sent to the server.
  lemma ToServer(cfg: Config, log: seq<Sent>, p: Sent)
    requires Sane(cfg) && LogOk(cfg, log) && p in log && p.dst == cfg.srv
    ensures IsRegister(cfg, p, p.src) && Registered(cfg, log, p.src)
  {
    hide Says, IsSetPeer, Introduced, Pinged, TheKey, Lists, IsRegister;
    var k :| 0 <= k < |log| && log[k] == p;
    assert Justified(cfg, log[..k], p);
    assert cfg.srv !in cfg.peers;
  }

  // A capsule with a listed secret is read as the client wrote it, with the client's key.
  lemma CapsuleRead(st: S.State, a: Place, c: SrvCap, n: nat)
    requires n < |st.db.mids| && Visible(st.db.mids[n], S.Ip4(a)) && FullSecret(st.db.mids[n].mid)
    requires Meiot(c) == st.db.mids[n].mid
    requires AcceptsNone(st.db.mids, n, Seal(c, ClientKeys(Meiot(c))), S.Ip4(a), st.keys)
    ensures var key := ClientKeys(Meiot(c));
            S.Asked(st, Packet(a, Seal(c, key))) == (st.(pl := c, keys := key), true)
  {
    hide Seal, Meiot, Authorized, Accepts, ClientKeys, S.Ip4, FullSecret, AcceptsNone;
    ClientAccepted(st.db.mids, n, c, S.Ip4(a), st.keys);
    var wire := Seal(c, ClientKeys(Meiot(c)));
    assert wire[..SIZE] == wire;
  }

  lemma RegistrationRead(cfg: Config, st: S.State, a: Place)
    requires Sane(cfg) && a in cfg.peers && st.db.mids == cfg.mids
    ensures P.Usable(cfg.peers[a])
    ensures var c := P.Registration(cfg.peers[a]);
            Verb(c) == SRV_REGISTER
            && S.Asked(st, Packet(a, Seal(c, TheKey(cfg)))) == (st.(pl := c, keys := TheKey(cfg)), true)
  {
    hide FullSecret, Accepts, Seal, S.Asked, ClientKeys, P.Registration, Meiot, Id;
    assert SanePeer(cfg, a) && FullSecret(cfg.meikey);
    hide Sane;
    var n :| Lists(cfg, n, a);
    P.RegistrationFields(cfg.peers[a]);
    assert AcceptsNone(cfg.mids, n, Seal(P.Registration(cfg.peers[a]), TheKey(cfg)), S.Ip4(a), st.keys);
    CapsuleRead(st, a, P.Registration(cfg.peers[a]), n);
  }

  // A row for peer a under its key.
  lemma NewRowOk(cfg: Config, log: seq<Sent>, a: Place, t: PersTable, name: seq<byte>, now: int, selected: bool)
    requires a in cfg.peers && P.Usable(cfg.peers[a]) && Registered(cfg, log, a)
    ensures var c := P.Registration(cfg.peers[a]);
            RowOk(cfg, log, NewRow(t, name, KOf(cfg, a), S.PubOf(a, c), TheKey(cfg), now, selected))
  {
    P.RegistrationFields(cfg.peers[a]);
    hide P.Registration, TheKey, Registered, LastRef, Swap32, Swap16, KOf;
    var c := P.Registration(cfg.peers[a]);
    assert RowOf(cfg, NewRow(t, name, KOf(cfg, a), S.PubOf(a, c), TheKey(cfg), now, selected), a);
  }

  lemma StoredRows(cfg: Config, log: seq<Sent>, a: Place, t: PersTable, name: seq<byte>, now: int, selected: bool)
    requires a in cfg.peers && P.Usable(cfg.peers[a]) && Registered(cfg, log, a) && RowsOk(cfg, log, t.rows)
    ensures RowsOk(cfg, log,
              Stored(t, name, KOf(cfg, a), S.PubOf(a, P.Registration(cfg.peers[a])), TheKey(cfg), now, selected).rows)
  {
    hide P.Registration, TheKey, Registered, HasK, KOf;
    NewRowOk(cfg, log, a, t, name, now, selected);
    hide NewRow;
    var u := Touched(t.rows, KOf(cfg, a), now);
    forall n | 0 <= n < |u| ensures RowOk(cfg, log, u[n]) {
      assert t.rows[n] in t.rows && RowOk(cfg, log, t.rows[n]);
      var b :| RowOf(cfg, t.rows[n], b) && Registered(cfg, log, b);
      assert RowOf(cfg, u[n], b);
    }
  }

  lemma RegistrationK(cfg: Config, a: Place)
    requires a in cfg.peers && P.Usable(cfg.peers[a])
    ensures S.RowKey(cfg.h, a, P.Registration(cfg.peers[a]), TheKey(cfg)) == KOf(cfg, a)
  {
    hide P.Registration, Swap32, Swap16, TheKey;
    P.RegistrationFields(cfg.peers[a]);
  }

  // _store_peer for a registration that was read.
  lemma StoreJustified(cfg: Config, log: seq<Sent>, a: Place, st: S.State, now: int, selected: bool)
    requires a in cfg.peers && P.Usable(cfg.peers[a]) && Registered(cfg, log, a)
    requires st.pl == P.Registration(cfg.peers[a]) && st.keys == TheKey(cfg)
    requires st.db.mids == cfg.mids && RowsOk(cfg, log, st.db.pers.rows) && Keyed(st.db.pers)
    ensures var e := S.StorePeer(cfg.h, st, a, now, selected);
            && e.st.db.mids == cfg.mids && RowsOk(cfg, log, e.st.db.pers.rows) && Keyed(e.st.db.pers)
            && SentOk(cfg, log, cfg.srv, e.sent)
  {
    hide RowsOk, SentOk, TheKey, P.Registration, S.RowKey, S.PubOf, Stored, Cleared, Seal, Registered, Name, Keyed, KOf,
        HasK;
    var k := S.RowKey(cfg.h, a, st.pl, st.keys);
    RegistrationK(cfg, a);
    StoredRows(cfg, log, a, st.db.pers, Name(st.pl), now, selected);
    StoredKeepsKeyed(st.db.pers, Name(st.pl), k, S.PubOf(a, st.pl), st.keys, now, selected);
    AckVerb(st.pl);
    AckJustified(cfg, log, a, Cleared(WithVerb(st.pl, SRV_REGISTERRED)));
    NothingSent(cfg, log, cfg.srv);
  }

  lemma AckJustified(cfg: Config, log: seq<Sent>, a: Place, c: SrvCap)
    requires a in cfg.peers && Verb(c) == SRV_REGISTERRED
    ensures SentOk(cfg, log, cfg.srv, [Datagram(a, Seal(c, TheKey(cfg)))])
  {
    OpenUndoesSeal(c, TheKey(cfg));
    hide Open, Seal, TheKey, IsSetPeer, Registered;
    var q := Sent(cfg.srv, a, Seal(c, TheKey(cfg)));
    assert q.bytes[..SIZE] == q.bytes;
    assert FromServerOk(cfg, log, q);
  }

  // The answer to a registration is its verb and zeros: nothing of the secret is in it.
  lemma AckOfRegistration(cfg: P.Config)
    requires P.Usable(cfg)
    ensures var ack := Cleared(WithVerb(P.Registration(cfg), SRV_REGISTERRED));
            ack[0] == 2 && forall k :: 0 < k < 112 ==> ack[k] == 0
  {
    P.RegistrationBytes(cfg);
    hide P.Registration;
    ClearedBytes(WithVerb(P.Registration(cfg), SRV_REGISTERRED));
    hide Cleared;
  }

  lemma AckVerb(pl: SrvCap)
    ensures Verb(Cleared(WithVerb(pl, SRV_REGISTERRED))) == SRV_REGISTERRED
  {
  }

  lemma ReceivedRows(cfg: Config, log: seq<Sent>, st: S.State, j: S.Input)
    requires Sane(cfg) && LogOk(cfg, log) && st.db.mids == cfg.mids
    requires RowsOk(cfg, log, st.db.pers.rows) && Keyed(st.db.pers)
    requires j.rx.Some? ==> Arrives(log, cfg.srv, j.rx.value.src, j.rx.value.bytes)
    ensures var e := S.Received(cfg.h, st, j);
            && e.st.db.mids == cfg.mids && RowsOk(cfg, log, e.st.db.pers.rows) && Keyed(e.st.db.pers)
            && SentOk(cfg, log, cfg.srv, e.sent)
  {
    hide LogOk, RowsOk, SentOk, S.Asked, S.StorePeer, Lists, TheKey, P.Registration, FullSecret, Seal, Keyed;
    if j.rx.Some? {
      var rx := j.rx.value;
      ToServer(cfg, log, Sent(rx.src, cfg.srv, rx.bytes));
      RegistrationRead(cfg, st, rx.src);
      StoreJustified(cfg, log, rx.src, S.Asked(st, rx).0, j.now, j.selected);
    } else {
      NothingSent(cfg, log, cfg.srv);
    }
  }

  lemma {:induction false} YoungerRowsOk(cfg: Config, log: seq<Sent>, rows: seq<Pers>, cutoff: int)
    requires RowsOk(cfg, log, rows)
    ensures RowsOk(cfg, log, Younger(rows, cutoff))
  {
    hide RowOk, Younger;
    forall row | row in Younger(rows, cutoff) ensures RowOk(cfg, log, row) {
      YoungerRows(rows, cutoff, row);
    }
  }

  // The address and key _ping_pers takes from the row of peer a.
  lemma RowPlace(cfg: Config, row: Pers, a: Place)
    requires RowOf(cfg, row, a)
    ensures PlaceOf(Destination(Ipp(row.pa, row.pp, row.t, row.mk))) == a
  {
    hide Swap32, Swap16;
    Swap32Involution(a.addr);
    Swap16Involution(a.port);
  }

  // Row `to` is told of row `about` only when they are of peers of opposite types.
  lemma {:induction false} NamingOpposite(pers: seq<Ipp>, to: nat, about: nat)
    requires Naming(to, about) in Notes(pers, |pers|)
    ensures Opposite(pers, to, about)
  {
    hide Notes;
    NoteCounts(pers, |pers|, to, about);
  }

  // A note to the row of a naming the row of b is a SRV_SET_PEER to a naming b.
  lemma NamingIsSetPeer(cfg: Config, rows: seq<Pers>, note: Note, d: Datagram, a: Place, b: Place)
    requires InRange(note, |rows|) && note.Naming? && Tells(d, Listed(rows), note)
    requires RowOf(cfg, rows[note.to], a) && RowOf(cfg, rows[note.about], b)
    ensures IsSetPeer(cfg, Sent(cfg.srv, d.dst, d.bytes), a, b)
  {
    hide Open, Seal, TheKey, Public, Destination;
    RowPlace(cfg, rows[note.to], a);
    RowPlace(cfg, rows[note.about], b);
    var e := Listed(rows)[note.to];
    var c: SrvCap :| d == Addressed(c, e) && Verb(c) == SRV_SET_PEER && Carries(c, Listed(rows)[note.about]);
    OpenUndoesSeal(c, TheKey(cfg));
    assert d.bytes[..SIZE] == d.bytes;
    SameDestination(Public(c), Listed(rows)[note.about]);
  }

  lemma PingIsPing(cfg: Config, rows: seq<Pers>, note: Note, d: Datagram, a: Place)
    requires InRange(note, |rows|) && note.Ping? && Tells(d, Listed(rows), note) && RowOf(cfg, rows[note.to], a)
    ensures d.dst == a && |d.bytes| == SIZE && !Says(cfg, Sent(cfg.srv, d.dst, d.bytes), SRV_SET_PEER)
  {
    hide Open, Seal, TheKey, Destination;
    RowPlace(cfg, rows[note.to], a);
    var e := Listed(rows)[note.to];
    var c: SrvCap :| d == Addressed(c, e) && Verb(c) == SRV_PING;
    OpenUndoesSeal(c, TheKey(cfg));
    assert d.bytes[..SIZE] == d.bytes;
  }

  // One datagram of _ping_pers.
  lemma NoteJustified(cfg: Config, log: seq<Sent>, rows: seq<Pers>, note: Note, d: Datagram)
    requires RowsOk(cfg, log, rows) && InRange(note, |rows|) && Tells(d, Listed(rows), note)
    requires note.Naming? ==> Opposite(Listed(rows), note.to, note.about) && rows[note.to].k != rows[note.about].k
    ensures Justified(cfg, log, Sent(cfg.srv, d.dst, d.bytes))
  {
    hide Open, Seal, TheKey, Registered, Public, IsRegister, Destination, Tells, Says;
    var p := Sent(cfg.srv, d.dst, d.bytes);
    assert rows[note.to] in rows;
    var a :| RowOf(cfg, rows[note.to], a) && Registered(cfg, log, a);
    if note.Naming? {
      assert rows[note.about] in rows;
      var b :| RowOf(cfg, rows[note.about], b) && Registered(cfg, log, b);
      NamingIsSetPeer(cfg, rows, note, d, a, b);
      assert IsSetPeer(cfg, p, a, b) && Opposed(cfg, a, b);
    } else {
      PingIsPing(cfg, rows, note, d, a);
    }
    assert FromServerOk(cfg, log, p);
  }

  lemma SameDestination(x: Ipp, e: Ipp)
    requires x == Assign(x, e)
    ensures Destination(x) == Destination(e) && x.keys == e.keys
  {
  }

  lemma AnnouncedJustified(cfg: Config, log: seq<Sent>, pl: SrvCap, t: PersTable)
    requires RowsOk(cfg, log, t.rows) && Keyed(t)
    ensures SentOk(cfg, log, cfg.srv, Announced(pl, Listed(t.rows)).sent)
  {
    var pers := Listed(t.rows);
    var notes := Notes(pers, |pers|);
    NotesInRange(pers, |pers|);
    hide Notes, Tells, Rendered, Justified, RowsOk;
    RenderedLength(pl, pers, notes);
    var sent := Announced(pl, pers).sent;
    forall k | 0 <= k < |sent| ensures Justified(cfg, log, Sent(cfg.srv, sent[k].dst, sent[k].bytes)) {
      RenderedTells(pl, pers, notes, k);
      assert InRange(notes[k], |pers|);
      if notes[k].Naming? {
        assert notes[k] in notes;
        NamingOpposite(pers, notes[k].to, notes[k].about);
        OppositeRows(t, notes[k].to, notes[k].about);
      }
      hide Listed, Opposite, Keyed, InRange;
      NoteJustified(cfg, log, t.rows, notes[k], sent[k]);
    }
  }

  lemma OppositeRows(t: PersTable, m: nat, n: nat)
    requires Keyed(t) && Opposite(Listed(t.rows), m, n)
    ensures t.rows[m].k != t.rows[n].k
  {
    assert m != n;
  }

  lemma ServerTurnJustified(cfg: Config, w: World, j: S.Input)
    requires Sane(cfg) && Inv(cfg, w) && Allowed(cfg, w, ServerTurn(j))
    ensures var e := S.Turn(cfg.h, w.server, j);
            && e.st.db.mids == cfg.mids && RowsOk(cfg, w.log, e.st.db.pers.rows) && Keyed(e.st.db.pers)
            && SentOk(cfg, w.log, cfg.srv, e.sent)
  {
    hide LogOk, LinksOk, Sane, S.Received, SentOk, RowsOk, Announced, Listed, Younger, Keyed;
    ReceivedRows(cfg, w.log, w.server, j);
    var a := S.Received(cfg.h, w.server, j);
    AnnouncedJustified(cfg, w.log, a.st.pl, a.st.db.pers);
    YoungerRowsOk(cfg, w.log, a.st.db.pers.rows, j.cutoff);
    YoungerKeepsKeyed(a.st.db.pers, j.cutoff);
    NothingSent(cfg, w.log, cfg.srv);
    SentConcat(cfg, w.log, cfg.srv, a.sent, S.Pinged(a.st, j).sent);
  }

  // --- every run ---

  lemma OkGrows(cfg: Config, log: seq<Sent>, more: seq<Sent>)
    requires log <= more
    ensures forall rows :: RowsOk(cfg, log, rows) ==> RowsOk(cfg, more, rows)
    ensures forall a, pers :: LinksOk(cfg, log, a, pers) ==> LinksOk(cfg, more, a, pers)
  {
    hide Registered, Introduced, Pinged, Ponged, RowOf;
    Grows(cfg, log, more);
  }

  lemma PeerTurnKeepsInv(cfg: Config, w: World, a: Place, i: P.Input)
    requires Sane(cfg) && Inv(cfg, w) && Allowed(cfg, w, PeerTurn(a, i))
    ensures Inv(cfg, Next(cfg, w, PeerTurn(a, i)))
  {
    PeerTurnJustified(cfg, w, a, i);
    hide LogOk, LinksOk, Sane, SentOk, RowsOk, P.Turn, Stamped, Arrives, Harmless, TheKey, P.Usable, Keyed;
    var e := P.Turn(cfg.peers[a], w.peers[a], i);
    var log := w.log + Stamped(a, e.sent);
    LogGrows(cfg, w.log, a, e.sent);
    OkGrows(cfg, w.log, log);
  }

  lemma ServerTurnKeepsInv(cfg: Config, w: World, j: S.Input)
    requires Sane(cfg) && Inv(cfg, w) && Allowed(cfg, w, ServerTurn(j))
    ensures Inv(cfg, Next(cfg, w, ServerTurn(j)))
  {
    ServerTurnJustified(cfg, w, j);
    hide LogOk, LinksOk, Sane, SentOk, RowsOk, S.Turn, Stamped, Arrives, TheKey, Keyed;
    LogGrows(cfg, w.log, cfg.srv, S.Turn(cfg.h, w.server, j).sent);
    OkGrows(cfg, w.log, Next(cfg, w, ServerTurn(j)).log);
  }

  // --- the steps of a run ---

  lemma {:induction false} NoStep(cfg: Config, w: World)
    ensures AllowedRun(cfg, w, []) && Run(cfg, w, []) == w
  {
  }

  lemma {:induction false} OneStep(cfg: Config, w: World, s: seq<Step>, step: Step)
    requires AllowedRun(cfg, w, s) && Allowed(cfg, Run(cfg, w, s), step)
    ensures AllowedRun(cfg, w, s + [step]) && Run(cfg, w, s + [step]) == Next(cfg, Run(cfg, w, s), step)
  {
    hide Allowed, Next;
    var all := s + [step];
    assert all[..|s|] == s;
    assert forall n :: 0 <= n < |s| ==> all[..n] == s[..n];
  }

  lemma LastStep(cfg: Config, w: World, t: seq<Step>)
    requires AllowedRun(cfg, w, t) && t != []
    ensures var front, last := t[..|t| - 1], t[|t| - 1];
            && AllowedRun(cfg, w, front) && Allowed(cfg, Run(cfg, w, front), last)
            && Run(cfg, w, t) == Next(cfg, Run(cfg, w, front), last)
  {
    hide Allowed, Next;
    var front := t[..|t| - 1];
    assert forall n :: 0 <= n < |front| ==> front[..n] == t[..n];
  }

  // A run goes on with any run from where it ended.
  lemma {:induction false} RunGoesOn(cfg: Config, w: World, s: seq<Step>, t: seq<Step>)
    requires AllowedRun(cfg, w, s) && AllowedRun(cfg, Run(cfg, w, s), t)
    ensures AllowedRun(cfg, w, s + t) && Run(cfg, w, s + t) == Run(cfg, Run(cfg, w, s), t)
  {
    hide Allowed, AllowedRun, Next, Run;
    if t == [] {
      NoStep(cfg, Run(cfg, w, s));
      assert s + t == s;
    } else {
      var front, last := t[..|t| - 1], t[|t| - 1];
      LastStep(cfg, Run(cfg, w, s), t);
      RunGoesOn(cfg, w, s, front);
      OneStep(cfg, w, s + front, last);
      assert s + front + [last] == s + t;
    }
  }

  lemma StartInv(cfg: Config, now: int, keys: Key)
    ensures Inv(cfg, Start(cfg, now, keys))
  {
  }

  lemma StepKeepsInv(cfg: Config, w: World, step: Step)
    requires Sane(cfg) && Inv(cfg, w) && Allowed(cfg, w, step)
    ensures Inv(cfg, Next(cfg, w, step))
  {
    hide Inv, Next, Allowed, Sane;
    match step
    case PeerTurn(a, i) => PeerTurnKeepsInv(cfg, w, a, i);
    case ServerTurn(j) => ServerTurnKeepsInv(cfg, w, j);
  }

  lemma {:induction false} RunKeepsInv(cfg: Config, now: int, keys: Key, steps: seq<Step>)
    requires Sane(cfg) && AllowedRun(cfg, Start(cfg, now, keys), steps)
    ensures Inv(cfg, Run(cfg, Start(cfg, now, keys), steps))
  {
    hide Inv, Next, Allowed, AllowedRun, Sane, Start, Run;
    if steps == [] {
      StartInv(cfg, now, keys);
      NoStep(cfg, Start(cfg, now, keys));
    } else {
      var front, last := steps[..|steps| - 1], steps[|steps| - 1];
      LastStep(cfg, Start(cfg, now, keys), steps);
      RunKeepsInv(cfg, now, keys, front);
      StepKeepsInv(cfg, Run(cfg, Start(cfg, now, keys), front), last);
    }
  }

  // The assertion of _received that a server datagram is a row of whole capsules never fails.
  lemma {:induction false} ServerSendsWholeCapsules(cfg: Config, now: int, keys: Key, steps: seq<Step>, a: Place,
        i: P.Input)
    requires Sane(cfg) && AllowedRun(cfg, Start(cfg, now, keys), steps)
    requires Allowed(cfg, Run(cfg, Start(cfg, now, keys), steps), PeerTurn(a, i)) && i.rx.Some?
    ensures P.Whole(cfg.peers[a], i.rx.value)
  {
    RunKeepsInv(cfg, now, keys, steps);
    hide AllowedRun, Start;
    var w := Run(cfg, Start(cfg, now, keys), steps);
    hide Run, Sane, LogOk, RowsOk, LinksOk, Harmless, Arrives;
    SentToPeerWhole(cfg, w.log, a, i.rx.value);
  }

  lemma SentToPeerWhole(cfg: Config, log: seq<Sent>, a: Place, rx: Packet)
    requires Sane(cfg) && LogOk(cfg, log) && a in cfg.peers && Arrives(log, a, rx.src, rx.bytes)
    ensures P.Whole(cfg.peers[a], rx)
  {
    hide Sane, LogOk, P.FromServer, Says;
    ToPeer(cfg, log, Sent(rx.src, a, rx.bytes));
  }

  // The server never names itself, so what a peer sends it are registrations alone.
  lemma {:induction false} ServerNeverNamesItself(cfg: Config, now: int, keys: Key, steps: seq<Step>, a: Place,
        i: P.Input)
    requires Sane(cfg) && AllowedRun(cfg, Start(cfg, now, keys), steps)
    requires Allowed(cfg, Run(cfg, Start(cfg, now, keys), steps), PeerTurn(a, i))
    ensures Sends.Strays(cfg.peers[a], Run(cfg, Start(cfg, now, keys), steps).peers[a], i) == 0
  {
    RunKeepsInv(cfg, now, keys, steps);
    hide AllowedRun, Start;
    var w := Run(cfg, Start(cfg, now, keys), steps);
    hide Run, Sane, LogOk, RowsOk, LinksOk, Harmless, Arrives, Sends.ReceivedStrays;
    if i.rx.Some? {
      SentToPeerStrays(cfg, w.log, a, i.rx.value);
    }
  }

  lemma SentToPeerStrays(cfg: Config, log: seq<Sent>, a: Place, rx: Packet)
    requires Sane(cfg) && LogOk(cfg, log) && a in cfg.peers && Arrives(log, a, rx.src, rx.bytes)
    ensures Sends.ReceivedStrays(cfg.peers[a], rx) == 0
  {
    hide LogOk, P.FromServer, Says, FullSecret, Lists, P.KeyOf, TheKey, IsSetPeer, Sends.NamesServer;
    ToPeer(cfg, log, Sent(rx.src, a, rx.bytes));
    if rx.src == cfg.srv {
      KeyIsTheKey(cfg, a);
      CapsuleNamesPeer(cfg, log, a, rx.bytes);
      var c := cfg.peers[a];
      assert rx.bytes[0..SIZE] == rx.bytes;
      assert Sends.Misnamed(c, rx.bytes, 0) == 0;
      assert Sends.Misnamed(c, rx.bytes, 1) == 0;
    }
  }

  lemma CapsuleNamesPeer(cfg: Config, log: seq<Sent>, a: Place, bytes: seq<byte>)
    requires Sane(cfg) && a in cfg.peers && FromServerOk(cfg, log, Sent(cfg.srv, a, bytes))
    ensures |bytes| == SIZE && !Sends.NamesServer(cfg.peers[a], Open(bytes, TheKey(cfg)))
  {
    hide TheKey, Lists, FullSecret, Public, Destination, Open, Registered, KOf;
    assert SanePeer(cfg, a) && cfg.srv !in cfg.peers;
    assert bytes[..SIZE] == bytes;
  }

  // The history of a link, as positions in the log: both peers registered, the server named b
  // to a, a pinged b and b answered.
  ghost predicate History(cfg: Config, log: seq<Sent>, a: Place, b: Place, ra: nat, rb: nat, s: nat, i: nat, j: nat) {
    && ra < s && rb < s && s < i < j < |log|
    && IsRegister(cfg, log[ra], a) && IsRegister(cfg, log[rb], b)
    && IsSetPeer(cfg, log[s], a, b) && IsPing(cfg, log[i], a, b) && IsPong(cfg, log[j], b, a)
  }

  // In every run, however the network loses, repeats and reorders: when a has a link to b, they
  // are two peers of opposite types, both registered, then the server sent a a SRV_SET_PEER
  // naming b, then a sent b a PER_PING, then b sent a a PER_PONG.
  lemma LinkHasHistory(cfg: Config, now: int, keys: Key, steps: seq<Step>, a: Place, x: Saddr)
      returns (ra: nat, rb: nat, s: nat, i: nat, j: nat)
    requires Sane(cfg) && AllowedRun(cfg, Start(cfg, now, keys), steps)
    requires var w := Run(cfg, Start(cfg, now, keys), steps); a in w.peers && x in w.peers[a].pers
    ensures var w := Run(cfg, Start(cfg, now, keys), steps);
            Opposed(cfg, a, PlaceOf(x)) && History(cfg, w.log, a, PlaceOf(x), ra, rb, s, i, j)
  {
    RunKeepsInv(cfg, now, keys, steps);
    hide AllowedRun, Start;
    var w := Run(cfg, Start(cfg, now, keys), steps);
    hide Run;
    ra, rb, s, i, j := PongHistory(cfg, w.log, a, PlaceOf(x));
  }

  lemma PongHistory(cfg: Config, log: seq<Sent>, a: Place, b: Place)
      returns (ra: nat, rb: nat, s: nat, i: nat, j: nat)
    requires Sane(cfg) && LogOk(cfg, log) && a in cfg.peers && b in cfg.peers && Ponged(cfg, log, b, a)
    ensures Opposed(cfg, a, b) && History(cfg, log, a, b, ra, rb, s, i, j)
  {
    assert cfg.srv !in cfg.peers;
    hide Sane, IsRegister, IsSetPeer, IsPing, IsPong, LogOk, Opposed;
    j :| j < |log| && IsPong(cfg, log[j], b, a);
    i := PingBefore(cfg, log, a, b, j);
    ra, rb, s := PingHistory(cfg, log, a, b, i);
  }

  lemma PingBefore(cfg: Config, log: seq<Sent>, a: Place, b: Place, j: nat) returns (i: nat)
    requires LogOk(cfg, log) && a in cfg.peers && b in cfg.peers && cfg.srv !in cfg.peers
    requires j < |log| && IsPong(cfg, log[j], b, a)
    ensures i < j && IsPing(cfg, log[i], a, b)
  {
    hide Says, IsRegister, IsPing, Introduced, IsSetPeer;
    NotARegistration(cfg, log[j], b);
    assert Justified(cfg, log[..j], log[j]);
    assert Pinged(cfg, log[..j], a, b);
    i :| i < j && IsPing(cfg, log[..j][i], a, b);
  }

  lemma NotARegistration(cfg: Config, p: Sent, a: Place)
    requires p.dst != cfg.srv
    ensures !IsRegister(cfg, p, a)
  {
  }

  lemma PingHistory(cfg: Config, log: seq<Sent>, a: Place, b: Place, i: nat) returns (ra: nat, rb: nat, s: nat)
    requires LogOk(cfg, log) && a in cfg.peers && b in cfg.peers && cfg.srv !in cfg.peers
    requires i < |log| && IsPing(cfg, log[i], a, b)
    ensures Opposed(cfg, a, b) && ra < s && rb < s && s < i
    ensures IsRegister(cfg, log[ra], a) && IsRegister(cfg, log[rb], b) && IsSetPeer(cfg, log[s], a, b)
  {
    hide Says, TheKey, P.TypeOf, IsRegister, Opposed, PlaceOf, Destination, Public, Open;
    NotARegistration(cfg, log[i], a);
    assert Justified(cfg, log[..i], log[i]);
    assert Introduced(cfg, log[..i], a, b);
    s :| s < i && IsSetPeer(cfg, log[..i][s], a, b);
    assert Justified(cfg, log[..s], log[s]);
    assert FromServerOk(cfg, log[..s], log[s]);
    hide LogOk;
    var c :| IsSetPeer(cfg, log[s], a, c) && Opposed(cfg, a, c)
      && Registered(cfg, log[..s], a) && Registered(cfg, log[..s], c);
    ra :| ra < s && IsRegister(cfg, log[..s][ra], a);
    rb :| rb < s && IsRegister(cfg, log[..s][rb], b);
  }
}
