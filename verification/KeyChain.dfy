// The keys a link passes through, for peers with any keys (u_server.cpp, a_peer.cpp and
// udp_xdea.cpp): the server enciphers under the row of the peer it tells and writes in the key
// of the peer it names; the ping goes out under the key it carries, the pong under the
// answering peer's own.
module KeyChain {
  import opened Words
  import opened Cipher
  import opened Address
  import opened Capsule
  import opened Udp
  import opened Announce
  import P = PeerModel

  // The k-th datagram of an announcement tells row `to` of row `about`.
  ghost predicate Introduces(pers: seq<Ipp>, k: nat, to: nat, about: nat) {
    k < |Notes(pers, |pers|)| && Notes(pers, |pers|)[k] == Naming(to, about)
  }

  // The told peer, with the key of its row, reads a SRV_SET_PEER with address and key of the other.
  lemma IntroductionRead(pl: SrvCap, pers: seq<Ipp>, k: nat, to: nat, about: nat) returns (c: SrvCap)
    requires Introduces(pers, k, to, about)
    ensures to < |pers| && about < |pers| && k < |Announced(pl, pers).sent|
    ensures var d := Announced(pl, pers).sent[k];
            && d.dst == PlaceOf(Destination(pers[to]))
            && |d.bytes| == SIZE && Open(d.bytes, pers[to].keys) == c
            && Verb(c) == SRV_SET_PEER && Carries(c, pers[about])
  {
    NotesInRange(pers, |pers|);
    hide Notes, Rendered, Seal, Open, Public, Destination, Carries;
    var notes := Notes(pers, |pers|);
    assert InRange(notes[k], |pers|);
    RenderedLength(pl, pers, notes);
    RenderedTells(pl, pers, notes, k);
    c :| Announced(pl, pers).sent[k] == Addressed(c, pers[to]) && Verb(c) == SRV_SET_PEER && Carries(c, pers[about]);
    OpenUndoesSeal(c, pers[to].keys);
  }

  // The capsule a peer was told in, on its way to the named peer and back.
  function PingTo(c: SrvCap, e: Ipp): Datagram {
    Datagram(PlaceOf(Destination(e)), Seal(WithVerb(c, PER_PING), e.keys))
  }

  function PongTo(c: SrvCap, place: Place, key: Key): Datagram {
    Datagram(place, Seal(WithVerb(c, PER_PONG), key))
  }

  // A peer told of e sends one ping to e, and whoever holds the keys of e reads it as sent.
  lemma PingRead(cfg: P.Config, st: P.State, bytes: SrvCap, e: Ipp, now: int, clock: int)
    requires var c := Open(bytes, P.KeyOf(cfg)); Verb(c) == SRV_SET_PEER && Carries(c, e)
    ensures var c := Open(bytes, P.KeyOf(cfg));
            && P.Handled(cfg, st, cfg.srv, bytes, now, clock).sent == [PingTo(c, e)]
            && P.Handled(cfg, st, cfg.srv, bytes, now, clock).st.pers == st.pers
            && Open(PingTo(c, e).bytes, e.keys) == WithVerb(c, PER_PING)
  {
    var c := Open(bytes, P.KeyOf(cfg));
    WithVerbKeepsPublic(c, PER_PING);
    OpenUndoesSeal(WithVerb(c, PER_PING), e.keys);
    hide Seal, Open, Public, P.KeyOf, And;
    assert bytes[0..SIZE] == bytes;
    var f := P.SrvProcess(st, c, now, clock);
    assert P.Capsules(cfg, st, bytes, 0, now, clock).st == st && [] + f.sent == f.sent;
    assert P.Capsules(cfg, st, bytes, 1, now, clock) == P.Effect(f.st, [P.Peering(c)]);
  }

  // A peer answers a ping with its own capsule as a pong under the peer's own key. A holder of
  // `key` reads that pong as written exactly when the two keys encipher it alike.
  lemma PongRead(cfg: P.Config, st: P.State, src: Place, c: SrvCap, key: Key, now: int, clock: int)
    requires !P.FromServer(cfg, src)
    ensures var ping := Seal(WithVerb(c, PER_PING), P.KeyOf(cfg));
            P.Handled(cfg, st, src, ping, now, clock) == P.Effect(st, [PongTo(c, src, P.KeyOf(cfg))])
    ensures var pong := WithVerb(c, PER_PONG);
            Open(PongTo(c, src, P.KeyOf(cfg)).bytes, key) == pong <==> Seal(pong, key) == Seal(pong, P.KeyOf(cfg))
  {
    var ping, pong := WithVerb(c, PER_PING), WithVerb(c, PER_PONG);
    OpenUndoesSeal(ping, P.KeyOf(cfg));
    OpenUndoesSeal(pong, key);
    OpenUndoesSeal(Seal(pong, P.KeyOf(cfg)), key);
    hide Seal, Open, P.KeyOf, P.FromServer;
    var bytes := Seal(ping, P.KeyOf(cfg));
    assert bytes[..SIZE] == bytes;
    assert WithVerb(ping, PER_PONG) == pong;
  }

  lemma Linked(cfg: P.Config, st: P.State, src: Place, bytes: SrvCap, now: int, clock: int)
    requires !P.FromServer(cfg, src) && Verb(Open(bytes, P.KeyOf(cfg))) == PER_PONG
    ensures P.Handled(cfg, st, src, bytes, now, clock)
         == P.Effect(st.(pers := Insert(st.pers, Remote(src)), status := PER_LINKED), [])
  {
    hide Open, P.KeyOf, P.FromServer, Insert;
    assert bytes[..SIZE] == bytes;
  }

  // Peers a and b of rows `to` and `about`, with any keys: a, told of b, sends b one ping, and b
  // reads exactly the capsule a was told in, as a ping; b answers with it as a pong, and when
  // the keys agree a reads that pong and has a link to b.
  lemma LinkThroughKeys(pl: SrvCap, pers: seq<Ipp>, k: nat, to: nat, about: nat, a: P.Config, b: P.Config,
                                           sa: P.State, sb: P.State, now: int, clock: int) returns (c: SrvCap)
    requires Introduces(pers, k, to, about) && to < |pers| && about < |pers|
    requires P.KeyOf(a) == pers[to].keys && P.KeyOf(b) == pers[about].keys
    requires !P.FromServer(a, PlaceOf(Destination(pers[about]))) && !P.FromServer(b, PlaceOf(Destination(pers[to])))
    ensures k < |Announced(pl, pers).sent| && |Announced(pl, pers).sent[k].bytes| == SIZE
    ensures var told := Announced(pl, pers).sent[k];
            && told.dst == PlaceOf(Destination(pers[to])) && Open(told.bytes, P.KeyOf(a)) == c
            && Carries(c, pers[about])
            && P.Handled(a, sa, a.srv, told.bytes, now, clock).sent == [PingTo(c, pers[about])]
    ensures var ping := PingTo(c, pers[about]);
            var placeA := PlaceOf(Destination(pers[to]));
            && Open(ping.bytes, P.KeyOf(b)) == WithVerb(c, PER_PING)
            && P.Handled(b, sb, placeA, ping.bytes, now, clock).sent == [PongTo(c, placeA, P.KeyOf(b))]
    ensures P.KeyOf(a) == P.KeyOf(b) ==>
              var placeA, placeB := PlaceOf(Destination(pers[to])), PlaceOf(Destination(pers[about]));
              var pong := PongTo(c, placeA, P.KeyOf(b));
              && Open(pong.bytes, P.KeyOf(a)) == WithVerb(c, PER_PONG)
              && P.Handled(a, sa, placeB, pong.bytes, now, clock).st
                 == sa.(pers := Insert(sa.pers, Remote(placeB)), status := PER_LINKED)
  {
    c := IntroductionRead(pl, pers, k, to, about);
    hide Notes, Announced, Open, Seal, Carries, P.Handled, P.KeyOf, P.FromServer, Destination, Introduces;
    PingRead(a, sa, Announced(pl, pers).sent[k].bytes, pers[about], now, clock);
    PongRead(b, sb, PlaceOf(Destination(pers[to])), c, P.KeyOf(a), now, clock);
    if P.KeyOf(a) == P.KeyOf(b) {
      Linked(a, sa, PlaceOf(Destination(pers[about])), Seal(WithVerb(c, PER_PONG), P.KeyOf(b)), now, clock);
    }
  }
}
