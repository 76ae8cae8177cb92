// The other half of the protocol: an introduction can always be completed. Nothing here says
// that the network delivers; it says what happens when it does.
module Linking {
  import opened Cipher
  import opened Address
  import opened Capsule
  import opened Udp
  import opened Access
  import opened Protocol
  import opened KeyChain
  import opened Tables
  import opened Database
  import opened Announce
  import R = ServerRuns
  import P = PeerModel
  import S = ServerModel

  // A turn in which p arrives, the send of a due registration works and nobody types.
  function Delivery(p: Sent, now: int): P.Input {
    P.Input(now, true, Some(Packet(p.src, p.bytes)), now, None)
  }

  // The state in which the peer handles what arrives in that turn.
  function Handling(cfg: Config, w: World, a: Place, now: int): P.State
    requires a in cfg.peers && a in w.peers && P.Usable(cfg.peers[a])
  {
    P.Registered(cfg.peers[a], w.peers[a], now, true).st
  }

  // The delivery of a capsule to a peer that runs.
  lemma TurnOfDelivery(c: P.Config, st: P.State, p: Sent, now: int)
    requires P.Usable(c) && st.running && |p.bytes| == SIZE
    ensures var e := P.Turn(c, st, Delivery(p, now));
            var a := P.Registered(c, st, now, true);
            var f := P.Handled(c, a.st, p.src, p.bytes, now, now);
            && e.sent == a.sent + f.sent && e.st.pers == f.st.pers && e.st.running
  {
    hide P.FromServer, P.KeyOf, Open, Seal, P.Registration, Insert;
    var a := P.Registered(c, st, now, true);
    var f := P.Handled(c, a.st, p.src, p.bytes, now, now);
    HandledRuns(c, a.st, p.src, p.bytes, now, now);
    hide P.Handled, P.Registered;
    assert a.sent + f.sent + [] == a.sent + f.sent;
  }

  lemma HandledRuns(c: P.Config, st: P.State, src: Place, bytes: SrvCap, now: int, clock: int)
    ensures P.Handled(c, st, src, bytes, now, clock).st.running == st.running
  {
    hide P.FromServer, P.KeyOf, Open, Seal, Insert, P.Peering;
    assert P.Capsules(c, st, bytes, 0, now, clock).st == st;
  }

  lemma InLog(src: Place, log: seq<Sent>, out: seq<Datagram>, last: Datagram)
    ensures log <= log + Stamped(src, out + [last])
    ensures Sent(src, last.dst, last.bytes) in log + Stamped(src, out + [last])
  {
    var more := log + Stamped(src, out + [last]);
    assert more[|log| + |out|] == Sent(src, last.dst, last.bytes);
  }

  predicate SameLinks(st: P.State, next: P.State) {
    next.running == st.running && next.pers == st.pers
  }

  // A peer handles a capsule that was sent to it: what it answers is on the network after that turn.
  lemma Delivers(cfg: Config, w: World, a: Place, p: Sent, answer: Datagram, now: int)
    requires a in cfg.peers && a in w.peers && P.Usable(cfg.peers[a]) && w.peers[a].running
    requires p in w.log && p.dst == a && |p.bytes| == SIZE
    requires var e := P.Handled(cfg.peers[a], Handling(cfg, w, a, now), p.src, p.bytes, now, now);
             e.sent == [answer] && e.st.pers == w.peers[a].pers
    ensures Allowed(cfg, w, PeerTurn(a, Delivery(p, now)))
    ensures var next := Next(cfg, w, PeerTurn(a, Delivery(p, now)));
            && Sent(a, answer.dst, answer.bytes) in next.log && next.peers.Keys == w.peers.Keys
            && forall b :: b in w.peers ==> SameLinks(w.peers[b], next.peers[b])
  {
    hide P.Handled, P.Turn, Stamped;
    TurnOfDelivery(cfg.peers[a], w.peers[a], p, now);
    var sent := P.Registered(cfg.peers[a], w.peers[a], now, true).sent;
    hide P.Registered;
    InLog(a, w.log, sent, answer);
  }

  lemma NamingOccurs(pers: seq<Ipp>, m: nat, n: nat) returns (k: nat)
    requires Opposite(pers, m, n)
    ensures Introduces(pers, k, m, n)
  {
    hide Notes;
    NoteCounts(pers, |pers|, m, n);
    assert Naming(m, n) in Notes(pers, |pers|);
    k :| 0 <= k < |Notes(pers, |pers|)| && Notes(pers, |pers|)[k] == Naming(m, n);
  }

  lemma {:induction false} AnnouncedTells(pl: SrvCap, pers: seq<Ipp>, k: nat)
    requires k < |Notes(pers, |pers|)|
    ensures InRange(Notes(pers, |pers|)[k], |pers|) && k < |Announced(pl, pers).sent|
    ensures Tells(Announced(pl, pers).sent[k], pers, Notes(pers, |pers|)[k])
  {
    NotesInRange(pers, |pers|);
    hide Notes, Rendered, Tells;
    RenderedLength(pl, pers, Notes(pers, |pers|));
    RenderedTells(pl, pers, Notes(pers, |pers|), k);
  }

  // For rows of two peers of opposite types the announcement has a SRV_SET_PEER to the one
  // naming the other.
  lemma NoteSent(cfg: Config, pl: SrvCap, rows: seq<Pers>, m: nat, n: nat, a: Place, b: Place) returns (k: nat)
    requires m < |rows| && n < |rows| && RowOf(cfg, rows[m], a) && RowOf(cfg, rows[n], b) && rows[m].t != rows[n].t
    ensures var sent := Announced(pl, Listed(rows)).sent;
            k < |sent| && IsSetPeer(cfg, Sent(cfg.srv, sent[k].dst, sent[k].bytes), a, b)
  {
    hide Notes, Announced, Tells, IsSetPeer, RowOf;
    var pers := Listed(rows);
    k := NamingOccurs(pers, m, n);
    hide Listed;
    AnnouncedTells(pl, pers, k);
    NamingIsSetPeer(cfg, rows, Naming(m, n), Announced(pl, pers).sent[k], a, b);
  }

  lemma AnnouncingTurn(cfg: Config, w: World, j: S.Input)
    requires R.Announces(cfg.h, w.server, j)
    ensures var e := S.Received(cfg.h, w.server, j);
            var sent := e.sent + Announced(e.st.pl, Listed(e.st.db.pers.rows)).sent;
            Next(cfg, w, ServerTurn(j)).log == w.log + Stamped(cfg.srv, sent)
  {
    hide S.Received, Announced, Listed, Stamped, Younger;
  }

  lemma NamedIsIntroduced(cfg: Config, log: seq<Sent>, before: seq<Datagram>, pl: SrvCap, rows: seq<Pers>,
                                             m: nat, n: nat, a: Place, b: Place)
    requires m < |rows| && n < |rows| && RowOf(cfg, rows[m], a) && RowOf(cfg, rows[n], b) && rows[m].t != rows[n].t
    ensures Introduced(cfg, log + Stamped(cfg.srv, before + Announced(pl, Listed(rows)).sent), a, b)
  {
    hide Announced, IsSetPeer, Stamped, RowOf, Listed;
    var k := NoteSent(cfg, pl, rows, m, n, a, b);
    SentIsLogged(cfg.srv, log, before, Announced(pl, Listed(rows)).sent, k);
  }

  // An announcing turn of the server introduces any two peers of opposite types in its table
  // to each other.
  lemma AnnouncementIntroduces(cfg: Config, w: World, j: S.Input, m: nat, n: nat, a: Place, b: Place)
    requires R.Announces(cfg.h, w.server, j)
    requires var rows := S.Received(cfg.h, w.server, j).st.db.pers.rows;
             m < |rows| && n < |rows| && RowOf(cfg, rows[m], a) && RowOf(cfg, rows[n], b) && Opposed(cfg, a, b)
    ensures var next := Next(cfg, w, ServerTurn(j));
            Introduced(cfg, next.log, a, b) && Introduced(cfg, next.log, b, a)
  {
    AnnouncingTurn(cfg, w, j);
    hide R.Announces, S.Received, Next, Stamped, Announced, Introduced;
    var e := S.Received(cfg.h, w.server, j);
    NamedIsIntroduced(cfg, w.log, e.sent, e.st.pl, e.st.db.pers.rows, m, n, a, b);
    NamedIsIntroduced(cfg, w.log, e.sent, e.st.pl, e.st.db.pers.rows, n, m, b, a);
  }

  lemma SentIsLogged(src: Place, log: seq<Sent>, before: seq<Datagram>, sent: seq<Datagram>, k: nat)
    requires k < |sent|
    ensures var at := |log| + |before| + k;
            var more := log + Stamped(src, before + sent);
            at < |more| && more[at] == Sent(src, sent[k].dst, sent[k].bytes)
  {
  }

  // What the three deliveries need of the peers.
  ghost predicate Ready(cfg: Config, w: World, a: Place, b: Place) {
    && a in cfg.peers && b in cfg.peers && a in w.peers && b in w.peers
    && P.Usable(cfg.peers[a]) && P.Usable(cfg.peers[b])
    && P.KeyOf(cfg.peers[a]) == TheKey(cfg) && P.KeyOf(cfg.peers[b]) == TheKey(cfg)
    && cfg.peers[a].srv == cfg.srv
    && !P.FromServer(cfg.peers[a], b) && !P.FromServer(cfg.peers[b], a)
    && w.peers[a].running && w.peers[b].running
  }

  lemma PeersReady(cfg: Config, w: World, a: Place, b: Place)
    requires Sane(cfg) && a in cfg.peers && b in cfg.peers && w.peers.Keys == cfg.peers.Keys
    requires w.peers[a].running && w.peers[b].running
    ensures Ready(cfg, w, a, b)
  {
    hide P.FromServer, FullSecret, Lists, ClientKeys;
    assert SanePeer(cfg, a) && SanePeer(cfg, b);
    ServerByPort(cfg.peers[a], b);
    ServerByPort(cfg.peers[b], a);
  }

  lemma SetPeerHandled(cfg: Config, p: Sent, a: Place, b: Place, st: P.State, now: int) returns (c: SrvCap)
    requires a in cfg.peers && P.KeyOf(cfg.peers[a]) == TheKey(cfg) && cfg.peers[a].srv == cfg.srv
    requires IsSetPeer(cfg, p, a, b)
    ensures var e := P.Handled(cfg.peers[a], st, p.src, p.bytes, now, now);
            e.sent == [Datagram(b, Seal(WithVerb(c, PER_PING), TheKey(cfg)))] && e.st.pers == st.pers
  {
    hide TheKey, P.KeyOf, Open, Seal, P.Handled, Public, Destination;
    c := Open(p.bytes, TheKey(cfg));
    assert p.bytes[..SIZE] == p.bytes;
    PingRead(cfg.peers[a], st, p.bytes, Public(c), now, now);
  }

  lemma SetPeerDelivered(cfg: Config, w: World, a: Place, b: Place, p: Sent, now: int) returns (c: SrvCap)
    requires Ready(cfg, w, a, b) && p in w.log && IsSetPeer(cfg, p, a, b) && p.dst == a && |p.bytes| == SIZE
    ensures Allowed(cfg, w, PeerTurn(a, Delivery(p, now)))
    ensures var next := Next(cfg, w, PeerTurn(a, Delivery(p, now)));
            && Ready(cfg, next, a, b) && next.peers[a].pers == w.peers[a].pers
            && Sent(a, b, Seal(WithVerb(c, PER_PING), TheKey(cfg))) in next.log
  {
    hide TheKey, P.KeyOf, Seal, P.Handled, P.FromServer, P.Usable, Next, IsSetPeer, Allowed;
    c := SetPeerHandled(cfg, p, a, b, Handling(cfg, w, a, now), now);
    assert Handling(cfg, w, a, now).pers == w.peers[a].pers;
    hide P.Registered, Handling;
    Delivers(cfg, w, a, p, Datagram(b, Seal(WithVerb(c, PER_PING), TheKey(cfg))), now);
  }

  lemma SetPeerFits(cfg: Config, p: Sent, a: Place, b: Place)
    requires IsSetPeer(cfg, p, a, b)
    ensures p.src == cfg.srv && p.dst == a && |p.bytes| == SIZE
  {
  }

  lemma PingDelivered(cfg: Config, w: World, a: Place, b: Place, c: SrvCap, now: int)
    requires var p := Sent(a, b, Seal(WithVerb(c, PER_PING), TheKey(cfg))); Ready(cfg, w, a, b) && p in w.log
    ensures var step := PeerTurn(b, Delivery(Sent(a, b, Seal(WithVerb(c, PER_PING), TheKey(cfg))), now));
            var next := Next(cfg, w, step);
            && Allowed(cfg, w, step)
            && Ready(cfg, next, a, b) && next.peers[a].pers == w.peers[a].pers
            && Sent(b, a, Seal(WithVerb(c, PER_PONG), TheKey(cfg))) in next.log
  {
    var p := Sent(a, b, Seal(WithVerb(c, PER_PING), TheKey(cfg)));
    var st := Handling(cfg, w, b, now);
    hide TheKey, P.KeyOf, Open, Seal, P.Handled, P.FromServer, P.Usable, Next, P.Registered;
    PongRead(cfg.peers[b], st, a, c, TheKey(cfg), now, now);
    Delivers(cfg, w, b, p, PongTo(c, a, TheKey(cfg)), now);
  }

  lemma PongTurn(cfg: P.Config, st: P.State, p: Sent, c: SrvCap, now: int)
    requires P.Usable(cfg) && st.running && !P.FromServer(cfg, p.src)
    requires p.bytes == Seal(WithVerb(c, PER_PONG), P.KeyOf(cfg))
    ensures P.Turn(cfg, st, Delivery(p, now)).st.pers == Insert(st.pers, Remote(p.src))
  {
    OpenUndoesSeal(WithVerb(c, PER_PONG), P.KeyOf(cfg));
    hide P.KeyOf, Open, Seal, P.Handled, P.FromServer, P.Turn, Insert;
    var a := P.Registered(cfg, st, now, true);
    Linked(cfg, a.st, p.src, p.bytes, now, now);
    TurnOfDelivery(cfg, st, p, now);
  }

  lemma PongDelivered(cfg: Config, w: World, a: Place, b: Place, c: SrvCap, now: int)
    requires var p := Sent(b, a, Seal(WithVerb(c, PER_PONG), TheKey(cfg))); Ready(cfg, w, a, b) && p in w.log
    ensures var step := PeerTurn(a, Delivery(Sent(b, a, Seal(WithVerb(c, PER_PONG), TheKey(cfg))), now));
            var next := Next(cfg, w, step);
            && Allowed(cfg, w, step)
            && a in next.peers && next.peers[a].pers == Insert(w.peers[a].pers, Remote(b))
  {
    var p := Sent(b, a, Seal(WithVerb(c, PER_PONG), TheKey(cfg)));
    hide TheKey, P.KeyOf, Seal, P.FromServer, P.Turn, Insert, Stamped;
    PongTurn(cfg.peers[a], w.peers[a], p, c, now);
  }

  // The step is that turn, of peer a, for something from src.
  predicate DeliversTo(step: Step, a: Place, src: Place, now: int) {
    && step.PeerTurn? && step.a == a && step.i.rx.Some? && step.i.rx.value.src == src
    && step.i == P.Input(now, true, step.i.rx, now, None)
  }

  // The introduction to a, the ping to b and the pong back.
  predicate ThreeTurns(steps: seq<Step>, srv: Place, a: Place, b: Place, now: int) {
    && |steps| == 3 && DeliversTo(steps[0], a, srv, now)
    && DeliversTo(steps[1], b, a, now) && DeliversTo(steps[2], a, b, now)
  }

  // Whenever the server has introduced b to a and both peers run, three deliveries make the
  // link: the introduction to a, the ping it sends to b, the pong b sends back.
  lemma IntroductionLinks(cfg: Config, now: int, keys: Key, before: seq<Step>, a: Place, b: Place, time: int)
      returns (steps: seq<Step>)
    requires Sane(cfg) && AllowedRun(cfg, Start(cfg, now, keys), before)
    requires var w := Run(cfg, Start(cfg, now, keys), before);
             && a in w.peers && b in w.peers && w.peers[a].running && w.peers[b].running
             && Introduced(cfg, w.log, a, b)
    ensures var w := Run(cfg, Start(cfg, now, keys), before);
            && ThreeTurns(steps, cfg.srv, a, b, time) && AllowedRun(cfg, w, steps)
            && var end := Run(cfg, w, steps);
               && a in end.peers && end.peers[a].pers == Insert(w.peers[a].pers, Remote(b))
               && Clashes(end.peers[a].pers, Remote(b))
  {
    RunKeepsInv(cfg, now, keys, before);
    hide AllowedRun, Start;
    var w := Run(cfg, Start(cfg, now, keys), before);
    hide Run, LogOk, RowsOk, LinksOk, ThreeTurns;
    PeersReady(cfg, w, a, b);
    steps := ThreeDeliveries(cfg, w, a, b, time);
    InsertFinds(w.peers[a].pers, Remote(b));
  }

  lemma ThreeDeliveries(cfg: Config, w: World, a: Place, b: Place, now: int) returns (steps: seq<Step>)
    requires Ready(cfg, w, a, b) && Introduced(cfg, w.log, a, b)
    ensures ThreeTurns(steps, cfg.srv, a, b, now) && AllowedRun(cfg, w, steps)
    ensures var end := Run(cfg, w, steps);
            a in end.peers && end.peers[a].pers == Insert(w.peers[a].pers, Remote(b))
  {
    hide IsSetPeer, Seal, TheKey, Next, Insert, Allowed, P.Usable, P.KeyOf, P.FromServer;
    var k :| 0 <= k < |w.log| && IsSetPeer(cfg, w.log[k], a, b);
    SetPeerFits(cfg, w.log[k], a, b);
    var c := SetPeerDelivered(cfg, w, a, b, w.log[k], now);
    var s0 := PeerTurn(a, Delivery(w.log[k], now));
    var w1 := Next(cfg, w, s0);
    PingDelivered(cfg, w1, a, b, c, now);
    var s1 := PeerTurn(b, Delivery(Sent(a, b, Seal(WithVerb(c, PER_PING), TheKey(cfg))), now));
    var w2 := Next(cfg, w1, s1);
    PongDelivered(cfg, w2, a, b, c, now);
    var s2 := PeerTurn(a, Delivery(Sent(b, a, Seal(WithVerb(c, PER_PONG), TheKey(cfg))), now));
    steps := [] + [s0] + [s1] + [s2];
    hide AllowedRun, Run;
    NoStep(cfg, w);
    OneStep(cfg, w, [], s0);
    OneStep(cfg, w, [] + [s0], s1);
    OneStep(cfg, w, [] + [s0] + [s1], s2);
  }
}
