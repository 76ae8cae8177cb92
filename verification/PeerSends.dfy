// What a peer sends to the server over a whole run (a_peer.cpp): its registrations, and nothing
// else unless the server names its own address as a peer.
module PeerSends {
  import opened Words
  import opened Address
  import opened Capsule
  import opened Udp
  import opened PeerRuns
  import P = PeerModel

  // The datagrams that go to the server's address.
  function ToServer(cfg: P.Config, out: seq<Datagram>): (r: seq<Datagram>)
    ensures forall d :: d in r ==> d in out && d.dst == cfg.srv
  {
    if out == [] then []
    else
      var last := out[|out| - 1];
      ToServer(cfg, out[..|out| - 1]) + if last.dst == cfg.srv then [last] else []
  }

  lemma {:induction false} ToServerConcat(cfg: P.Config, out: seq<Datagram>, more: seq<Datagram>)
    ensures ToServer(cfg, out + more) == ToServer(cfg, out) + ToServer(cfg, more)
  {
    if more == [] {
      assert out + more == out;
    } else {
      var front := more[..|more| - 1];
      assert (out + more)[..|out + more| - 1] == out + front;
      ToServerConcat(cfg, out, front);
    }
  }

  lemma {:induction false} NothingToServer(cfg: P.Config, out: seq<Datagram>)
    requires forall d :: d in out ==> d.dst != cfg.srv
    ensures ToServer(cfg, out) == []
  {
    if out == [] {
    } else {
      NothingToServer(cfg, out[..|out| - 1]);
    }
  }

  function Registration(cfg: P.Config): Datagram
    requires P.Usable(cfg)
  {
    Datagram(cfg.srv, Seal(P.Registration(cfg), P.KeyOf(cfg)))
  }

  // A SRV_SET_PEER that names the server itself.
  predicate NamesServer(cfg: P.Config, c: SrvCap) {
    Verb(c) == SRV_SET_PEER && PlaceOf(Destination(Public(c))) == cfg.srv
  }

  // Such capsules among the first n of a server datagram.
  function Misnamed(cfg: P.Config, bytes: seq<byte>, n: nat): nat
    requires n * SIZE <= |bytes|
  {
    if n == 0 then 0
    else
      Misnamed(cfg, bytes, n - 1)
      + if NamesServer(cfg, Open(bytes[n * SIZE - SIZE..n * SIZE], P.KeyOf(cfg))) then 1 else 0
  }

  lemma {:induction false} CapsuleToServer(cfg: P.Config, st: P.State, c: SrvCap, now: int, clock: int)
    ensures |ToServer(cfg, P.SrvProcess(st, c, now, clock).sent)| == if NamesServer(cfg, c) then 1 else 0
  {
    WithVerbKeepsPublic(c, PER_PING);
    hide Public, Destination, Seal;
    var d := P.Peering(c);
    assert [d][..0] == [] && ToServer(cfg, []) == [];
    assert |ToServer(cfg, [d])| == if d.dst == cfg.srv then 1 else 0;
  }

  lemma {:induction false} CapsulesToServer(cfg: P.Config, st: P.State, bytes: seq<byte>, n: nat, now: int, clock: int)
    requires n * SIZE <= |bytes|
    ensures |ToServer(cfg, P.Capsules(cfg, st, bytes, n, now, clock).sent)| == Misnamed(cfg, bytes, n)
  {
    hide NamesServer, P.KeyOf, Open, P.SrvProcess;
    if n == 0 {
    } else {
      var c := Open(bytes[n * SIZE - SIZE..n * SIZE], P.KeyOf(cfg));
      var e := P.Capsules(cfg, st, bytes, n - 1, now, clock);
      CapsulesToServer(cfg, st, bytes, n - 1, now, clock);
      CapsuleToServer(cfg, e.st, c, now, clock);
      ToServerConcat(cfg, e.sent, P.SrvProcess(e.st, c, now, clock).sent);
    }
  }

  // No linked peer is at the server's address.
  ghost predicate Away(cfg: P.Config, pers: seq<Saddr>) {
    forall x :: x in pers ==> PlaceOf(x) != cfg.srv
  }

  lemma ServerIsFromServer(cfg: P.Config)
    ensures P.FromServer(cfg, cfg.srv)
  {
    hide And;
    AndZero(0xFFFF_FFFF);
    AndCommutes(0, 0xFFFF_FFFF);
  }

  function ReceivedStrays(cfg: P.Config, rx: Packet): nat {
    var bytes := P.Fitted(rx.bytes);
    if |bytes| >= SIZE && P.FromServer(cfg, rx.src) then Misnamed(cfg, bytes, |bytes| / SIZE) else 0
  }

  lemma {:induction false} ReceivedToServer(cfg: P.Config, st: P.State, rx: Packet, now: int, clock: int)
    requires Away(cfg, st.pers)
    ensures var e := P.Received(cfg, st, rx, now, clock);
            |ToServer(cfg, e.sent)| == ReceivedStrays(cfg, rx) && Away(cfg, e.st.pers)
  {
    hide Open, Seal, P.KeyOf, P.FromServer, P.Capsules, Misnamed, Insert, P.Delivered;
    var bytes := P.Fitted(rx.bytes);
    var e := P.Received(cfg, st, rx, now, clock);
    ServerIsFromServer(cfg);
    if |bytes| >= SIZE && P.FromServer(cfg, rx.src) {
      CapsulesToServer(cfg, st, bytes, |bytes| / SIZE, now, clock);
      CapsulesKeepAll(cfg, st, bytes, |bytes| / SIZE, now, clock);
    } else {
      NothingToServer(cfg, e.sent);
      forall x | x in e.st.pers ensures PlaceOf(x) != cfg.srv {
        InsertElements(st.pers, Remote(rx.src), x);
      }
    }
  }

  lemma {:induction false} CapsulesKeepAll(cfg: P.Config, st: P.State, bytes: seq<byte>, n: nat, now: int, clock: int)
    requires n * SIZE <= |bytes|
    ensures var t := P.Capsules(cfg, st, bytes, n, now, clock).st; t.pers == st.pers && t.heard == st.heard
  {
    hide P.KeyOf, Open, P.Peering;
    if n == 0 {
    } else {
      CapsulesKeepAll(cfg, st, bytes, n - 1, now, clock);
    }
  }

  lemma {:induction false} ChatNotToServer(cfg: P.Config, pers: seq<Saddr>, message: seq<byte>)
    requires Away(cfg, pers)
    ensures ToServer(cfg, P.Chatted(pers, |pers|, message)) == []
  {
    hide P.Chatted;
    ChattedTo(pers, |pers|, message);
    var sent := P.Chatted(pers, |pers|, message);
    forall d | d in sent ensures d.dst != cfg.srv {
      var k :| 0 <= k < |sent| && sent[k] == d;
      assert pers[k] in pers;
    }
    NothingToServer(cfg, sent);
  }

  // --- a turn ---

  predicate Fires(st: P.State, i: P.Input) {
    st.running && P.Registers(st, i.now)
  }

  // Pings to the server's own address that the turn's datagram makes the peer send.
  function Strays(cfg: P.Config, st: P.State, i: P.Input): nat {
    if st.running && i.rx.Some? && (Fires(st, i) ==> i.sendOk) then ReceivedStrays(cfg, i.rx.value) else 0
  }

  // A turn sends the server one registration when the timer fires and none otherwise, and a
  // ping for every capsule that names the server.
  lemma {:induction false} TurnToServer(cfg: P.Config, st: P.State, i: P.Input)
    requires P.Usable(cfg) && Away(cfg, st.pers)
    ensures var e := P.Turn(cfg, st, i);
            var sent := ToServer(cfg, e.sent);
            && Away(cfg, e.st.pers)
            && |sent| == (if Fires(st, i) then 1 else 0) + Strays(cfg, st, i)
            && (Fires(st, i) ==> sent[0] == Registration(cfg))
  {
    hide Away, P.Received, ReceivedStrays, P.Chatted, Seal, P.Registration, P.KeyOf, ToServer;
    var a := P.Registered(cfg, st, i.now, i.sendOk);
    FiredToServer(cfg, st, i);
    if st.running && a.st.running {
      var b := if i.rx.Some? then P.Received(cfg, a.st, i.rx.value, i.now, i.clock) else P.Effect(a.st, []);
      NothingToServer(cfg, []);
      if i.rx.Some? {
        ReceivedToServer(cfg, a.st, i.rx.value, i.now, i.clock);
      }
      var t := P.Ticked(b.st, i.now);
      var said := if t.status == PER_LINKED && i.chat.Some? then P.Chatted(t.pers, |t.pers|, i.chat.value) else [];
      if i.chat.Some? {
        ChatNotToServer(cfg, t.pers, i.chat.value);
      }
      ToServerConcat(cfg, a.sent + b.sent, said);
      ToServerConcat(cfg, a.sent, b.sent);
    } else {
      NothingToServer(cfg, []);
    }
  }

  lemma {:induction false} FiredToServer(cfg: P.Config, st: P.State, i: P.Input)
    requires P.Usable(cfg)
    ensures var a := P.Registered(cfg, st, i.now, i.sendOk);
            ToServer(cfg, a.sent) == if P.Registers(st, i.now) then [Registration(cfg)] else []
  {
    hide Seal, P.Registration, P.KeyOf;
    var d := Registration(cfg);
    assert [d][..0] == [] && ToServer(cfg, []) == [];
    assert ToServer(cfg, [d]) == [d];
  }

  // --- a run ---

  function RunStrays(cfg: P.Config, st: P.State, ins: seq<P.Input>): nat
    requires P.Usable(cfg)
  {
    if ins == [] then 0
    else
      var front := ins[..|ins| - 1];
      RunStrays(cfg, st, front) + Strays(cfg, P.Run(cfg, st, front).st, ins[|ins| - 1])
  }

  ghost predicate AllRegistrations(cfg: P.Config, out: seq<Datagram>)
    requires P.Usable(cfg)
  {
    forall d :: d in out ==> d == Registration(cfg)
  }

  lemma {:induction false} RunToServer(cfg: P.Config, start: int, ins: seq<P.Input>)
    requires P.Usable(cfg)
    ensures var e := P.Run(cfg, P.Start(start), ins);
            var sent := ToServer(cfg, e.sent);
            && Away(cfg, e.st.pers)
            && |sent| == |RegisterTimes(cfg, P.Start(start), ins)| + RunStrays(cfg, P.Start(start), ins)
            && (RunStrays(cfg, P.Start(start), ins) == 0 ==> AllRegistrations(cfg, sent))
  {
    hide P.Turn, ToServer, Strays, Registration, Away;
    if ins == [] {
      NothingToServer(cfg, []);
      NoLinksAway(cfg);
    } else {
      var front, last := ins[..|ins| - 1], ins[|ins| - 1];
      RunToServer(cfg, start, front);
      var e := P.Run(cfg, P.Start(start), front);
      var f := P.Turn(cfg, e.st, last);
      TurnToServer(cfg, e.st, last);
      ToServerConcat(cfg, e.sent, f.sent);
    }
  }

  lemma NoLinksAway(cfg: P.Config)
    ensures Away(cfg, [])
  {
  }

  // In every run the datagrams a peer sends to the server are its registrations, one for each
  // time the timer fired, exactly unless a capsule named the server itself. Then a run of T
  // seconds under a clock that never goes back sends at most T/11 + 1.
  lemma {:induction false} RegistrationsSent(cfg: P.Config, start: int, ins: seq<P.Input>)
    requires P.Usable(cfg)
    ensures var sent := ToServer(cfg, P.Run(cfg, P.Start(start), ins).sent);
            var times := RegisterTimes(cfg, P.Start(start), ins);
            && (AllRegistrations(cfg, sent) && |sent| == |times| <==> RunStrays(cfg, P.Start(start), ins) == 0)
            && (RunStrays(cfg, P.Start(start), ins) == 0 && Clocked(ins) && ins != [] ==>
                  |sent| <= (ins[|ins| - 1].now - ins[0].now) / 11 + 1)
  {
    hide P.Run, ToServer, RegisterTimes, RunStrays, Registration, AllRegistrations, Away;
    RunToServer(cfg, start, ins);
    if Clocked(ins) && ins != [] {
      RegistrationBound(cfg, start, ins);
    }
  }
}
