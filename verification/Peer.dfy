// a_peer.cpp: the peer object, its handlers and its main loop.
module Peer {
  import opened Words
  import opened Cipher
  import opened Address
  import opened Capsule
  import opened Udp
  import opened PeerModel

  class APeer {
    const cfg: Config
    const udpbuffer: array<byte>
    var status: int
    var regtime: int
    var pingtime: int
    var iah: int
    var pers: seq<Saddr>
    var heard: seq<Heard>
    var running: bool

    constructor (cfg: Config, now: int)
      requires Usable(cfg)
      ensures this.cfg == cfg && Ready() && fresh(udpbuffer)
      ensures View() == Start(now) == State(5, 0, now, 0, [], [], true)
    {
      this.cfg := cfg;
      udpbuffer := new byte[MAX_UDP + 1];
      status, regtime, pingtime, iah := SRV_UNREGISTERED, 0, now, 0;
      pers, heard, running := [], [], true;
    }

    ghost predicate Ready() {
      Usable(cfg) && udpbuffer.Length == MAX_UDP + 1
    }

    ghost predicate Wired(s: UdpXdea) {
      s.buff.Length == MAX_UDP && s.buff != udpbuffer
    }

    ghost function View(): State
      reads this
    {
      State(status, regtime, pingtime, iah, pers, heard, running)
    }

    method SrvProcess(s: UdpXdea, plin: SrvCap, now: int, clock: int)
      requires Ready() && Wired(s)
      modifies this, s`sent, s.buff
      ensures var e := PeerModel.SrvProcess(old(View()), plin, now, clock);
              View() == e.st && s.sent == old(s.sent) + e.sent
    {
      hide Seal, Public, Destination;
      var verb := Verb(plin);
      if verb == SRV_REGISTERRED {
        if status == SRV_UNREGISTER {
          status := SRV_REGISTERRED;
        }
        regtime := clock;
      } else if verb == SRV_SET_PEER {
        DoPeering(s, plin);
      } else if verb == SRV_UNREGISTERED {
        status := SRV_UNREGISTERED;
      } else if verb == SRV_PING {
        if status == SRV_UNREGISTER {
          status := SRV_REGISTERRED;
        }
      }
      pingtime := now;
    }

    method DoPeering(s: UdpXdea, plin: SrvCap)
      requires Ready() && Wired(s)
      modifies s`sent, s.buff
      ensures s.sent == old(s.sent) + [Peering(plin)]
    {
      var ping := WithVerb(plin, PER_PING);
      s.SendCapToIpp(ping, Public(ping));
    }

    method PerProcess(s: UdpXdea, bytes: nat, now: int, ghost src: Place)
      requires Ready() && Wired(s) && SIZE <= bytes <= MAX_UDP && s.rsin == Remote(src)
      modifies this, s`sent, s.buff, udpbuffer
      ensures var e := PeerModel.PerProcess(cfg, old(View()), src, old(udpbuffer[..bytes]), now);
              View() == e.st && s.sent == old(s.sent) + e.sent
    {
      hide Seal, Open, Insert, KeyOf;
      ghost var data := udpbuffer[..bytes];
      var pin := OpenAt(0);
      assert data[..SIZE] == udpbuffer[0..SIZE];
      var verb := Verb(pin);
      if verb == PER_DATA {
        DataIn(s, bytes);
        status := PER_LINKED;
      } else if verb == PER_PING {
        pin := WithVerb(pin, PER_PONG);
        s.SendCap(pin, s.rsin, KeyOf(cfg));
      } else if verb == PER_PONG {
        pers := Insert(pers, s.rsin);
        status := PER_LINKED;
      } else if verb == SRV_PING {
        pingtime := now;
      }
    }

    // ed(_udpbuffer+off, &in, sizeof(SrvCap), __key, false)
    method OpenAt(off: nat) returns (c: SrvCap)
      requires Ready() && off + SIZE <= udpbuffer.Length
      ensures c == Open(udpbuffer[off..off + SIZE], KeyOf(cfg))
    {
      hide EdResult, Open, Seal, KeyOf;
      ghost var data := udpbuffer[off..off + SIZE];
      var output := new byte[SIZE];
      Ed(udpbuffer, off, output, SIZE, KeyOf(cfg), false);
      c := output[..SIZE];
      SealIsEd(data, c, KeyOf(cfg), false);
    }

    // _data_in ends the text with a zero and prints it as a C string from its second byte on.
    method DataIn(s: UdpXdea, bytes: nat)
      requires Ready() && 0 < bytes <= MAX_UDP
      modifies this`heard, udpbuffer
      ensures heard == old(heard) + [Shown(PlaceOf(s.rsin), old(udpbuffer[..bytes]))]
      ensures udpbuffer[..bytes] == old(udpbuffer[..bytes])
    {
      ghost var text := udpbuffer[..bytes];
      udpbuffer[bytes] := 0;
      CStrEnds(text[1..], udpbuffer[bytes..]);
      assert udpbuffer[1..] == text[1..] + udpbuffer[bytes..];
      heard := heard + [Heard(PlaceOf(s.rsin), CStr(udpbuffer[1..]))];
    }

    // _received: a server datagram is a row of capsules, a peer's is one.
    method DoReceived(s: UdpXdea, now: int, clock: int, bytes: nat, ghost src: Place)
      requires Ready() && Wired(s) && SIZE <= bytes <= MAX_UDP && s.rsin == Remote(src)
      requires FromServer(cfg, src) ==> bytes % SIZE == 0
      modifies this, s`sent, s.buff, udpbuffer
      ensures var e := Handled(cfg, old(View()), src, old(udpbuffer[..bytes]), now, clock);
              View() == e.st && s.sent == old(s.sent) + e.sent
    {
      hide Eq, PeerModel.PerProcess, Capsules;
      if Eq(s.rsin, Saddr(cfg.srv.addr, cfg.srv.port, 0xFFFF_FFFF)) {
        EachCapsule(s, now, clock, bytes);
      } else {
        PerProcess(s, bytes, now, src);
      }
    }

    // The loop of _received.
    method EachCapsule(s: UdpXdea, now: int, clock: int, bytes: nat)
      requires Ready() && Wired(s) && bytes <= MAX_UDP && bytes % SIZE == 0
      modifies this, s`sent, s.buff
      ensures var e := Capsules(cfg, old(View()), udpbuffer[..bytes], bytes / SIZE, now, clock);
              View() == e.st && s.sent == old(s.sent) + e.sent
    {
      hide Seal, Open, KeyOf, PeerModel.SrvProcess;
      ghost var data, st, sent := udpbuffer[..bytes], View(), s.sent;
      var off, left: int := 0, bytes;
      ghost var n := 0;
      assert sent + [] == sent;
      while left > 0
        invariant off == n * SIZE && off + left == bytes && left >= 0
        invariant View() == Capsules(cfg, st, data, n, now, clock).st
        invariant s.sent == sent + Capsules(cfg, st, data, n, now, clock).sent
        decreases left
      {
        assert left >= SIZE;
        var pin := OpenAt(off);
        assert udpbuffer[off..off + SIZE] == data[off..off + SIZE];
        SrvProcess(s, pin, now, clock);
        off := off + SIZE;
        left := left - SIZE;
        n := n + 1;
      }
    }

    // _rec_udp
    method RecUdp(s: UdpXdea, rx: Packet, now: int, clock: int)
      requires Ready() && Wired(s) && Whole(cfg, rx)
      modifies this, s`sent, s`rsin, s`syserr, s.buff, udpbuffer
      ensures var e := PeerModel.Received(cfg, old(View()), rx, now, clock);
              View() == e.st && s.sent == old(s.sent) + e.sent
    {
      hide Eq;
      var bytes := s.Receive(udpbuffer, MAX_UDP, Got(rx));
      assert udpbuffer[..bytes] == Fitted(rx.bytes);
      if bytes >= SIZE {
        DoReceived(s, now, clock, bytes, rx.src);
      } else if bytes > 0 {
        hide CStr;
        ghost var text, before := udpbuffer[..bytes], View();
        assert s.sent + [] == s.sent && before.heard + [] == before.heard;
        var n := 0;
        while n < |pers|
          invariant 0 <= n <= |pers|
          invariant udpbuffer[..bytes] == text && s.rsin == Remote(rx.src) && s.sent == old(s.sent)
          invariant View() == before.(heard := before.heard + Delivered(pers, n, rx.src, text))
        {
          if Eq(pers[n], s.rsin) {
            DataIn(s, bytes);
          }
          n := n + 1;
        }
      }
    }

    // send_to_pers
    method SendToPers(s: UdpXdea, message: seq<byte>)
      requires Ready() && Wired(s)
      modifies s`sent, s.buff
      ensures s.sent == old(s.sent) + Chatted(pers, |pers|, message)
    {
      var n := 0;
      while n < |pers|
        invariant 0 <= n <= |pers|
        invariant s.sent == old(s.sent) + Chatted(pers, n, message)
      {
        var wire := s.SendTo(message, pers[n], None);
        n := n + 1;
      }
    }

    // One turn of the loop of main; false when it breaks out.
    method Turn(s: UdpXdea, i: Input)
      requires Ready() && Wired(s) && running
      requires i.rx.Some? ==> Whole(cfg, i.rx.value)
      modifies this, s`sent, s`rsin, s`syserr, s.buff, udpbuffer
      ensures var e := PeerModel.Turn(cfg, old(View()), i);
              View() == e.st && s.sent == old(s.sent) + e.sent
    {
      hide PeerModel.Received, Chatted, Registered, Whole;
      TimerPart(s, i.now, i.sendOk);
      if !running {
        return;
      }
      if i.rx.Some? {
        RecUdp(s, i.rx.value, i.now, i.clock);
      }
      IamHerePart(i.now);
      if status == PER_LINKED {
        if i.chat.Some? {
          SendToPers(s, i.chat.value);
        }
      }
    }

    // The registration timer of main.
    method TimerPart(s: UdpXdea, now: int, sendOk: bool)
      requires Ready() && Wired(s) && running
      modifies this, s`sent, s.buff
      ensures var e := Registered(cfg, old(View()), now, sendOk);
              View() == e.st && s.sent == old(s.sent) + e.sent
    {
      hide Seal, Registration, KeyOf;
      if status == SRV_UNREGISTERED {
        if now - regtime > REG_TICK {
          regtime := now;
          s.SendCap(Registration(cfg), Saddr(cfg.srv.addr, cfg.srv.port, 0xFFFF_FFFF), KeyOf(cfg));
          if !sendOk {
            running := false;
          }
        }
      }
    }

    // The IAM_HERE_TO block of main.
    method IamHerePart(now: int)
      modifies this
      ensures View() == Ticked(old(View()), now)
    {
      if now - iah > IAM_HERE_TO {
        iah := now;
        pingtime := now;
        if now - pingtime > SERVER_DOWN_TO {
          // forgetting all peers and registering again is never reached
          assert false;
        }
      }
    }

    // main: turns until the input ends or a send finds no server.
    method MainLoop(s: UdpXdea, ins: seq<Input>)
      requires Ready() && Wired(s) && running
      requires forall n :: 0 <= n < |ins| ==> Acceptable(ins[n])
      modifies this, s`sent, s`rsin, s`syserr, s.buff, udpbuffer
      ensures var e := Run(cfg, old(View()), ins);
              View() == e.st && s.sent == old(s.sent) + e.sent
    {
      hide PeerModel.Turn;
      ghost var st, sent := View(), s.sent;
      assert sent + [] == sent;
      var n := 0;
      while n < |ins|
        invariant 0 <= n <= |ins|
        invariant View() == Run(cfg, st, ins[..n]).st
        invariant s.sent == sent + Run(cfg, st, ins[..n]).sent
      {
        assert ins[..n + 1][..n] == ins[..n];
        if !running {
          StoppedTurn(cfg, View(), ins[n]);
        } else {
          assert Acceptable(ins[n]);
          Turn(s, ins[n]);
        }
        n := n + 1;
      }
      assert ins[..n] == ins;
    }

    ghost predicate Acceptable(i: Input) {
      i.rx.Some? ==> Whole(cfg, i.rx.value)
    }
  }
}
