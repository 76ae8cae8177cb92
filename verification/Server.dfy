// u_server.cpp: the server object, its handlers and its main loop.
module Server {
  import opened Words
  import opened Cipher
  import opened Capsule
  import opened Udp
  import opened Tables
  import opened Access
  import opened Database
  import opened Announce
  import opened ServerModel

  class UServer {
    const h: Hasher
    const sq: Sqlyte
    // `receive` fills this buffer; the capsule `pl` of main is its contents.
    const inbox: array<byte>
    var prev: SrvCap
    var dirty: bool
    var pingpers: int
    var pl: SrvCap
    var keys: Key

    constructor (h: Hasher, mids: seq<Mid>, keys: Key)
      ensures fresh(sq) && fresh(inbox) && Ready()
      ensures this.h == h && View() == Start(mids, keys)
      ensures View().db == Db(PersTable([], 1), mids, []) && !View().dirty && View().pingpers == 0
    {
      this.h := h;
      sq := new Sqlyte(mids);
      inbox := new byte[SIZE];
      prev, dirty, pingpers, pl := ZERO_CAP, false, 0, ZERO_CAP;
      this.keys := keys;
    }

    ghost predicate Ready() {
      inbox.Length == SIZE
    }

    ghost predicate Wired(s: UdpXdea) {
      s.buff.Length == MAX_UDP && s.buff != inbox
    }

    ghost function View(): State
      reads this, sq
    {
      State(sq.View(), prev, dirty, pingpers, pl, keys)
    }

    method StorePeer(s: UdpXdea, pub: Ipp, i: Input, ghost src: Place)
      requires Ready() && Wired(s) && s.rsin == Remote(src) && pub == PubOf(src, pl)
      modifies this, sq, s`sent, s.buff
      ensures var e := ServerModel.StorePeer(h, old(View()), src, i.now, i.selected);
              View() == e.st && s.sent == old(s.sent) + e.sent
    {
      hide Id, Name, Seal, Cleared, Stored, HasK;
      if prev != pl {
        prev := pl;
        var crc := h(pub.a, pub.p, Id(pl), keys);
        dirty := sq.StorePeer(Name(pl), crc, pub, keys, i.now, i.selected);
        if dirty {
          pl := WithVerb(pl, SRV_REGISTERRED);
          pl := Cleared(pl);
          s.SendCap(pl, s.rsin, keys);
        }
      }
    }

    method Process(s: UdpXdea, i: Input, ghost src: Place)
      requires Ready() && Wired(s) && s.rsin == Remote(src)
      modifies this, sq, s`sent, s.buff
      ensures var e := ServerModel.Process(h, old(View()), src, i);
              View() == e.st && s.sent == old(s.sent) + e.sent
    {
      hide ServerModel.StorePeer, Seen, Without, Typ;
      var verb := Verb(pl);
      if verb == PER_AIH {
        sq.UpdatePeer(Swap32(s.rsin.addr), Swap16(s.rsin.port), i.now);
      } else if verb == SRV_REGISTER {
        var pub := Ipp(Swap32(s.rsin.addr), Swap16(s.rsin.port), Typ(pl), [0, 0, 0, 0]);
        StorePeer(s, pub, i, src);
      } else if verb == SRV_UNREGISTER {
        pl := WithVerb(pl, SRV_UNREGISTERED);
        var wire := s.SendTo(pl, s.rsin, None);
        sq.RemovePeer(i.removed);
        dirty := i.removeOk;
      }
    }

    // _ping_pers
    method PingPers(s: UdpXdea)
      requires Ready() && Wired(s)
      modifies this`pl, s`sent, s.buff
      ensures var o := Announced(old(pl), Listed(sq.pers.rows));
              pl == o.pl && s.sent == old(s.sent) + o.sent
    {
      hide Notes, InnerNotes, Listed, Shown, Announced, Seal;
      var pers := sq.GetPers();
      ghost var base, start := pl, s.sent;
      ShownNothing(pl, pers, s.sent);
      var n := 0;
      while n < |pers|
        invariant 0 <= n <= |pers|
        invariant Shown(base, pers, Notes(pers, n), start, pl, s.sent)
        invariant if n == 0 then pl == base else Verb(pl) == SRV_SET_PEER
      {
        ghost var notes := Notes(pers, n);
        ShownMore(base, pers, notes, start, pl, s.sent, Ping(n));
        pl := WithVerb(pl, SRV_PING);
        s.SendCapToIpp(pl, pers[n]);
        IntroduceRow(s, pers, n, base, notes + [Ping(n)], start);
        NotesNext(pers, n);
        n := n + 1;
      }
      ShownAll(base, pers, start, pl, s.sent);
    }

    // The inner loop of _ping_pers for row i.
    method IntroduceRow(s: UdpXdea, pers: seq<Ipp>, i: nat, ghost base: SrvCap, ghost notes: seq<Note>,
                        ghost start: seq<Datagram>)
      requires Ready() && Wired(s) && i < |pers|
      requires Shown(base, pers, notes, start, pl, s.sent)
      modifies this`pl, s`sent, s.buff
      ensures Shown(base, pers, notes + InnerNotes(pers, i, |pers|), start, pl, s.sent)
      ensures Verb(pl) == SRV_SET_PEER
    {
      hide Shown, Seal, WithPublic;
      assert notes + InnerNotes(pers, i, 0) == notes;
      var j := 0;
      while j < |pers|
        invariant 0 <= j <= |pers|
        invariant Shown(base, pers, notes + InnerNotes(pers, i, j), start, pl, s.sent)
        invariant j > 0 ==> Verb(pl) == SRV_SET_PEER
      {
        ghost var now := notes + InnerNotes(pers, i, j);
        ShownMarked(base, pers, now, start, pl, s.sent);
        pl := WithVerb(pl, SRV_SET_PEER);
        if pers[i].t != pers[j].t {
          IntroducePair(s, pers, i, j, base, now, start);
          assert now + [Naming(j, i)] + [Naming(i, j)]
              == notes + (InnerNotes(pers, i, j) + [Naming(j, i), Naming(i, j)]);
        } else {
          assert now == notes + (InnerNotes(pers, i, j) + []);
        }
        j := j + 1;
      }
    }

    // Row j is told of row i, then row i of row j.
    method IntroducePair(s: UdpXdea, pers: seq<Ipp>, i: nat, j: nat, ghost base: SrvCap, ghost notes: seq<Note>,
                         ghost start: seq<Datagram>)
      requires Ready() && Wired(s) && i < |pers| && j < |pers| && Verb(pl) == SRV_SET_PEER
      requires Shown(base, pers, notes, start, pl, s.sent)
      modifies this`pl, s`sent, s.buff
      ensures Shown(base, pers, notes + [Naming(j, i)] + [Naming(i, j)], start, pl, s.sent)
      ensures Verb(pl) == SRV_SET_PEER
    {
      hide Shown, Seal, WithPublic, Written;
      WrittenNaming(pl, pers, Naming(j, i));
      ShownMore(base, pers, notes, start, pl, s.sent, Naming(j, i));
      pl := WithPublic(pl, pers[i]);
      s.SendCapToIpp(pl, pers[j]);
      WrittenNaming(pl, pers, Naming(i, j));
      ShownMore(base, pers, notes + [Naming(j, i)], start, pl, s.sent, Naming(i, j));
      pl := WithPublic(pl, pers[j]);
      s.SendCapToIpp(pl, pers[i]);
    }

    method Deny(s: UdpXdea)
      modifies sq
      ensures sq.View() == old(sq.View()).(rej := Denied(old(sq.rej), Swap32(s.rsin.addr)))
    {
      // a rejected address would be handed to the firewall, which is switched off
      var reject := sq.Deny(Swap32(s.rsin.addr));
    }

    // The part of the loop of main that handles what select found.
    method Handle(s: UdpXdea, rx: Packet, i: Input)
      requires Ready() && Wired(s)
      modifies this, sq, inbox, s`sent, s`rsin, s`syserr, s.buff
      ensures var e := ServerModel.Handled(h, old(View()), rx, i);
              View() == e.st && s.sent == old(s.sent) + e.sent
    {
      hide Authorized, Denied, ServerModel.Process;
      Fill(pl);
      var got := s.Receive(inbox, SIZE, Got(rx));
      pl := inbox[..];
      assert inbox[..] == inbox[..got] + inbox[got..];
      assert pl == Overwritten(old(pl), rx.bytes);
      assert s.sent + [] == s.sent;
      if got == SIZE {
        var v := sq.Authorize(pl, Swap32(s.rsin.addr), keys);
        keys := v.keys;
        pl := v.pl;
        if !v.ok {
          Deny(s);
        } else {
          Process(s, i, rx.src);
        }
      }
    }

    // The buffer holds the shared capsule.
    method Fill(c: SrvCap)
      requires Ready()
      modifies inbox
      ensures inbox[..] == c
    {
      var n := 0;
      while n < SIZE
        invariant 0 <= n <= SIZE
        invariant inbox[..n] == c[..n]
      {
        inbox[n] := c[n];
        n := n + 1;
      }
    }

    // One turn of the loop of main.
    method Turn(s: UdpXdea, i: Input)
      requires Ready() && Wired(s)
      modifies this, sq, inbox, s`sent, s`rsin, s`syserr, s.buff
      ensures var e := ServerModel.Turn(h, old(View()), i);
              View() == e.st && s.sent == old(s.sent) + e.sent
    {
      hide ServerModel.Handled, Announced, Younger, Listed;
      if i.rx.Some? {
        Handle(s, i.rx.value, i);
      }
      if i.now - pingpers > TTLIVE || dirty {
        pingpers := i.now;
        PingPers(s);
        prev := ZERO_CAP;
        sq.DelOldies(i.cutoff);
        dirty := false;
      }
    }

    // main over any number of turns.
    method MainLoop(s: UdpXdea, ins: seq<Input>)
      requires Ready() && Wired(s)
      modifies this, sq, inbox, s`sent, s`rsin, s`syserr, s.buff
      ensures var e := Run(h, old(View()), ins);
              View() == e.st && s.sent == old(s.sent) + e.sent
    {
      hide ServerModel.Turn;
      ghost var st, sent := View(), s.sent;
      assert sent + [] == sent;
      var n := 0;
      while n < |ins|
        invariant 0 <= n <= |ins|
        invariant View() == Run(h, st, ins[..n]).st
        invariant s.sent == sent + Run(h, st, ins[..n]).sent
      {
        assert ins[..n + 1][..n] == ins[..n];
        Turn(s, ins[n]);
        n := n + 1;
      }
      assert ins[..n] == ins;
    }
  }
}
