// What the parts of a peer's turn do, seen from outside (a_peer.cpp): the registration timer, the
// verbs, what is typed and what is heard.
module PeerTurns {
  import opened Words
  import opened Address
  import opened Capsule
  import opened Udp
  import opened PeerRuns
  import opened PeerSends
  import P = PeerModel

  // --- the registration timer ---

  // A running peer registers, before anything else, exactly when it has no link and 11 seconds
  // have passed; unless a capsule names the server, it sends the server nothing but that.
  lemma {:induction false} TimerExactly(cfg: P.Config, st: P.State, i: P.Input)
    requires P.Usable(cfg) && Fine(st) && Away(cfg, st.pers) && st.running
    ensures var sent := P.Turn(cfg, st, i).sent;
            var due := st.status != 11 && i.now - st.regtime >= 11;
            && (due ==> sent != [] && sent[0] == Registration(cfg))
            && (Strays(cfg, st, i) == 0 ==> ToServer(cfg, sent) == if due then [Registration(cfg)] else [])
  {
    hide P.Turn, ToServer, Registration, Strays, Away;
    TurnToServer(cfg, st, i);
    if P.Registers(st, i.now) {
      FirstSent(cfg, st, i);
    }
  }

  lemma FirstSent(cfg: P.Config, st: P.State, i: P.Input)
    requires P.Usable(cfg) && st.running && P.Registers(st, i.now)
    ensures var sent := P.Turn(cfg, st, i).sent; sent != [] && sent[0] == Registration(cfg)
  {
    hide P.Turn, P.Registration, Seal, P.KeyOf;
    RegisterTurnSends(cfg, st, i);
  }

  // One of the first n capsules of a server datagram has this verb.
  predicate Carries(cfg: P.Config, bytes: seq<byte>, n: nat, verb: byte)
    requires n * SIZE <= |bytes|
  {
    n != 0 && (Carries(cfg, bytes, n - 1, verb) || Open(bytes[n * SIZE - SIZE..n * SIZE], P.KeyOf(cfg))[0] == verb)
  }

  // The server's acknowledgement arrives.
  predicate Acknowledged(cfg: P.Config, rx: Packet) {
    var bytes := P.Fitted(rx.bytes);
    |bytes| >= SIZE && P.FromServer(cfg, rx.src) && Carries(cfg, bytes, |bytes| / SIZE, 2)
  }

  lemma {:induction false} CapsulesRegtime(cfg: P.Config, st: P.State, bytes: seq<byte>, n: nat, now: int, clock: int)
    requires n * SIZE <= |bytes|
    ensures P.Capsules(cfg, st, bytes, n, now, clock).st.regtime
         == if Carries(cfg, bytes, n, 2) then clock else st.regtime
  {
    hide P.KeyOf, Open, P.Peering;
    if n == 0 {
    } else {
      CapsulesRegtime(cfg, st, bytes, n - 1, now, clock);
    }
  }

  lemma ReceivedRegtime(cfg: P.Config, st: P.State, rx: Packet, now: int, clock: int)
    ensures P.Received(cfg, st, rx, now, clock).st.regtime == if Acknowledged(cfg, rx) then clock else st.regtime
  {
    hide P.KeyOf, Open, Seal, P.Capsules, Carries, P.FromServer, Insert, P.Delivered;
    var bytes := P.Fitted(rx.bytes);
    if |bytes| >= SIZE && P.FromServer(cfg, rx.src) {
      CapsulesRegtime(cfg, st, bytes, |bytes| / SIZE, now, clock);
    }
  }

  // _regtime after a turn is the time of its last acknowledgement, else of its registration.
  lemma TurnRegtimeExactly(cfg: P.Config, st: P.State, i: P.Input)
    requires P.Usable(cfg) && Fine(st) && st.running
    ensures var due := st.status != 11 && i.now - st.regtime >= 11;
            var acknowledged := (due ==> i.sendOk) && i.rx.Some? && Acknowledged(cfg, i.rx.value);
            P.Turn(cfg, st, i).st.regtime == if acknowledged then i.clock else if due then i.now else st.regtime
  {
    hide P.Registration, P.KeyOf, Seal, P.Received, Acknowledged, P.Chatted, Ascending, Address.Received;
    var a := P.Registered(cfg, st, i.now, i.sendOk).st;
    if i.rx.Some? {
      ReceivedRegtime(cfg, a, i.rx.value, i.now, i.clock);
    }
  }

  // When a peer last registered or was acknowledged, told without _regtime.
  function LastHeard(cfg: P.Config, start: int, ins: seq<P.Input>): int
    requires P.Usable(cfg)
  {
    if ins == [] then 0
    else
      var front, i := ins[..|ins| - 1], ins[|ins| - 1];
      var st, before := P.Run(cfg, P.Start(start), front).st, LastHeard(cfg, start, front);
      var due := st.status != 11 && i.now - before >= 11;
      if !st.running then before
      else if (due ==> i.sendOk) && i.rx.Some? && Acknowledged(cfg, i.rx.value) then i.clock
      else if due then i.now else before
  }

  lemma {:induction false} RegtimeInRun(cfg: P.Config, start: int, ins: seq<P.Input>)
    requires P.Usable(cfg)
    ensures P.Run(cfg, P.Start(start), ins).st.regtime == LastHeard(cfg, start, ins)
  {
    hide P.Turn, Acknowledged, Fine;
    if ins == [] {
    } else {
      var front, last := ins[..|ins| - 1], ins[|ins| - 1];
      var st := P.Run(cfg, P.Start(start), front).st;
      RegtimeInRun(cfg, start, front);
      RunFine(cfg, start, front);
      if st.running {
        TurnRegtimeExactly(cfg, st, last);
      } else {
        P.StoppedTurn(cfg, st, last);
      }
    }
  }

  // In every run a peer that has no link registers again in the first turn that comes 11 seconds
  // or more after its last registration or acknowledgement, and in no turn before; a linked peer
  // never does.
  lemma {:induction false} RegistersAgain(cfg: P.Config, start: int, ins: seq<P.Input>, i: P.Input)
    requires P.Usable(cfg) && P.Run(cfg, P.Start(start), ins).st.running
    ensures var st := P.Run(cfg, P.Start(start), ins).st;
            var sent := P.Turn(cfg, st, i).sent;
            var due := st.status != 11 && i.now - LastHeard(cfg, start, ins) >= 11;
            && (due ==> sent != [] && sent[0] == Registration(cfg))
            && (Strays(cfg, st, i) == 0 ==> ToServer(cfg, sent) == if due then [Registration(cfg)] else [])
  {
    hide P.Run, P.Turn, LastHeard, Strays, Registration, ToServer, Fine, Away, RegisterTimes, RunStrays;
    RegtimeInRun(cfg, start, ins);
    RunFine(cfg, start, ins);
    RunToServer(cfg, start, ins);
    TimerExactly(cfg, P.Run(cfg, P.Start(start), ins).st, i);
  }

  // A send that finds no server ends the peer in that turn, before it receives anything.
  lemma NoServerStops(cfg: P.Config, st: P.State, i: P.Input)
    requires P.Usable(cfg) && Fine(st) && st.running && st.status != 11 && i.now - st.regtime >= 11 && !i.sendOk
    ensures P.Turn(cfg, st, i) == P.Effect(st.(regtime := i.now, running := false), [Registration(cfg)])
  {
    hide P.Registration, Seal, P.KeyOf, Ascending, Address.Received;
  }

  // Every 16 seconds both clocks of the peer are set; nothing else comes of it.
  lemma TickedAfter16(st: P.State, now: int)
    ensures P.Ticked(st, now) == if now - st.iah >= 16 then st.(iah := now, pingtime := now) else st
  {
  }

  // A datagram is cut at 10024 bytes.
  lemma CutAtMaxUdp(bytes: seq<byte>)
    ensures P.Fitted(bytes) <= bytes && |P.Fitted(bytes)| == if |bytes| < 10024 then |bytes| else 10024
  {
  }

  // --- the verbs of the server ---

  // The first byte of a capsule decides: 2 renews the timer, 5 makes the peer register again, 3
  // sends one ping; links and texts stay.
  lemma ServerVerbs(st: P.State, c: SrvCap, now: int, clock: int)
    requires st.status == 5 || st.status == 11
    ensures var e := P.SrvProcess(st, c, now, clock);
            && e.st.regtime == (if c[0] == 2 then clock else st.regtime)
            && e.st.status == (if c[0] == 5 then 5 else st.status)
            && |e.sent| == (if c[0] == 3 then 1 else 0)
            && e.st.pers == st.pers && e.st.heard == st.heard && e.st.running == st.running
            && e.st.pingtime == now && e.st.iah == st.iah
  {
    hide P.Peering;
  }

  // Every capsule of a datagram that introduces somebody makes a ping.
  lemma {:induction false} EveryIntroductionPinged(cfg: P.Config, st: P.State, bytes: seq<byte>, n: nat, k: nat,
      now: int, clock: int)
    requires k < n && n * SIZE <= |bytes|
    requires Open(bytes[k * SIZE..k * SIZE + SIZE], P.KeyOf(cfg))[0] == 3
    ensures var c := Open(bytes[k * SIZE..k * SIZE + SIZE], P.KeyOf(cfg));
            P.Peering(c) in P.Capsules(cfg, st, bytes, n, now, clock).sent
  {
    hide P.KeyOf, Open, P.Peering;
    if n - 1 == k {
    } else {
      EveryIntroductionPinged(cfg, st, bytes, n - 1, k, now, clock);
    }
  }

  // --- what peers say to each other ---

  // A capsule that starts with a colon is a text: it is printed whole, and makes a link.
  lemma DataHeard(cfg: P.Config, st: P.State, src: Place, bytes: seq<byte>, now: int)
    requires |bytes| >= SIZE && Open(bytes[..SIZE], P.KeyOf(cfg))[0] == 58
    ensures P.PerProcess(cfg, st, src, bytes, now)
         == P.Effect(st.(heard := st.heard + [P.Heard(src, CStr(bytes[1..]))], status := 11), [])
  {
    hide Open, P.KeyOf, Seal, CStr;
  }

  // Any other verb of a peer sends nothing; 7, the server's ping, sets the ping time.
  lemma OtherPeerVerbs(cfg: P.Config, st: P.State, src: Place, bytes: seq<byte>, now: int)
    requires |bytes| >= SIZE && Open(bytes[..SIZE], P.KeyOf(cfg))[0] !in {58, 8, 10}
    ensures var e := P.PerProcess(cfg, st, src, bytes, now);
            e == P.Effect(if Open(bytes[..SIZE], P.KeyOf(cfg))[0] == 7 then st.(pingtime := now) else st, [])
  {
    hide Open, P.KeyOf, Seal;
  }

  // In a turn that ends linked, a finished line goes to every linked peer as typed; otherwise to nobody.
  lemma LineGoesOut(cfg: P.Config, st: P.State, i: P.Input, message: seq<byte>)
    requires P.Usable(cfg) && st.running && i.chat == Some(message)
    ensures var quiet, e := P.Turn(cfg, st, i.(chat := None)), P.Turn(cfg, st, i);
            && e.st == quiet.st
            && quiet.sent <= e.sent
            && (e.st.running && e.st.status == 11 ==>
                  && |e.sent| == |quiet.sent| + |e.st.pers|
                  && forall k :: 0 <= k < |e.st.pers| ==>
                       e.sent[|quiet.sent| + k] == Datagram(Place(e.st.pers[k].addr, e.st.pers[k].port), message))
            && (e.st.running && e.st.status != 11 ==> e.sent == quiet.sent)
  {
    hide P.Received, P.Registered, P.Chatted, P.Registers;
    var a := P.Registered(cfg, st, i.now, i.sendOk);
    if a.st.running {
      var b := if i.rx.Some? then P.Received(cfg, a.st, i.rx.value, i.now, i.clock) else P.Effect(a.st, []);
      var t := P.Ticked(b.st, i.now);
      ChattedTo(t.pers, |t.pers|, message);
    }
  }

  lemma {:induction false} NoZeros(s: seq<byte>)
    requires P.NoZero(s)
    ensures CStr(s) == s
  {
    if s == [] {
    } else {
      NoZeros(s[1..]);
    }
  }

  // What is typed is heard: a short line from a linked peer is printed once, without its first
  // character, the colon the line starts with.
  lemma {:induction false} TypedIsHeard(cfg: P.Config, start: int, ins: seq<P.Input>, src: Place, message: seq<byte>, now: int, clock: int)
    requires P.Usable(cfg) && 0 < |message| < SIZE && P.NoZero(message) && src.port != 0
    requires Clashes(P.Run(cfg, P.Start(start), ins).st.pers, Remote(src))
    ensures var st := P.Run(cfg, P.Start(start), ins).st;
            var heard := st.heard + [P.Heard(src, message[1..])];
            P.Received(cfg, st, Packet(src, message), now, clock) == P.Effect(st.(heard := heard), [])
  {
    hide P.Turn, P.Run, Eq, Lt, P.Delivered, Clashes, CStr;
    RunFine(cfg, start, ins);
    var st := P.Run(cfg, P.Start(start), ins).st;
    DeliveredCount(st.pers, |st.pers|, src, message);
    assert st.pers[..|st.pers|] == st.pers;
    MatchesAtMostOnce(st.pers, Remote(src));
    MatchesSome(st.pers, Remote(src));
    NoZeros(message[1..]);
    var d := P.Delivered(st.pers, |st.pers|, src, message);
    assert |d| == 1 && d[0] in d;
    assert d == [P.Shown(src, message)];
  }

  lemma {:induction false} MatchesSome(s: seq<Saddr>, src: Saddr)
    requires Clashes(s, src)
    ensures Matches(s, src) >= 1
  {
    hide Eq;
    if Eq(s[0], src) {
    } else {
      MatchesSome(s[1..], src);
    }
  }

  // --- nothing is forgotten ---

  // Links and texts stay: the branch that would forget all peers is never taken.
  lemma TurnForgetsNothing(cfg: P.Config, st: P.State, i: P.Input)
    requires P.Usable(cfg)
    ensures var t := P.Turn(cfg, st, i).st;
            (forall x :: x in st.pers ==> x in t.pers) && st.heard <= t.heard
  {
    hide P.KeyOf, Open, Seal, P.Registration, P.Capsules, P.Delivered, P.Chatted, Insert, P.FromServer;
    var a := P.Registered(cfg, st, i.now, i.sendOk).st;
    if st.running && a.running && i.rx.Some? {
      var rx := i.rx.value;
      var bytes := P.Fitted(rx.bytes);
      if |bytes| >= SIZE {
        CapsulesKeepAll(cfg, a, bytes, |bytes| / SIZE, i.now, i.clock);
        forall x | x in st.pers ensures x in Insert(a.pers, Remote(rx.src)) {
          InsertElements(a.pers, Remote(rx.src), x);
        }
      }
    }
  }

  lemma {:induction false} RunForgetsNothing(cfg: P.Config, st: P.State, ins: seq<P.Input>, n: nat)
    requires P.Usable(cfg) && n <= |ins|
    ensures var early, late := P.Run(cfg, st, ins[..n]).st, P.Run(cfg, st, ins).st;
            (forall x :: x in early.pers ==> x in late.pers) && early.heard <= late.heard
  {
    hide P.Turn;
    if n == |ins| {
      assert ins[..n] == ins;
    } else {
      var front := ins[..|ins| - 1];
      assert front[..n] == ins[..n];
      RunForgetsNothing(cfg, st, front, n);
      TurnForgetsNothing(cfg, P.Run(cfg, st, front).st, ins[|ins| - 1]);
    }
  }
}
