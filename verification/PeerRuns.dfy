// What holds of a peer over whole runs of its main loop (a_peer.cpp).
module PeerRuns {
  import opened Words
  import opened Address
  import opened Capsule
  import opened Udp
  import P = PeerModel

  // --- status and the set of linked peers ---

  // The status is one of two, and the linked peers are received addresses in ascending order.
  ghost predicate Fine(st: P.State) {
    && (st.status == SRV_UNREGISTERED || st.status == PER_LINKED)
    && Ascending(st.pers) && Address.Received(st.pers)
  }

  lemma {:induction false} CapsulesFine(cfg: P.Config, st: P.State, bytes: seq<byte>, n: nat, now: int, clock: int)
    requires Fine(st) && n * SIZE <= |bytes|
    ensures var e := P.Capsules(cfg, st, bytes, n, now, clock);
            && Fine(e.st) && e.st.pers == st.pers && e.st.heard == st.heard && e.st.running == st.running
            && (e.st.regtime == st.regtime || e.st.regtime == clock)
  {
    hide Ascending, Address.Received, P.KeyOf, Open, P.Peering;
    if n == 0 {
    } else {
      CapsulesFine(cfg, st, bytes, n - 1, now, clock);
    }
  }

  lemma ReceivedFine(cfg: P.Config, st: P.State, rx: Packet, now: int, clock: int)
    requires Fine(st)
    ensures Fine(P.Received(cfg, st, rx, now, clock).st)
  {
    hide Ascending, Address.Received, P.KeyOf, Open, Seal, P.Capsules, P.Delivered, Insert, P.FromServer;
    var bytes := P.Fitted(rx.bytes);
    if |bytes| >= SIZE && P.FromServer(cfg, rx.src) {
      CapsulesFine(cfg, st, bytes, |bytes| / SIZE, now, clock);
    } else {
      InsertKeepsOrder(st.pers, Remote(rx.src));
    }
  }

  lemma TurnFine(cfg: P.Config, st: P.State, i: P.Input)
    requires P.Usable(cfg) && Fine(st)
    ensures Fine(P.Turn(cfg, st, i).st)
  {
    hide Ascending, Address.Received, P.KeyOf, Seal, P.Registration, P.Received, P.Chatted;
    var a := P.Registered(cfg, st, i.now, i.sendOk).st;
    if st.running && a.running && i.rx.Some? {
      ReceivedFine(cfg, a, i.rx.value, i.now, i.clock);
    }
  }

  // In every run the status is SRV_UNREGISTERED or PER_LINKED: the promotions guarded by
  // SRV_UNREGISTER never happen. No two linked peers are ==.
  lemma {:induction false} RunFine(cfg: P.Config, start: int, ins: seq<P.Input>)
    requires P.Usable(cfg)
    ensures Fine(P.Run(cfg, P.Start(start), ins).st)
    ensures var pers := P.Run(cfg, P.Start(start), ins).st.pers;
            forall i, j :: 0 <= i < j < |pers| ==> !Eq(pers[i], pers[j])
  {
    hide P.Turn, Lt, Eq;
    if ins == [] {
    } else {
      RunFine(cfg, start, ins[..|ins| - 1]);
      TurnFine(cfg, P.Run(cfg, P.Start(start), ins[..|ins| - 1]).st, ins[|ins| - 1]);
    }
    var pers := P.Run(cfg, P.Start(start), ins).st.pers;
    forall i, j | 0 <= i < j < |pers| ensures !Eq(pers[i], pers[j]) {
      Trichotomy(pers[i], pers[j]);
    }
  }

  // --- delivery of short datagrams ---

  lemma {:induction false} DeliveredCount(pers: seq<Saddr>, n: nat, src: Place, bytes: seq<byte>)
    requires n <= |pers| && bytes != []
    ensures |P.Delivered(pers, n, src, bytes)| == Matches(pers[..n], Remote(src))
    ensures forall h :: h in P.Delivered(pers, n, src, bytes) ==> h == P.Shown(src, bytes)
  {
    hide Eq;
    if n == 0 {
    } else {
      DeliveredCount(pers, n - 1, src, bytes);
      assert pers[..n] == pers[..n - 1] + [pers[n - 1]];
      MatchesAppend(pers[..n - 1], pers[n - 1], Remote(src));
    }
  }

  lemma {:induction false} MatchesAppend(s: seq<Saddr>, x: Saddr, src: Saddr)
    ensures Matches(s + [x], src) == Matches(s, src) + if Eq(x, src) then 1 else 0
  {
    hide Eq;
    if s == [] {
    } else {
      assert (s + [x])[1..] == s[1..] + [x];
      MatchesAppend(s[1..], x, src);
    }
  }

  // After any run a datagram too short for a capsule is delivered at most once, exactly unless
  // it comes from port 0 while two peers are linked; port 0 reaches all of them.
  lemma {:induction false} ShortDeliveredAtMostOnce(cfg: P.Config, start: int, ins: seq<P.Input>, rx: Packet, now: int,
        clock: int)
    requires P.Usable(cfg) && 0 < |rx.bytes| < SIZE
    ensures var st := P.Run(cfg, P.Start(start), ins).st;
            var e := P.Received(cfg, st, rx, now, clock);
            && e.sent == [] && e.st == st.(heard := e.st.heard)
            && st.heard <= e.st.heard
            && (|e.st.heard| <= |st.heard| + 1 <==> rx.src.port != 0 || |st.pers| <= 1)
  {
    hide P.Turn, Eq, Lt;
    RunFine(cfg, start, ins);
    var st := P.Run(cfg, P.Start(start), ins).st;
    DeliveredCount(st.pers, |st.pers|, rx.src, rx.bytes);
    assert st.pers[..|st.pers|] == st.pers;
    MatchesAtMostOnce(st.pers, Remote(rx.src));
  }

  // --- what users type ---

  lemma {:induction false} ChattedTo(pers: seq<Saddr>, n: nat, message: seq<byte>)
    requires n <= |pers|
    ensures |P.Chatted(pers, n, message)| == n
    ensures forall k :: 0 <= k < n ==> P.Chatted(pers, n, message)[k] == Datagram(PlaceOf(pers[k]), message)
  {
    if n == 0 {
    } else {
      ChattedTo(pers, n - 1, message);
    }
  }

  // After any run a line goes to every linked peer once, as typed, and to no port twice.
  lemma {:induction false} ChatReachesEachLinkOnce(cfg: P.Config, start: int, ins: seq<P.Input>, message: seq<byte>)
    requires P.Usable(cfg)
    ensures var pers := P.Run(cfg, P.Start(start), ins).st.pers;
            var sent := P.Chatted(pers, |pers|, message);
            && |sent| == |pers|
            && (forall k :: 0 <= k < |pers| ==> sent[k] == Datagram(PlaceOf(pers[k]), message))
            && (forall k, l :: 0 <= k < l < |pers| ==> sent[k].dst.port != sent[l].dst.port)
  {
    hide P.Turn, Lt, Eq, P.Chatted;
    RunFine(cfg, start, ins);
    var pers := P.Run(cfg, P.Start(start), ins).st.pers;
    hide P.Run;
    ChattedTo(pers, |pers|, message);
    AscendingPorts(pers);
  }

  // --- the registration timer ---

  // The clock of the run never goes back.
  ghost predicate Clocked(ins: seq<P.Input>) {
    && (forall k :: 0 <= k < |ins| ==> ins[k].now <= ins[k].clock)
    && (forall k, l :: 0 <= k < l < |ins| ==> NotAfter(ins[k], ins[l]))
  }

  predicate NotAfter(a: P.Input, b: P.Input) {
    a.clock <= b.now
  }

  // The times of the turns in which the peer sent SRV_REGISTER.
  function RegisterTimes(cfg: P.Config, st: P.State, ins: seq<P.Input>): seq<int>
    requires |cfg.meikey| < TYP - UNION && |cfg.id| < ID_END - ID
  {
    if ins == [] then []
    else
      var front, last := ins[..|ins| - 1], ins[|ins| - 1];
      var before := P.Run(cfg, st, front).st;
      RegisterTimes(cfg, st, front) + if before.running && P.Registers(before, last.now) then [last.now] else []
  }

  // In those turns the registration capsule goes to the server first of all.
  lemma RegisterTurnSends(cfg: P.Config, st: P.State, i: P.Input)
    requires P.Usable(cfg) && st.running && P.Registers(st, i.now)
    ensures var sent := P.Turn(cfg, st, i).sent;
            sent != [] && sent[0] == Datagram(cfg.srv, Seal(P.Registration(cfg), P.KeyOf(cfg)))
  {
    hide Seal, P.Registration, P.KeyOf, P.Received, P.Chatted, P.Ticked;
  }

  // What a turn does to _regtime.
  lemma TurnRegtime(cfg: P.Config, st: P.State, i: P.Input)
    requires P.Usable(cfg) && Fine(st)
    ensures var r := P.Turn(cfg, st, i).st.regtime;
            || r == (if st.running && P.Registers(st, i.now) then i.now else st.regtime)
            || r == i.clock
  {
    hide Ascending, Address.Received, P.KeyOf, Open, Seal, P.Registration, P.Capsules, P.Delivered, P.Chatted, Insert,
        P.FromServer;
    var a := P.Registered(cfg, st, i.now, i.sendOk).st;
    if st.running && a.running && i.rx.Some? {
      var bytes := P.Fitted(i.rx.value.bytes);
      if |bytes| >= SIZE {
        CapsulesFine(cfg, a, bytes, |bytes| / SIZE, i.now, i.clock);
      }
    }
  }

  ghost predicate Spaced(times: seq<int>) {
    forall k :: 0 <= k < |times| - 1 ==> times[k + 1] - times[k] >= 11
  }

  // The times are spaced, lie in the run so far, and _regtime is not before the last of them.
  ghost predicate Timed(times: seq<int>, first: int, latest: int, regtime: int) {
    && Spaced(times)
    && (times == [] || (first <= times[0] && times[|times| - 1] <= latest && times[|times| - 1] <= regtime))
  }

  lemma TimedStep(times: seq<int>, first: int, latest: int, regtime: int, fires: bool, now: int, clock: int, next: int)
    requires Timed(times, first, latest, regtime)
    requires first <= now <= clock && (times != [] ==> latest <= now)
    requires fires ==> now - regtime > REG_TICK
    requires next == (if fires then now else regtime) || next == clock
    ensures Timed(if fires then times + [now] else times, first, now, next)
  {
  }

  lemma {:induction false} RegistrationsSpaced(cfg: P.Config, start: int, ins: seq<P.Input>)
    requires P.Usable(cfg) && Clocked(ins) && ins != []
    ensures Timed(RegisterTimes(cfg, P.Start(start), ins), ins[0].now, ins[|ins| - 1].now,
                  P.Run(cfg, P.Start(start), ins).st.regtime)
  {
    hide P.Turn, Timed;
    var front, last := ins[..|ins| - 1], ins[|ins| - 1];
    var st := P.Start(start);
    var times := RegisterTimes(cfg, st, front);
    var before := P.Run(cfg, st, front).st;
    RunFine(cfg, start, front);
    TurnRegtime(cfg, before, last);
    var fires := before.running && P.Registers(before, last.now);
    var latest := if front == [] then last.now else ins[|ins| - 2].now;
    if front != [] {
      assert forall k :: 0 <= k < |front| ==> front[k] == ins[k];
      RegistrationsSpaced(cfg, start, front);
      assert NotAfter(ins[|ins| - 2], last) && NotAfter(ins[0], last);
    } else {
      NoTimes(last.now, before.regtime);
    }
    TimedStep(times, ins[0].now, latest, before.regtime, fires, last.now, last.clock,
              P.Turn(cfg, before, last).st.regtime);
    assert times + [] == times;
  }

  lemma NoTimes(first: int, regtime: int)
    ensures Timed([], first, first, regtime)
  {
  }

  lemma {:induction false} SpacedSpan(times: seq<int>, i: nat, j: nat)
    requires Spaced(times) && i <= j < |times|
    ensures times[j] - times[i] >= 11 * (j - i)
    decreases j
  {
    if i == j {
    } else {
      SpacedSpan(times, i, j - 1);
      assert times[j - 1 + 1] - times[j - 1] >= 11;
    }
  }

  // Under a clock that never goes back, any two registrations are at least 11 seconds
  // apart, and a run of T seconds makes at most T/11 + 1 of them.
  lemma {:induction false} RegistrationBound(cfg: P.Config, start: int, ins: seq<P.Input>)
    requires P.Usable(cfg) && Clocked(ins) && ins != []
    ensures var times := RegisterTimes(cfg, P.Start(start), ins);
            && (forall i, j :: 0 <= i < j < |times| ==> times[j] - times[i] >= 11 * (j - i))
            && |times| <= (ins[|ins| - 1].now - ins[0].now) / 11 + 1
  {
    var times := RegisterTimes(cfg, P.Start(start), ins);
    hide RegisterTimes;
    RegistrationsSpaced(cfg, start, ins);
    forall i, j | 0 <= i < j < |times| ensures times[j] - times[i] >= 11 * (j - i) {
      SpacedSpan(times, i, j);
    }
    if times != [] {
      SpacedSpan(times, 0, |times| - 1);
    } else if |ins| > 1 {
      assert NotAfter(ins[0], ins[|ins| - 1]);
    }
  }
}
