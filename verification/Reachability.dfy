// Which links there can be at all: a run that makes the link from the start, for every two
// peers that can have one.
module Reachability {
  import opened Words
  import opened Cipher
  import opened Address
  import opened Capsule
  import opened Udp
  import opened Tables
  import opened Protocol
  import opened Linking
  import P = PeerModel
  import S = ServerModel
  import R = ServerRuns

  // --- registering ---

  // A turn in which nothing arrives.
  function Registering(a: Place, now: int): Step {
    PeerTurn(a, P.Input(now, true, None, now, None))
  }

  // A peer that has just registered.
  function Waited(start: int, now: int): P.State {
    P.Ticked(P.Start(start).(regtime := now), now)
  }

  function Wire(cfg: Config, a: Place): SrvCap
    requires a in cfg.peers && P.Usable(cfg.peers[a])
  {
    Seal(P.Registration(cfg.peers[a]), TheKey(cfg))
  }

  // The first turn of a peer does nothing but register.
  lemma FirstTurn(cfg: P.Config, start: int, now: int)
    requires P.Usable(cfg) && now > REG_TICK
    ensures P.Turn(cfg, P.Start(start), P.Input(now, true, None, now, None))
         == P.Effect(Waited(start, now), [Datagram(cfg.srv, Seal(P.Registration(cfg), P.KeyOf(cfg)))])
  {
    hide P.KeyOf, P.Registration, Seal;
  }

  lemma StampedOne(src: Place, d: Datagram)
    ensures Stamped(src, [d]) == [Sent(src, d.dst, d.bytes)]
  {
  }

  // What a peer of a sane configuration registers with.
  ghost predicate Equipped(cfg: Config, a: Place) {
    && a in cfg.peers && P.Usable(cfg.peers[a])
    && P.KeyOf(cfg.peers[a]) == TheKey(cfg) && cfg.peers[a].srv == cfg.srv
  }

  lemma SaneEquipped(cfg: Config, a: Place)
    requires Sane(cfg) && a in cfg.peers
    ensures Equipped(cfg, a) && P.Usable(cfg.peers[a])
  {
    KeyIsTheKey(cfg, a);
    assert SanePeer(cfg, a);
  }

  lemma RegistersFirst(cfg: Config, w: World, a: Place, start: int, now: int)
    requires Equipped(cfg, a) && a in w.peers && w.peers[a] == P.Start(start) && now > REG_TICK
    ensures Allowed(cfg, w, Registering(a, now))
    ensures var next := Next(cfg, w, Registering(a, now));
            && next.log == w.log + [Sent(a, cfg.srv, Wire(cfg, a))] && next.server == w.server
            && next.peers == w.peers[a := Waited(start, now)]
  {
    hide P.KeyOf, TheKey, P.Registration, Seal, P.Turn, Stamped, Waited;
    FirstTurn(cfg.peers[a], start, now);
    StampedOne(a, Datagram(cfg.srv, Wire(cfg, a)));
  }

  // What del_oldies takes for old, from 30 seconds on.
  const AGE := 30

  // The registration of a arrives.
  function Arrival(cfg: Config, a: Place, now: int): S.Input
    requires a in cfg.peers && P.Usable(cfg.peers[a])
  {
    S.Input(now, Some(Packet(a, Wire(cfg, a))), true, {}, true, now - AGE)
  }

  ghost predicate Fresh(rows: seq<Pers>, cutoff: int) {
    forall n :: 0 <= n < |rows| ==> rows[n].d > cutoff
  }

  lemma {:induction false} FreshStays(rows: seq<Pers>, cutoff: int)
    requires Fresh(rows, cutoff)
    ensures Younger(rows, cutoff) == rows
  {
    if rows == [] {
    } else {
      FreshStays(rows[..|rows| - 1], cutoff);
    }
  }

  // The row a registration of a makes.
  lemma RegistrationRow(cfg: Config, a: Place, t: PersTable, now: int, selected: bool) returns (row: Pers)
    requires a in cfg.peers && P.Usable(cfg.peers[a]) && !HasK(t.rows, KOf(cfg, a))
    ensures var c := P.Registration(cfg.peers[a]);
            Stored(t, Name(c), KOf(cfg, a), S.PubOf(a, c), TheKey(cfg), now, selected).rows == t.rows + [row]
    ensures RowOf(cfg, row, a) && row.d == now
  {
    P.RegistrationFields(cfg.peers[a]);
    hide P.Registration, TheKey, LastRef, KOf, Swap32, Swap16, HasK;
    var c := P.Registration(cfg.peers[a]);
    row := NewRow(t, Name(c), KOf(cfg, a), S.PubOf(a, c), TheKey(cfg), now, selected);
  }

  // A capsule that asks to register, once read, is stored and announced unless it is filtered.
  lemma ReadIsStored(h: S.Hasher, st: S.State, t: S.State, src: Place, bytes: SrvCap, j: S.Input)
    requires j.rx == Some(Packet(src, bytes)) && S.Asked(st, Packet(src, bytes)) == (t, true)
    requires Verb(t.pl) == SRV_REGISTER && t.prev != t.pl && S.StoreOk(h, t, src, j.selected)
    ensures R.Announces(h, st, j)
    ensures var e := S.Received(h, st, j).st;
            && e.db.mids == t.db.mids
            && e.db.pers == Stored(t.db.pers, Name(t.pl), S.RowKey(h, src, t.pl, t.keys), S.PubOf(src, t.pl),
                                   t.keys, j.now, j.selected)
  {
    hide Stored, S.Asked, Seal, Cleared, S.PubOf, S.RowKey, Name, S.StoreOk;
  }

  // The server turns any registration that the filter lets through and whose K is new into a row
  // of that peer, and announces in the same turn.
  lemma RegistrationStored(cfg: Config, st: S.State, a: Place, j: S.Input) returns (row: Pers)
    requires Sane(cfg) && a in cfg.peers && P.Usable(cfg.peers[a]) && st.db.mids == cfg.mids
    requires st.prev != P.Registration(cfg.peers[a]) && !HasK(st.db.pers.rows, KOf(cfg, a))
    requires j.rx == Some(Packet(a, Wire(cfg, a)))
    ensures RowOf(cfg, row, a) && row.d == j.now
    ensures R.Announces(cfg.h, st, j)
    ensures var e := S.Received(cfg.h, st, j).st;
            e.db.mids == cfg.mids && e.db.pers.rows == st.db.pers.rows + [row]
  {
    var c := P.Registration(cfg.peers[a]);
    hide Sane, P.Registration, TheKey, KOf, HasK, Stored, S.Asked, S.Received, RowOf, S.PubOf, S.RowKey, Name, P.Usable,
         R.Announces, Seal;
    RegistrationRead(cfg, st, a);
    RegistrationK(cfg, a);
    row := RegistrationRow(cfg, a, st.db.pers, j.now, j.selected);
    ReadIsStored(cfg.h, st, st.(pl := c, keys := TheKey(cfg)), a, Wire(cfg, a), j);
  }

  lemma NotFiltered(cfg: Config, a: Place)
    requires a in cfg.peers && P.Usable(cfg.peers[a])
    ensures P.Registration(cfg.peers[a]) != ZERO_CAP
  {
    P.RegistrationFields(cfg.peers[a]);
    assert Verb(ZERO_CAP) == 0;
  }

  // What an announcing turn leaves of a table without old rows.
  lemma AnnouncingTurnKeeps(h: S.Hasher, st: S.State, j: S.Input)
    requires R.Announces(h, st, j) && Fresh(S.Received(h, st, j).st.db.pers.rows, j.cutoff)
    ensures var e, t := S.Received(h, st, j).st, S.Turn(h, st, j).st;
            t.prev == ZERO_CAP && t.db.mids == e.db.mids && t.db.pers.rows == e.db.pers.rows
  {
    hide S.Received;
    var e := S.Received(h, st, j).st;
    FreshStays(e.db.pers.rows, j.cutoff);
  }

  // A server without a filter and without old rows.
  ghost predicate Unburdened(cfg: Config, st: S.State, now: int) {
    st.db.mids == cfg.mids && st.prev == ZERO_CAP && Fresh(st.db.pers.rows, now - AGE)
  }

  // It takes the registration of a in and announces.
  lemma ServerTakesIn(cfg: Config, w: World, a: Place, now: int) returns (row: Pers)
    requires Sane(cfg) && a in cfg.peers && P.Usable(cfg.peers[a]) && Unburdened(cfg, w.server, now)
    requires !HasK(w.server.db.pers.rows, KOf(cfg, a)) && Sent(a, cfg.srv, Wire(cfg, a)) in w.log
    ensures RowOf(cfg, row, a)
    ensures var j := Arrival(cfg, a, now);
            && Allowed(cfg, w, ServerTurn(j)) && R.Announces(cfg.h, w.server, j)
            && S.Received(cfg.h, w.server, j).st.db.pers.rows == w.server.db.pers.rows + [row]
            && var next := Next(cfg, w, ServerTurn(j));
               && next.peers == w.peers && w.log <= next.log && Unburdened(cfg, next.server, now)
               && next.server.db.pers.rows == w.server.db.pers.rows + [row]
  {
    hide Sane, RowOf, S.Received, Wire, KOf, HasK, TheKey, S.Turn, Stamped, R.Announces, P.Usable, P.Registration;
    NotFiltered(cfg, a);
    row := RegistrationStored(cfg, w.server, a, Arrival(cfg, a, now));
    AnnouncingTurnKeeps(cfg.h, w.server, Arrival(cfg, a, now));
  }

  // --- a whole run ---

  // Nothing reached the server yet; a has registered and waits.
  ghost predicate Waiting(cfg: Config, w: World, a: Place, start: int, keys: Key, now: int) {
    && Equipped(cfg, a) && a in w.peers && w.peers[a] == Waited(start, now)
    && w.server == S.Start(cfg.mids, keys) && Sent(a, cfg.srv, Wire(cfg, a)) in w.log
  }

  ghost predicate Unstarted(cfg: Config, w: World, a: Place, start: int, keys: Key) {
    && Equipped(cfg, a) && a in w.peers && w.peers[a] == P.Start(start) && w.server == S.Start(cfg.mids, keys)
  }

  lemma RegistersNext(cfg: Config, w: World, a: Place, b: Place, start: int, keys: Key, now: int)
    requires Unstarted(cfg, w, a, start, keys) && a != b && now > REG_TICK
    ensures Allowed(cfg, w, Registering(a, now))
    ensures var next := Next(cfg, w, Registering(a, now));
            && Waiting(cfg, next, a, start, keys, now) && next.peers.Keys == w.peers.Keys
            && (Unstarted(cfg, w, b, start, keys) ==> Unstarted(cfg, next, b, start, keys))
            && (Waiting(cfg, w, b, start, keys, now) ==> Waiting(cfg, next, b, start, keys, now))
  {
    hide Equipped, Next, Wire, Allowed, P.Start, Waited;
    RegistersFirst(cfg, w, a, start, now);
  }

  lemma AtStart(cfg: Config, start: int, keys: Key, a: Place)
    requires Sane(cfg) && a in cfg.peers
    ensures var w := Start(cfg, start, keys); Unstarted(cfg, w, a, start, keys) && w.peers.Keys == cfg.peers.Keys
  {
    SaneEquipped(cfg, a);
    hide Equipped, Sane;
  }

  // Two peers register, one after the other.
  lemma BothRegister(cfg: Config, start: int, keys: Key, a: Place, b: Place, now: int) returns (steps: seq<Step>)
    requires Sane(cfg) && a in cfg.peers && b in cfg.peers && a != b && now > REG_TICK
    ensures steps == [Registering(a, now), Registering(b, now)] && AllowedRun(cfg, Start(cfg, start, keys), steps)
    ensures var w := Run(cfg, Start(cfg, start, keys), steps);
            && Waiting(cfg, w, a, start, keys, now) && Waiting(cfg, w, b, start, keys, now)
            && w.peers.Keys == cfg.peers.Keys
  {
    hide Sane, Equipped, Allowed, Next, AllowedRun, Run, Waiting, Start, Unstarted, Registering;
    var w0 := Start(cfg, start, keys);
    AtStart(cfg, start, keys, a);
    AtStart(cfg, start, keys, b);
    NoStep(cfg, w0);
    RegistersNext(cfg, w0, a, b, start, keys, now);
    OneStep(cfg, w0, [], Registering(a, now));
    var w1 := Next(cfg, w0, Registering(a, now));
    RegistersNext(cfg, w1, b, a, start, keys, now);
    OneStep(cfg, w0, [] + [Registering(a, now)], Registering(b, now));
    steps := [] + [Registering(a, now)] + [Registering(b, now)];
  }

  // The server takes in both registrations and has introduced each to the other.
  lemma BothTakenIn(cfg: Config, w: World, a: Place, b: Place, start: int, keys: Key, now: int) returns (w2: World)
    requires Sane(cfg) && Opposed(cfg, a, b)
    requires Waiting(cfg, w, a, start, keys, now) && Waiting(cfg, w, b, start, keys, now)
    ensures P.Usable(cfg.peers[a]) && P.Usable(cfg.peers[b])
    ensures Allowed(cfg, w, ServerTurn(Arrival(cfg, a, now)))
    ensures var w1 := Next(cfg, w, ServerTurn(Arrival(cfg, a, now)));
            && Allowed(cfg, w1, ServerTurn(Arrival(cfg, b, now)))
            && w2 == Next(cfg, w1, ServerTurn(Arrival(cfg, b, now)))
            && w2.peers == w.peers && Introduced(cfg, w2.log, a, b)
  {
    hide Sane, Wire, KOf, S.Received, Next, Allowed, RowOf, R.Announces, Introduced, P.Usable, Waited;
    assert P.Usable(cfg.peers[a]) && P.Usable(cfg.peers[b]);
    var ra := ServerTakesIn(cfg, w, a, now);
    var w1 := Next(cfg, w, ServerTurn(Arrival(cfg, a, now)));
    assert w1.server.db.pers.rows == [ra];
    RowK(cfg, ra, a);
    var rb := ServerTakesIn(cfg, w1, b, now);
    w2 := Next(cfg, w1, ServerTurn(Arrival(cfg, b, now)));
    AnnouncementIntroduces(cfg, w1, Arrival(cfg, b, now), 0, 1, a, b);
  }

  lemma RowK(cfg: Config, row: Pers, a: Place)
    requires RowOf(cfg, row, a)
    ensures row.k == KOf(cfg, a)
  {
  }

  // --- time ---

  function Began(step: Step): int {
    match step
    case PeerTurn(_, i) => i.now
    case ServerTurn(j) => j.now
  }

  function Ended(step: Step): int {
    match step
    case PeerTurn(_, i) => i.clock
    case ServerTurn(j) => j.now
  }

  predicate InOrder(s: Step, t: Step) {
    Ended(s) <= Began(t)
  }

  // A step the clocks of the hosts allow: they do not go back, and no row younger than AGE expires.
  predicate OnTime(step: Step, start: int) {
    start <= Began(step) <= Ended(step) && (step.ServerTurn? ==> step.j.cutoff <= step.j.now - AGE)
  }

  // The clock starts at `start` and never goes back.
  ghost predicate Timely(steps: seq<Step>, start: int) {
    && (forall k :: 0 <= k < |steps| ==> OnTime(steps[k], start))
    && (forall k, l :: 0 <= k < l < |steps| ==> InOrder(steps[k], steps[l]))
  }

  ghost predicate Links(cfg: Config, start: int, keys: Key, steps: seq<Step>, a: Place, b: Place) {
    && Timely(steps, start)
    && AllowedRun(cfg, Start(cfg, start, keys), steps)
    && var w := Run(cfg, Start(cfg, start, keys), steps);
       a in w.peers && Remote(b) in w.peers[a].pers
  }

  // Some run under a clock that starts anywhere and never goes back gives a a link to b exactly
  // when they are peers of opposite types whose rows hash to different keys.
  lemma LinkExactlyWhenOpposed(cfg: Config, start: int, keys: Key, a: Place, b: Place)
    requires Sane(cfg)
    ensures (exists steps :: Links(cfg, start, keys, steps, a, b)) <==> Opposed(cfg, a, b)
  {
    hide AllowedRun, Run, Start, Opposed, Sane, Timely, SevenSteps;
    if steps :| Links(cfg, start, keys, steps, a, b) {
      var ra, rb, s, i, j := LinkHasHistory(cfg, start, keys, steps, a, Remote(b));
    }
    if Opposed(cfg, a, b) {
      var steps := LinkingRun(cfg, start, keys, a, b, if start > REG_TICK then start else REG_TICK + 1);
    }
  }

  // Both register and the server takes both in.
  predicate FourTurns(cfg: Config, steps: seq<Step>, a: Place, b: Place, now: int)
    requires a in cfg.peers && b in cfg.peers && P.Usable(cfg.peers[a]) && P.Usable(cfg.peers[b])
  {
    && |steps| == 4
    && steps[0] == Registering(a, now) && steps[1] == Registering(b, now)
    && steps[2] == ServerTurn(Arrival(cfg, a, now)) && steps[3] == ServerTurn(Arrival(cfg, b, now))
  }

  // A provider's id starts with 'p'.
  predicate IsProvider(id: seq<byte>) {
    id != [] && id[0] == 112
  }

  // The stored row of a peer has type 1 exactly for a provider, and type 0 otherwise.
  lemma StoredType(cfg: Config, row: Pers, a: Place)
    requires RowOf(cfg, row, a) && P.Usable(cfg.peers[a])
    ensures row.t == if IsProvider(cfg.peers[a].id) then 1 else 0
  {
    hide KOf, TheKey;
    P.RegistrationFields(cfg.peers[a]);
  }

  // Of two peers whose rows have different K, some run links one to the other exactly when exactly
  // one of the two ids starts with 'p'.
  lemma LinkByIds(cfg: Config, start: int, keys: Key, a: Place, b: Place)
    requires Sane(cfg) && a in cfg.peers && b in cfg.peers && KOf(cfg, a) != KOf(cfg, b)
    ensures (exists steps :: Links(cfg, start, keys, steps, a, b))
       <==> IsProvider(cfg.peers[a].id) != IsProvider(cfg.peers[b].id)
  {
    hide Links, KOf, P.Registration, Lists, TheKey;
    assert SanePeer(cfg, a) && SanePeer(cfg, b);
    P.RegistrationFields(cfg.peers[a]);
    P.RegistrationFields(cfg.peers[b]);
    hide Sane;
    LinkExactlyWhenOpposed(cfg, start, keys, a, b);
  }

  // Then a is told of b, b is pinged, and a gets the answer.
  predicate SevenSteps(cfg: Config, steps: seq<Step>, a: Place, b: Place, now: int)
    requires a in cfg.peers && b in cfg.peers && P.Usable(cfg.peers[a]) && P.Usable(cfg.peers[b])
  {
    |steps| == 7 && FourTurns(cfg, steps[..4], a, b, now) && ThreeTurns(steps[4..], cfg.srv, a, b, now)
  }

  // At any time after the start these seven steps make the link.
  lemma LinkingRun(cfg: Config, start: int, keys: Key, a: Place, b: Place, now: int) returns (steps: seq<Step>)
    requires Sane(cfg) && Opposed(cfg, a, b) && start <= now && REG_TICK < now
    ensures P.Usable(cfg.peers[a]) && P.Usable(cfg.peers[b]) && SevenSteps(cfg, steps, a, b, now)
    ensures Links(cfg, start, keys, steps, a, b)
  {
    assert a in cfg.peers && b in cfg.peers;
    hide AllowedRun, Run, Start, Opposed, Sane, Introduced, Timely, P.Usable, FourTurns, ThreeTurns, Insert, Clashes;
    var w0 := Start(cfg, start, keys);
    var four := FourSteps(cfg, start, keys, a, b, now);
    var three := IntroductionLinks(cfg, start, keys, four, a, b, now);
    RunGoesOn(cfg, w0, four, three);
    steps := four + three;
    SevenOfBoth(cfg, four, three, a, b, now);
    SevenOnTime(cfg, steps, a, b, now, start);
    assert Remote(b) in Insert([], Remote(b)) by { InsertElements([], Remote(b), Remote(b)); }
  }

  lemma SevenOfBoth(cfg: Config, four: seq<Step>, three: seq<Step>, a: Place, b: Place, now: int)
    requires a in cfg.peers && b in cfg.peers && P.Usable(cfg.peers[a]) && P.Usable(cfg.peers[b])
    requires FourTurns(cfg, four, a, b, now) && ThreeTurns(three, cfg.srv, a, b, now)
    ensures SevenSteps(cfg, four + three, a, b, now)
  {
    hide P.Usable, Arrival, Registering, DeliversTo;
    assert (four + three)[..4] == four && (four + three)[4..] == three;
  }

  lemma SevenOnTime(cfg: Config, steps: seq<Step>, a: Place, b: Place, now: int, start: int)
    requires a in cfg.peers && b in cfg.peers && P.Usable(cfg.peers[a]) && P.Usable(cfg.peers[b])
    requires SevenSteps(cfg, steps, a, b, now) && start <= now
    ensures Timely(steps, start)
  {
    hide P.Usable, Wire;
    forall k | 0 <= k < 7 ensures Began(steps[k]) == Ended(steps[k]) == now && OnTime(steps[k], start) {
      if k < 4 {
        assert steps[k] == steps[..4][k];
      } else {
        assert steps[k] == steps[4..][k - 4];
      }
    }
  }

  lemma FourSteps(cfg: Config, start: int, keys: Key, a: Place, b: Place, now: int) returns (steps: seq<Step>)
    requires Sane(cfg) && Opposed(cfg, a, b) && REG_TICK < now
    ensures P.Usable(cfg.peers[a]) && P.Usable(cfg.peers[b]) && FourTurns(cfg, steps, a, b, now)
    ensures AllowedRun(cfg, Start(cfg, start, keys), steps)
    ensures Told(cfg, Run(cfg, Start(cfg, start, keys), steps), a, b)
  {
    assert a in cfg.peers && b in cfg.peers && a != b;
    hide AllowedRun, Run, Start, Opposed, Sane, Next, Allowed, Introduced, Arrival, P.Usable, Registering, Waiting,
        FourTurns;
    var w0 := Start(cfg, start, keys);
    var two := BothRegister(cfg, start, keys, a, b, now);
    var w := Run(cfg, w0, two);
    var w2 := BothTakenIn(cfg, w, a, b, start, keys, now);
    WaitingUnlinked(cfg, w, a, start, keys, now);
    WaitingUnlinked(cfg, w, b, start, keys, now);
    var s2, s3 := ServerTurn(Arrival(cfg, a, now)), ServerTurn(Arrival(cfg, b, now));
    TwoMore(cfg, w0, two, s2, s3);
    steps := two + [s2, s3];
    FourOfBoth(cfg, two, a, b, now);
  }

  lemma {:induction false} TwoMore(cfg: Config, w: World, steps: seq<Step>, s: Step, t: Step)
    requires AllowedRun(cfg, w, steps) && Allowed(cfg, Run(cfg, w, steps), s)
    requires Allowed(cfg, Next(cfg, Run(cfg, w, steps), s), t)
    ensures AllowedRun(cfg, w, steps + [s, t])
    ensures Run(cfg, w, steps + [s, t]) == Next(cfg, Next(cfg, Run(cfg, w, steps), s), t)
  {
    hide AllowedRun, Run, Next, Allowed;
    OneStep(cfg, w, steps, s);
    OneStep(cfg, w, steps + [s], t);
    assert steps + [s] + [t] == steps + [s, t];
  }

  lemma FourOfBoth(cfg: Config, two: seq<Step>, a: Place, b: Place, now: int)
    requires a in cfg.peers && b in cfg.peers && P.Usable(cfg.peers[a]) && P.Usable(cfg.peers[b])
    requires two == [Registering(a, now), Registering(b, now)]
    ensures FourTurns(cfg, two + [ServerTurn(Arrival(cfg, a, now)), ServerTurn(Arrival(cfg, b, now))], a, b, now)
  {
    hide P.Usable, Arrival, Registering;
  }

  // a has been told of b, both run, and a has no link.
  ghost predicate Told(cfg: Config, w: World, a: Place, b: Place) {
    && a in w.peers && b in w.peers && w.peers[a].running && w.peers[b].running && w.peers[a].pers == []
    && Introduced(cfg, w.log, a, b)
  }

  lemma WaitingUnlinked(cfg: Config, w: World, a: Place, start: int, keys: Key, now: int)
    requires Waiting(cfg, w, a, start, keys, now)
    ensures a in w.peers && w.peers[a].running && w.peers[a].pers == []
  {
  }

  // --- two links at one peer ---

  // A pong that arrives from src.
  function PongFrom(cfg: P.Config, src: Place, now: int): P.Input {
    Delivery(Sent(src, src, Seal(WithVerb(ZERO_CAP, PER_PONG), P.KeyOf(cfg))), now)
  }

  lemma PongAdds(cfg: P.Config, st: P.State, src: Place, now: int)
    requires P.Usable(cfg) && st.running && src.port != 0 && cfg.srv.port != 0 && src.port != cfg.srv.port
    ensures var t := P.Turn(cfg, st, PongFrom(cfg, src, now)).st;
            t.running && t.pers == Insert(st.pers, Remote(src))
  {
    hide P.KeyOf, Seal, P.Turn, Insert, P.FromServer, P.Handled;
    ServerByPort(cfg, src);
    var p := Sent(src, src, Seal(WithVerb(ZERO_CAP, PER_PONG), P.KeyOf(cfg)));
    PongTurn(cfg, st, p, ZERO_CAP, now);
    TurnOfDelivery(cfg, st, p, now);
  }

  // Pongs from two ports link a peer twice, and then a short datagram from port 0 is delivered
  // to both links.
  lemma {:induction false} PortZeroReachesBoth(cfg: P.Config, start: int, a: Place, b: Place, src: Place,
        bytes: seq<byte>, now: int)
    requires P.Usable(cfg) && cfg.srv.port != 0 && 0 < |bytes| < SIZE && src.port == 0
    requires 0 < a.port < b.port && a.port != cfg.srv.port && b.port != cfg.srv.port
    ensures var st := P.Run(cfg, P.Start(start), [PongFrom(cfg, a, now), PongFrom(cfg, b, now)]).st;
            && st.pers == [Remote(a), Remote(b)]
            && P.Received(cfg, st, Packet(src, bytes), now, now).st.heard
               == st.heard + [P.Shown(src, bytes), P.Shown(src, bytes)]
  {
    TwoPongs(cfg, start, a, b, now);
    var st := P.Run(cfg, P.Start(start), [PongFrom(cfg, a, now), PongFrom(cfg, b, now)]).st;
    hide P.Run, PongFrom, P.Shown, P.Delivered;
    BothDelivered(a, b, src, bytes);
  }

  lemma {:induction false} BothDelivered(a: Place, b: Place, src: Place, bytes: seq<byte>)
    requires bytes != [] && src.port == 0
    ensures P.Delivered([Remote(a), Remote(b)], 2, src, bytes) == [P.Shown(src, bytes), P.Shown(src, bytes)]
  {
    hide P.Shown, Eq;
    PortZeroMatches(src, a);
    PortZeroMatches(src, b);
    var pers := [Remote(a), Remote(b)];
    assert P.Delivered(pers, 0, src, bytes) == [];
    assert P.Delivered(pers, 1, src, bytes) == [P.Shown(src, bytes)];
  }

  lemma PortZeroMatches(src: Place, a: Place)
    requires src.port == 0
    ensures Eq(Remote(a), Remote(src))
  {
    ReceivedCompare(Remote(a), Remote(src));
  }

  lemma {:induction false} TwoPongs(cfg: P.Config, start: int, a: Place, b: Place, now: int)
    requires P.Usable(cfg) && cfg.srv.port != 0
    requires 0 < a.port < b.port && a.port != cfg.srv.port && b.port != cfg.srv.port
    ensures P.Run(cfg, P.Start(start), [PongFrom(cfg, a, now), PongFrom(cfg, b, now)]).st.pers == [Remote(a), Remote(b)]
  {
    hide P.Turn, PongFrom, Lt;
    var i, j := PongFrom(cfg, a, now), PongFrom(cfg, b, now);
    assert [i, j][..1] == [i] && [i][..0] == [];
    var st := P.Run(cfg, P.Start(start), []).st;
    PongAdds(cfg, st, a, now);
    var t := P.Run(cfg, P.Start(start), [i]).st;
    PongAdds(cfg, t, b, now);
    ReceivedCompare(Remote(a), Remote(b));
    ReceivedCompare(Remote(b), Remote(a));
  }
}
