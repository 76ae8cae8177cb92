// a_peer.cpp as functions: what each handler and one turn of the main loop do to the state of
// a peer and what they send. The class APeer does the same in place.
module PeerModel {
  import opened Words
  import opened Cipher
  import opened Address
  import opened Capsule
  import opened Access
  import opened Udp

  // What a peer is started with: its id (argv[2]), its secret and the server's address.
  datatype Config = Config(id: seq<byte>, meikey: seq<byte>, srv: Place)

  ghost predicate NoZero(s: seq<byte>) {
    forall i :: 0 <= i < |s| ==> s[i] != 0
  }

  // The strings fit the fields strcpy puts them in.
  ghost predicate Usable(cfg: Config) {
    && 0 < |cfg.id| < ID_END - ID && NoZero(cfg.id)
    && |cfg.meikey| < TYP - UNION && NoZero(cfg.meikey)
  }

  // _id[0]=='p' ? 1 : 0
  function TypeOf(cfg: Config): byte {
    if cfg.id != [] && cfg.id[0] == 112 then 1 else 0
  }

  // __key
  function KeyOf(cfg: Config): Key {
    ClientKeys(cfg.meikey)
  }

  // _mecap with verb SRV_REGISTER
  function Registration(cfg: Config): SrvCap
    requires |cfg.meikey| < TYP - UNION && |cfg.id| < ID_END - ID
  {
    [SRV_REGISTER] + Zeros(UNION - 1)
    + cfg.meikey + Zeros(TYP - UNION - |cfg.meikey|)
    + [TypeOf(cfg)]
    + cfg.id + Zeros(SIZE - ID - |cfg.id|)
  }

  // Byte by byte: the verb, the secret from byte 16 on, the type at 74, the id from 75 on, and
  // zeros everywhere else; a provider is a peer whose id starts with 'p'.
  lemma RegistrationBytes(cfg: Config)
    requires Usable(cfg)
    ensures |cfg.meikey| <= 57 && 1 <= |cfg.id| <= 15
    ensures var c := Registration(cfg);
            && c[0] == 1 && c[16..16 + |cfg.meikey|] == cfg.meikey && c[75..75 + |cfg.id|] == cfg.id
            && c[74] == (if cfg.id[0] == 112 then 1 else 0)
            && forall k :: 0 < k < 112 && !(16 <= k < 16 + |cfg.meikey|) && !(74 <= k < 75 + |cfg.id|) ==> c[k] == 0
  {
  }

  lemma RegistrationFields(cfg: Config)
    requires Usable(cfg)
    ensures Verb(Registration(cfg)) == SRV_REGISTER
    ensures Meiot(Registration(cfg)) == cfg.meikey
    ensures Typ(Registration(cfg)) == TypeOf(cfg) == if cfg.id[0] == 112 then 1 else 0
    ensures Id(Registration(cfg)) == cfg.id
  {
    var c := Registration(cfg);
    var rest := Zeros(TYP - UNION - |cfg.meikey|) + [TypeOf(cfg)] + cfg.id + Zeros(SIZE - ID - |cfg.id|);
    assert c[UNION..] == cfg.meikey + rest;
    assert rest[0] == 0;
    CStrStops(cfg.meikey, rest);
    assert c[ID..] == cfg.id + Zeros(SIZE - ID - |cfg.id|);
    CStrStops(cfg.id, Zeros(SIZE - ID - |cfg.id|));
    assert c[TYP] == TypeOf(cfg);
  }

  // What _data_in prints: where the datagram came from, and its text.
  datatype Heard = Heard(src: Place, text: seq<byte>)

  // The text is the C string after the first byte, which marks data.
  function Shown(src: Place, bytes: seq<byte>): Heard
    requires bytes != []
  {
    Heard(src, CStr(bytes[1..]))
  }

  datatype State = State(status: int, regtime: int, pingtime: int, iah: int, pers: seq<Saddr>,
                         heard: seq<Heard>, running: bool)

  // State and what was sent, in order.
  datatype Effect = Effect(st: State, sent: seq<Datagram>)

  function Start(now: int): State {
    State(SRV_UNREGISTERED, 0, now, 0, [], [], true)
  }

  // `s.Rsin() == _srvsin`: the received address has mask 0, so only ports are compared.
  predicate FromServer(cfg: Config, src: Place) {
    Eq(Remote(src), Saddr(cfg.srv.addr, cfg.srv.port, 0xFFFF_FFFF))
  }

  // _peering: the capsule goes on to the peer it names, as a ping under that peer's keys.
  function Peering(c: SrvCap): Datagram {
    var named := Public(WithVerb(c, PER_PING));
    Datagram(PlaceOf(Destination(named)), Seal(WithVerb(c, PER_PING), named.keys))
  }

  // _srv_process; `clock` is its own time(0).
  function SrvProcess(st: State, c: SrvCap, now: int, clock: int): Effect {
    var verb := Verb(c);
    var registered := if st.status == SRV_UNREGISTER then st.(status := SRV_REGISTERRED) else st;
    var e :=
      if verb == SRV_REGISTERRED then Effect(registered.(regtime := clock), [])
      else if verb == SRV_SET_PEER then Effect(st, [Peering(c)])
      else if verb == SRV_UNREGISTERED then Effect(st.(status := SRV_UNREGISTERED), [])
      else if verb == SRV_PING then Effect(registered, [])
      else Effect(st, []);
    e.(st := e.st.(pingtime := now))
  }

  // The loop of _received over the capsules of a server datagram: the first n of them.
  function Capsules(cfg: Config, st: State, bytes: seq<byte>, n: nat, now: int, clock: int): Effect
    requires n * SIZE <= |bytes|
  {
    if n == 0 then Effect(st, [])
    else
      var e := Capsules(cfg, st, bytes, n - 1, now, clock);
      var f := SrvProcess(e.st, Open(bytes[n * SIZE - SIZE..n * SIZE], KeyOf(cfg)), now, clock);
      Effect(f.st, e.sent + f.sent)
  }

  // _per_process
  function PerProcess(cfg: Config, st: State, src: Place, bytes: seq<byte>, now: int): Effect
    requires |bytes| >= SIZE
  {
    var c := Open(bytes[..SIZE], KeyOf(cfg));
    var verb := Verb(c);
    if verb == PER_DATA then Effect(st.(heard := st.heard + [Shown(src, bytes)], status := PER_LINKED), [])
    else if verb == PER_PING then Effect(st, [Datagram(src, Seal(WithVerb(c, PER_PONG), KeyOf(cfg)))])
    else if verb == PER_PONG then Effect(st.(pers := Insert(st.pers, Remote(src)), status := PER_LINKED), [])
    else if verb == SRV_PING then Effect(st.(pingtime := now), [])
    else Effect(st, [])
  }

  // _received
  function Handled(cfg: Config, st: State, src: Place, bytes: seq<byte>, now: int, clock: int): Effect
    requires |bytes| >= SIZE
  {
    if FromServer(cfg, src) then Capsules(cfg, st, bytes, |bytes| / SIZE, now, clock)
    else PerProcess(cfg, st, src, bytes, now)
  }

  // The delivery loop of _rec_udp: one delivery for every known peer that == the source.
  function Delivered(pers: seq<Saddr>, n: nat, src: Place, bytes: seq<byte>): seq<Heard>
    requires n <= |pers| && bytes != []
  {
    if n == 0 then []
    else Delivered(pers, n - 1, src, bytes) + if Eq(pers[n - 1], Remote(src)) then [Shown(src, bytes)] else []
  }

  // What recvfrom put into the buffer.
  function Fitted(bytes: seq<byte>): seq<byte> {
    if |bytes| <= MAX_UDP then bytes else bytes[..MAX_UDP]
  }

  // _rec_udp
  function Received(cfg: Config, st: State, rx: Packet, now: int, clock: int): Effect {
    var bytes := Fitted(rx.bytes);
    if |bytes| >= SIZE then Handled(cfg, st, rx.src, bytes, now, clock)
    else if |bytes| > 0 then Effect(st.(heard := st.heard + Delivered(st.pers, |st.pers|, rx.src, bytes)), [])
    else Effect(st, [])
  }

  // send_to_pers: in clear, to every linked peer.
  function Chatted(pers: seq<Saddr>, n: nat, message: seq<byte>): seq<Datagram>
    requires n <= |pers|
  {
    if n == 0 then [] else Chatted(pers, n - 1, message) + [Datagram(PlaceOf(pers[n - 1]), message)]
  }

  // One turn of the main loop: its clock, whether sendto returned other than 0, the datagram that
  // arrived if select found one and recvfrom got it, the clock read while handling it, and a line
  // finished on the keyboard.
  datatype Input = Input(now: int, sendOk: bool, rx: Option<Packet>, clock: int, chat: Option<seq<byte>>)

  // The peer registers in this turn.
  predicate Registers(st: State, now: int) {
    st.status == SRV_UNREGISTERED && now - st.regtime > REG_TICK
  }

  // `assert(bytes==0)` of _received: the server sends whole capsules.
  ghost predicate Whole(cfg: Config, rx: Packet) {
    FromServer(cfg, rx.src) && |Fitted(rx.bytes)| >= SIZE ==> |Fitted(rx.bytes)| % SIZE == 0
  }

  function Registered(cfg: Config, st: State, now: int, sendOk: bool): Effect
    requires |cfg.meikey| < TYP - UNION && |cfg.id| < ID_END - ID
  {
    if Registers(st, now) then
      Effect(st.(regtime := now, running := sendOk), [Datagram(cfg.srv, Seal(Registration(cfg), KeyOf(cfg)))])
    else Effect(st, [])
  }

  // The IAM_HERE_TO block. _i_am_here returns at once, and _pingtime is set before it is
  // compared, so the server-down branch is never taken.
  function Ticked(st: State, now: int): State {
    if now - st.iah > IAM_HERE_TO then st.(iah := now, pingtime := now) else st
  }

  function Turn(cfg: Config, st: State, i: Input): Effect
    requires |cfg.meikey| < TYP - UNION && |cfg.id| < ID_END - ID
  {
    var a := Registered(cfg, st, i.now, i.sendOk);
    if !st.running then Effect(st, [])
    else if !a.st.running then a
    else
      var b := if i.rx.Some? then Received(cfg, a.st, i.rx.value, i.now, i.clock) else Effect(a.st, []);
      var st := Ticked(b.st, i.now);
      Effect(st, a.sent + b.sent +
        if st.status == PER_LINKED && i.chat.Some? then Chatted(st.pers, |st.pers|, i.chat.value) else [])
  }

  function Run(cfg: Config, st: State, ins: seq<Input>): Effect
    requires |cfg.meikey| < TYP - UNION && |cfg.id| < ID_END - ID
  {
    if ins == [] then Effect(st, [])
    else
      var e := Run(cfg, st, ins[..|ins| - 1]);
      var f := Turn(cfg, e.st, ins[|ins| - 1]);
      Effect(f.st, e.sent + f.sent)
  }

  lemma StoppedTurn(cfg: Config, st: State, i: Input)
    requires Usable(cfg) && !st.running
    ensures Turn(cfg, st, i) == Effect(st, [])
  {
  }
}
