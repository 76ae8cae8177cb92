// u_server.cpp as functions: what one turn of the server loop does to the server's state and
// what it sends. The class UServer does the same in place.
module ServerModel {
  import opened Words
  import opened Cipher
  import opened Capsule
  import opened Udp
  import opened Tables
  import opened Access
  import opened Database
  import opened Announce

  // std::hash of the string made of address, port, id and keys.
  type Hasher = (u32, u16, seq<byte>, Key) -> int

  // `pl` and `keys` are locals of main that live across turns.
  datatype State = State(db: Db, prev: SrvCap, dirty: bool, pingpers: int, pl: SrvCap, keys: Key)

  datatype Effect = Effect(st: State, sent: seq<Datagram>)

  // One turn: its clock, the datagram received if there was one, whether the SELECT of store_peer could be
  // prepared, what the DELETE of remove_peer hits and answers, and the expiry limit.
  datatype Input = Input(now: int, rx: Option<Packet>, selected: bool, removed: set<int>, removeOk: bool, cutoff: int)

  function Start(mids: seq<Mid>, keys: Key): State {
    State(Db(PersTable([], 1), mids, []), ZERO_CAP, false, 0, ZERO_CAP, keys)
  }

  // udp_sock::receive((char*)&pl, sizeof(pl)): the first bytes of pl are overwritten.
  function Overwritten(pl: SrvCap, bytes: seq<byte>): SrvCap {
    if |bytes| >= SIZE then bytes[..SIZE] else bytes + pl[|bytes|..]
  }

  function Ip4(src: Place): u32 {
    Swap32(src.addr)
  }

  // ipp pub(s.Rsin()) with the type of the registration; its own keys are not used.
  function PubOf(src: Place, c: SrvCap): Ipp {
    Ipp(Swap32(src.addr), Swap16(src.port), Typ(c), [0, 0, 0, 0])
  }

  function RowKey(h: Hasher, src: Place, c: SrvCap, keys: Key): int {
    h(Swap32(src.addr), Swap16(src.port), Id(c), keys)
  }

  // The store succeeds.
  predicate StoreOk(h: Hasher, st: State, src: Place, selected: bool) {
    selected || !HasK(st.db.pers.rows, RowKey(h, src, st.pl, st.keys))
  }

  // _store_peer
  function StorePeer(h: Hasher, st: State, src: Place, now: int, selected: bool): Effect {
    if st.prev == st.pl then Effect(st, [])
    else
      var k := RowKey(h, src, st.pl, st.keys);
      var pers := Stored(st.db.pers, Name(st.pl), k, PubOf(src, st.pl), st.keys, now, selected);
      var t := st.(prev := st.pl, db := st.db.(pers := pers), dirty := StoreOk(h, st, src, selected));
      if t.dirty then
        var c := Cleared(WithVerb(st.pl, SRV_REGISTERRED));
        Effect(t.(pl := c), [Datagram(src, Seal(c, st.keys))])
      else Effect(t, [])
  }

  // _process
  function Process(h: Hasher, st: State, src: Place, i: Input): Effect {
    var verb := Verb(st.pl);
    if verb == PER_AIH then
      var rows := Seen(st.db.pers.rows, Swap32(src.addr), Swap16(src.port), i.now);
      Effect(st.(db := st.db.(pers := st.db.pers.(rows := rows))), [])
    else if verb == SRV_REGISTER then StorePeer(h, st, src, i.now, i.selected)
    else if verb == SRV_UNREGISTER then
      var c := WithVerb(st.pl, SRV_UNREGISTERED);
      var rows := Without(st.db.pers.rows, i.removed);
      Effect(st.(pl := c, dirty := i.removeOk, db := st.db.(pers := st.db.pers.(rows := rows))), [Datagram(src, c)])
    else Effect(st, [])
  }

  // The state after a whole capsule was received and authorize was asked about it.
  function Asked(st: State, rx: Packet): (State, bool) {
    var pl := Overwritten(st.pl, rx.bytes);
    var v := Authorized(st.db.mids, 0, pl, Ip4(rx.src), st.keys);
    (st.(pl := v.pl, keys := v.keys), v.ok)
  }

  // The receiving half of a turn.
  function Handled(h: Hasher, st: State, rx: Packet, i: Input): Effect {
    if |rx.bytes| < SIZE then Effect(st.(pl := Overwritten(st.pl, rx.bytes)), [])
    else
      var (t, ok) := Asked(st, rx);
      if ok then Process(h, t, rx.src, i)
      else Effect(t.(db := t.db.(rej := Denied(t.db.rej, Ip4(rx.src)))), [])
  }

  // The announcing half.
  function Pinged(st: State, i: Input): Effect {
    if i.now - st.pingpers > TTLIVE || st.dirty then
      var o := Announced(st.pl, Listed(st.db.pers.rows));
      var rows := Younger(st.db.pers.rows, i.cutoff);
      Effect(st.(pingpers := i.now, pl := o.pl, prev := ZERO_CAP, dirty := false,
                 db := st.db.(pers := st.db.pers.(rows := rows))), o.sent)
    else Effect(st, [])
  }

  function Received(h: Hasher, st: State, i: Input): Effect {
    if i.rx.Some? then Handled(h, st, i.rx.value, i) else Effect(st, [])
  }

  function Turn(h: Hasher, st: State, i: Input): Effect {
    var a := Received(h, st, i);
    var b := Pinged(a.st, i);
    Effect(b.st, a.sent + b.sent)
  }

  function Run(h: Hasher, st: State, ins: seq<Input>): Effect {
    if ins == [] then Effect(st, [])
    else
      var e := Run(h, st, ins[..|ins| - 1]);
      var f := Turn(h, e.st, ins[|ins| - 1]);
      Effect(f.st, e.sent + f.sent)
  }
}
