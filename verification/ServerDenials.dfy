// Who is denied over a whole run of the server (u_server.cpp with sqliter.cpp).
module ServerDenials {
  import opened Words
  import opened Cipher
  import opened Capsule
  import opened Udp
  import opened Access
  import opened ServerModel

  // In this state a whole packet arrives that no visible row accepts.
  ghost predicate Refuses(st: State, i: Input) {
    && i.rx.Some? && |i.rx.value.bytes| >= SIZE
    && AcceptsNone(st.db.mids, |st.db.mids|, i.rx.value.bytes[..SIZE], Swap32(i.rx.value.src.addr), st.keys)
  }

  // The refused packets of a run that came from the address.
  ghost function RefusedFrom(h: Hasher, mids: seq<Mid>, keys: Key, ins: seq<Input>, ip4: u32): nat {
    if ins == [] then 0
    else
      var front, last := ins[..|ins| - 1], ins[|ins| - 1];
      RefusedFrom(h, mids, keys, front, ip4)
      + if Refuses(Run(h, Start(mids, keys), front).st, last) && Swap32(last.rx.value.src.addr) == ip4 then 1 else 0
  }

  lemma ReceivedDenials(h: Hasher, st: State, i: Input)
    ensures var e := Received(h, st, i).st;
            && e.db.mids == st.db.mids
            && e.db.rej == if Refuses(st, i) then Denied(st.db.rej, Swap32(i.rx.value.src.addr)) else st.db.rej
  {
    hide Accepts, KeysAfter, Seal, Denied, StorePeer;
    if i.rx.Some? && |i.rx.value.bytes| >= SIZE {
      AuthorizedIffSomeRow(st.db.mids, i.rx.value.bytes[..SIZE], Ip4(i.rx.value.src), st.keys);
      hide Authorized, AcceptsNone;
      StoreKeepsRej(h, Asked(st, i.rx.value).0, i.rx.value.src, i);
    }
  }

  lemma StoreKeepsRej(h: Hasher, st: State, src: Place, i: Input)
    ensures var e := StorePeer(h, st, src, i.now, i.selected).st; e.db.rej == st.db.rej && e.db.mids == st.db.mids
  {
    hide Seal, StoreOk, RowKey;
  }

  lemma PingedDenials(st: State, i: Input)
    ensures var e := Pinged(st, i).st; e.db.rej == st.db.rej && e.db.mids == st.db.mids
  {
  }

  // In every run the count of an address is the number of its whole packets that no visible row
  // accepted; accepted packets, short ones and empty turns count for nobody. So the next one is
  // answered with a rejection exactly from the 514th on.
  lemma {:induction false} DenialsInRun(h: Hasher, mids: seq<Mid>, keys: Key, ins: seq<Input>, ip4: u32)
    ensures var rej := Run(h, Start(mids, keys), ins).st.db.rej;
            && Count(rej, ip4) == RefusedFrom(h, mids, keys, ins, ip4)
            && (Rejects(rej, ip4) <==> RefusedFrom(h, mids, keys, ins, ip4) + 1 >= 514)
  {
    hide Received, Pinged, Refuses, Denied;
    if ins == [] {
    } else {
      var front, last := ins[..|ins| - 1], ins[|ins| - 1];
      var st := Run(h, Start(mids, keys), front).st;
      DenialsInRun(h, mids, keys, front, ip4);
      ReceivedDenials(h, st, last);
      PingedDenials(Received(h, st, last).st, last);
      if Refuses(st, last) {
        RefusedArrives(st, last);
        DeniedCounts(st.db.rej, Swap32(last.rx.value.src.addr), ip4);
      }
    }
  }

  lemma RefusedArrives(st: State, i: Input)
    requires Refuses(st, i)
    ensures i.rx.Some?
  {
  }
}
