// peers.cpp: the table that pairs two clients, each with two endpoints, under a name.
module Pairing {
  import opened Words
  import opened Capsule

  const LOOPBACK: u32 := 0x7f000001

  datatype PerPair = PerPair(a0: Ipp, a1: Ipp, b0: Ipp, b1: Ipp, born: int)

  type Table = map<string, PerPair>

  // An endpoint with address and port 0. The map value-initialises its entries, so `_t`
  // starts as 0 in the table; the key words of an empty endpoint are never looked at.
  const NOWHERE := Ipp(0, 0, 0, [0, 0, 0, 0])

  predicate SideA(e: PerPair) {
    e.a0.p != 0
  }

  predicate SideB(e: PerPair) {
    e.b0.p != 0
  }

  predicate HalfFilled(e: PerPair) {
    SideA(e) && !SideB(e)
  }

  // The endpoints p, q are taken for the ones of side a.
  predicate SameOne(e: PerPair, p: Ipp, q: Ipp) {
    || SameIpp(e.a0, p) || SameIpp(e.a0, q)
    || ((SameIpp(e.a1, p) || SameIpp(e.a1, q)) && p.a != LOOPBACK && q.a != LOOPBACK)
  }

  function Joined(e: PerPair, p: Ipp, q: Ipp): PerPair {
    if !SideA(e) then e.(a0 := Assign(e.a0, p), a1 := Assign(e.a1, q))
    else if !SideB(e) && !SameOne(e, p, q) then e.(b0 := Assign(e.b0, p), b1 := Assign(e.b1, q))
    else e
  }

  function Added(pairs: Table, n: string, p: Ipp, q: Ipp, now: int): Table {
    if n in pairs then pairs[n := Joined(pairs[n], p, q)]
    else pairs[n := PerPair(Assign(NOWHERE, p), Assign(NOWHERE, q), NOWHERE, NOWHERE, now)]
  }

  function Removed(pairs: Table, n: string): Table {
    pairs - {n}
  }

  function Kept(pairs: Table, now: int): Table {
    map n | n in pairs && now - pairs[n].born <= TTLIVE :: pairs[n]
  }

  class Peers {
    var pairs: Table

    constructor ()
      ensures pairs == map[]
    {
      pairs := map[];
    }

    method Remove(n: string)
      modifies this
      ensures pairs == Removed(old(pairs), n)
    {
      if n in pairs {
        pairs := pairs - {n};
      }
    }

    // `now` is time(0).
    method Add(n: string, p: Ipp, q: Ipp, now: int) returns (r: bool)
      modifies this
      ensures pairs == Added(old(pairs), n, p, q, now)
      ensures r <==> n in old(pairs) && (HalfFilled(old(pairs)[n]) ==> !SameOne(old(pairs)[n], p, q))
    {
      if n in pairs {
        var rpp := pairs[n];
        if rpp.a0.p == 0 {
          rpp := rpp.(a0 := Assign(rpp.a0, p));
          rpp := rpp.(a1 := Assign(rpp.a1, q));
        } else if rpp.b0.p == 0 {
          if SameIpp(rpp.a0, p) || SameIpp(rpp.a0, q) {
            return false;
          }
          if SameIpp(rpp.a1, p) || SameIpp(rpp.a1, q) {
            if p.a != LOOPBACK && q.a != LOOPBACK {
              return false;
            }
          }
          rpp := rpp.(b0 := Assign(rpp.b0, p));
          rpp := rpp.(b1 := Assign(rpp.b1, q));
        }
        pairs := pairs[n := rpp];
        return true;
      }
      pairs := pairs[n := PerPair(Assign(NOWHERE, p), Assign(NOWHERE, q), NOWHERE, NOWHERE, now)];
      return false;
    }

    method Find(n: string) returns (found: bool, e: PerPair)
      ensures found <==> n in pairs
      ensures found ==> e == pairs[n]
    {
      e := PerPair(NOWHERE, NOWHERE, NOWHERE, NOWHERE, 0);
      found := n in pairs;
      if found {
        e := pairs[n];
      }
    }

    // Each erase restarts the scan; the scan may visit the names in any order.
    method DelOldies(now: int)
      modifies this
      ensures pairs == Kept(old(pairs), now)
      ensures forall n :: n in pairs <==> n in old(pairs) && now - old(pairs)[n].born <= 15
      ensures forall n :: n in pairs ==> pairs[n] == old(pairs)[n]
    {
      var again := true;
      while again
        invariant forall n :: n in pairs ==> n in old(pairs) && pairs[n] == old(pairs)[n]
        invariant forall n :: n in old(pairs) && n !in pairs ==> now - old(pairs)[n].born > TTLIVE
        invariant !again ==> forall n :: n in pairs ==> now - pairs[n].born <= TTLIVE
        decreases |pairs|, again
      {
        ghost var size := |pairs|;
        again := false;
        var todo := pairs.Keys;
        while todo != {} && !again
          invariant todo <= pairs.Keys
          invariant forall n :: n in pairs ==> n in old(pairs) && pairs[n] == old(pairs)[n]
          invariant forall n :: n in old(pairs) && n !in pairs ==> now - old(pairs)[n].born > TTLIVE
          invariant !again ==> forall n :: n in pairs && n !in todo ==> now - pairs[n].born <= TTLIVE
          invariant |pairs| + (if again then 1 else 0) <= size
          decreases todo
        {
          var n :| n in todo;
          todo := todo - {n};
          if now - pairs[n].born > TTLIVE {
            ghost var names := pairs.Keys;
            pairs := pairs - {n};
            assert pairs.Keys == names - {n};
            again := true;
          }
        }
      }
    }
  }

  // --- runs of the table ---

  datatype Op = Add(n: string, p: Ipp, q: Ipp, now: int) | Remove(n: string) | DelOldies(now: int)

  function Step(pairs: Table, op: Op): Table {
    match op
    case Add(n, p, q, now) => Added(pairs, n, p, q, now)
    case Remove(n) => Removed(pairs, n)
    case DelOldies(now) => Kept(pairs, now)
  }

  function Run(pairs: Table, ops: seq<Op>): Table {
    if ops == [] then pairs else Step(Run(pairs, ops[..|ops| - 1]), ops[|ops| - 1])
  }

  predicate Untyped(e: PerPair) {
    e.a0.t == e.a1.t == e.b0.t == e.b1.t == 0
  }

  // Every reachable entry fills side a before side b, and the table never takes over a type.
  ghost predicate Good(pairs: Table) {
    forall n :: n in pairs ==> Untyped(pairs[n]) && (SideB(pairs[n]) ==> SideA(pairs[n]))
  }

  lemma {:induction false} ReachableGood(ops: seq<Op>)
    ensures Good(Run(map[], ops))
  {
    if ops == [] {
    } else {
      ReachableGood(ops[..|ops| - 1]);
    }
  }

  predicate SamePlace(l: Ipp, r: Ipp) {
    l.a == r.a && l.p == r.p
  }

  // The sides share no endpoint, except that the second one of side a may come back when an
  // endpoint of side b is the loopback address.
  predicate SidesApart(e: PerPair) {
    && !SamePlace(e.a0, e.b0) && !SamePlace(e.a0, e.b1)
    && (SamePlace(e.a1, e.b0) || SamePlace(e.a1, e.b1) ==> e.b0.a == LOOPBACK || e.b1.a == LOOPBACK)
  }

  ghost predicate UntypedOps(ops: seq<Op>) {
    forall op :: op in ops && op.Add? ==> op.p.t == 0 && op.q.t == 0
  }

  lemma {:induction false} ReachableSidesApart(ops: seq<Op>, n: string)
    requires UntypedOps(ops)
    requires n in Run(map[], ops) && SideB(Run(map[], ops)[n])
    ensures SidesApart(Run(map[], ops)[n])
  {
    if ops == [] {
    } else {
      var before := ops[..|ops| - 1];
      assert ops[|ops| - 1] in ops;
      ReachableGood(before);
      if n in Run(map[], before) && SideB(Run(map[], before)[n]) {
        ReachableSidesApart(before, n);
      }
    }
  }

  // --- the duplicate check ---

  // One of the endpoints p, q is already on side a; the second one of side a counts only when
  // neither is the loopback address.
  predicate Duplicate(e: PerPair, p: Ipp, q: Ipp) {
    || SamePlace(p, e.a0) || SamePlace(q, e.a0)
    || ((SamePlace(p, e.a1) || SamePlace(q, e.a1)) && p.a != 0x7F00_0001 && q.a != 0x7F00_0001)
  }

  // The same, of endpoints with type 0 only.
  predicate UntypedDuplicate(e: PerPair, p: Ipp, q: Ipp) {
    || (p.t == 0 && SamePlace(p, e.a0)) || (q.t == 0 && SamePlace(q, e.a0))
    || (((p.t == 0 && SamePlace(p, e.a1)) || (q.t == 0 && SamePlace(q, e.a1)))
        && p.a != 0x7F00_0001 && q.a != 0x7F00_0001)
  }

  // The other cases of add: a new name gets side a and the time, an entry whose side a is empty
  // gets side a, a full entry stays; no other name changes.
  lemma AddedElsewhere(pairs: Table, n: string, p: Ipp, q: Ipp, now: int)
    requires Good(pairs)
    ensures var t := Added(pairs, n, p, q, now);
            var a0, a1 := Ipp(p.a, p.p, 0, p.keys), Ipp(q.a, q.p, 0, q.keys);
            && n in t && (forall m :: m in pairs ==> m in t && (m != n ==> t[m] == pairs[m]))
            && (n !in pairs ==> t.Keys == pairs.Keys + {n} && t[n] == PerPair(a0, a1, NOWHERE, NOWHERE, now))
            && (n in pairs && pairs[n].a0.p == 0 ==> t[n] == pairs[n].(a0 := a0, a1 := a1))
            && (n in pairs && pairs[n].a0.p != 0 && pairs[n].b0.p != 0 ==> t == pairs)
  {
  }

  // The check compares types, and those of the table are 0: a half-filled entry turns a client
  // away exactly for an endpoint of type 0 that it has, and takes it as side b otherwise.
  lemma AddedToHalfFilled(pairs: Table, n: string, p: Ipp, q: Ipp, now: int)
    requires Good(pairs) && n in pairs && HalfFilled(pairs[n])
    ensures Added(pairs, n, p, q, now)
         == if UntypedDuplicate(pairs[n], p, q) then pairs
            else pairs[n := pairs[n].(b0 := Ipp(p.a, p.p, 0, p.keys), b1 := Ipp(q.a, q.p, 0, q.keys))]
  {
    assert SameOne(pairs[n], p, q) <==> UntypedDuplicate(pairs[n], p, q);
  }

  // A typed client that comes twice is paired with itself.
  lemma TypedClientPairsWithItself(n: string, p: Ipp, now: int)
    requires p.t != 0 && p.p != 0
    ensures var pairs := Run(map[], [Add(n, p, p, now), Add(n, p, p, now)]);
            n in pairs && SideB(pairs[n]) && !SidesApart(pairs[n])
  {
    RunTwo(Add(n, p, p, now), Add(n, p, p, now));
  }

  // So is one whose first endpoint is new and untyped while its second, typed, is side a's first.
  lemma TypedSecondEndpointIsMissed(n: string, p: Ipp, q: Ipp, now: int)
    requires p.t == 0 && p.p != 0 && q.t != 0 && q.p != 0 && !SamePlace(p, q)
    ensures var pairs := Run(map[], [Add(n, q, q, now), Add(n, p, q, now)]);
            n in pairs && SideB(pairs[n]) && !SidesApart(pairs[n])
  {
    RunTwo(Add(n, q, q, now), Add(n, p, q, now));
  }

  lemma RunTwo(first: Op, second: Op)
    ensures Run(map[], [first, second]) == Step(Step(map[], first), second)
  {
    assert [first, second][..1] == [first] && [first][..0] == [];
    assert Run(map[], []) == map[];
    assert Run(map[], [first]) == Step(map[], first);
  }

  // Every duplicate whose endpoints have these types is turned away.
  ghost predicate TurnsAway(tp: int, tq: int) {
    forall e: PerPair, p: Ipp, q: Ipp ::
      HalfFilled(e) && Untyped(e) && p.t == tp && q.t == tq && Duplicate(e, p, q) ==> Joined(e, p, q) == e
  }

  // The check does what it is for exactly when both types of the client are 0.
  lemma DuplicateCheckNeedsUntyped(tp: int, tq: int)
    ensures TurnsAway(tp, tq) <==> tp == 0 && tq == 0
  {
    var known, other := Ipp(1, 1, 0, NOWHERE.keys), Ipp(1, 2, 0, NOWHERE.keys);
    var e := PerPair(known, known, NOWHERE, NOWHERE, 0);
    if tp != 0 {
      assert Duplicate(e, known.(t := tp), other.(t := tq)) && Joined(e, known.(t := tp), other.(t := tq)) != e;
    } else if tq != 0 {
      assert Duplicate(e, other.(t := tp), known.(t := tq)) && Joined(e, other.(t := tp), known.(t := tq)) != e;
    }
  }

  predicate Drops(op: Op, n: string, born: int) {
    match op
    case Add(_, _, _, _) => false
    case Remove(m) => m == n
    case DelOldies(now) => now - born > TTLIVE
  }

  // While an entry lives, `born` stays, and once both sides are filled nothing in it changes.
  lemma {:induction false} EntryLifetime(pairs: Table, n: string, ops: seq<Op>)
    requires n in pairs
    requires forall op :: op in ops ==> !Drops(op, n, pairs[n].born)
    ensures n in Run(pairs, ops)
    ensures Run(pairs, ops)[n].born == pairs[n].born
    ensures SideA(pairs[n]) && SideB(pairs[n]) ==> Run(pairs, ops)[n] == pairs[n]
  {
    if ops == [] {
    } else {
      assert ops[|ops| - 1] in ops;
      EntryLifetime(pairs, n, ops[..|ops| - 1]);
    }
  }

  // An expiry leaves exactly the young entries, unchanged; a second one at the same time or
  // earlier finds nothing to do.
  lemma KeptIsFinal(pairs: Table, now: int, earlier: int)
    requires earlier <= now
    ensures Kept(Kept(pairs, now), earlier) == Kept(pairs, now)
  {
    var kept := Kept(pairs, now);
    assert forall n :: n in kept ==> earlier - kept[n].born <= TTLIVE;
  }
}
