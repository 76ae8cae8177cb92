// osthread.h: CntPtr, the reference-counted pointer. `State` is the meaning of a population
// of handles and counters; the classes below it change the heap in place, step by step the
// same way.
module Counting {
  import opened Words

  // A raw pointer; 0 is the null pointer.
  type Pointer = nat

  datatype Ref<C> = Null | To(cell: C)

  datatype Cell = Cell(p: Pointer, count: nat)

  // A payload that no counter owns any more: `delete _c->p`, or given back by detach.
  datatype Gone = Deleted(p: Pointer) | Given(p: Pointer)

  // The handles and what they refer to, the counters not yet freed, the payloads wrapped so far
  // and what became of those that are gone, in order.
  datatype State<H, C> = State(handles: map<H, Ref<C>>, cells: map<C, Cell>, wrapped: set<Pointer>, gone: seq<Gone>)

  function Sharers<H, C>(s: State<H, C>, k: C): set<H> {
    set h | h in s.handles && s.handles[h] == To(k)
  }

  // --- the operations ---

  // CntPtr(U* p), allocating the counter `k` when p is not null.
  function Wrapped<H, C>(s: State<H, C>, h: H, p: Pointer, k: C): State<H, C> {
    if p == 0 then s.(handles := s.handles[h := Null])
    else s.(handles := s.handles[h := To(k)], cells := s.cells[k := Cell(p, 1)], wrapped := s.wrapped + {p})
  }

  // add(c)
  function Joined<H, C>(s: State<H, C>, h: H, ref: Ref<C>): State<H, C>
    requires ref.To? ==> ref.cell in s.cells
  {
    var t := s.(handles := s.handles[h := ref]);
    match ref
    case Null => t
    case To(k) => t.(cells := s.cells[k := s.cells[k].(count := s.cells[k].count + 1)])
  }

  // dec()
  function Left<H, C>(s: State<H, C>, h: H): State<H, C>
    requires h in s.handles && (s.handles[h].To? ==> s.handles[h].cell in s.cells)
    requires s.handles[h].To? ==> s.cells[s.handles[h].cell].count > 0
  {
    var t := s.(handles := s.handles[h := Null]);
    match s.handles[h]
    case Null => t
    case To(k) =>
      var cell := s.cells[k];
      if cell.count - 1 == 0 then t.(cells := s.cells - {k}, gone := s.gone + [Deleted(cell.p)])
      else t.(cells := s.cells[k := cell.(count := cell.count - 1)])
  }

  function Destroyed<H, C>(s: State<H, C>, h: H): State<H, C>
    requires Inv(s) && h in s.handles
  {
    var t := Left(s, h);
    t.(handles := t.handles - {h})
  }

  // operator=(const CntPtr&)
  function Assigned<H, C>(s: State<H, C>, h: H, r: H): State<H, C>
    requires Inv(s) && h in s.handles && r in s.handles
  {
    if h == r then s
    else
      LeftKeepsInv(s, h);
      assert Counted(Left(s, h)) && Left(s, h).handles[r] == s.handles[r];
      Joined(Left(s, h), h, s.handles[r])
  }

  // detach()
  function Detached<H, C>(s: State<H, C>, h: H): State<H, C>
    requires h in s.handles && s.handles[h].To? && s.handles[h].cell in s.cells
  {
    var k := s.handles[h].cell;
    s.(handles := s.handles[h := Null], cells := s.cells - {k}, gone := s.gone + [Given(s.cells[k].p)])
  }

  // --- what every operation keeps ---

  // No handle refers to a freed counter, and every counter counts its handles.
  ghost predicate Counted<H, C>(s: State<H, C>) {
    && (forall h :: h in s.handles && s.handles[h].To? ==> s.handles[h].cell in s.cells)
    && (forall k :: k in s.cells ==> s.cells[k].count == |Sharers(s, k)| > 0)
  }

  ghost predicate IsGone(gone: seq<Gone>, p: Pointer) {
    exists i :: 0 <= i < |gone| && gone[i].p == p
  }

  ghost predicate IsHeld<C>(cells: map<C, Cell>, p: Pointer) {
    exists k :: k in cells && cells[k].p == p
  }

  // Every wrapped payload is at one place only: in one counter, or gone once.
  ghost predicate Owned<C>(cells: map<C, Cell>, wrapped: set<Pointer>, gone: seq<Gone>) {
    && (forall i, j :: 0 <= i < j < |gone| ==> gone[i].p != gone[j].p)
    && (forall k, l :: k in cells && l in cells && k != l ==> cells[k].p != cells[l].p)
    && (forall k :: k in cells ==> cells[k].p in wrapped && !IsGone(gone, cells[k].p))
    && (forall i :: 0 <= i < |gone| ==> gone[i].p in wrapped)
    && (forall p :: p in wrapped ==> IsGone(gone, p) || IsHeld(cells, p))
  }

  ghost predicate Inv<H, C>(s: State<H, C>) {
    Counted(s) && Owned(s.cells, s.wrapped, s.gone)
  }

  lemma WrappedKeepsInv<H, C>(s: State<H, C>, h: H, p: Pointer, k: C)
    requires Inv(s) && h !in s.handles && k !in s.cells && p !in s.wrapped
    ensures Inv(Wrapped(s, h, p, k))
  {
    WrappedCounted(s, h, p, k);
    hide Counted;
    if p != 0 {
      NewCell(s.cells, s.wrapped, s.gone, k, p);
    }
  }

  lemma WrappedCounted<H, C>(s: State<H, C>, h: H, p: Pointer, k: C)
    requires Counted(s) && h !in s.handles && k !in s.cells
    ensures Counted(Wrapped(s, h, p, k))
  {
    var t := Wrapped(s, h, p, k);
    forall l | l in s.cells ensures Sharers(t, l) == Sharers(s, l) {}
    assert p != 0 ==> Sharers(t, k) == {h};
  }

  lemma JoinedKeepsInv<H, C>(s: State<H, C>, h: H, ref: Ref<C>)
    requires Inv(s) && (h in s.handles ==> s.handles[h] == Null) && (ref.To? ==> ref.cell in s.cells)
    ensures Inv(Joined(s, h, ref))
  {
    JoinedCounted(s, h, ref);
    hide Counted;
    SameCells(s.cells, Joined(s, h, ref).cells, s.wrapped, s.gone);
  }

  lemma JoinedCounted<H, C>(s: State<H, C>, h: H, ref: Ref<C>)
    requires Counted(s) && (h in s.handles ==> s.handles[h] == Null) && (ref.To? ==> ref.cell in s.cells)
    ensures Counted(Joined(s, h, ref))
  {
    var t := Joined(s, h, ref);
    forall l | l in t.cells ensures t.cells[l].count == |Sharers(t, l)| > 0 {
      JoinedSharers(s, h, ref, l);
      hide Sharers;
      assert |Sharers(s, l) + {h}| == |Sharers(s, l)| + 1;
    }
  }

  lemma JoinedSharers<H, C>(s: State<H, C>, h: H, ref: Ref<C>, l: C)
    requires (h in s.handles ==> s.handles[h] == Null) && (ref.To? ==> ref.cell in s.cells)
    ensures h !in Sharers(s, l)
    ensures Sharers(Joined(s, h, ref), l) == if ref == To(l) then Sharers(s, l) + {h} else Sharers(s, l)
  {
  }

  lemma LeftKeepsInv<H, C>(s: State<H, C>, h: H)
    requires Inv(s) && h in s.handles
    ensures s.handles[h].To? ==> s.handles[h].cell in s.cells && s.cells[s.handles[h].cell].count > 0
    ensures Inv(Left(s, h)) && Left(s, h).handles == s.handles[h := Null]
  {
    LeftCounted(s, h);
    hide Counted;
    if s.handles[h].To? {
      var k := s.handles[h].cell;
      if s.cells[k].count == 1 {
        CellGone(s.cells, s.wrapped, s.gone, k, Deleted(s.cells[k].p));
      } else {
        SameCells(s.cells, Left(s, h).cells, s.wrapped, s.gone);
      }
    }
  }

  lemma LeftCounted<H, C>(s: State<H, C>, h: H)
    requires Counted(s) && h in s.handles
    ensures s.handles[h].To? ==> s.handles[h].cell in s.cells && s.cells[s.handles[h].cell].count > 0
    ensures Counted(Left(s, h))
  {
    var t := Left(s, h);
    forall l | l in s.cells ensures Sharers(t, l) == Sharers(s, l) - {h} {}
    if s.handles[h].To? {
      var k := s.handles[h].cell;
      assert h in Sharers(s, k);
      if s.cells[k].count == 1 {
        assert |Sharers(t, k)| == 0;
        assert forall r :: r in t.handles && t.handles[r] == To(k) ==> r in Sharers(t, k);
      }
    }
  }

  // detach is safe exactly for a handle that shares its counter with no other.
  lemma DetachedKeepsInv<H, C>(s: State<H, C>, h: H)
    requires Inv(s) && h in s.handles && s.handles[h].To?
    ensures Inv(Detached(s, h)) <==> s.cells[s.handles[h].cell].count == 1
  {
    var k := s.handles[h].cell;
    DetachedCounted(s, h);
    hide Counted;
    CellGone(s.cells, s.wrapped, s.gone, k, Given(s.cells[k].p));
  }

  lemma DetachedCounted<H, C>(s: State<H, C>, h: H)
    requires Counted(s) && h in s.handles && s.handles[h].To?
    ensures Counted(Detached(s, h)) <==> s.cells[s.handles[h].cell].count == 1
  {
    var t := Detached(s, h);
    var k := s.handles[h].cell;
    assert h in Sharers(s, k);
    forall l | l in s.cells ensures Sharers(t, l) == Sharers(s, l) - {h} {}
    if s.cells[k].count == 1 {
      assert |Sharers(t, k)| == 0;
      assert forall r :: r in t.handles && t.handles[r] == To(k) ==> r in Sharers(t, k);
    } else {
      assert |Sharers(t, k)| > 0;
      var r :| r in Sharers(t, k);
      assert t.handles[r] == To(k);
    }
  }

  lemma DestroyedKeepsInv<H, C>(s: State<H, C>, h: H)
    requires Inv(s) && h in s.handles
    ensures Inv(Destroyed(s, h))
  {
    LeftKeepsInv(s, h);
    var u := Left(s, h);
    var t := u.(handles := u.handles - {h});
    forall l | l in u.cells ensures Sharers(t, l) == Sharers(u, l) {}
  }

  lemma AssignedKeepsInv<H, C>(s: State<H, C>, h: H, r: H)
    requires Inv(s) && h in s.handles && r in s.handles
    ensures Inv(Assigned(s, h, r))
  {
    if h != r {
      LeftKeepsInv(s, h);
      assert Counted(Left(s, h));
      assert Left(s, h).handles[r] == s.handles[r];
      JoinedKeepsInv(Left(s, h), h, s.handles[r]);
    }
  }

  lemma NewCell<C>(cells: map<C, Cell>, wrapped: set<Pointer>, gone: seq<Gone>, k: C, p: Pointer)
    requires Owned(cells, wrapped, gone) && k !in cells && p !in wrapped
    ensures Owned(cells[k := Cell(p, 1)], wrapped + {p}, gone)
  {
    var t := cells[k := Cell(p, 1)];
    assert t[k].p == p;
    forall q | IsHeld(cells, q) ensures IsHeld(t, q) {
      var l :| l in cells && cells[l].p == q;
      assert t[l].p == q;
    }
  }

  // Changing counts moves no payload.
  lemma SameCells<C>(cells: map<C, Cell>, t: map<C, Cell>, wrapped: set<Pointer>, gone: seq<Gone>)
    requires Owned(cells, wrapped, gone) && t.Keys == cells.Keys
    requires forall k :: k in cells ==> t[k].p == cells[k].p
    ensures Owned(t, wrapped, gone)
  {
    forall q | IsHeld(cells, q) ensures IsHeld(t, q) {
      var l :| l in cells && cells[l].p == q;
      assert t[l].p == q;
    }
  }

  // Freeing a counter moves its payload out, once.
  lemma CellGone<C>(cells: map<C, Cell>, wrapped: set<Pointer>, gone: seq<Gone>, k: C, g: Gone)
    requires Owned(cells, wrapped, gone) && k in cells && g.p == cells[k].p
    ensures Owned(cells - {k}, wrapped, gone + [g])
  {
    var t, now := cells - {k}, gone + [g];
    forall q ensures IsGone(now, q) <==> IsGone(gone, q) || q == g.p {
      assert now[|gone|].p == g.p;
      if i :| 0 <= i < |gone| && gone[i].p == q {
        assert now[i].p == q;
      }
    }
    forall q | IsHeld(cells, q) && q != g.p ensures IsHeld(t, q) {
      var l :| l in cells && cells[l].p == q;
      assert t[l].p == q;
    }
  }

  // dec(): while others share the counter it only counts down; the last handle frees it and its
  // payload is deleted. Only detach gives a payload back.
  lemma LastHandleDeletes<H, C>(s: State<H, C>, h: H)
    requires Inv(s) && h in s.handles && s.handles[h].To?
    ensures var k := s.handles[h].cell;
            k in s.cells && s.cells[k].count > 0
            && var t := Left(s, h);
               if |Sharers(s, k)| == 1 then t.cells == s.cells - {k} && t.gone == s.gone + [Deleted(s.cells[k].p)]
               else t.cells == s.cells[k := Cell(s.cells[k].p, |Sharers(s, k)| - 1)] && t.gone == s.gone
  {
    LeftKeepsInv(s, h);
    hide Sharers;
  }

  // --- runs ---

  datatype Act<H, C> =
    | Construct(h: H, p: Pointer, k: C)
    | Copy(h: H, r: H)
    | Assign(h: H, r: H)
    | Destroy(h: H)
    | Detach(h: H)

  // New handles and counters are new, a raw pointer is wrapped once, and detach finds a
  // handle that is not null and not shared.
  ghost predicate Allowed<H, C>(s: State<H, C>, act: Act<H, C>) {
    match act
    case Construct(h, p, k) => h !in s.handles && k !in s.cells && p !in s.wrapped
    case Copy(h, r) => h !in s.handles && r in s.handles
    case Assign(h, r) => h in s.handles && r in s.handles
    case Destroy(h) => h in s.handles
    case Detach(h) => h in s.handles && s.handles[h].To? && s.handles[h].cell in s.cells
                      && s.cells[s.handles[h].cell].count == 1
  }

  ghost function Step<H, C>(s: State<H, C>, act: Act<H, C>): (t: State<H, C>)
    requires Inv(s) && Allowed(s, act)
    ensures Inv(t)
  {
    match act
    case Construct(h, p, k) => WrappedKeepsInv(s, h, p, k); Wrapped(s, h, p, k)
    case Copy(h, r) => assert Counted(s); JoinedKeepsInv(s, h, s.handles[r]); Joined(s, h, s.handles[r])
    case Assign(h, r) => AssignedKeepsInv(s, h, r); Assigned(s, h, r)
    case Destroy(h) => DestroyedKeepsInv(s, h); Destroyed(s, h)
    case Detach(h) => DetachedKeepsInv(s, h); Detached(s, h)
  }

  // The states of a run from the empty population; the first conjunct of each step only says
  // where Allowed and Step are meaningful, and RunKeepsInv shows that this is everywhere.
  ghost predicate IsRun<H(!new), C(!new)>(acts: seq<Act<H, C>>, states: seq<State<H, C>>) {
    && |states| == |acts| + 1
    && states[0] == State(map[], map[], {}, [])
    && forall i :: 0 <= i < |acts| ==>
         Inv(states[i]) ==> Allowed(states[i], acts[i]) && states[i + 1] == Step(states[i], acts[i])
  }

  // After every run: counters count, no handle dangles, every payload is in one place; once
  // the last handle is gone, so is every payload, each exactly once.
  lemma {:induction false} RunKeepsInv<H(!new), C(!new)>(acts: seq<Act<H, C>>, states: seq<State<H, C>>, n: nat)
    requires IsRun(acts, states) && n <= |acts|
    ensures Inv(states[n])
    ensures states[n].handles == map[] ==> states[n].cells == map[]
    ensures states[n].handles == map[] ==> forall p :: p in states[n].wrapped ==> IsGone(states[n].gone, p)
  {
    if n == 0 {
    } else {
      RunKeepsInv(acts, states, n - 1);
      assert Inv(states[n - 1]);
    }
    NoHandles(states[n]);
  }

  function Givens(gone: seq<Gone>): nat {
    if gone == [] then 0 else Givens(gone[..|gone| - 1]) + if gone[|gone| - 1].Given? then 1 else 0
  }

  function Detaches<H, C>(acts: seq<Act<H, C>>): nat {
    if acts == [] then 0 else Detaches(acts[..|acts| - 1]) + if acts[|acts| - 1].Detach? then 1 else 0
  }

  lemma {:induction false} OneMoreGone(gone: seq<Gone>, g: Gone)
    ensures Givens(gone + [g]) == Givens(gone) + if g.Given? then 1 else 0
  {
    assert (gone + [g])[..|gone|] == gone;
  }

  lemma LeftGone<H, C>(s: State<H, C>, h: H)
    requires Inv(s) && h in s.handles
    ensures s.handles[h].To? ==> s.handles[h].cell in s.cells && s.cells[s.handles[h].cell].count > 0
    ensures Givens(Left(s, h).gone) == Givens(s.gone)
  {
    LeftKeepsInv(s, h);
    hide Inv, Givens, Sharers;
    if s.handles[h].To? {
      OneMoreGone(s.gone, Deleted(s.cells[s.handles[h].cell].p));
    }
  }

  lemma StepGivens<H, C>(s: State<H, C>, act: Act<H, C>)
    requires Inv(s) && Allowed(s, act)
    ensures Givens(Step(s, act).gone) == Givens(s.gone) + if act.Detach? then 1 else 0
  {
    hide Givens, Sharers, Counted, Owned;
    match act
    case Construct(h, p, k) =>
    case Copy(h, r) =>
    case Assign(h, r) =>
      if h != r {
        LeftGone(s, h);
      }
    case Destroy(h) => LeftGone(s, h);
    case Detach(h) => OneMoreGone(s.gone, Given(s.cells[s.handles[h].cell].p));
  }

  // In every run as many payloads were given back as detach was called, so all others that are
  // gone were deleted.
  lemma {:induction false} RunGivesDetached<H(!new), C(!new)>(acts: seq<Act<H, C>>, states: seq<State<H, C>>, n: nat)
    requires IsRun(acts, states) && n <= |acts|
    ensures Givens(states[n].gone) == Detaches(acts[..n])
  {
    hide Inv, Step, Allowed;
    if n == 0 {
    } else {
      RunGivesDetached(acts, states, n - 1);
      RunKeepsInv(acts, states, n - 1);
      assert states[n - 1 + 1] == states[n];
      assert Allowed(states[n - 1], acts[n - 1]) && states[n] == Step(states[n - 1], acts[n - 1]);
      StepGivens(states[n - 1], acts[n - 1]);
      assert acts[..n][..n - 1] == acts[..n - 1];
    }
  }

  lemma NoHandles<H, C>(s: State<H, C>)
    requires Inv(s)
    ensures s.handles == map[] ==> s.cells == map[]
    ensures s.handles == map[] ==> forall p :: p in s.wrapped ==> IsGone(s.gone, p)
  {
    forall k | k in s.cells ensures exists h :: h in s.handles {
      var h :| h in Sharers(s, k);
      assert h in s.handles;
    }
  }

  // A counter never counts more handles than there are.
  lemma CountBound<H, C>(s: State<H, C>, k: C)
    requires Counted(s) && k in s.cells
    ensures s.cells[k].count <= |s.handles|
  {
    assert Sharers(s, k) <= s.handles.Keys;
    SubsetSize(Sharers(s, k), s.handles.Keys);
  }

  lemma {:induction false} SubsetSize<T>(a: set<T>, b: set<T>)
    requires a <= b
    ensures |a| <= |b|
  {
    if a == {} {
    } else {
      var x :| x in a;
      SubsetSize(a - {x}, b - {x});
    }
  }

  // --- the heap ---

  // The population of handles and counters as a value, kept up to date beside the heap.
  class World {
    ghost var view: State<CntPtr, Cnt>

    constructor ()
      ensures Valid() && view == State(map[], map[], {}, [])
    {
      view := State(map[], map[], {}, []);
    }

    // The heap agrees with the view, and the handles are few enough for 32-bit counters.
    ghost predicate Valid()
      reads this, view.handles.Keys, view.cells.Keys
    {
      && (forall h :: h in view.handles ==> h.Agrees(view.handles[h]))
      && (forall k :: k in view.cells ==> k.Agrees(view.cells[k]))
      && Inv(view)
      && |view.handles| < W32
    }
  }

  class Cnt {
    var p: Pointer
    var c: u32

    constructor (p: Pointer)
      ensures this.p == p && this.c == 1
    {
      this.p, this.c := p, 1;
    }

    ghost predicate Agrees(cell: Cell)
      reads this
    {
      p == cell.p && c == cell.count
    }
  }

  class CntPtr {
    var c: Cnt?

    ghost predicate Agrees(ref: Ref<Cnt>)
      reads this
    {
      match ref
      case Null => c == null
      case To(k) => c == k
    }

    constructor (p: Pointer, ghost world: World)
      requires world.Valid() && |world.view.handles| + 1 < W32 && p !in world.view.wrapped
      modifies world
      ensures world.Valid() && fresh(this)
      ensures exists k :: k !in old(world.view).cells && fresh(k) && world.view == Wrapped(old(world.view), this, p, k)
    {
      c := null;
      new;
      hide Counted, Owned, Sharers;
      ghost var s := world.view;
      var k := new Cnt(p);
      if p != 0 {
        c := k;
      }
      WrappedKeepsInv(s, this, p, k);
      world.view := Wrapped(s, this, p, k);
    }

    // CntPtr(const CntPtr&)
    constructor Copy(r: CntPtr, ghost world: World)
      requires world.Valid() && |world.view.handles| + 1 < W32 && r in world.view.handles
      modifies world, r.c
      ensures world.Valid() && fresh(this)
      ensures world.view == Joined(old(world.view), this, old(world.view).handles[r])
    {
      c := null;
      new;
      hide Owned, Sharers;
      if r.c != null {
        AddRef(r.c, world);
      } else {
        JoinedKeepsInv(world.view, this, Null);
        world.view := Joined(world.view, this, Null);
      }
    }

    // add(c) for a counter that is there; the handle is new or null.
    method AddRef(k: Cnt, ghost world: World)
      requires world.Valid() && (this in world.view.handles || |world.view.handles| + 1 < W32)
      requires c == null && k in world.view.cells
      modifies this, world, k
      ensures world.Valid()
      ensures world.view == Joined(old(world.view), this, To(k))
    {
      hide Counted, Owned, Sharers;
      ghost var s := world.view;
      ghost var t := Joined(s, this, To(k));
      assert this in s.handles ==> s.handles[this] == Null;
      JoinedKeepsInv(s, this, To(k));
      CountFits(t, k);
      assert k.Agrees(s.cells[k]);
      c := k;
      k.c := k.c + 1;
      world.view := t;
      forall h | h in t.handles ensures h.Agrees(t.handles[h]) {
        assert h != this ==> old(h.Agrees(s.handles[h]));
      }
      forall l | l in t.cells ensures l.Agrees(t.cells[l]) {
        assert old(l.Agrees(s.cells[l]));
      }
    }

    // dec()
    method Dec(ghost world: World)
      requires world.Valid() && this in world.view.handles
      modifies this, world, c
      ensures world.Valid() && c == null
      ensures world.view == Left(old(world.view), this)
    {
      hide Counted, Owned, Sharers;
      ghost var s := world.view;
      assert Agrees(s.handles[this]);
      LeftKeepsInv(s, this);
      ghost var t := Left(s, this);
      if c != null {
        var k: Cnt := c;
        assert k.Agrees(s.cells[k]);
        k.c := k.c - 1;
        c := null;
      }
      world.view := t;
      forall h | h in t.handles ensures h.Agrees(t.handles[h]) {
        assert h != this ==> old(h.Agrees(s.handles[h]));
      }
      forall l | l in t.cells ensures l.Agrees(t.cells[l]) {
        assert old(l.Agrees(s.cells[l]));
      }
    }

    // ~CntPtr(): the handle leaves the population.
    method Destroy(ghost world: World)
      requires world.Valid() && this in world.view.handles
      modifies this, world, c
      ensures world.Valid()
      ensures world.view == Destroyed(old(world.view), this)
    {
      hide Counted, Owned, Sharers;
      ghost var s := world.view;
      Dec(world);
      ghost var t := Destroyed(s, this);
      DestroyedKeepsInv(s, this);
      assert t.handles.Keys <= world.view.handles.Keys && |t.handles| <= |world.view.handles|;
      world.view := t;
    }

    // operator=(const CntPtr&)
    method Assign(r: CntPtr, ghost world: World)
      requires world.Valid() && this in world.view.handles && r in world.view.handles
      modifies this, world, c, r.c
      ensures world.Valid()
      ensures world.view == Assigned(old(world.view), this, r)
    {
      if this != r {
        ghost var s := world.view;
        hide Counted, Owned, Sharers, Left;
        assert r.Agrees(s.handles[r]);
        LeftKeepsInv(s, this);
        Dec(world);
        ghost var t := world.view;
        if t.handles[r].To? {
          RefHeld(t, r);
        }
        if r.c != null {
          AddRef(r.c, world);
        } else {
          assert t.handles[this := Null] == t.handles;
        }
      }
    }

    // detach(), called on a handle that owns its payload alone.
    method Detach(ghost world: World) returns (p: Pointer)
      requires world.Valid() && this in world.view.handles
      requires c != null && c.c == 1
      modifies this, world
      ensures world.Valid() && p == old(c.p)
      ensures world.view == Detached(old(world.view), this)
    {
      hide Counted, Owned, Sharers;
      ghost var s := world.view;
      assert Agrees(s.handles[this]);
      RefHeld(s, this);
      var k: Cnt := c;
      assert k.Agrees(s.cells[k]);
      DetachedKeepsInv(s, this);
      ghost var t := Detached(s, this);
      p := k.p;
      c := null;
      world.view := t;
      forall h | h in t.handles ensures h.Agrees(t.handles[h]) {
        assert h != this ==> old(h.Agrees(s.handles[h]));
      }
      forall l | l in t.cells ensures l.Agrees(t.cells[l]) {
        assert old(l.Agrees(s.cells[l]));
      }
    }
  }

  lemma RefHeld<H, C>(s: State<H, C>, h: H)
    requires Inv(s) && h in s.handles && s.handles[h].To?
    ensures s.handles[h].cell in s.cells
  {
  }

  lemma CountFits<H, C>(s: State<H, C>, k: C)
    requires Inv(s) && k in s.cells && |s.handles| < W32
    ensures s.cells[k].count < W32
  {
    CountBound(s, k);
  }
}
