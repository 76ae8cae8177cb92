// sock.cpp: the partial-send and partial-receive loops of tcp_sock. What the socket calls
// answer is an arbitrary script, one entry a call; past its end they answer nothing.
module Streams {
  import opened Words

  const EAGAIN := 11

  // What ::send returns, with errno when nothing was taken.
  datatype Shot = Shot(count: int, errno: int)

  // The k-th answer to an offer of `want` bytes; the kernel never takes more than that.
  function Answer(script: seq<Shot>, k: nat, want: nat): (r: Shot)
    ensures r.count <= want
  {
    if k >= |script| then Shot(0, 0)
    else if script[k].count <= want then script[k] else Shot(want, 0)
  }

  datatype Stop = AllSent | Refused(errno: int) | Destroyed(errno: int) | OutOfPatience

  // How a run of sendall ended: bytes sent, socket calls made, EAGAIN answers among them.
  datatype Outcome = Outcome(sent: nat, calls: nat, agains: nat, stop: Stop)

  // The `k`-th socket call onwards, with `length` bytes left and `patience` the loop's toutnonblock.
  function Sending(script: seq<Shot>, k: nat, length: int, patience: int): Outcome
    decreases if length > 0 then length else 0, patience
  {
    if length <= 0 then Outcome(0, 0, 0, AllSent)
    else
      var shot := Answer(script, k, length);
      if shot.count > 0 then
        var o := Sending(script, k + 1, length - shot.count, patience);
        o.(sent := o.sent + shot.count, calls := o.calls + 1)
      else if shot.errno == 0 then Outcome(0, 1, 0, Refused(0))
      else if shot.errno == EAGAIN then
        if patience - 1 < 0 then Outcome(0, 1, 1, OutOfPatience)
        else
          var o := Sending(script, k + 1, length, patience - 1);
          o.(calls := o.calls + 1, agains := o.agains + 1)
      else Outcome(0, 1, 0, Destroyed(shot.errno))
  }

  // Integer division of C.
  function TruncDiv10(a: int): int {
    if a >= 0 then a / 10 else -(-a / 10)
  }

  function Patience(tout: int): int {
    TruncDiv10(tout) + 1
  }

  // Every call makes progress or uses up patience. What is sent falls short of the length
  // exactly when the run was cut off: by an error, or by one EAGAIN more than its patience.
  lemma {:induction false} SendingBounds(script: seq<Shot>, k: nat, length: nat, patience: int)
    ensures var o := Sending(script, k, length, patience);
            && o.sent <= length
            && (o.stop == AllSent <==> o.sent == length)
            && (o.stop == OutOfPatience ==> o.agains == (if patience < 0 then 0 else patience) + 1)
            && (o.stop != OutOfPatience ==> o.agains <= if patience < 0 then 0 else patience)
            && o.calls <= o.sent + o.agains + (if o.stop.Refused? || o.stop.Destroyed? then 1 else 0)
    decreases length, patience
  {
    if length == 0 {
    } else {
      var shot := Answer(script, k, length);
      if shot.count > 0 {
        SendingBounds(script, k + 1, length - shot.count, patience);
      } else if shot.errno == EAGAIN && patience - 1 >= 0 {
        SendingBounds(script, k + 1, length, patience - 1);
      }
    }
  }

  // The last answer decides how it ends: errno 0 stops, 11 with no patience left gives up, anything
  // else destroys the socket.
  lemma {:induction false} LastAnswer(script: seq<Shot>, k: nat, length: nat, patience: int)
    ensures var o := Sending(script, k, length, patience);
            o.stop == AllSent
            || (&& o.calls > 0 && o.sent < length
                && var shot := Answer(script, k + o.calls - 1, length - o.sent);
                && shot.count <= 0
                && o.stop == if shot.errno == 0 then Refused(0)
                             else if shot.errno == 11 then OutOfPatience else Destroyed(shot.errno))
    decreases length, patience
  {
    if length == 0 {
    } else {
      var shot := Answer(script, k, length);
      if shot.count > 0 {
        LastAnswer(script, k + 1, length - shot.count, patience);
      } else if shot.errno == EAGAIN && patience - 1 >= 0 {
        LastAnswer(script, k + 1, length, patience - 1);
      }
    }
  }

  // A socket that always asks to try again is asked tout/10 + 2 times, and at least once.
  lemma {:induction false} AlwaysAgain(script: seq<Shot>, k: nat, length: nat, patience: int)
    requires length > 0 && |script| > k + (if patience < 0 then 0 else patience)
    requires forall j :: k <= j < |script| ==> script[j] == Shot(-1, 11)
    ensures Sending(script, k, length, patience).stop == OutOfPatience
    ensures Sending(script, k, length, patience).calls == (if patience < 0 then 0 else patience) + 1
    decreases patience
  {
    if patience > 0 {
      AlwaysAgain(script, k + 1, length, patience - 1);
    }
  }

  lemma PatienceOfTout(tout: int)
    ensures tout >= 0 ==> Patience(tout) == tout / 10 + 1
    ensures -10 < tout <= 0 ==> Patience(tout) == 1
    ensures tout <= -10 ==> Patience(tout) <= 0
  {
  }

  // sendall returns after at most length + tout/10 + 1 socket calls.
  lemma {:induction false} SendAllTerminates(script: seq<Shot>, length: nat, tout: nat)
    ensures Sending(script, 0, length, Patience(tout)).calls <= length + tout / 10 + 1
  {
    SendingBounds(script, 0, length, Patience(tout));
  }

  // What the k-th recv of at most `want` bytes delivers; nothing on an error or at the end.
  function Delivery(script: seq<seq<byte>>, k: nat, want: nat): (r: seq<byte>)
    ensures |r| <= want
  {
    if k >= |script| then [] else if |script[k]| <= want then script[k] else script[k][..want]
  }

  // The bytes that arrive from the k-th call on, while `want` are missing.
  function Arriving(script: seq<seq<byte>>, k: nat, want: nat): (s: seq<byte>)
    ensures |s| <= want
    decreases want
  {
    if want == 0 then []
    else
      var shot := Delivery(script, k, want);
      if shot == [] then [] else shot + Arriving(script, k + 1, want - |shot|)
  }

  // Everything the calls deliver from the k-th on, until one delivers nothing.
  function Stream(script: seq<seq<byte>>): seq<byte> {
    if script == [] || script[0] == [] then [] else script[0] + Stream(script[1..])
  }

  // What arrives is the front of that stream, as much as was asked for.
  lemma {:induction false} ArrivingIsStream(script: seq<seq<byte>>, k: nat, want: nat)
    requires k <= |script|
    ensures var all := Stream(script[k..]);
            Arriving(script, k, want) == if |all| <= want then all else all[..want]
    decreases want
  {
    if want == 0 || k == |script| || script[k] == [] {
    } else {
      var head, tail := script[k], Stream(script[k + 1..]);
      assert script[k..][0] == head && script[k..][1..] == script[k + 1..];
      assert Stream(script[k..]) == head + tail;
      hide Stream;
      if |head| < want {
        ArrivingIsStream(script, k + 1, want - |head|);
        FrontOfJoin(head, tail, want);
      } else {
        assert Arriving(script, k, want) == head[..want] + [];
      }
    }
  }

  lemma FrontOfJoin(head: seq<byte>, tail: seq<byte>, want: nat)
    requires |head| < want
    ensures head + (if |tail| <= want - |head| then tail else tail[..want - |head|])
         == if |head + tail| <= want then head + tail else (head + tail)[..want]
  {
  }

  // receiveall comes back short only after a call that delivered nothing.
  lemma {:induction false} ArrivingShort(script: seq<seq<byte>>, k: nat, want: nat) returns (j: nat)
    requires |Arriving(script, k, want)| < want
    ensures k <= j && Delivery(script, j, want - |Arriving(script, k, want)|) == []
    decreases want
  {
    var shot := Delivery(script, k, want);
    if shot == [] {
      j := k;
    } else {
      j := ArrivingShort(script, k + 1, want - |shot|);
    }
  }

  class TcpSock {
    // The bytes the kernel accepted, the last errno and whether the socket is still open.
    var wire: seq<byte>
    var syserr: int
    var open: bool

    constructor ()
      ensures wire == [] && syserr == 0 && open
    {
      wire, syserr, open := [], 0, true;
    }

    method SendAll(buff: seq<byte>, length: int, tout: int, script: seq<Shot>)
      returns (sent: nat, calls: nat)
      requires length <= |buff|
      modifies this
      ensures var o := Sending(script, 0, length, Patience(tout));
              && sent == o.sent && calls == o.calls
              && syserr == (match o.stop case AllSent => (if o.agains > 0 then EAGAIN else 0)
                                         case OutOfPatience => EAGAIN
                                         case Refused(e) => e
                                         case Destroyed(e) => e)
              && open == (old(open) && !o.stop.Destroyed?)
      ensures sent <= |buff|
      ensures wire == old(wire) + buff[..sent]
    {
      ghost var start, wasOpen := wire, open;
      ghost var all := Sending(script, 0, length, Patience(tout));
      sent, calls := 0, 0;
      ghost var agains: nat := 0;
      syserr := 0;
      var left := length;
      var toutnonblock := Patience(tout);
      while left > 0
        invariant sent + left == length && sent <= |buff|
        invariant wire == start + buff[..sent]
        invariant syserr == (if agains > 0 then EAGAIN else 0) && open == wasOpen
        invariant var o := Sending(script, calls, left, toutnonblock);
                  && all == Outcome(sent + o.sent, calls + o.calls, agains + o.agains, o.stop)
        decreases left, toutnonblock
      {
        var shot := Answer(script, calls, left);
        calls := calls + 1;
        if shot.count <= 0 {
          syserr := shot.errno;
          if syserr == 0 {
            break;
          }
          if syserr == EAGAIN {
            agains := agains + 1;
            toutnonblock := toutnonblock - 1;
            if toutnonblock < 0 {
              break;
            }
            continue;
          }
          open := false;
          break;
        }
        Accept(buff, sent, shot.count, start);
        left := left - shot.count;
        sent := sent + shot.count;
      }
    }

    // The kernel takes buff[from..from + count].
    method Accept(buff: seq<byte>, from: nat, count: nat, ghost start: seq<byte>)
      requires from + count <= |buff| && wire == start + buff[..from]
      modifies this`wire
      ensures wire == start + buff[..from + count]
    {
      wire := wire + buff[from..from + count];
      assert buff[..from] + buff[from..from + count] == buff[..from + count];
    }

    method ReceiveAll(buff: array<byte>, length: nat, script: seq<seq<byte>>) returns (got: nat)
      requires length <= buff.Length
      modifies this`syserr, buff
      ensures got == |Arriving(script, 0, length)| <= length
      ensures buff[..got] == Arriving(script, 0, length)
      ensures buff[got..] == old(buff[got..])
      ensures syserr == 0
    {
      var toreceive, k := length, 0;
      got := 0;
      syserr := 0;
      ghost var before := buff[..];
      while toreceive != 0
        invariant got + toreceive == length && 0 <= toreceive && syserr == 0
        invariant Stored(buff[..], before, got, Arriving(script, k, toreceive), Arriving(script, 0, length))
        decreases toreceive
      {
        var shot := Delivery(script, k, toreceive);
        k := k + 1;
        if shot == [] {
          break;
        }
        ghost var now := buff[..];
        Write(buff, got, shot);
        StoreMore(now, buff[..], before, got, shot, Arriving(script, k, toreceive - |shot|),
                  Arriving(script, 0, length));
        toreceive := toreceive - |shot|;
        got := got + |shot|;
      }
    }

    // The first `got` bytes of the stream are stored, `coming` is the rest of it.
    ghost predicate Stored(now: seq<byte>, before: seq<byte>, got: nat, coming: seq<byte>, all: seq<byte>) {
      got <= |now| == |before| && now[..got] + coming == all && now[got..] == before[got..]
    }

    lemma StoreMore(now: seq<byte>, next: seq<byte>, before: seq<byte>, got: nat, shot: seq<byte>, coming: seq<byte>,
                    all: seq<byte>)
      requires Stored(now, before, got, shot + coming, all)
      requires got + |shot| <= |next| == |now|
      requires next[..got + |shot|] == now[..got] + shot && next[got + |shot|..] == now[got + |shot|..]
      ensures Stored(next, before, got + |shot|, coming, all)
    {
      assert now[got + |shot|..] == now[got..][|shot|..] == before[got..][|shot|..];
    }

    // recv filling the buffer from `off`.
    method Write(buff: array<byte>, off: nat, data: seq<byte>)
      requires off + |data| <= buff.Length
      modifies buff
      ensures buff[..][..off + |data|] == old(buff[..])[..off] + data
      ensures buff[..][off + |data|..] == old(buff[..])[off + |data|..]
    {
      var i := 0;
      while i < |data|
        invariant 0 <= i <= |data|
        invariant buff[..off + i] == old(buff[..off]) + data[..i]
        invariant buff[off + |data|..] == old(buff[off + |data|..])
      {
        buff[off + i] := data[i];
        i := i + 1;
      }
    }
  }
}
