// udp_xdea.cpp and udp_sock of sock.cpp: the datagram socket and the keys its overloads use.
module Udp {
  import opened Words
  import opened Cipher
  import opened Address
  import opened Capsule

  // Where a datagram goes to or comes from, in network byte order.
  datatype Place = Place(addr: u32, port: u16)

  function PlaceOf(sa: Saddr): Place {
    Place(sa.addr, sa.port)
  }

  // _remote_sin after udp_sock::receive: zeroed as a whole, mask included, then filled by recvfrom.
  function Remote(src: Place): Saddr {
    Saddr(src.addr, src.port, 0)
  }

  // A datagram as it is sent, and as it is received.
  datatype Datagram = Datagram(dst: Place, bytes: seq<byte>)

  datatype Packet = Packet(src: Place, bytes: seq<byte>)

  // How recvfrom ends: with a datagram, or with -1 and an error.
  datatype Recv = Got(rx: Packet) | Failed(errno: int)

  datatype Option<T> = None | Some(value: T)

  class UdpXdea {
    const buff: array<byte>
    var rsin: Saddr
    var syserr: int
    // The datagrams handed to sendto, in order.
    var sent: seq<Datagram>

    constructor ()
      ensures sent == [] && fresh(buff) && buff.Length == MAX_UDP
    {
      buff := new byte[MAX_UDP];
      rsin := Saddr(0, 0, 0);
      syserr := 0;
      sent := [];
    }

    // ed(buff, _buff, length, keys, true)
    method Encipher(data: seq<byte>, keys: Key) returns (wire: seq<byte>)
      requires |data| <= buff.Length
      modifies buff
      ensures EdResult(data, wire, keys, true)
    {
      hide EdResult;
      var input := new byte[|data|](n requires 0 <= n < |data| => data[n]);
      assert input[0..|data|] == data;
      Ed(input, 0, buff, |data|, keys, true);
      wire := buff[..|data|];
    }

    // send(buff, length, const SADDR_46&, keys): enciphered when keys are given.
    method SendTo(data: seq<byte>, dst: Saddr, keys: Option<Key>) returns (wire: seq<byte>)
      requires keys.Some? ==> |data| <= buff.Length
      modifies this`sent, buff
      ensures sent == old(sent) + [Datagram(PlaceOf(dst), wire)]
      ensures if keys.Some? then EdResult(data, wire, keys.value, true) else wire == data
    {
      hide EdResult;
      wire := data;
      if keys.Some? {
        wire := Encipher(data, keys.value);
      }
      sent := sent + [Datagram(PlaceOf(dst), wire)];
    }

    // send(buff, length, const ipp&, encrypt): enciphered under the keys the ipp carries.
    method SendToIpp(data: seq<byte>, ipa: Ipp, encrypt: bool) returns (wire: seq<byte>)
      requires encrypt ==> |data| <= buff.Length
      modifies this`sent, buff
      ensures sent == old(sent) + [Datagram(PlaceOf(Destination(ipa)), wire)]
      ensures if encrypt then EdResult(data, wire, ipa.keys, true) else wire == data
    {
      hide EdResult;
      wire := SendTo(data, Destination(ipa), if encrypt then Some(ipa.keys) else None);
    }

    // The two overloads on a capsule.
    method SendCap(c: SrvCap, dst: Saddr, keys: Key)
      requires buff.Length == MAX_UDP
      modifies this`sent, buff
      ensures sent == old(sent) + [Datagram(PlaceOf(dst), Seal(c, keys))]
    {
      hide EdResult, Seal;
      var wire := SendTo(c, dst, Some(keys));
      SealIsEd(c, wire, keys, true);
    }

    method SendCapToIpp(c: SrvCap, ipa: Ipp)
      requires buff.Length == MAX_UDP
      modifies this`sent, buff
      ensures sent == old(sent) + [Datagram(PlaceOf(Destination(ipa)), Seal(c, ipa.keys))]
    {
      hide EdResult, Seal;
      var wire := SendToIpp(c, ipa, true);
      SealIsEd(c, wire, ipa.keys, true);
    }

    // udp_sock::receive into a buffer of `length` bytes; what does not fit is cut off.
    method Receive(into: array<byte>, length: nat, recv: Recv) returns (got: int)
      requires length <= into.Length
      modifies this`rsin, this`syserr, into
      ensures recv.Failed? ==> got == -1 && syserr == recv.errno && rsin == Saddr(0, 0, 0) && into[..] == old(into[..])
      ensures recv.Got? ==> syserr == 0 && rsin == Remote(recv.rx.src)
      ensures recv.Got? ==> 0 <= got <= length && got == if |recv.rx.bytes| <= length then |recv.rx.bytes| else length
      ensures recv.Got? ==> into[..got] == recv.rx.bytes[..got] && into[got..] == old(into[got..])
    {
      syserr := 0;
      rsin := Saddr(0, 0, 0);
      if recv.Failed? {
        syserr := recv.errno;
        return -1;
      }
      rsin := Remote(recv.rx.src);
      var bytes := recv.rx.bytes;
      got := if |bytes| <= length then |bytes| else length;
      var i := 0;
      while i < got
        invariant 0 <= i <= got
        invariant into[..i] == bytes[..i] && into[got..] == old(into[got..])
        invariant rsin == Remote(recv.rx.src) && syserr == 0
      {
        into[i] := bytes[i];
        i := i + 1;
      }
    }

    // receive(buff, length, keys, port, ip): what arrived, deciphered under the keys; the rest
    // of the caller's buffer is zeroed, and a byte past it when the datagram fills it.
    method ReceiveKeyed(into: array<byte>, length: nat, keys: Key, recv: Recv) returns (got: int)
      requires length < into.Length && length <= buff.Length && into != buff
      modifies this`rsin, this`syserr, buff, into
      ensures recv.Failed? ==> got == -1 && syserr == recv.errno
      ensures recv.Got? ==> 0 <= got <= length && got == if |recv.rx.bytes| <= length then |recv.rx.bytes| else length
      ensures got <= 0 ==> into[..] == old(into[..])
      ensures got > 0 ==> recv.Got? && EdResult(recv.rx.bytes[..got], into[..got], keys, false)
      ensures got > 0 ==> forall n :: got <= n < length || n == got ==> into[n] == 0
      ensures got > 0 ==> forall n :: length <= n < into.Length && n != got ==> into[n] == old(into[n])
    {
      hide EdResult;
      got := Receive(buff, length, recv);
      if got > 0 {
        var bytes := recv.rx.bytes;
        into[got] := 0;
        var i := 0;
        while i < length
          invariant 0 <= i <= length && buff[..got] == bytes[..got]
          invariant forall n :: 0 <= n < i || n == got ==> into[n] == 0
          invariant forall n :: length <= n < into.Length && n != got ==> into[n] == old(into[n])
        {
          into[i] := 0;
          i := i + 1;
        }
        ghost var cleared := into[..];
        assert buff[0..got] == bytes[..got];
        Ed(buff, 0, into, got, keys, false);
        assert forall n :: got <= n < into.Length ==> into[n] == into[got..][n - got] == cleared[n];
      }
    }
  }

  // A capsule sent under some keys and received under the same keys arrives unchanged.
  lemma KeyedRoundTrip(c: SrvCap, wire: seq<byte>, received: seq<byte>, keys: Key)
    requires EdResult(c, wire, keys, true) && EdResult(wire, received, keys, false)
    ensures received == c
  {
    hide EdResult;
    EdRoundTrip(c, wire, received, keys, true);
  }
}
