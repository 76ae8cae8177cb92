// sock.h and sock.cpp: IPv4 socket addresses with range masks, how they compare, how
// std::set orders them, and how they are printed and parsed.
module Address {
  import opened Words

  // SADDR_46: address and port in network byte order, and the range mask.
  datatype Saddr = Saddr(addr: u32, port: u16, mask: u32)

  function CommonMask(l: Saddr, r: Saddr): u32 {
    And(l.mask, r.mask)
  }

  // The 64-bit integer made of the masked address and the port.
  function Packed(s: Saddr, mask: u32): int {
    And(s.addr, mask) * W32 + s.port
  }

  // A zero port matches every port.
  predicate Wildcard(l: Saddr, r: Saddr) {
    l.port == 0 || r.port == 0
  }

  predicate SameRange(l: Saddr, r: Saddr) {
    And(l.addr, CommonMask(l, r)) == And(r.addr, CommonMask(l, r))
  }

  // operator ==
  predicate Eq(l: Saddr, r: Saddr) {
    if Wildcard(l, r) then SameRange(l, r)
    else Packed(l, CommonMask(l, r)) == Packed(r, CommonMask(l, r))
  }

  // operator !=, which tests for a wildcard with && where operator == has ||
  predicate Ne(l: Saddr, r: Saddr) {
    if l.port == 0 && r.port == 0 then !SameRange(l, r)
    else Packed(l, CommonMask(l, r)) != Packed(r, CommonMask(l, r))
  }

  // operator <
  predicate Lt(l: Saddr, r: Saddr) {
    var m := CommonMask(l, r);
    if Wildcard(l, r) then And(l.addr, m) < And(r.addr, m) else Packed(l, m) < Packed(r, m)
  }

  // operator >
  predicate Gt(l: Saddr, r: Saddr) {
    var m := CommonMask(l, r);
    if Wildcard(l, r) then And(l.addr, m) > And(r.addr, m) else Packed(l, m) > Packed(r, m)
  }

  lemma AndCommutes(a: u32, b: u32)
    ensures And(a, b) == And(b, a)
  {
    MaskedLaw(a as bv32, b as bv32);
    hide Masked;
  }

  // What the comparisons look at: the addresses under both masks first, then the ports, which
  // do not count when one of them is 0.
  lemma RangeLaw(l: Saddr, r: Saddr)
    ensures var m := And(l.mask, r.mask);
            var a, b := And(l.addr, m), And(r.addr, m);
            && (Eq(l, r) <==> a == b && (l.port == 0 || r.port == 0 || l.port == r.port))
            && (Lt(l, r) <==> a < b || (a == b && l.port != 0 && r.port != 0 && l.port < r.port))
  {
    hide And;
  }

  lemma Trichotomy(l: Saddr, r: Saddr)
    ensures Lt(l, r) || Eq(l, r) || Gt(l, r)
    ensures !(Lt(l, r) && Eq(l, r)) && !(Lt(l, r) && Gt(l, r)) && !(Eq(l, r) && Gt(l, r))
    ensures Gt(l, r) <==> Lt(r, l)
    ensures Eq(l, r) <==> Eq(r, l)
  {
    AndCommutes(l.mask, r.mask);
    hide And;
  }

  // `!=` negates `==` except when exactly one port is the wildcard and the ranges agree;
  // then both hold.
  lemma NeNegatesEq(l: Saddr, r: Saddr)
    ensures Ne(l, r) == !Eq(l, r) <==> !(SameRange(l, r) && (l.port == 0) != (r.port == 0))
    ensures !Eq(l, r) ==> Ne(l, r)
  {
    hide And;
  }

  lemma LtStrictPartialOrder(a: Saddr, b: Saddr, c: Saddr)
    requires a.mask == b.mask == c.mask
    ensures !Lt(a, a)
    ensures Lt(a, b) && Lt(b, c) ==> Lt(a, c)
  {
    hide And;
  }

  // Incomparability carries over from a, b and b, c to a, c exactly when a and c themselves
  // have a wildcard or the same port; without port 0 it always does, so there `<` is a
  // strict weak order.
  lemma LtStrictWeakOrder(a: Saddr, b: Saddr, c: Saddr)
    requires a.mask == b.mask == c.mask
    requires Eq(a, b) && Eq(b, c)
    ensures Eq(a, c) <==> Wildcard(a, c) || a.port == c.port
    ensures b.port != 0 ==> Eq(a, c)
  {
    hide And;
  }

  lemma WildcardBreaksWeakOrder(x: u32, m: u32)
    ensures var a, b, c := Saddr(x, 1, m), Saddr(x, 0, m), Saddr(x, 2, m);
            Eq(a, b) && Eq(b, c) && Lt(a, c)
  {
    hide And;
  }

  // --- std::set<SADDR_46>, kept in ascending order ---

  ghost predicate Ascending(s: seq<Saddr>) {
    forall i, j :: 0 <= i < j < |s| ==> Lt(s[i], s[j])
  }

  // What udp_sock::receive hands out: it zeroes the whole address, mask included, before recvfrom.
  ghost predicate Received(s: seq<Saddr>) {
    forall a :: a in s ==> a.mask == 0
  }

  // std::set::insert: nothing happens when an equivalent element is there.
  function Insert(s: seq<Saddr>, x: Saddr): seq<Saddr> {
    if s == [] then [x]
    else if Lt(x, s[0]) then [x] + s
    else if Lt(s[0], x) then [s[0]] + Insert(s[1..], x)
    else s
  }

  lemma ReceivedCompare(a: Saddr, b: Saddr)
    requires a.mask == b.mask == 0
    ensures Eq(a, b) <==> Wildcard(a, b) || a.port == b.port
    ensures Lt(a, b) <==> !Wildcard(a, b) && a.port < b.port
  {
    AndZero(0);
    AndZero(a.addr);
    AndZero(b.addr);
    hide And;
  }

  lemma {:induction false} InsertElements(s: seq<Saddr>, x: Saddr, e: Saddr)
    ensures e in Insert(s, x) ==> e in s || e == x
    ensures e in s ==> e in Insert(s, x)
  {
    hide Lt;
    if s == [] {
    } else if !Lt(x, s[0]) && Lt(s[0], x) {
      InsertElements(s[1..], x, e);
    }
  }

  // Received addresses are ordered by port alone, and port 0 is not below or above any.
  predicate PortBelow(a: Saddr, b: Saddr) {
    a.port != 0 && a.port < b.port
  }

  ghost predicate PortsAscend(s: seq<Saddr>) {
    forall i, j :: 0 <= i < j < |s| ==> PortBelow(s[i], s[j])
  }

  lemma AscendingPorts(s: seq<Saddr>)
    requires Received(s)
    ensures Ascending(s) <==> PortsAscend(s)
  {
    hide Lt, Eq;
    forall i, j | 0 <= i < j < |s| ensures Lt(s[i], s[j]) <==> PortBelow(s[i], s[j]) {
      assert s[i] in s && s[j] in s;
      ReceivedCompare(s[i], s[j]);
    }
  }

  ghost predicate Clashes(s: seq<Saddr>, x: Saddr) {
    exists e :: e in s && Eq(e, x)
  }

  // Inserting received addresses keeps the set ascending, so no two entries are ==; the new
  // address goes in exactly when no entry is == to it.
  lemma {:induction false} InsertKeepsOrder(s: seq<Saddr>, x: Saddr)
    requires Ascending(s) && Received(s) && x.mask == 0
    ensures Ascending(Insert(s, x)) && Received(Insert(s, x))
    ensures if Clashes(s, x) then Insert(s, x) == s else x in Insert(s, x)
  {
    hide Lt, Eq, Insert;
    AscendingPorts(s);
    InsertPorts(s, x);
    forall e | e in Insert(s, x) ensures e.mask == 0 {
      InsertElements(s, x, e);
    }
    AscendingPorts(Insert(s, x));
    if Clashes(s, x) {
      var e :| e in s && Eq(e, x);
      var i :| 0 <= i < |s| && s[i] == e;
      InsertClash(s, x, i);
    } else {
      InsertFresh(s, x);
    }
  }

  lemma {:induction false} InsertPorts(s: seq<Saddr>, x: Saddr)
    requires PortsAscend(s) && Received(s) && x.mask == 0
    ensures PortsAscend(Insert(s, x))
  {
    hide Lt;
    if s == [] {
    } else {
      ReceivedCompare(s[0], x);
      ReceivedCompare(x, s[0]);
      if !Lt(x, s[0]) && Lt(s[0], x) {
        var u := Insert(s[1..], x);
        InsertPorts(s[1..], x);
        forall j | 0 <= j < |u| ensures PortBelow(s[0], u[j]) {
          InsertElements(s[1..], x, u[j]);
        }
      }
    }
  }

  lemma {:induction false} InsertClash(s: seq<Saddr>, x: Saddr, i: nat)
    requires PortsAscend(s) && Received(s) && x.mask == 0 && i < |s| && Eq(s[i], x)
    ensures Insert(s, x) == s
  {
    hide Lt, Eq;
    assert s[i] in s && s[0] in s;
    ReceivedCompare(s[i], x);
    ReceivedCompare(s[0], x);
    ReceivedCompare(x, s[0]);
    if i == 0 {
    } else {
      InsertClash(s[1..], x, i - 1);
    }
  }

  lemma {:induction false} InsertFresh(s: seq<Saddr>, x: Saddr)
    requires !Clashes(s, x)
    ensures x in Insert(s, x)
  {
    hide Lt, Eq;
    if s == [] {
    } else {
      Trichotomy(s[0], x);
      InsertFresh(s[1..], x);
    }
  }

  // Whatever was in the set, after an insertion some entry is == to the new address.
  lemma {:induction false} InsertFinds(s: seq<Saddr>, x: Saddr)
    ensures Clashes(Insert(s, x), x)
  {
    Trichotomy(x, x);
    hide Lt, Eq;
    if s == [] {
    } else {
      Trichotomy(s[0], x);
      InsertFinds(s[1..], x);
    }
  }

  // The entries that compare == to `src`, as the delivery loop of _rec_udp counts them.
  function Matches(s: seq<Saddr>, src: Saddr): nat {
    if s == [] then 0 else (if Eq(s[0], src) then 1 else 0) + Matches(s[1..], src)
  }

  // A datagram from an address is delivered at most once, unless it came from port 0 and
  // there are two peers: port 0 matches every entry.
  lemma {:induction false} MatchesAtMostOnce(s: seq<Saddr>, src: Saddr)
    requires Ascending(s) && Received(s) && src.mask == 0
    ensures Matches(s, src) <= 1 <==> src.port != 0 || |s| <= 1
    ensures src.port == 0 ==> Matches(s, src) == |s|
  {
    hide Lt, Eq;
    if s == [] {
    } else {
      ReceivedCompare(s[0], src);
      MatchesAtMostOnce(s[1..], src);
      if src.port != 0 && Eq(s[0], src) {
        forall e | e in s[1..] ensures !Eq(e, src) {
          ReceivedCompare(s[0], e);
          ReceivedCompare(e, src);
        }
        NoMatches(s[1..], src);
      }
    }
  }

  lemma {:induction false} NoMatches(s: seq<Saddr>, src: Saddr)
    requires forall e :: e in s ==> !Eq(e, src)
    ensures Matches(s, src) == 0
  {
    hide Eq;
    if s == [] {
    } else {
      NoMatches(s[1..], src);
    }
  }

  // --- Ip2str and sip2ip ---

  function Digit(n: nat): char
    requires n < 10
  {
    "0123456789"[n]
  }

  predicate IsDigit(c: char) {
    '0' <= c <= '9'
  }

  predicate IsSpace(c: char) {
    c in " \t\n\r" || c as int == 11 || c as int == 12
  }

  // "%u" of printf
  function Decimal(n: nat): (s: string)
    ensures s != [] && IsDigit(s[0])
  {
    if n < 10 then [Digit(n)] else Decimal(n / 10) + [Digit(n % 10)]
  }

  // Ip2str(const SADDR_46&); `htonl` gives the host order address whose octets are printed.
  function Ip2str(sa: Saddr): string {
    if sa.addr != 0 then
      var dw := Swap32(sa.addr);
      Decimal(dw / 0x100_0000) + "." + Decimal(dw / 0x1_0000 % 0x100) + "." + Decimal(dw / 0x100 % 0x100)
      + "." + Decimal(dw % 0x100) + ":" + Decimal(Swap16(sa.port))
    else "0.0.0.0"
  }

  datatype Scan = NoScan | Scan(value: int, rest: string)

  // The digits at the front of s, read after the digits worth acc.
  function ScanDigits(s: string, acc: nat): Scan {
    if s != [] && IsDigit(s[0]) then ScanDigits(s[1..], acc * 10 + (s[0] as int - '0' as int)) else Scan(acc, s)
  }

  function SkipSpace(s: string): string {
    if s != [] && IsSpace(s[0]) then SkipSpace(s[1..]) else s
  }

  function ScanUnsigned(s: string): Scan {
    if s != [] && IsDigit(s[0]) then ScanDigits(s, 0) else NoScan
  }

  // One "%u" or "%d" of sscanf: white space, a sign, digits.
  function ScanNumber(s: string): Scan {
    var t := SkipSpace(s);
    if t != [] && t[0] == '-' then
      match ScanUnsigned(t[1..]) case NoScan => NoScan case Scan(v, rest) => Scan(-v, rest)
    else ScanUnsigned(if t != [] && t[0] == '+' then t[1..] else t)
  }

  function ScanChar(s: string, c: char): Scan {
    if s != [] && s[0] == c then Scan(0, s[1..]) else NoScan
  }

  datatype Quad = NoQuad | Quad(a: byte, b: byte, c: byte, d: byte, rest: string)

  // "%u."
  function ScanPart(s: string): Scan {
    match ScanNumber(s)
    case NoScan => NoScan
    case Scan(v, rest) => match ScanChar(rest, '.') case NoScan => NoScan case Scan(_, rest) => Scan(v, rest)
  }

  // The "%u.%u.%u.%u" of sip2ip with its `&= 0xff`.
  function ScanQuad(s: string): Quad {
    match ScanPart(s) case NoScan => NoQuad case Scan(a, s) =>
    match ScanPart(s) case NoScan => NoQuad case Scan(b, s) =>
    match ScanPart(s) case NoScan => NoQuad case Scan(c, s) =>
    match ScanNumber(s) case NoScan => NoQuad case Scan(d, rest) =>
      Quad(a % 0x100, b % 0x100, c % 0x100, d % 0x100, rest)
  }

  // The SADDR_46(u_int32_t, uint16_t) constructor: host order in, network order kept.
  function FromHost(ip: u32, port: u16): Saddr {
    Saddr(Swap32(ip), Swap16(port), 0xFFFF_FFFF)
  }

  function Sip2ip(sip: string): Saddr {
    if sip == [] || !IsDigit(sip[0]) then FromHost(0, 0)
    else
      match ScanQuad(sip)
      case NoQuad => FromHost(0, 0)
      case Quad(a, b, c, d, rest) =>
        var ip := FromLe32([d, c, b, a]);
        match ScanChar(rest, ':')
        case NoScan => FromHost(ip, 0)
        case Scan(_, rest) =>
          match ScanNumber(rest)
          case NoScan => FromHost(ip, 0)
          case Scan(e, _) => FromHost(ip, e % 0x1_0000)
  }

  lemma {:induction false} ScanDecimal(n: nat, rest: string)
    ensures ScanDigits(Decimal(n) + rest, 0) == ScanDigits(rest, n)
  {
    var last := [Digit(n % 10)] + rest;
    assert last[1..] == rest;
    if n < 10 {
      assert Decimal(n) + rest == last;
    } else {
      assert Decimal(n) + rest == Decimal(n / 10) + last;
      ScanDecimal(n / 10, last);
    }
  }

  lemma {:induction false} ScanPrinted(n: nat, rest: string)
    requires rest == [] || !IsDigit(rest[0])
    ensures ScanNumber(Decimal(n) + rest) == Scan(n, rest)
  {
    ScanDecimal(n, rest);
    var s := Decimal(n) + rest;
    assert s[0] == Decimal(n)[0];
  }

  lemma {:induction false} ScanPrintedPart(n: nat, rest: string)
    ensures ScanPart(Decimal(n) + ("." + rest)) == Scan(n, rest)
  {
    hide ScanNumber;
    ScanPrinted(n, "." + rest);
    assert ("." + rest)[1..] == rest;
  }

  lemma {:induction false} ScanPrintedQuad(a: byte, b: byte, c: byte, d: byte, rest: string)
    requires rest == [] || !IsDigit(rest[0])
    ensures ScanQuad(Decimal(a) + ("." + (Decimal(b) + ("." + (Decimal(c) + ("." + (Decimal(d) + rest)))))))
         == Quad(a, b, c, d, rest)
  {
    hide ScanNumber, ScanPart, ScanQuad, Decimal, IsDigit;
    var s3 := Decimal(d) + rest;
    var s2 := Decimal(c) + ("." + s3);
    var s1 := Decimal(b) + ("." + s2);
    ScanPrintedPart(a, s1);
    ScanPrintedPart(b, s2);
    ScanPrintedPart(c, s3);
    ScanPrinted(d, rest);
    QuadOfParts(Decimal(a) + ("." + s1), s1, s2, s3, Quad(a, b, c, d, rest));
  }

  lemma QuadOfParts(s0: string, s1: string, s2: string, s3: string, q: Quad)
    requires q.Quad?
    requires ScanPart(s0) == Scan(q.a, s1) && ScanPart(s1) == Scan(q.b, s2) && ScanPart(s2) == Scan(q.c, s3)
    requires ScanNumber(s3) == Scan(q.d, q.rest)
    ensures ScanQuad(s0) == q
  {
    hide ScanNumber, ScanPart;
  }

  // Parsing what was printed gives the address and the port back; for address 0 the port is lost.
  lemma Sip2ipUndoesIp2str(sa: Saddr)
    ensures Sip2ip(Ip2str(sa)).addr == sa.addr
    ensures Sip2ip(Ip2str(sa)).port == if sa.addr == 0 then 0 else sa.port
  {
    hide ScanNumber, ScanQuad, Swap32, Swap16;
    if sa.addr != 0 {
      var dw := Swap32(sa.addr);
      var port := Swap16(sa.port);
      var a, b, c, d := dw / 0x100_0000, dw / 0x1_0000 % 0x100, dw / 0x100 % 0x100, dw % 0x100;
      var tail := ":" + Decimal(port);
      var s := Decimal(a) + ("." + (Decimal(b) + ("." + (Decimal(c) + ("." + (Decimal(d) + tail))))));
      assert Ip2str(sa) == s;
      ScanPrintedQuad(a, b, c, d, tail);
      assert tail[1..] == Decimal(port) + [];
      ScanPrinted(port, []);
      Octets(dw);
      Swap32Involution(sa.addr);
      Swap16Involution(sa.port);
    } else {
      ScanPrintedQuad(0, 0, 0, 0, []);
      assert "0.0.0.0" == Decimal(0) + ("." + (Decimal(0) + ("." + (Decimal(0) + ("." + (Decimal(0) + []))))));
      SwapZero();
    }
  }

  // One address in full: the bytes 127, 0, 0, 1 in memory and port 5001 in network order.
  lemma LoopbackPrinted(mask: u32)
    ensures Ip2str(Saddr(0x0100007F, 0x8913, mask)) == "127.0.0.1:5001"
    ensures var sa := Sip2ip("127.0.0.1:5001"); sa.addr == 0x0100007F && sa.port == 0x8913
  {
    hide Decimal, Swap32, Swap16, FromLe32, Ip2str;
    LoopbackWord();
    LoopbackDigits();
    PrintedForm(127, 0, 0, 1, 5001, mask);
    Sip2ipUndoesIp2str(Saddr(0x0100007F, 0x8913, mask));
  }

  lemma LoopbackWord()
    ensures FromLe32([127, 0, 0, 1]) == 0x0100007F && Swap16(5001) == 0x8913
  {
  }

  lemma LoopbackDigits()
    ensures Decimal(127) == "127" && Decimal(0) == "0" && Decimal(1) == "1" && Decimal(5001) == "5001"
  {
    assert Decimal(12) == "12";
    assert Decimal(5) == "5" && Decimal(50) == "50" && Decimal(500) == "500";
  }

  // Any address whose bytes in memory are a, b, c, d is printed as a.b.c.d and its port in host order.
  lemma {:induction false} PrintedForm(a: byte, b: byte, c: byte, d: byte, port: u16, mask: u32)
    requires a != 0 || b != 0 || c != 0 || d != 0
    ensures Ip2str(Saddr(FromLe32([a, b, c, d]), Swap16(port), mask))
         == Decimal(a) + "." + Decimal(b) + "." + Decimal(c) + "." + Decimal(d) + ":" + Decimal(port)
  {
    hide Swap32, Swap16, FromLe32, Decimal;
    ByteOrder(a, b, c, d);
    Swap16Involution(port);
    OctetsOf(Swap32(FromLe32([a, b, c, d])), a, b, c, d);
  }

  lemma OctetsOf(dw: u32, a: byte, b: byte, c: byte, d: byte)
    requires dw == d as int + 0x100 * (c as int) + 0x1_0000 * (b as int) + 0x100_0000 * (a as int)
    ensures dw / 0x100_0000 == a && dw / 0x1_0000 % 0x100 == b && dw / 0x100 % 0x100 == c && dw % 0x100 == d
  {
    LowHigh(d, c as int + 0x100 * (b as int + 0x100 * (a as int)));
    LowHigh(c, b as int + 0x100 * (a as int));
    LowHigh(b, a as int);
    DividedTwice(dw);
  }

  lemma DividedTwice(w: u32)
    ensures w / 0x1_0000 == w / 0x100 / 0x100 && w / 0x100_0000 == w / 0x100 / 0x100 / 0x100
  {
  }

  // Text without a port has port 0; text without a digit in front is nowhere.
  lemma {:induction false} Sip2ipWithoutPort(a: byte, b: byte, c: byte, d: byte, s: string)
    ensures var t := Decimal(a) + ("." + (Decimal(b) + ("." + (Decimal(c) + ("." + (Decimal(d) + []))))));
            Sip2ip(t) == Saddr(FromLe32([a, b, c, d]), 0, 0xFFFF_FFFF)
    ensures s == [] || !IsDigit(s[0]) || ScanQuad(s).NoQuad? ==> Sip2ip(s) == Saddr(0, 0, 0xFFFF_FFFF)
  {
    hide ScanQuad, Swap32, Swap16, FromLe32, Decimal, ScanNumber;
    ScanPrintedQuad(a, b, c, d, []);
    SwappedBytes(a, b, c, d);
    SwapZero();
  }

  // A colon without a number after it counts as no port.
  lemma {:induction false} Sip2ipBadPort(a: byte, b: byte, c: byte, d: byte, junk: string)
    requires ScanNumber(junk).NoScan?
    ensures var t := Decimal(a) + ("." + (Decimal(b) + ("." + (Decimal(c) + ("." + (Decimal(d) + (":" + junk)))))));
            Sip2ip(t) == Saddr(FromLe32([a, b, c, d]), 0, 0xFFFF_FFFF)
  {
    hide ScanQuad, Swap32, Swap16, FromLe32, Decimal, ScanNumber;
    assert (":" + junk)[1..] == junk;
    ScanPrintedQuad(a, b, c, d, ":" + junk);
    SwappedBytes(a, b, c, d);
    SwapZero();
  }

  lemma SpaceChars(c: char)
    ensures IsSpace(c) <==> c as int == 32 || 9 <= c as int <= 13
  {
  }

  lemma SwappedBytes(a: byte, b: byte, c: byte, d: byte)
    ensures Swap32(FromLe32([d, c, b, a])) == FromLe32([a, b, c, d])
  {
    hide Swap32, FromLe32;
    ByteOrder(d, c, b, a);
    ByteOrder(a, b, c, d);
  }

  lemma Octets(w: u32)
    ensures FromLe32([w % 0x100, w / 0x100 % 0x100, w / 0x1_0000 % 0x100, w / 0x100_0000]) == w
  {
  }
}
