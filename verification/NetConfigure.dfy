/**
 * In-zone network configuration: NetConfigureAll::execute and its choice of the
 * default gateway (libs/lxcpp/commands/netcreate.cpp).
 */
module NetConfigure {
  import opened Arithmetic
  import opened Options
  import opened Texts

  function Pow2(n: nat): (r: nat)
    ensures r > 0
  {
    if n == 0 then 1 else 2 * Pow2(n - 1)
  }

  /** Bitwise and. */
  function And(a: nat, b: nat): nat {
    if a == 0 || b == 0 then 0 else 2 * And(a / 2, b / 2) + (a % 2) * (b % 2)
  }

  /** Left shift. */
  function Shift(x: nat, q: nat): nat {
    x * Pow2(q)
  }

  type Uint32 = x: int | 0 <= x < 0x1_0000_0000

  /** ((1 << prefix) - 1) << (32 - prefix), kept to 32 bits. */
  function Mask(prefix: nat): Uint32
    requires prefix <= 32
  {
    Shift(Shift(1, prefix) - 1, 32 - prefix) % 0x1_0000_0000
  }

  function Gateway(addr: Uint32, prefix: nat): Uint32
    requires prefix <= 32
  {
    (And(addr, Mask(prefix)) + 1) % 0x1_0000_0000
  }

  // ------------------------------------------------------ what the mask computes

  lemma {:induction false} Pow2Sum(a: nat, b: nat)
    ensures Pow2(a + b) == Pow2(a) * Pow2(b)
  {
    if a > 0 {
      Pow2Sum(a - 1, b);
      assert Pow2(a) * Pow2(b) == 2 * (Pow2(a - 1) * Pow2(b));
    }
  }

  lemma {:induction false} Pow2Grows(a: nat, b: nat)
    requires a <= b
    ensures Pow2(a) <= Pow2(b)
  {
    if a < b { Pow2Grows(a, b - 1); }
  }

  lemma {:induction false} AndOnes(a: nat, p: nat)
    requires a < Pow2(p)
    ensures And(a, Pow2(p) - 1) == a
  {
    if a > 0 {
      AndOnes(a / 2, p - 1);
      assert (Pow2(p) - 1) / 2 == Pow2(p - 1) - 1 && (Pow2(p) - 1) % 2 == 1;
    }
  }

  lemma {:induction false} HalveModulo(a: nat, m: nat)
    requires m > 0
    ensures RoundDown(a, 2 * m) == 2 * RoundDown(a / 2, m)
  {
    var h := a / 2;
    var q, r := h / m, h % m;
    assert h == q * m + r;
    assert a == q * (2 * m) + (2 * r + a % 2);
    DivisionIs(a, q, 2 * r + a % 2, 2 * m);
    assert q * (2 * m) == 2 * (q * m);
  }

  /** a rounded down to a multiple of m. */
  function RoundDown(a: nat, m: nat): int
    requires m > 0
  {
    a - a % m
  }

  lemma OnesDouble(ones: nat, half: nat)
    ensures ones * (2 * half) == 2 * (ones * half)
  {
  }

  lemma Pow2Halves(n: nat)
    requires n > 0
    ensures Pow2(n) == 2 * Pow2(n - 1)
  {
  }

  /** Anding with p ones followed by q zeros rounds down to a multiple of 2^q. */
  lemma {:induction false} AndRoundsDown(a: nat, p: nat, q: nat)
    requires a < Pow2(p + q)
    ensures And(a, Shift(Pow2(p) - 1, q)) == RoundDown(a, Pow2(q))
    decreases q
  {
    if q == 0 {
      AndOnes(a, p);
    } else {
      hide And, Pow2, RoundDown;
      var ones, half := Pow2(p) - 1, Pow2(q - 1);
      Pow2Halves(q);
      Pow2Halves(p + q);
      AndRoundsDown(a / 2, p, q - 1);
      HalveModulo(a, half);
      OnesDouble(ones, half);
      AndDouble(a, ones * half);
    }
  }

  lemma AndDouble(a: nat, b: nat)
    ensures And(a, 2 * b) == 2 * And(a / 2, b)
  {
    var c := 2 * b;
    assert c / 2 == b && c % 2 == 0;
    if a != 0 && b != 0 {
      assert And(a, c) == 2 * And(a / 2, c / 2) + a % 2 * 0;
    }
  }

  /** The network of an address: the addresses that agree with it but for the last 32 - prefix bits. */
  predicate SameNetwork(a: int, b: int, prefix: nat)
    requires prefix <= 32
  {
    a / Pow2(32 - prefix) == b / Pow2(32 - prefix)
  }

  lemma Pow2Of32()
    ensures Pow2(32) == 0x1_0000_0000
  {
    assert Pow2(8) == 0x100;
    Pow2Sum(8, 8);
    Pow2Sum(16, 16);
  }

  /** With prefix p, 2^p networks of 2^(32-p) addresses make up the 32-bit space. */
  lemma SpaceOf(prefix: nat)
    requires 1 <= prefix <= 30
    ensures Pow2(prefix) * Pow2(32 - prefix) == 0x1_0000_0000 && Pow2(32 - prefix) >= 4
  {
    Pow2Of32();
    Pow2Sum(prefix, 32 - prefix);
    Pow2Grows(2, 32 - prefix);
  }

  lemma MaskIs(prefix: nat)
    requires 1 <= prefix <= 30
    ensures Mask(prefix) == Shift(Pow2(prefix) - 1, 32 - prefix)
  {
    hide Pow2;
    SpaceOf(prefix);
    var count, size := Pow2(prefix), Pow2(32 - prefix);
    assert (count - 1) * size == count * size - size;
    assert 0 <= count * size - size < 0x1_0000_0000;
  }

  lemma {:induction false} FirstHost(addr: nat, count: nat, size: nat)
    requires size >= 4 && addr < count * size
    ensures var base := RoundDown(addr, size);
            0 <= base < base + 1 < base + size - 1 < count * size && (base + 1) / size == addr / size
  {
    var n, r := addr / size, addr % size;
    assert addr == n * size + r;
    assert n >= count ==> n * size >= count * size;
    NetworkEnds(n, count, size);
    DivisionIs(n * size + 1, n, 1, size);
  }

  /** The gateway is the first host of the address's network, and neither its base nor its broadcast address. */
  lemma {:induction false} GatewayIsFirstHost(addr: Uint32, prefix: nat)
    requires 1 <= prefix <= 30
    ensures var size := Pow2(32 - prefix);
            var base := RoundDown(addr, size);
            var gw := Gateway(addr, prefix);
            && gw == base + 1
            && SameNetwork(gw, addr, prefix)
            && 0 <= base < gw < base + size - 1 < 0x1_0000_0000
  {
    hide Pow2, And, Mask, RoundDown;
    SpaceOf(prefix);
    MaskIs(prefix);
    Pow2Of32();
    AndRoundsDown(addr, prefix, 32 - prefix);
    FirstHost(addr, Pow2(prefix), Pow2(32 - prefix));
  }

  lemma {:induction false} NetworkEnds(n: nat, count: nat, size: nat)
    requires n < count
    ensures n * size + size <= count * size
  {
    assert (n + 1) * size == n * size + size;
  }

  // --------------------------------------------------------- the configuration

  datatype AddrType = IPv4 | IPv6

  /** `addr` is meaningful for IPv4 only. */
  datatype InetAddr = InetAddr(kind: AddrType, prefix: nat, addr: Uint32)

  datatype InterfaceType = LOOPBACK | BRIDGE | VETH_BRIDGED | OTHER

  datatype Interface = Interface(
    kind: InterfaceType, hostIf: string, zoneIf: string,
    mtu: int, mac: string, txLength: int, addrs: seq<InetAddr>)

  datatype Attr = MTU(value: string) | MAC(value: string) | TXQLEN(value: string)

  datatype Command =
    | Up(name: string)
    | SetAttrs(name: string, attrs: seq<Attr>)
    | AddInetAddr(name: string, addr: InetAddr)
    | AddDefaultRoute(name: string, gateway: Uint32)

  /** Can the gateway be taken from this address? Prefix 31 is for point-to-point links. */
  predicate Eligible(a: InetAddr) {
    a.kind == IPv4 && 1 <= a.prefix < 31
  }

  function FirstEligible(addrs: seq<InetAddr>): (k: nat)
    ensures k <= |addrs| && (k < |addrs| ==> Eligible(addrs[k]))
    ensures forall j :: 0 <= j < k ==> !Eligible(addrs[j])
  {
    if addrs == [] || Eligible(addrs[0]) then 0
    else
      var k := FirstEligible(addrs[1..]);
      assert forall j :: 0 < j < k + 1 ==> addrs[j] == addrs[1..][j - 1];
      k + 1
  }

  /** The gateway an interface offers. */
  function Offers(i: Interface): Option<Uint32> {
    var k := FirstEligible(i.addrs);
    if i.kind == VETH_BRIDGED && k < |i.addrs| then Some(Gateway(i.addrs[k].addr, i.addrs[k].prefix)) else None
  }

  /** The first interface that offers a gateway. */
  function FirstOffer(ifs: seq<Interface>): (k: nat)
    ensures k <= |ifs| && (k < |ifs| ==> Offers(ifs[k]).Some?)
    ensures forall j :: 0 <= j < k ==> Offers(ifs[j]).None?
  {
    if ifs == [] || Offers(ifs[0]).Some? then 0
    else
      var k := FirstOffer(ifs[1..]);
      assert forall j :: 0 < j < k + 1 ==> ifs[j] == ifs[1..][j - 1];
      k + 1
  }

  function Attributes(i: Interface): seq<Attr> {
    (if i.mtu > 0 then [MTU(IntToString(i.mtu))] else []) +
    (if i.mac != "" then [MAC(i.mac)] else []) +
    (if i.txLength > 0 then [TXQLEN(IntToString(i.txLength))] else [])
  }

  /** MTU, then MAC address, then queue length. */
  function Rank(a: Attr): nat {
    match a case MTU(_) => 0 case MAC(_) => 1 case TXQLEN(_) => 2
  }

  /** The interface sets this attribute, to this value: numbers if positive, the address if not empty. */
  predicate IsSet(i: Interface, a: Attr) {
    match a
    case MTU(v) => i.mtu > 0 && v == IntToString(i.mtu)
    case MAC(v) => i.mac != "" && v == i.mac
    case TXQLEN(v) => i.txLength > 0 && v == IntToString(i.txLength)
  }

  /** Exactly the attributes that are set, each once, in order. */
  ghost predicate ListsSet(i: Interface, attrs: seq<Attr>) {
    && (forall a :: a in attrs <==> IsSet(i, a))
    && (forall j, k :: 0 <= j < k < |attrs| ==> Rank(attrs[j]) < Rank(attrs[k]))
  }

  lemma AttributesAreSet(i: Interface)
    ensures ListsSet(i, Attributes(i))
  {
    hide IntToString;
  }

  lemma {:induction false} SameMembers(a: seq<Attr>, b: seq<Attr>)
    requires forall x :: x in a <==> x in b
    requires forall j, k :: 0 <= j < k < |a| ==> Rank(a[j]) < Rank(a[k])
    requires forall j, k :: 0 <= j < k < |b| ==> Rank(b[j]) < Rank(b[k])
    ensures a == b
  {
    assert a != [] ==> a[0] in b;
    assert b != [] ==> b[0] in a;
    if a != [] && b != [] {
      assert a[0] == b[0];
      forall x ensures x in a[1..] <==> x in b[1..] {
        assert x in a[1..] <==> x in a && x != a[0];
        assert x in b[1..] <==> x in b && x != b[0];
      }
      SameMembers(a[1..], b[1..]);
      assert a == [a[0]] + a[1..] && b == [b[0]] + b[1..];
    }
  }

  /** There is only one such list. */
  lemma OneList(i: Interface, attrs: seq<Attr>)
    requires ListsSet(i, attrs)
    ensures attrs == Attributes(i)
  {
    hide Attributes, IsSet;
    AttributesAreSet(i);
    SameMembers(attrs, Attributes(i));
  }

  function Addresses(name: string, addrs: seq<InetAddr>): (cs: seq<Command>)
    ensures |cs| == |addrs| && forall k :: 0 <= k < |cs| ==> cs[k] == AddInetAddr(name, addrs[k])
  {
    seq(|addrs|, k requires 0 <= k < |addrs| => AddInetAddr(name, addrs[k]))
  }

  /** What one interface gets; the route only if none was added before. */
  function For(i: Interface, need: bool): seq<Command> {
    match i.kind
    case LOOPBACK => [Up(i.hostIf)]
    case VETH_BRIDGED =>
      [SetAttrs(i.zoneIf, Attributes(i)), Up(i.zoneIf)] + Addresses(i.zoneIf, i.addrs) +
      if need && Offers(i).Some? then [AddDefaultRoute(i.zoneIf, Offers(i).value)] else []
    case _ => []
  }

  /** What the first n interfaces get. */
  function All(ifs: seq<Interface>, n: nat): seq<Command>
    requires n <= |ifs|
  {
    if n == 0 then [] else All(ifs, n - 1) + For(ifs[n - 1], FirstOffer(ifs[..n - 1]) == n - 1)
  }

  function Configuration(ifs: seq<Interface>): seq<Command> {
    All(ifs, |ifs|)
  }

  function Routes(cs: seq<Command>): seq<Command> {
    if cs == [] then []
    else Routes(cs[..|cs| - 1]) + if cs[|cs| - 1].AddDefaultRoute? then [cs[|cs| - 1]] else []
  }

  lemma {:induction false} RoutesAppend(a: seq<Command>, b: seq<Command>)
    ensures Routes(a + b) == Routes(a) + Routes(b)
  {
    if b == [] {
      assert a + b == a;
    } else {
      RoutesAppend(a, b[..|b| - 1]);
      assert (a + b)[..|a + b| - 1] == a + b[..|b| - 1];
    }
  }

  lemma {:induction false} NoRoutes(cs: seq<Command>)
    requires forall k :: 0 <= k < |cs| ==> !cs[k].AddDefaultRoute?
    ensures Routes(cs) == []
  {
    if cs != [] { NoRoutes(cs[..|cs| - 1]); }
  }

  lemma RoutesOfOne(i: Interface, need: bool)
    ensures Routes(For(i, need)) == if need && Offers(i).Some? then [AddDefaultRoute(i.zoneIf, Offers(i).value)] else []
  {
    hide Offers;
    var cs := For(i, need);
    if need && i.kind == VETH_BRIDGED && Offers(i).Some? {
      NoRoutes(cs[..|cs| - 1]);
    } else {
      OfferIsVeth(i);
      NoRoutes(cs);
    }
  }

  lemma OfferIsVeth(i: Interface)
    ensures Offers(i).Some? ==> i.kind == VETH_BRIDGED
  {
  }

  lemma {:induction false} FirstOfferPrefix(ifs: seq<Interface>, n: nat)
    requires n <= |ifs|
    ensures FirstOffer(ifs[..n]) == if FirstOffer(ifs) < n then FirstOffer(ifs) else n
  {
    var k := FirstOffer(ifs[..n]);
    assert forall j :: 0 <= j < n ==> ifs[..n][j] == ifs[j];
  }

  /** The route through the first interface that offers a gateway, if it is among the first n. */
  function DefaultRoute(ifs: seq<Interface>, n: nat): seq<Command>
    requires n <= |ifs|
  {
    var k := FirstOffer(ifs);
    if k < n then [AddDefaultRoute(ifs[k].zoneIf, Offers(ifs[k]).value)] else []
  }

  /**
   * Over any interfaces: one default route at most, through the first interface that
   * offers a gateway, to the first host of its first eligible address's network.
   */
  lemma {:induction false} OneDefaultRoute(ifs: seq<Interface>, n: nat)
    requires n <= |ifs|
    ensures Routes(All(ifs, n)) == DefaultRoute(ifs, n) && |DefaultRoute(ifs, n)| <= 1
  {
    hide Offers, For, Routes, FirstOffer;
    if n == 0 {
      NoRoutes([]);
    } else {
      OneDefaultRoute(ifs, n - 1);
      FirstOfferPrefix(ifs, n - 1);
      RoutesAppend(All(ifs, n - 1), For(ifs[n - 1], FirstOffer(ifs[..n - 1]) == n - 1));
      RoutesOfOne(ifs[n - 1], FirstOffer(ifs[..n - 1]) == n - 1);
    }
  }

  /** Can a gateway be had from the address: IPv4 with a prefix from 1 to 30? */
  predicate HasNetwork(a: InetAddr) {
    a.kind == IPv4 && 0 < a.prefix <= 30
  }

  /** The gateway of a veth interface: one above the base of the network of its first IPv4 address with a prefix from 1 to 30. */
  lemma OfferMeans(i: Interface, k: nat)
    requires i.kind == VETH_BRIDGED && k < |i.addrs| && HasNetwork(i.addrs[k])
    requires forall j :: 0 <= j < k ==> !HasNetwork(i.addrs[j])
    ensures Offers(i) == Some(RoundDown(i.addrs[k].addr, Pow2(32 - i.addrs[k].prefix)) + 1)
  {
    hide Gateway, RoundDown, Pow2;
    GatewayIsFirstHost(i.addrs[k].addr, i.addrs[k].prefix);
    assert FirstEligible(i.addrs) == k;
  }

  /** Other interfaces, and those without such an address, offer none. */
  lemma NoOffer(i: Interface)
    requires i.kind != VETH_BRIDGED || forall k :: 0 <= k < |i.addrs| ==> !HasNetwork(i.addrs[k])
    ensures Offers(i) == None
  {
  }

  /** The commands for one interface: the loopback is brought up; a veth gets its attributes, is brought up, gets its addresses and perhaps the route. */
  lemma ForMeans(i: Interface, need: bool)
    ensures var cs, n := For(i, need), |i.addrs|;
            && (i.kind == LOOPBACK ==> cs == [Up(i.hostIf)])
            && (i.kind == BRIDGE || i.kind == OTHER ==> cs == [])
            && (i.kind == VETH_BRIDGED ==>
                  && |cs| >= 2 + n
                  && cs[0].SetAttrs? && cs[0].name == i.zoneIf && ListsSet(i, cs[0].attrs)
                  && cs[1] == Up(i.zoneIf)
                  && (forall k :: 0 <= k < n ==> cs[2 + k] == AddInetAddr(i.zoneIf, i.addrs[k]))
                  && cs[2 + n..] == if need && Offers(i).Some? then [AddDefaultRoute(i.zoneIf, Offers(i).value)] else [])
  {
    hide Attributes, Offers, ListsSet, Addresses;
    AttributesAreSet(i);
    if i.kind == VETH_BRIDGED {
      var route := if need && Offers(i).Some? then [AddDefaultRoute(i.zoneIf, Offers(i).value)] else [];
      var adds := Addresses(i.zoneIf, i.addrs);
      assert For(i, need) == [SetAttrs(i.zoneIf, Attributes(i)), Up(i.zoneIf)] + adds + route;
    }
  }

  lemma AllStep(ifs: seq<Interface>, n: nat)
    requires 0 < n <= |ifs|
    ensures All(ifs, n) == All(ifs, n - 1) + For(ifs[n - 1], FirstOffer(ifs[..n - 1]) == n - 1)
  {
  }

  lemma StillPrefix(a: seq<Command>, b: seq<Command>, c: seq<Command>)
    requires a <= b
    ensures a <= b + c
  {
  }

  /** The configuration holds every interface's commands as one block, in the order of the interfaces. */
  lemma {:induction false} BlocksInOrder(ifs: seq<Interface>, k: nat, n: nat)
    requires k < n <= |ifs|
    ensures All(ifs, k) + For(ifs[k], FirstOffer(ifs[..k]) == k) <= All(ifs, n)
  {
    hide For, FirstOffer, All;
    AllStep(ifs, n);
    if n > k + 1 {
      BlocksInOrder(ifs, k, n - 1);
      StillPrefix(All(ifs, k) + For(ifs[k], FirstOffer(ifs[..k]) == k), All(ifs, n - 1),
                  For(ifs[n - 1], FirstOffer(ifs[..n - 1]) == n - 1));
    }
  }

  /** The configuration of any interfaces has one default route at most. */
  lemma ConfigurationRoutes(ifs: seq<Interface>)
    ensures Routes(Configuration(ifs)) == DefaultRoute(ifs, |ifs|)
  {
    OneDefaultRoute(ifs, |ifs|);
  }

  /** The loop over the addresses: they are added in order, and the gateway is settled on the way. */
  method AddAddresses(name: string, addrs: seq<InetAddr>) returns (cs: seq<Command>, gw: InetAddr)
    ensures cs == Addresses(name, addrs)
    ensures var k := FirstEligible(addrs);
            if k < |addrs| then gw.prefix > 0 && gw.addr == Gateway(addrs[k].addr, addrs[k].prefix) else gw.prefix == 0
  {
    hide Gateway, Mask;
    cs, gw := [], InetAddr(IPv4, 0, 0);
    for k := 0 to |addrs|
      invariant cs == Addresses(name, addrs[..k])
      invariant forall j :: 0 <= j < k && gw.prefix == 0 ==> !Eligible(addrs[j])
      invariant gw.prefix > 0 ==> FirstEligible(addrs) < k
      invariant gw.prefix > 0 ==> gw.addr == Gateway(addrs[FirstEligible(addrs)].addr, addrs[FirstEligible(addrs)].prefix)
    {
      var addr := addrs[k];
      cs := cs + [AddInetAddr(name, addr)];
      if gw.prefix == 0 && addr.kind == IPv4 && addr.prefix < 31 {
        gw := addr.(addr := Gateway(addr.addr, addr.prefix));
      }
    }
    assert addrs[..|addrs|] == addrs;
  }

  /** The optional link attributes of a veth interface. */
  method LinkAttributes(i: Interface) returns (attrs: seq<Attr>)
    ensures ListsSet(i, attrs)
  {
    attrs := [];
    if i.mtu > 0 {
      attrs := attrs + [MTU(IntToString(i.mtu))];
    }
    if i.mac != "" {
      attrs := attrs + [MAC(i.mac)];
    }
    if i.txLength > 0 {
      attrs := attrs + [TXQLEN(IntToString(i.txLength))];
    }
  }

  method ConfigureVeth(i: Interface, need: bool) returns (cs: seq<Command>, routed: bool)
    requires i.kind == VETH_BRIDGED
    ensures cs == For(i, need) && (routed <==> need && Offers(i).Some?)
  {
    hide Gateway, Attributes, Addresses;
    var attrs := LinkAttributes(i);
    OneList(i, attrs);
    var adds, gw := AddAddresses(i.zoneIf, i.addrs);
    cs := [SetAttrs(i.zoneIf, attrs), Up(i.zoneIf)] + adds;
    routed := need && gw.prefix > 0;
    if routed {
      cs := cs + [AddDefaultRoute(i.zoneIf, gw.addr)];
    }
  }

  /** NetConfigureAll::execute. */
  method ConfigureAll(ifs: seq<Interface>) returns (cs: seq<Command>)
    ensures cs == Configuration(ifs)
  {
    hide Offers;
    var needDefaultRoute := true;
    cs := [];
    for n := 0 to |ifs|
      invariant needDefaultRoute <==> FirstOffer(ifs[..n]) == n
      invariant cs == All(ifs, n)
    {
      FirstOfferPrefix(ifs, n);
      FirstOfferPrefix(ifs, n + 1);
      OfferIsVeth(ifs[n]);
      if ifs[n].kind == LOOPBACK {
        cs := cs + [Up(ifs[n].hostIf)];
      } else if ifs[n].kind == VETH_BRIDGED {
        var own, routed := ConfigureVeth(ifs[n], needDefaultRoute);
        cs := cs + own;
        if routed {
          needDefaultRoute := false;
        }
      } else {
        assert cs + [] == cs;
      }
    }
  }
}
