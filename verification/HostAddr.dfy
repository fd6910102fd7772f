/** IPv4 address and port in one 64-bit integer (cnet.c). Ports are as they stand in
    memory, in network byte order. */
module HostAddr {
  import opened Bytes

  type u16 = n: nat | n < 0x1_0000
  type u32 = n: nat | n < 0x1_0000_0000

  function FromSockAddr(port: u16, addr: u32): (h: nat)
    ensures h < 0x1_0000_0000_0000
  {
    port * 0x1_0000_0000 + addr
  }

  function Addr(h: nat): u32 {
    h % 0x1_0000_0000
  }

  function Port(h: nat): u16 {
    h / 0x1_0000_0000 % 0x1_0000
  }

  /** The host byte order is little-endian. */
  function Htons(n: u16): u16 {
    n % 256 * 256 + n / 256
  }

  /** The two bytes of a port as the machine has them in memory, lowest first. */
  function InMemory(port: u16): seq<byte> {
    [port % 256, port / 256]
  }

  /** In memory, the result is the big-endian form of the number: network byte order. */
  lemma HtonsInMemory(n: u16)
    ensures InMemory(Htons(n)) == BigEndian(n, 2)
  {
    var hi, lo := n / 256, n % 256;
    HiLo(hi, lo);
    assert hi / 256 == 0 && hi % 256 == hi;
    assert BigEndian(hi, 1) == BigEndian(hi / 256, 0) + [hi as byte];
  }

  lemma HiLo(hi: nat, lo: nat)
    requires hi < 256 && lo < 256
    ensures (lo * 256 + hi) / 256 == lo && (lo * 256 + hi) % 256 == hi
  {
  }

  lemma HtonsInverse(n: u16)
    ensures Htons(Htons(n)) == n
  {
    var hi, lo := n / 256, n % 256;
    var m := lo * 256 + hi;
    assert hi < 256 && lo < 256;
    assert m / 256 == lo && m % 256 == hi;
  }

  /** Packing keeps the address and the port. */
  lemma RoundTrip(port: u16, addr: u32)
    ensures Addr(FromSockAddr(port, addr)) == addr && Port(FromSockAddr(port, addr)) == port
  {
  }

  /** The integer has the address in its low four bytes, the port in the two above them, and
      nothing in the highest two. */
  lemma Layout(port: u16, addr: u32)
    ensures BigEndian(FromSockAddr(port, addr), 8) == [0, 0] + BigEndian(port, 2) + BigEndian(addr, 4)
  {
    hide BigEndian, Value;
    var high := [0, 0] + BigEndian(port, 2);
    var s := high + BigEndian(addr, 4);
    Powers();
    ValueSum([0, 0], BigEndian(port, 2));
    ValueOfTwoBytes([0, 0]);
    ValueSum(high, BigEndian(addr, 4));
    ValueOfBigEndian(port, 2);
    ValueOfBigEndian(addr, 4);
    BigEndianOfValue(s);
  }

  lemma Powers()
    ensures Pow256(2) == 0x1_0000 && Pow256(4) == 0x1_0000_0000
  {
    Pow256Of2();
    assert Pow256(4) == 256 * Pow256(3) == 65536 * Pow256(2);
  }

  lemma PortStays(port: u16)
    ensures port % 0x1_0000 == port
  {
  }

  /** Where a peer that sent from `fromaddr` listens: its address with another port. */
  function WithPort(fromaddr: nat, listenport: u16): nat {
    FromSockAddr(Htons(listenport), Addr(fromaddr))
  }

  /** The listening address has the sender's IP, and its port, as it lies in memory, is the
      announced one in network byte order. */
  lemma ListenAddress(fromaddr: nat, listenport: u16)
    ensures var to := WithPort(fromaddr, listenport);
            && Addr(to) == Addr(fromaddr) == to % 0x1_0000_0000
            && InMemory(Port(to)) == BigEndian(listenport, 2) && Value(InMemory(Port(to))) == listenport
  {
    hide Htons, BigEndian, Value;
    RoundTrip(Htons(listenport), Addr(fromaddr));
    HtonsInMemory(listenport);
    Powers();
    ValueOfBigEndian(listenport, 2);
  }
}
