/** The address arithmetic of prompt-config.sh, whose functions leave their results in variables. */
module Subnet {
  import opened Options
  import opened Bits

  /** A dotted address, field by field. */
  datatype Address = Address(a: nat, b: nat, c: nat, d: nat)

  predicate Octets(ip: Address) {
    ip.a < 256 && ip.b < 256 && ip.c < 256 && ip.d < 256
  }

  function Number(ip: Address): (n: nat)
    ensures Octets(ip) ==> n < 0x1_0000_0000
  {
    0x100_0000 * ip.a + 0x1_0000 * ip.b + 0x100 * ip.c + ip.d
  }

  const ONES := Address(255, 255, 255, 255)

  function Network(ip: Address, mask: Address): nat {
    And(Number(mask), Number(ip))
  }

  function Broadcast(ip: Address, mask: Address): nat
    requires Octets(mask)
  {
    Network(ip, mask) + And(Not(Number(mask)), Number(ONES))
  }

  /** A mask of ones and then h zeros, section 3.1 of RFC 4632. */
  predicate Contiguous(mask: Address, h: nat) {
    h <= 32 && Octets(mask) && Number(mask) + Pow2(h) == Pow2(32)
  }

  /** The globals of the script. */
  class Prompt {
    var num: nat
    var ipAddr: Address
    var ipNum: nat
    var nmNum: nat
    var netNum: nat
    var bcastAddr: nat
    var useLo: int
    var useHi: int

    method IpToNum(ip: Address)
      modifies this`num
      ensures num == Number(ip)
    {
      var numA, numB, numC, numD := ip.a * 0x100_0000, ip.b * 0x1_0000, ip.c * 0x100, ip.d;
      num := numA + numB + numC + numD;
    }

    /** The fields are those of the address with this number; only the first can exceed an octet. */
    method NumToIp(n: nat)
      modifies this`ipAddr
      ensures Number(ipAddr) == n
      ensures ipAddr.b < 256 && ipAddr.c < 256 && ipAddr.d < 256
      ensures n < 0x1_0000_0000 ==> Octets(ipAddr)
    {
      var rest := n;
      LowOctet(rest);
      var d := And(rest, 255);
      rest := rest / 256;
      LowOctet(rest);
      var c := And(rest, 255);
      rest := rest / 256;
      LowOctet(rest);
      var b := And(rest, 255);
      rest := rest / 256;
      ipAddr := Address(rest, b, c, d);
    }

    method IpNetmaskToNetwork(ip: Address, mask: Address)
      requires Octets(mask)
      modifies this`num, this`ipNum, this`nmNum, this`netNum, this`bcastAddr
      ensures ipNum == Number(ip) && nmNum == Number(mask)
      ensures netNum == Network(ip, mask) && bcastAddr == Broadcast(ip, mask)
    {
      IpToNum(ip);
      ipNum := num;
      IpToNum(mask);
      nmNum := num;
      netNum := And(nmNum, ipNum);
      IpToNum(ONES);
      var bcasthost := And(Not(nmNum), num);
      bcastAddr := netNum + bcasthost;
    }

    /** Whether an address, which may be "none", is a host of a subnet given by any of its addresses. */
    method IpFromSubnet(myip: Option<Address>, net: Address, mask: Address) returns (ok: bool)
      requires Octets(mask) && Octets(net) && (myip.Some? ==> Octets(myip.value))
      modifies this`num, this`ipNum, this`nmNum, this`netNum, this`bcastAddr
      ensures myip.None? ==> ok
      ensures myip.Some? ==> (ok <==> Network(net, mask) < Number(myip.value) < Broadcast(net, mask))
      ensures forall h | myip.Some? && Contiguous(mask, h) :: ok <==> IsHost(Number(myip.value), Number(net), h)
    {
      if myip.None? {
        return true;
      }
      IpNetmaskToNetwork(net, mask);
      IpToNum(myip.value);
      ok := num > netNum && num < bcastAddr;
      forall h | Contiguous(mask, h)
        ensures ok <==> IsHost(Number(myip.value), Number(net), h)
      {
        InsideIsHost(myip.value, net, mask, h);
      }
    }

    /** Chooses among the addresses above, between and below the two that are taken. */
    method CalcExtDefaultRange(a1: nat, a2: nat)
      modifies this`useLo, this`useHi
      ensures (useLo, useHi) == Widest(netNum, bcastAddr, a1, a2)
    {
      var lo: int, hi: int;
      if a1 < a2 {
        lo, hi := a1, a2;
      } else {
        lo, hi := a2, a1;
      }
      var uStart, mStart, lStart := hi + 1, lo + 1, netNum + 1;
      var uMax, mMax, lMax := bcastAddr - 1, hi - 1, lo - 1;
      var upRange, midRange, loRange := uMax - uStart, mMax - mStart, lMax - lStart;
      var range;
      if upRange > midRange {
        useLo, useHi, range := uStart, uMax, upRange;
      } else {
        useLo, useHi, range := mStart, mMax, midRange;
      }
      if range < loRange {
        useLo, useHi := lStart, lMax;
      }
    }
  }

  lemma LowOctet(n: nat)
    ensures And(n, 255) == n % 256
  {
    assert Pow2(8) == 256 by { assert Pow2(4) == 16; }
    AndLowOnes(n, 8);
  }

  /** So a number is printed as the address it was read from. */
  lemma NumberDetermines(ip: Address, other: Address)
    requires Number(ip) == Number(other)
    requires ip.b < 256 && ip.c < 256 && ip.d < 256
    requires other.b < 256 && other.c < 256 && other.d < 256
    ensures ip == other
  {
    Remainder(Number(ip), 256, 0x1_0000 * ip.a + 0x100 * ip.b + ip.c, ip.d);
    Remainder(Number(other), 256, 0x1_0000 * other.a + 0x100 * other.b + other.c, other.d);
    Remainder(Number(ip) / 256, 256, 0x100 * ip.a + ip.b, ip.c);
    Remainder(Number(other) / 256, 256, 0x100 * other.a + other.b, other.c);
  }

  /** The first field that differs decides. */
  predicate Lower(ip: Address, other: Address) {
    if ip.a != other.a then ip.a < other.a
    else if ip.b != other.b then ip.b < other.b
    else if ip.c != other.c then ip.c < other.c
    else ip.d < other.d
  }

  /** Numbers order as the fields do, and the next number is that of the next address. */
  lemma NumberOrders(ip: Address, other: Address)
    requires Octets(ip) && Octets(other)
    ensures Number(ip) < Number(other) <==> Lower(ip, other)
    ensures ip.d < 255 ==> Number(ip.(d := ip.d + 1)) == Number(ip) + 1
    ensures ip.d == 255 && ip.c < 255 ==> Number(ip.(c := ip.c + 1, d := 0)) == Number(ip) + 1
    ensures ip.d == 255 && ip.c == 255 && ip.b < 255 ==> Number(ip.(b := ip.b + 1, c := 0, d := 0)) == Number(ip) + 1
    ensures Number(Address(0, 0, 0, 0)) == 0
  {
  }

  lemma Powers()
    ensures Pow2(32) == 0x1_0000_0000
  {
    assert Pow2(8) == 256 by { assert Pow2(4) == 16; }
    assert Pow2(16) == 0x1_0000 by { assert Pow2(12) == 4096; }
    assert Pow2(24) == 0x100_0000 by { assert Pow2(20) == 0x10_0000; }
    assert Pow2(28) == 0x1000_0000;
  }

  /** Network and broadcast are the ends of the aligned block of 2^h addresses around the address. */
  lemma BlockEnds(ip: Address, mask: Address, h: nat)
    requires Octets(ip) && Contiguous(mask, h)
    ensures Network(ip, mask) == Number(ip) - Number(ip) % Pow2(h)
    ensures Broadcast(ip, mask) == Network(ip, mask) + Pow2(h) - 1
  {
    hide And, Pow2;
    Powers();
    AndHighOnes(Number(ip), 32, h);
    var host := Not(Number(mask));
    assert Number(ONES) == Pow2(32) - 1;
    AndLowOnes(host, 32);
    Remainder(host, Pow2(32), 0x1_0000_0000 - 1, Pow2(h) - 1);
  }

  /** In the same block, and neither its first address nor its last. */
  predicate IsHost(n: nat, net: nat, h: nat) {
    n / Pow2(h) == net / Pow2(h) && 0 < n % Pow2(h) < Pow2(h) - 1
  }

  lemma Quotient(x: nat, d: nat)
    requires d > 0
    ensures x == (x / d) * d + x % d
  {
  }

  lemma InsideBlock(n: nat, m: nat, d: nat)
    requires d > 0
    ensures m - m % d < n < m - m % d + d - 1 <==> n / d == m / d && 0 < n % d < d - 1
  {
    var q, base := m / d, m - m % d;
    Quotient(m, d);
    Quotient(n, d);
    if base < n < base + d - 1 {
      Remainder(n, d, q, n - base);
    }
  }

  lemma InsideIsHost(ip: Address, net: Address, mask: Address, h: nat)
    requires Octets(ip) && Octets(net) && Contiguous(mask, h)
    ensures Network(net, mask) < Number(ip) < Broadcast(net, mask) <==> IsHost(Number(ip), Number(net), h)
  {
    hide And, Network, Broadcast, Pow2, Number;
    BlockEnds(net, mask, h);
    InsideBlock(Number(ip), Number(net), Pow2(h));
  }

  /** The ends of the range that is offered. */
  function Widest(net: int, bcast: int, a1: int, a2: int): (int, int) {
    var (lo, hi) := if a1 < a2 then (a1, a2) else (a2, a1);
    var up, mid, low := bcast - hi, hi - lo, lo - net;
    if low > up && low > mid then (net + 1, lo - 1)
    else if up > mid then (hi + 1, bcast - 1)
    else (lo + 1, hi - 1)
  }

  /** A range of host addresses without the two. */
  predicate Available(net: int, bcast: int, a1: int, a2: int, lo: int, hi: int) {
    net < lo && hi < bcast && !(lo <= a1 <= hi) && !(lo <= a2 <= hi)
  }

  /** No available range is longer than the one offered, which is empty only if all of them are. */
  lemma WidestIsLongest(net: int, bcast: int, a1: int, a2: int)
    requires net < a1 < bcast && net < a2 < bcast
    ensures var (useLo, useHi) := Widest(net, bcast, a1, a2);
      && Available(net, bcast, a1, a2, useLo, useHi)
      && useLo <= useHi + 1
      && forall lo, hi | lo <= hi && Available(net, bcast, a1, a2, lo, hi) :: hi - lo <= useHi - useLo
  {
  }
}
