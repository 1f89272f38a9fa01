/** The key under which both directions of a connection find their flow
    (getConnectionKey, intToIP and ntohs). */
module ConnectionKey {
  import opened Decimal
  import opened Text

  type uint16 = x: int | 0 <= x < 0x1_0000
  type uint32 = x: int | 0 <= x < 0x1_0000_0000

  /** A network-order address as dotted quad: the lowest byte comes first. */
  function IntToIP(ip: uint32): string {
    Itoa(ip % 0x100) + "." + Itoa(ip / 0x100 % 0x100) + "." +
    Itoa(ip / 0x1_0000 % 0x100) + "." + Itoa(ip / 0x100_0000 % 0x100)
  }

  /** (port >> 8) | (port << 8) on 16 bits. */
  function Ntohs(port: uint16): uint16 {
    port / 0x100 + port % 0x100 * 0x100
  }

  /** Go's < on strings. */
  predicate Less(a: string, b: string) {
    if b == [] then false
    else if a == [] then true
    else if a[0] != b[0] then a[0] < b[0]
    else Less(a[1..], b[1..])
  }

  datatype Endpoint = Endpoint(ip: string, port: uint16)

  predicate After(a: Endpoint, b: Endpoint) {
    Less(b.ip, a.ip) || (a.ip == b.ip && a.port > b.port)
  }

  function Format(pid: uint32, a: Endpoint, b: Endpoint): string {
    Itoa(pid) + ":" + a.ip + ":" + Itoa(a.port) + ":" + b.ip + ":" + Itoa(b.port)
  }

  function Key(pid: uint32, src: Endpoint, dst: Endpoint): string {
    if After(src, dst) then Format(pid, dst, src) else Format(pid, src, dst)
  }

  /** The endpoint of a span made from a raw address and a raw port. */
  function SpanEndpoint(addr: uint32, port: uint16): Endpoint {
    Endpoint(IntToIP(addr), Ntohs(port))
  }

  /** The key ProcessEvent computes for a raw event. */
  function EventKey(pid: uint32, saddr: uint32, sport: uint16, daddr: uint32, dport: uint16): string {
    Key(pid, SpanEndpoint(saddr, sport), SpanEndpoint(daddr, dport))
  }

  // ---------- the string order is a strict total order ----------

  lemma {:induction false} LessTrichotomy(a: string, b: string)
    ensures Less(a, b) || a == b || Less(b, a)
    ensures !(Less(a, b) && Less(b, a))
    ensures Less(a, b) ==> a != b
  {
    if a != [] && b != [] {
      LessTrichotomy(a[1..], b[1..]);
      if a[0] == b[0] && a[1..] == b[1..] {
        assert a == [a[0]] + a[1..] == b;
      }
    }
  }

  // ---------- every part of the key can be read back ----------

  lemma NtohsInjective(p: uint16, q: uint16)
    ensures Ntohs(p) == Ntohs(q) ==> p == q
  {
    NtohsTwice(p);
    NtohsTwice(q);
  }

  lemma NtohsTwice(p: uint16)
    ensures Ntohs(Ntohs(p)) == p
  {
    var high, low := p / 0x100, p % 0x100;
    assert (high + low * 0x100) / 0x100 == low && (high + low * 0x100) % 0x100 == high;
  }

  /** The lowest byte of an address comes first in its text. */
  lemma IPSays(a: nat, b: nat, c: nat, d: nat)
    requires a < 256 && b < 256 && c < 256 && d < 256
    ensures IntToIP((a + 0x100 * b + 0x1_0000 * c + 0x100_0000 * d) as uint32) == Itoa(a) + "." + Itoa(b) + "." + Itoa(c) + "." + Itoa(d)
  {
    hide Itoa;
    var ip := a + 0x100 * b + 0x1_0000 * c + 0x100_0000 * d;
    LowByte(a, b + 0x100 * c + 0x1_0000 * d);
    LowByte(b, c + 0x100 * d);
    LowByte(c, d);
    Shifts(ip);
  }

  lemma LowByte(low: nat, rest: nat)
    requires low < 256
    ensures (low + 0x100 * rest) % 0x100 == low && (low + 0x100 * rest) / 0x100 == rest
  {
  }

  lemma Shifts(n: nat)
    ensures n / 0x1_0000 == n / 0x100 / 0x100 && n / 0x100_0000 == n / 0x100 / 0x100 / 0x100
  {
  }

  /** The two bytes of a port change places. */
  lemma NtohsSwaps(high: nat, low: nat)
    requires high < 256 && low < 256
    ensures Ntohs((0x100 * high + low) as uint16) as int == 0x100 * low + high
  {
    var p := 0x100 * high + low;
    assert p / 0x100 == high && p % 0x100 == low;
  }

  lemma IPHasNoColon(ip: uint32)
    ensures ':' !in IntToIP(ip)
  {
    var a, b := Itoa(ip % 0x100), Itoa(ip / 0x100 % 0x100);
    var c, d := Itoa(ip / 0x1_0000 % 0x100), Itoa(ip / 0x100_0000 % 0x100);
    assert ':' !in a && ':' !in b && ':' !in c && ':' !in d;
    assert ':' !in a + ".";
    assert ':' !in a + "." + b + ".";
    assert ':' !in a + "." + b + "." + c + ".";
  }

  lemma JoinInjective(sep: char, a: string, b: string, c: string, a': string, b': string, c': string)
    requires sep !in a && sep !in b && sep !in a' && sep !in b'
    requires a + [sep] + b + [sep] + c == a' + [sep] + b' + [sep] + c'
    ensures a == a' && b == b' && c == c'
  {
    assert a + [sep] + b + [sep] + c == a + [sep] + (b + [sep] + c);
    assert a' + [sep] + b' + [sep] + c' == a' + [sep] + (b' + [sep] + c');
    CutAt(sep, a, b + [sep] + c, a', b' + [sep] + c');
    CutAt(sep, b, c, b', c');
  }

  lemma QuadInjective(a: string, b: string, c: string, d: string, a': string, b': string, c': string, d': string)
    requires '.' !in a && '.' !in b && '.' !in c && '.' !in a' && '.' !in b' && '.' !in c'
    requires a + "." + b + "." + c + "." + d == a' + "." + b' + "." + c' + "." + d'
    ensures a == a' && b == b' && c == c' && d == d'
  {
    assert a + "." + b + "." + c + "." + d == a + "." + b + "." + (c + "." + d);
    assert a' + "." + b' + "." + c' + "." + d' == a' + "." + b' + "." + (c' + "." + d');
    JoinInjective('.', a, b, c + "." + d, a', b', c' + "." + d');
    CutAt('.', c, d, c', d');
  }

  lemma WordOfBytes(m: uint32)
    ensures m == m % 0x100 + 0x100 * (m / 0x100 % 0x100) + 0x1_0000 * (m / 0x1_0000 % 0x100) + 0x100_0000 * (m / 0x100_0000 % 0x100)
  {
    assert m / 0x1_0000 == m / 0x100 / 0x100 && m / 0x100_0000 == m / 0x100 / 0x100 / 0x100;
  }

  lemma BytesDetermineWord(m: uint32, n: uint32)
    requires m % 0x100 == n % 0x100 && m / 0x100 % 0x100 == n / 0x100 % 0x100
    requires m / 0x1_0000 % 0x100 == n / 0x1_0000 % 0x100
    requires m / 0x100_0000 % 0x100 == n / 0x100_0000 % 0x100
    ensures m == n
  {
    WordOfBytes(m);
    WordOfBytes(n);
  }

  lemma IntToIPInjective(m: uint32, n: uint32)
    requires IntToIP(m) == IntToIP(n)
    ensures m == n
  {
    QuadInjective(Itoa(m % 0x100), Itoa(m / 0x100 % 0x100), Itoa(m / 0x1_0000 % 0x100), Itoa(m / 0x100_0000 % 0x100),
                  Itoa(n % 0x100), Itoa(n / 0x100 % 0x100), Itoa(n / 0x1_0000 % 0x100), Itoa(n / 0x100_0000 % 0x100));
    ItoaInjective(m % 0x100, n % 0x100);
    ItoaInjective(m / 0x100 % 0x100, n / 0x100 % 0x100);
    ItoaInjective(m / 0x1_0000 % 0x100, n / 0x1_0000 % 0x100);
    ItoaInjective(m / 0x100_0000 % 0x100, n / 0x100_0000 % 0x100);
    BytesDetermineWord(m, n);
  }

  lemma EndpointInjective(a: uint32, p: uint16, b: uint32, q: uint16)
    ensures SpanEndpoint(a, p) == SpanEndpoint(b, q) <==> a == b && p == q
  {
    if SpanEndpoint(a, p) == SpanEndpoint(b, q) {
      IntToIPInjective(a, b);
      NtohsInjective(p, q);
    }
  }

  lemma FormatParts(pid: uint32, a: Endpoint, b: Endpoint)
    ensures Format(pid, a, b) ==
            Itoa(pid) + [':'] + a.ip + [':'] + (Itoa(a.port) + ":" + b.ip + ":" + Itoa(b.port))
  {
  }

  lemma FormatInjective(pid: uint32, a: Endpoint, b: Endpoint, pid': uint32, a': Endpoint, b': Endpoint)
    requires ':' !in a.ip && ':' !in b.ip && ':' !in a'.ip && ':' !in b'.ip
    requires Format(pid, a, b) == Format(pid', a', b')
    ensures pid == pid' && a == a' && b == b'
  {
    FormatParts(pid, a, b);
    FormatParts(pid', a', b');
    hide Itoa, Format;
    var tail, tail' := Itoa(a.port) + ":" + b.ip + ":" + Itoa(b.port), Itoa(a'.port) + ":" + b'.ip + ":" + Itoa(b'.port);
    JoinInjective(':', Itoa(pid), a.ip, tail, Itoa(pid'), a'.ip, tail');
    JoinInjective(':', Itoa(a.port), b.ip, Itoa(b.port), Itoa(a'.port), b'.ip, Itoa(b'.port));
    ItoaInjective(pid, pid');
    ItoaInjective(a.port, a'.port);
    ItoaInjective(b.port, b'.port);
  }

  /** The swap forgets the direction and nothing else. */
  lemma KeyIff(pid: uint32, a: Endpoint, b: Endpoint, pid': uint32, c: Endpoint, d: Endpoint)
    requires ':' !in a.ip && ':' !in b.ip && ':' !in c.ip && ':' !in d.ip
    ensures Key(pid, a, b) == Key(pid', c, d) <==>
            pid == pid' && ((a == c && b == d) || (a == d && b == c))
  {
    LessTrichotomy(a.ip, b.ip);
    LessTrichotomy(c.ip, d.ip);
    if Key(pid, a, b) == Key(pid', c, d) {
      var (x, y) := if After(a, b) then (b, a) else (a, b);
      var (z, w) := if After(c, d) then (d, c) else (c, d);
      FormatInjective(pid, x, y, pid', z, w);
    }
  }

  /** Two events share a flow exactly when the process and the unordered pair of raw endpoints agree. */
  lemma {:induction false} SameFlowIff(
    pid: uint32, saddr: uint32, sport: uint16, daddr: uint32, dport: uint16,
    pid': uint32, saddr': uint32, sport': uint16, daddr': uint32, dport': uint16)
    ensures EventKey(pid, saddr, sport, daddr, dport) == EventKey(pid', saddr', sport', daddr', dport') <==>
            pid == pid' &&
            ((saddr == saddr' && sport == sport' && daddr == daddr' && dport == dport') ||
             (saddr == daddr' && sport == dport' && daddr == saddr' && dport == sport'))
  {
    IPHasNoColon(saddr); IPHasNoColon(daddr); IPHasNoColon(saddr'); IPHasNoColon(daddr');
    KeyIff(pid, SpanEndpoint(saddr, sport), SpanEndpoint(daddr, dport),
           pid', SpanEndpoint(saddr', sport'), SpanEndpoint(daddr', dport'));
    EndpointInjective(saddr, sport, saddr', sport');
    EndpointInjective(daddr, dport, daddr', dport');
    EndpointInjective(saddr, sport, daddr', dport');
    EndpointInjective(daddr, dport, saddr', sport');
  }

  /** The probes report a send as (local, remote) and a receive on the same socket as (remote, local). */
  lemma BothDirectionsShareFlow(pid: uint32, local: uint32, localPort: uint16, remote: uint32, remotePort: uint16)
    ensures EventKey(pid, local, localPort, remote, remotePort) == EventKey(pid, remote, remotePort, local, localPort)
  {
    SameFlowIff(pid, local, localPort, remote, remotePort, pid, remote, remotePort, local, localPort);
  }
}
