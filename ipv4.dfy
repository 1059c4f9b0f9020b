/** IPv4 addresses and networks as Python's ipaddress module treats them:
    an address is a 32-bit natural, written as a dotted quad; a network is
    an address with a prefix length whose host bits are cleared. Covers
    ip_next and guess_gateway of spawn_overlays.py and the network parsing
    behind cidr_from_ip_mask of spawn_vm.py. */
module IPv4 {
  import opened Text
  import opened Wrappers

  const AddrSpace: int := 0x1_0000_0000
  const MaxAddr: int := 0xFFFF_FFFF

  type Addr = a: int | 0 <= a < 0x1_0000_0000

  // ---------------------------------------------------------------------
  // Dotted-quad text

  /** The four octets of an address, most significant first. */
  function Octets(a: Addr): (o: seq<int>)
    ensures |o| == 4 && forall k :: 0 <= k < 4 ==> 0 <= o[k] < 256
  {
    [a / 0x100_0000, (a / 0x1_0000) % 256, (a / 256) % 256, a % 256]
  }

  function FromOctets(o: seq<int>): int
    requires |o| == 4
  {
    ((o[0] * 256 + o[1]) * 256 + o[2]) * 256 + o[3]
  }

  lemma OctetsRoundTrip(a: Addr)
    ensures FromOctets(Octets(a)) == a
  {
    var o := Octets(a);
    assert a == (a / 256) * 256 + o[3];
    assert a / 256 == (a / 0x1_0000) * 256 + o[2];
    assert a / 0x1_0000 == (a / 0x100_0000) * 256 + o[1];
  }

  lemma DivMod256(x: int, y: int)
    requires 0 <= y < 256
    ensures (x * 256 + y) / 256 == x && (x * 256 + y) % 256 == y
  {
  }

  lemma FromOctetsRoundTrip(o: seq<int>)
    requires |o| == 4 && forall k :: 0 <= k < 4 ==> 0 <= o[k] < 256
    ensures 0 <= FromOctets(o) < AddrSpace
    ensures Octets(FromOctets(o)) == o
  {
    var a := FromOctets(o);
    var x1 := o[0] * 256 + o[1];
    var x2 := x1 * 256 + o[2];
    assert x1 < 0x1_0000;
    assert x2 < 0x100_0000;
    DivMod256(x2, o[3]);
    DivMod256(x1, o[2]);
    DivMod256(o[0], o[1]);
    assert a / 256 == x2 && a % 256 == o[3];
    assert a / 0x1_0000 == (a / 256) / 256;
    assert a / 0x100_0000 == (a / 0x1_0000) / 256;
  }

  /** str(IPv4Address(a)) */
  function Format(a: Addr): string
  {
    var o := Octets(a);
    Join([Decimal(o[0]), Decimal(o[1]), Decimal(o[2]), Decimal(o[3])], '.')
  }

  /** One field of a dotted quad as ipaddress accepts it: one to three ASCII
      digits, no leading zero (except "0" itself), at most 255. */
  function ParseOctet(p: string): (r: Option<int>)
    ensures r.Some? ==> Canonical(p) && |p| <= 3 && 0 <= r.value < 256 && r.value == ParseDecimal(p)
  {
    if |p| == 0 || !AllDigits(p) || |p| > 3 || (p != "0" && p[0] == '0') then None
    else if ParseDecimal(p) > 255 then None
    else Some(ParseDecimal(p))
  }

  /** IPv4Address(s) for a string: exactly four dot-separated octets;
      anything else raises AddressValueError (None here). */
  function Parse(s: string): (r: Option<Addr>)
  {
    var parts := Split(s, '.');
    if |parts| != 4 then None
    else
      var o0, o1, o2, o3 := ParseOctet(parts[0]), ParseOctet(parts[1]), ParseOctet(parts[2]), ParseOctet(parts[3]);
      if o0.None? || o1.None? || o2.None? || o3.None? then None
      else
        FromOctetsRoundTrip([o0.value, o1.value, o2.value, o3.value]);
        Some(FromOctets([o0.value, o1.value, o2.value, o3.value]))
  }

  lemma ParseOctetOfDecimal(n: int)
    requires 0 <= n < 256
    ensures ParseOctet(Decimal(n)) == Some(n)
  {
    DecimalIsCanonical(n);
    DecimalLength(n);
    ParseDecimalOfDecimal(n);
  }

  /** Every address's text parses back to that address. */
  lemma ParseFormat(a: Addr)
    ensures Parse(Format(a)) == Some(a)
  {
    var o := Octets(a);
    var parts := [Decimal(o[0]), Decimal(o[1]), Decimal(o[2]), Decimal(o[3])];
    forall k | 0 <= k < 4 ensures '.' !in parts[k] {
      assert AllDigits(parts[k]);
    }
    SplitJoin(parts, '.');
    ParseOctetOfDecimal(o[0]);
    ParseOctetOfDecimal(o[1]);
    ParseOctetOfDecimal(o[2]);
    ParseOctetOfDecimal(o[3]);
    OctetsRoundTrip(a);
    assert [o[0], o[1], o[2], o[3]] == o;
  }

  /** ipaddress accepts only the canonical text: a string that parses is
      exactly the text of the address it denotes. */
  lemma FormatParse(s: string)
    requires Parse(s).Some?
    ensures Format(Parse(s).value) == s
  {
    var parts := Split(s, '.');
    var vals := [ParseOctet(parts[0]).value, ParseOctet(parts[1]).value,
                 ParseOctet(parts[2]).value, ParseOctet(parts[3]).value];
    FromOctetsRoundTrip(vals);
    forall k | 0 <= k < 4 ensures Decimal(vals[k]) == parts[k] {
      DecimalOfParseDecimal(parts[k]);
    }
    JoinSplit(s, '.');
    assert parts == [parts[0], parts[1], parts[2], parts[3]];
  }

  lemma FormatInjective(a: Addr, b: Addr)
    requires Format(a) == Format(b)
    ensures a == b
  {
    ParseFormat(a);
    ParseFormat(b);
  }

  /** The text of an address holds only digits and dots. */
  lemma FormatChars(a: Addr)
    ensures forall k :: 0 <= k < |Format(a)| ==> IsDigit(Format(a)[k]) || Format(a)[k] == '.'
    ensures '/' !in Format(a) && '\n' !in Format(a)
  {
    var o := Octets(a);
    var parts := [Decimal(o[0]), Decimal(o[1]), Decimal(o[2]), Decimal(o[3])];
    forall k | 0 <= k < 4 ensures '/' !in parts[k] && '\n' !in parts[k] {
      assert AllDigits(parts[k]);
    }
    JoinAvoids(parts, '.', '/');
    JoinAvoids(parts, '.', '\n');
    forall c | c in Format(a) && c != '.' ensures IsDigit(c) {
      forall k | 0 <= k < 4 ensures c !in parts[k] || IsDigit(c) {
        assert AllDigits(parts[k]);
      }
      if !IsDigit(c) {
        JoinAvoids(parts, '.', c);
      }
    }
  }

  // ---------------------------------------------------------------------
  // ip_next (spawn_overlays.py)

  /** str(ip_address(s) + step): adding past either end of the address
      space raises AddressValueError instead of wrapping. */
  function IpNext(s: string, step: int): (r: Option<string>)
    ensures r.Some? <==> Parse(s).Some? && 0 <= Parse(s).value + step <= MaxAddr
    ensures r.Some? ==> Parse(r.value) == Some(Parse(s).value + step)
  {
    match Parse(s)
    case None => None
    case Some(a) =>
      if 0 <= a + step <= MaxAddr then
        ParseFormat(a + step);
        Some(Format(a + step))
      else None
  }

  /** A step of zero gives back the (necessarily canonical) input text. */
  lemma IpNextZero(s: string)
    requires Parse(s).Some?
    ensures IpNext(s, 0) == Some(s)
  {
    FormatParse(s);
  }

  /** Stepping twice is stepping once by the sum, when both steps stay in range. */
  lemma IpNextCompose(s: string, t: string, m: int, n: int)
    requires IpNext(s, m) == Some(t) && IpNext(t, n).Some?
    ensures IpNext(s, m + n) == IpNext(t, n)
  {
    var a := Parse(s).value;
    IpNextOf(s, a, m);
    IpNextOf(t, a + m, n);
    IpNextOf(s, a, m + n);
  }

  /** ip_next of an address that parses, within range. */
  lemma IpNextOf(s: string, a: Addr, step: int)
    requires Parse(s) == Some(a) && 0 <= a + step <= MaxAddr
    ensures IpNext(s, step) == Some(Format(a + step))
  {
  }

  // ---------------------------------------------------------------------
  // Prefixes, masks and networks

  type Prefix = p: int | 0 <= p <= 32

  function Pow2(n: nat): (r: nat)
    ensures r >= 1
  {
    if n == 0 then 1 else 2 * Pow2(n - 1)
  }

  lemma {:induction false} Pow2Add(m: nat, n: nat)
    ensures Pow2(m + n) == Pow2(m) * Pow2(n)
  {
    if n > 0 {
      Pow2Add(m, n - 1);
      assert Pow2(m + n) == 2 * Pow2(m + n - 1);
    }
  }

  lemma Pow2Values()
    ensures Pow2(8) == 256 && Pow2(32) == AddrSpace
  {
    assert Pow2(2) == 4;
    assert Pow2(4) == 16 by { Pow2Add(2, 2); }
    assert Pow2(8) == 256 by { Pow2Add(4, 4); }
    assert Pow2(16) == 65536 by { Pow2Add(8, 8); }
    Pow2Add(16, 16);
  }

  lemma {:induction false} Pow2AtLeast4(n: nat)
    requires n >= 2
    ensures Pow2(n) >= 4
  {
    if n > 2 {
      Pow2AtLeast4(n - 1);
    }
  }

  /** Number of addresses in a network of the given prefix length. */
  function BlockSize(p: Prefix): nat
  {
    Pow2(32 - p)
  }

  /** The network address of a: a with its host bits cleared (a AND netmask). */
  function NetworkOf(a: Addr, p: Prefix): Addr
  {
    var b := BlockSize(p);
    ModBelow(a, b);
    a - a % b
  }

  lemma ModBelow(a: nat, b: nat)
    requires b >= 1
    ensures a % b <= a
  {
    if a >= b {
      assert a % b < b;
    }
  }

  lemma MulMono(x: int, y: int, b: int)
    requires x <= y && b >= 0
    ensures x * b <= y * b
  {
  }

  /** A network never runs past the end of the address space. */
  lemma NetworkFits(a: Addr, p: Prefix)
    ensures NetworkOf(a, p) % BlockSize(p) == 0
    ensures NetworkOf(a, p) <= a < NetworkOf(a, p) + BlockSize(p) <= AddrSpace
  {
    var b := BlockSize(p);
    var m := Pow2(p);
    Pow2Add(p, 32 - p);
    Pow2Values();
    assert m * b == AddrSpace;
    var q := a / b;
    AlignedBelow(a, b, m);
  }

  lemma AlignedBelow(a: nat, b: nat, m: nat)
    requires b >= 1 && a < m * b
    ensures a - a % b == (a / b) * b && (a - a % b) % b == 0
    ensures (a / b) * b + b <= m * b
  {
    var q := a / b;
    assert a == q * b + a % b;
    assert (q * b) % b == 0 by { MulMod(q, b); }
    if q >= m {
      MulMono(m, q, b);
    }
    MulMono(q + 1, m, b);
  }

  lemma MulMod(q: nat, b: nat)
    requires b >= 1
    ensures (q * b) % b == 0
  {
    var r := (q * b) % b;
    var d := (q * b) / b;
    assert q * b == d * b + r;
    assert (q - d) * b == r;
    if q > d {
      MulMono(1, q - d, b);
    } else if q < d {
      MulMono(1, d - q, b);
    }
  }

  /** IPv4Network with strict=False: the network address has no host bits. */
  datatype Network = Network(addr: Addr, prefix: Prefix)
  {
    predicate Valid() { addr % BlockSize(prefix) == 0 }

    predicate Contains(a: Addr) { addr <= a < addr + BlockSize(prefix) }
  }

  function NetworkContaining(a: Addr, p: Prefix): (n: Network)
    ensures n.Valid() && n.Contains(a) && n.prefix == p
    ensures n.addr + BlockSize(p) <= AddrSpace
  {
    NetworkFits(a, p);
    Network(NetworkOf(a, p), p)
  }

  /** list(net.hosts()): every address but the network and broadcast
      addresses; a /31 yields both of its addresses, a /32 its one address. */
  function Hosts(n: Network): (h: seq<Addr>)
    requires n.Valid() && n.addr + BlockSize(n.prefix) <= AddrSpace
    ensures |h| >= 1
    ensures forall k :: 0 <= k < |h| ==> n.Contains(h[k])
    ensures forall j, k :: 0 <= j < k < |h| ==> h[j] < h[k]
  {
    if n.prefix == 32 then [n.addr]
    else if n.prefix == 31 then
      assert BlockSize(31) == 2;
      [n.addr, n.addr + 1]
    else
      Pow2AtLeast4(32 - n.prefix);
      seq(BlockSize(n.prefix) - 2, k requires 0 <= k < BlockSize(n.prefix) - 2 => n.addr + 1 + k)
  }

  /** For prefixes up to /30 the host list is exactly the addresses strictly
      between the network and broadcast addresses. */
  lemma HostsOfOrdinaryNetwork(n: Network, h: Addr)
    requires n.Valid() && n.addr + BlockSize(n.prefix) <= AddrSpace && n.prefix <= 30
    ensures h in Hosts(n) <==> n.addr < h < n.addr + BlockSize(n.prefix) - 1
  {
    var hs := Hosts(n);
    if n.addr < h < n.addr + BlockSize(n.prefix) - 1 {
      assert hs[h - n.addr - 1] == h;
    }
  }

  /** The netmask of a prefix: p one-bits followed by zero-bits. */
  function Netmask(p: Prefix): int
  {
    AddrSpace - BlockSize(p)
  }

  /** The prefix length whose netmask is m, searching upwards from p. */
  function PrefixOfNetmask(m: int, p: Prefix): (r: Option<Prefix>)
    ensures r.Some? ==> Netmask(r.value) == m
    ensures r.None? ==> forall q: Prefix :: p <= q ==> Netmask(q) != m
    decreases 32 - p
  {
    if Netmask(p) == m then Some(p)
    else if p == 32 then None
    else PrefixOfNetmask(m, p + 1)
  }

  /** _prefix_from_prefix_string: ASCII digits (leading zeros allowed) with a
      value from 0 to 32. */
  function PrefixFromDigits(s: string): (r: Option<Prefix>)
    ensures r.Some? ==> |s| >= 1 && AllDigits(s) && r.value == ParseDecimal(s)
  {
    if |s| == 0 || !AllDigits(s) || ParseDecimal(s) > 32 then None
    else Some(ParseDecimal(s))
  }

  /** _prefix_from_ip_string: a dotted quad read first as a netmask and then,
      with its bits inverted, as a hostmask. */
  function PrefixFromMaskText(s: string): (r: Option<Prefix>)
    ensures r.Some? ==> (Parse(s).Some?
      && (Netmask(r.value) == Parse(s).value || Netmask(r.value) == MaxAddr - Parse(s).value))
  {
    match Parse(s)
    case None => None
    case Some(m) =>
      match PrefixOfNetmask(m, 0)
      case Some(p) => Some(p)
      case None => PrefixOfNetmask(MaxAddr - m, 0)
  }

  /** _make_netmask for a string argument. */
  function PrefixFromText(s: string): Option<Prefix>
  {
    match PrefixFromDigits(s)
    case Some(p) => Some(p)
    case None => PrefixFromMaskText(s)
  }

  /** ipaddress.IPv4Network(s, strict=False) (also what ip_network does for
      an IPv4 string): "address" or "address/mask"; a second '/' raises. */
  function ParseNetwork(s: string): (r: Option<Network>)
    ensures r.Some? ==> r.value.Valid() && r.value.addr + BlockSize(r.value.prefix) <= AddrSpace
  {
    var parts := Split(s, '/');
    if |parts| > 2 then None
    else
      match Parse(parts[0])
      case None => None
      case Some(a) =>
        var p := if |parts| == 2 then PrefixFromText(parts[1]) else Some(32);
        if p.None? then None else Some(NetworkContaining(a, p.value))
  }

  lemma SplitAddressMask(ip: string, mask: string)
    requires '/' !in ip && '/' !in mask
    ensures Split(ip + "/" + mask, '/') == [ip, mask]
  {
    assert ip + "/" + mask == ip + ['/'] + mask;
    SplitFieldThenRest(ip, mask, '/');
    SplitNoSep(mask, '/');
  }

  /** "address/mask" with a valid address and a mask text that names a
      prefix gives the network of that prefix containing the address. */
  lemma ParseNetworkOf(ip: string, mask: string)
    requires Parse(ip).Some? && '/' !in mask && PrefixFromText(mask).Some?
    ensures ParseNetwork(ip + "/" + mask) == Some(NetworkContaining(Parse(ip).value, PrefixFromText(mask).value))
  {
    FormatParse(ip);
    FormatChars(Parse(ip).value);
    SplitAddressMask(ip, mask);
  }

  /** An address text that does not parse, or a mask text that names no
      prefix, makes the network constructor raise. */
  lemma ParseNetworkRejects(ip: string, mask: string)
    requires Parse(ip).None? || ('/' !in mask && PrefixFromText(mask).None?)
    ensures ParseNetwork(ip + "/" + mask).None?
  {
    var s := ip + "/" + mask;
    var parts := Split(s, '/');
    if |parts| <= 2 {
      if '/' in ip {
        var i :| 0 <= i < |ip| && ip[i] == '/';
        SlashSplitsTwice(ip, mask, i);
      } else if '/' in mask {
        var i :| 0 <= i < |mask| && mask[i] == '/';
        assert s == (ip + "/" + mask[..i]) + "/" + mask[i + 1..];
        SplitCount(ip + "/" + mask[..i], mask[i + 1..]);
        SplitAtLeastTwo(ip, mask[..i]);
      } else {
        SplitAddressMask(ip, mask);
      }
    }
  }

  lemma SlashSplitsTwice(ip: string, mask: string, i: nat)
    requires i < |ip| && ip[i] == '/'
    ensures |Split(ip + "/" + mask, '/')| > 2
  {
    var pre := ip[..i];
    var rest := ip[i + 1..];
    assert ip + "/" + mask == pre + "/" + (rest + "/" + mask);
    SplitCount(pre, rest + "/" + mask);
    SplitAtLeastTwo(rest, mask);
  }

  lemma SplitCount(x: string, t: string)
    ensures |Split(x + "/" + t, '/')| == |Split(x, '/')| + |Split(t, '/')|
  {
    SplitCountGeneral(x, t);
  }

  lemma {:induction false} SplitCountGeneral(x: string, t: string)
    ensures |Split(x + "/" + t, '/')| == |Split(x, '/')| + |Split(t, '/')|
  {
    if x == [] {
      assert x + "/" + t == ['/'] + t;
      assert (['/'] + t)[1..] == t;
    } else {
      assert (x + "/" + t)[1..] == x[1..] + "/" + t;
      SplitCountGeneral(x[1..], t);
    }
  }

  lemma SplitAtLeastTwo(x: string, t: string)
    ensures |Split(x + "/" + t, '/')| >= 2
  {
    SplitCount(x, t);
  }

  lemma PrefixTextOfInt(p: int)
    ensures 0 <= p <= 32 ==> PrefixFromText(IntToString(p)) == Some(p)
    ensures !(0 <= p <= 32) ==> PrefixFromText(IntToString(p)).None?
    ensures '/' !in IntToString(p)
  {
    var s := IntToString(p);
    if p >= 0 {
      ParseDecimalOfDecimal(p);
    }
    assert '.' !in s && '/' !in s by {
      if p < 0 {
        assert s == "-" + Decimal(-p);
        assert AllDigits(Decimal(-p));
      } else {
        assert AllDigits(s);
      }
    }
    SplitNoSep(s, '.');
    if p < 0 {
      assert !IsDigit(s[0]);
    }
  }

  // ---------------------------------------------------------------------
  // guess_gateway (spawn_overlays.py)

  /** str(list(ip_network(f"{start_ip}/{prefix_len}", strict=False).hosts())[0]) */
  function GuessGateway(startIp: string, prefixLen: int): Option<string>
  {
    match ParseNetwork(startIp + "/" + IntToString(prefixLen))
    case None => None
    case Some(n) => Some(Format(Hosts(n)[0]))
  }

  /** For a valid start address and prefix the guessed gateway is the first
      host of the start address's network: the network address plus one up
      to /30, the network address itself for /31 and /32. */
  lemma GuessGatewayIsFirstHost(startIp: string, p: int)
    requires Parse(startIp).Some? && 0 <= p <= 32
    ensures GuessGateway(startIp, p)
      == Some(Format(Hosts(NetworkContaining(Parse(startIp).value, p))[0]))
    ensures Hosts(NetworkContaining(Parse(startIp).value, p))[0]
      == NetworkOf(Parse(startIp).value, p) + (if p <= 30 then 1 else 0)
  {
    var a := Parse(startIp).value;
    PrefixTextOfInt(p);
    ParseNetworkOf(startIp, IntToString(p));
    FirstHostIsLeast(NetworkContaining(a, p));
  }

  /** The first element of the host list is the least host of the network. */
  lemma FirstHostIsLeast(n: Network)
    requires n.Valid() && n.addr + BlockSize(n.prefix) <= AddrSpace
    ensures Hosts(n)[0] == n.addr + (if n.prefix <= 30 then 1 else 0)
    ensures forall h :: h in Hosts(n) ==> Hosts(n)[0] <= h
  {
    var hs := Hosts(n);
    forall h | h in hs ensures hs[0] <= h {
      var k :| 0 <= k < |hs| && hs[k] == h;
      if k > 0 {
        assert hs[0] < hs[k];
      }
    }
  }

  /** An unparsable start address or a prefix outside 0..32 raises. */
  lemma GuessGatewayFails(startIp: string, p: int)
    requires Parse(startIp).None? || !(0 <= p <= 32)
    ensures GuessGateway(startIp, p).None?
  {
    PrefixTextOfInt(p);
    ParseNetworkRejects(startIp, IntToString(p));
  }
}
