/*
 * app_net_utils_str_to_addr of src/app-net-utils.c: text of the form
 * "[ADDRESS:]PORT" into an IPv4 socket address. The input is cut to the 255
 * characters of a local copy, split at its last ':', the port must be a
 * decimal number in 1..65535 that uses up the whole port text, and the
 * address is resolved as a dotted quad or else as a host name. Resolution is
 * outside the model and given as a parameter.
 */
module NetUtils {
  import opened Common
  import opened CLib

  /** The two values of app_result_t this function returns. */
  datatype AppResult = Ok | InvalidArg

  /** Size of the local copy, terminator included. */
  const STR_COPY_SIZE: nat := 256
  const AF_INET: int := 2
  const MAX_PORT: nat := 65535

  /**
   * Name resolution: `pton` stands for inet_pton on a dotted quad, `byName` for
   * gethostbyname; each yields the IPv4 address in network byte order, or
   * nothing when it fails.
   */
  datatype Resolver = Resolver(pton: string -> Option<bv32>, byName: string -> Option<bv32>)

  /** inet_pton first; only when it fails, gethostbyname. */
  function Resolve(r: Resolver, address: string): Option<bv32> {
    if r.pton(address).Some? then r.pton(address) else r.byName(address)
  }

  /** What the parse yields: the port number and the resolved address. */
  datatype Endpoint = Endpoint(port: nat, ip: bv32)

  /** The contents of the local copy: strncpy keeps at most 255 characters. */
  function Truncated(s: string): (r: string)
    ensures r <= s && |r| < STR_COPY_SIZE
    ensures |s| < STR_COPY_SIZE ==> r == s
  {
    if |s| < STR_COPY_SIZE then s else s[..STR_COPY_SIZE - 1]
  }

  /** strrchr: the position of the last `c` in `s`, if any. */
  function LastIndexOf(s: string, c: char): (r: Option<nat>)
    ensures r.Some? ==> r.value < |s| && s[r.value] == c && c !in s[r.value + 1..]
    ensures r.None? ==> c !in s
    decreases |s|
  {
    if s == [] then None
    else if s[|s| - 1] == c then Some(|s| - 1)
    else
      var r := LastIndexOf(s[..|s| - 1], c);
      assert r.Some? ==> s[r.value + 1..] == s[..|s| - 1][r.value + 1..] + [s[|s| - 1]];
      assert r.None? ==> s == s[..|s| - 1] + [s[|s| - 1]];
      r
  }

  /** The address text and the port text. */
  datatype Split = Split(address: string, port: string)

  /**
   * The copy split at its last ':' (the ':' becomes the terminator of the
   * address); without a ':' the whole copy is the port and the default
   * address is used, and without a default there is nothing to parse.
   */
  function SplitAddress(copy: string, defaultAddress: Option<string>): (r: Option<Split>)
    ensures r.None? <==> ':' !in copy && defaultAddress.None?
    ensures r.Some? ==> ':' !in r.value.port
    ensures r.Some? && ':' in copy ==> copy == r.value.address + [':'] + r.value.port
    ensures r.Some? && ':' !in copy ==> r.value == Split(defaultAddress.value, copy)
  {
    match LastIndexOf(copy, ':')
    case Some(k) =>
      assert copy == copy[..k] + [':'] + copy[k + 1..];
      Some(Split(copy[..k], copy[k + 1..]))
    case None =>
      if defaultAddress.Some? then Some(Split(defaultAddress.value, copy)) else None
  }

  /**
   * The port check with the result of strtol kept in a `long`: the whole text
   * is consumed and the value lies in 1..65535.
   */
  function Port(text: string): (r: Option<nat>)
    ensures r.Some? ==> 1 <= r.value <= MAX_PORT
    ensures r.Some? ==> FullyParsed(text, Strtol(text, 10)) && r.value == Strtol(text, 10).value
  {
    var p := Strtol(text, 10);
    if p.end != |text| || p.value < 1 || p.value > MAX_PORT then None else Some(p.value)
  }

  /**
   * The port check as written: strtol's `long` result is stored in an `int`
   * before the range check, so a value that wraps into 1..65535 passes.
   */
  function PortAsWritten(text: string): (r: Option<nat>)
    ensures r.Some? ==> 1 <= r.value <= MAX_PORT
  {
    var p := Strtol(text, 10);
    var port := ToInt(p.value);
    if p.end != |text| || port < 1 || port > MAX_PORT then None else Some(port)
  }

  /**
   * The result of app_net_utils_str_to_addr, None where it returns
   * APP_RESULT_INVALID_ARG; `asWritten` selects the port check the source
   * makes (PortAsWritten) instead of the intended one (Port).
   */
  function ParseWith(s: string, defaultAddress: Option<string>, resolver: Resolver, asWritten: bool): (r: Option<Endpoint>)
    ensures r.Some? ==> 1 <= r.value.port <= MAX_PORT
  {
    ParseCopy(Truncated(s), defaultAddress, resolver, asWritten)
  }

  /** The parse of the local copy: split at the last ':', check the port, resolve the address. */
  function ParseCopy(copy: string, defaultAddress: Option<string>, resolver: Resolver, asWritten: bool): (r: Option<Endpoint>)
    ensures r.Some? ==> 1 <= r.value.port <= MAX_PORT
  {
    var split := SplitAddress(copy, defaultAddress);
    if split.None? then None
    else
      var port := if asWritten then PortAsWritten(split.value.port) else Port(split.value.port);
      if port.None? then None
      else
        var ip := Resolve(resolver, split.value.address);
        if ip.None? then None else Some(Endpoint(port.value, ip.value))
  }

  /** The parse with the intended port check, the one the rest of the model uses. */
  function Parse(s: string, defaultAddress: Option<string>, resolver: Resolver): (r: Option<Endpoint>)
    ensures r.Some? ==> 1 <= r.value.port <= MAX_PORT
  {
    ParseWith(s, defaultAddress, resolver, false)
  }

  /** The 16-bit value `v` with its two bytes swapped. */
  function ByteSwap(v: nat): (r: nat)
    requires v <= MAX_PORT
    ensures r <= MAX_PORT
  {
    (v % 256) * 256 + v / 256
  }

  /** htons on the little-endian x86-64 target: the port's two bytes swap places. */
  function Htons(port: nat): (v: nat)
    requires port <= MAX_PORT
    ensures v <= MAX_PORT
  {
    ByteSwap(port)
  }

  /** ntohs: the same swap read the other way. */
  function Ntohs(v: nat): (port: nat)
    requires v <= MAX_PORT
    ensures port <= MAX_PORT
  {
    ByteSwap(v)
  }

  /** Network byte order is reversible: ntohs gives back the port htons stored, and distinct ports stay distinct. */
  lemma NtohsHtons(port: nat, other: nat)
    requires port <= MAX_PORT && other <= MAX_PORT
    ensures Ntohs(Htons(port)) == port
    ensures Htons(port) == Htons(other) ==> port == other
  {
    var lo, hi := port % 256, port / 256;
    assert Htons(port) == lo * 256 + hi;
    assert (lo * 256 + hi) % 256 == hi && (lo * 256 + hi) / 256 == lo;
    var lo', hi' := other % 256, other / 256;
    assert (lo' * 256 + hi') % 256 == hi' && (lo' * 256 + hi') / 256 == lo';
  }

  /** Every decimal spelling of a port in 1..65535 is accepted and read back exactly. */
  lemma PortOfDecimal(n: nat)
    requires 1 <= n <= MAX_PORT
    ensures Port(Decimal(n)) == Some(n)
    ensures PortAsWritten(Decimal(n)) == Some(n)
  {
    DecimalRoundTrip(n, 10);
  }

  /** Nothing after the ':' reads as port 0, which is rejected ("host:"). */
  lemma EmptyPortRejected()
    ensures Port("") == None && PortAsWritten("") == None
  {
    assert Strtol("", 10).value == 0;
  }

  /** The port is whatever follows the last ':', so an address may itself contain ':' ("a:b:80" has address "a:b"). */
  lemma {:induction false} SplitsAtLastColon(address: string, port: string, defaultAddress: Option<string>)
    requires ':' !in port
    ensures SplitAddress(address + [':'] + port, defaultAddress) == Some(Split(address, port))
  {
    var s := address + [':'] + port;
    assert s[|address|] == ':';
    var k := LastIndexOf(s, ':').value;
    assert k == |address|;
    assert s[..k] == address && s[k + 1..] == port;
  }

  /**
   * Without a ':' the whole text is the port and the default address is used;
   * without a default address the call fails whatever the text.
   */
  lemma DefaultAddressUsed(s: string, defaultAddress: Option<string>, resolver: Resolver)
    requires |s| < STR_COPY_SIZE && ':' !in s
    ensures defaultAddress.None? ==> Parse(s, defaultAddress, resolver) == None
    ensures defaultAddress.Some? ==>
      var ip := Resolve(resolver, defaultAddress.value);
      Parse(s, defaultAddress, resolver) == (if Port(s).Some? && ip.Some? then Some(Endpoint(Port(s).value, ip.value)) else None)
  {
  }

  /**
   * Round trip: "ADDRESS:PORT" built from an address the resolver knows and
   * the decimal spelling of a valid port parses back to that port and the
   * resolved address, whatever the default.
   */
  lemma ParseRoundTrip(address: string, port: nat, defaultAddress: Option<string>, resolver: Resolver)
    requires 1 <= port <= MAX_PORT
    requires |address| + 1 + |Decimal(port)| < STR_COPY_SIZE
    requires Resolve(resolver, address).Some?
    ensures Parse(address + [':'] + Decimal(port), defaultAddress, resolver) ==
      Some(Endpoint(port, Resolve(resolver, address).value))
  {
    var s := address + [':'] + Decimal(port);
    SplitsAtLastColon(address, Decimal(port), defaultAddress);
    PortOfDecimal(port);
    assert Truncated(s) == s;
    assert ParseCopy(s, defaultAddress, resolver, false) == Some(Endpoint(port, Resolve(resolver, address).value));
  }

  /** An address neither inet_pton nor gethostbyname can resolve is rejected. */
  lemma UnresolvableRejected(address: string, portText: string, defaultAddress: Option<string>, resolver: Resolver)
    requires ':' !in portText && |address| + 1 + |portText| < STR_COPY_SIZE
    requires resolver.pton(address).None? && resolver.byName(address).None?
    ensures Parse(address + [':'] + portText, defaultAddress, resolver) == None
  {
    SplitsAtLastColon(address, portText, defaultAddress);
  }

  /** Only the first 255 characters are looked at: anything after them changes nothing. */
  lemma OnlyCopyIsRead(s: string, tail: string, defaultAddress: Option<string>, resolver: Resolver)
    requires |s| >= STR_COPY_SIZE - 1
    ensures Parse(s + tail, defaultAddress, resolver) == Parse(s, defaultAddress, resolver)
  {
    assert Truncated(s + tail) == Truncated(s);
  }

  /**
   * As written, a port text whose value is a valid port plus any multiple of
   * 2^32 is accepted as that port, while the check on the `long` value
   * rejects it.
   */
  lemma {:induction false} PortWrapsAsWritten(port: nat, k: nat)
    requires 1 <= port <= MAX_PORT && 1 <= k
    requires port + k * 0x1_0000_0000 <= LONG_MAX
    ensures PortAsWritten(Decimal(port + k * 0x1_0000_0000)) == Some(port)
    ensures Port(Decimal(port + k * 0x1_0000_0000)) == None
  {
    var v := port + k * 0x1_0000_0000;
    DecimalRoundTrip(v, 10);
    assert ToInt(v) == port by {
      ModMultiple(port - INT_MIN, k);
      assert v - INT_MIN == (port - INT_MIN) + k * 0x1_0000_0000;
    }
    assert v > MAX_PORT;
  }

  /** Adding whole multiples of 2^32 does not change the remainder modulo 2^32. */
  lemma {:induction false} ModMultiple(a: nat, k: nat)
    requires a < 0x1_0000_0000
    ensures (a + k * 0x1_0000_0000) % 0x1_0000_0000 == a
  {
    if k > 0 {
      ModMultiple(a, k - 1);
      assert a + k * 0x1_0000_0000 == (a + (k - 1) * 0x1_0000_0000) + 0x1_0000_0000;
    }
  }

  /**
   * As written, "ADDRESS:PORT" whose port text is a valid port plus a multiple
   * of 2^32 binds that port, while the intended check rejects the text.
   */
  lemma WrappedPortAcceptedAsWritten(address: string, port: nat, k: nat, defaultAddress: Option<string>, resolver: Resolver)
    requires 1 <= port <= MAX_PORT && 1 <= k
    requires port + k * 0x1_0000_0000 <= LONG_MAX
    requires |address| + 1 + |Decimal(port + k * 0x1_0000_0000)| < STR_COPY_SIZE
    requires Resolve(resolver, address).Some?
    ensures var s := address + [':'] + Decimal(port + k * 0x1_0000_0000);
      && ParseWith(s, defaultAddress, resolver, true) == Some(Endpoint(port, Resolve(resolver, address).value))
      && Parse(s, defaultAddress, resolver) == None
  {
    PortWrapsAsWritten(port, k);
    SplitsAtLastColon(address, Decimal(port + k * 0x1_0000_0000), defaultAddress);
  }

  /** The smallest instance: "127.0.0.1:4294967376" (2^32 + 80) binds port 80 as written and is rejected as intended. */
  lemma PortTruncationExample(resolver: Resolver, ip: bv32)
    requires Resolve(resolver, "127.0.0.1") == Some(ip)
    ensures PortAsWritten("4294967376") == Some(80) && Port("4294967376") == None
    ensures ParseWith("127.0.0.1" + ":" + "4294967376", None, resolver, true) == Some(Endpoint(80, ip))
    ensures Parse("127.0.0.1" + ":" + "4294967376", None, resolver) == None
  {
    SpelledOut();
    PortWrapsAsWritten(80, 1);
    WrappedPortAcceptedAsWritten("127.0.0.1", 80, 1, None, resolver);
  }

  /** 2^32 + 80 in decimal. */
  lemma SpelledOut()
    ensures Decimal(0x1_0000_0050) == "4294967376"
  {
    assert Decimal(4) == "4";
    assert Decimal(42) == "42";
    assert Decimal(429) == "429";
    assert Decimal(4294) == "4294";
    assert Decimal(42949) == "42949";
    assert Decimal(429496) == "429496";
    assert Decimal(4294967) == "4294967";
    assert Decimal(42949673) == "42949673";
    assert Decimal(429496737) == "429496737";
  }

  /** The contents of a struct sockaddr_in: family, port in network byte order, IPv4 address. */
  datatype Address = Address(family: int, port: nat, ip: bv32)

  /** What app_net_utils_str_to_addr leaves in a structure holding `a`, given the parse result. */
  function Stored(a: Address, r: Option<Endpoint>): (a': Address)
    requires r.Some? ==> r.value.port <= MAX_PORT
    ensures r.None? ==> a' == a
    ensures r.Some? ==> a'.family == AF_INET && a'.ip == r.value.ip && a'.port <= MAX_PORT
  {
    match r
    case None => a
    case Some(e) => Address(AF_INET, Htons(e.port), e.ip)
  }

  /** A stored structure gives back the parsed port through ntohs, and distinct ports are stored differently. */
  lemma StoredPortReadsBack(a: Address, e: Endpoint, e': Endpoint)
    requires e.port <= MAX_PORT && e'.port <= MAX_PORT
    ensures Ntohs(Stored(a, Some(e)).port) == e.port
    ensures Stored(a, Some(e)).port == Stored(a, Some(e')).port ==> e.port == e'.port
  {
    NtohsHtons(e.port, e'.port);
  }

  /** A struct sockaddr_in in memory, written in place. */
  class SockAddr {
    var family: int
    var port: nat
    var ip: bv32

    /** A zero-filled structure, as static storage starts out. */
    constructor Zeroed()
      ensures Value() == Address(0, 0, 0)
    {
      family, port, ip := 0, 0, 0;
    }

    function Value(): Address
      reads this
    {
      Address(family, port, ip)
    }
  }

  /**
   * app_net_utils_str_to_addr: on success the structure is zeroed and filled
   * with AF_INET, the port in network byte order and the resolved address; on
   * failure it is not written.
   */
  method StrToAddr(dest: SockAddr, s: string, defaultAddress: Option<string>, resolver: Resolver) returns (result: AppResult)
    modifies dest
    ensures result == Ok <==> Parse(s, defaultAddress, resolver).Some?
    ensures result == InvalidArg ==> unchanged(dest)
    ensures dest.Value() == Stored(old(dest.Value()), Parse(s, defaultAddress, resolver))
  {
    var copy := Truncated(s);
    var split := SplitAddress(copy, defaultAddress);
    if split.None? {
      return InvalidArg;
    }
    var port := Port(split.value.port);
    if port.None? {
      return InvalidArg;
    }
    var ip := Resolve(resolver, split.value.address);
    if ip.None? {
      return InvalidArg;
    }
    assert ParseCopy(copy, defaultAddress, resolver, false) == Some(Endpoint(port.value, ip.value));
    assert Parse(s, defaultAddress, resolver) == Some(Endpoint(port.value, ip.value));
    dest.family, dest.port, dest.ip := 0, 0, 0;
    dest.family := AF_INET;
    dest.port := Htons(port.value);
    dest.ip := ip.value;
    return Ok;
  }
}
