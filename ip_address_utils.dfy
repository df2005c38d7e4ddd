/** IP address utilities: address families, the family comparators, the total
    ordering with its unsigned byte-wise tiebreak, and name resolution over an
    abstract name service. */
module IpAddressUtils {
  import opened Wrappers

  /** A Java `byte`: signed, from -128 to 127. */
  type Byte = b: int | -128 <= b < 128

  /** `Byte.toUnsignedInt`: the byte read as a value from 0 to 255. */
  function ToUnsignedInt(b: Byte): (u: int)
    ensures 0 <= u < 256
    ensures u % 256 == b % 256
  {
    if b < 0 then b + 256 else b
  }

  /** What `InetAddress.getAddress()` returns, tagged with the address's class
      (`Inet4Address` or `Inet6Address`). */
  datatype Address = V4(bytes: seq<Byte>) | V6(bytes: seq<Byte>)

  /** An IPv4 address has 32 bits (RFC 791 section 3.1), an IPv6 address 128 bits
      (RFC 4291 section 2). The family is the constructor, never the text. */
  type IpAddress = a: Address | (a.V4? ==> |a.bytes| == 4) && (a.V6? ==> |a.bytes| == 16)
    witness V4([0, 0, 0, 0])

  /** The text PAC helpers fall back to when no local address can be found. */
  const LOCALHOST: string := "127.0.0.1"

  /** A comparator in Java's convention: negative, zero or positive. */
  type Comparator = (IpAddress, IpAddress) -> int

  /** `IPv6_FIRST_COMPARATOR`: orders by family only, IPv6 before IPv4. */
  function IPv6FirstCompare(a1: IpAddress, a2: IpAddress): (r: int)
    ensures r == -1 <==> a1.V6? && a2.V4?
    ensures r == 1 <==> a1.V4? && a2.V6?
    ensures r == 0 <==> a1.V4? == a2.V4?
  {
    if a1.V4? && a2.V6? then 1
    else if a1.V6? && a2.V4? then -1
    else 0
  }

  /** `IPv4_FIRST_COMPARATOR`: orders by family only, IPv4 before IPv6. */
  function IPv4FirstCompare(a1: IpAddress, a2: IpAddress): (r: int)
    ensures r == -1 <==> a1.V4? && a2.V6?
    ensures r == 1 <==> a1.V6? && a2.V4?
    ensures r == 0 <==> a1.V4? == a2.V4?
  {
    if a1.V4? && a2.V6? then -1
    else if a1.V6? && a2.V4? then 1
    else 0
  }

  /** The IPv4-first comparator is the IPv6-first one turned around. */
  lemma IPv4FirstIsReversedIPv6First(a1: IpAddress, a2: IpAddress)
    ensures IPv4FirstCompare(a1, a2) == -IPv6FirstCompare(a1, a2)
    ensures IPv4FirstCompare(a1, a2) == IPv6FirstCompare(a2, a1)
  {
  }

  /** `addressComparator(preferIPv6Addresses)`. */
  function AddressComparator(preferIPv6: bool): (cmp: Comparator)
    ensures preferIPv6 ==> cmp == IPv6FirstCompare
    ensures !preferIPv6 ==> cmp == IPv4FirstCompare
  {
    if preferIPv6 then IPv6FirstCompare else IPv4FirstCompare
  }

  /** The comparison `compareByteByByte` computes: unsigned, most significant byte
      first, over the length of the first array, the first differing byte decides. */
  function ByteOrder(b1: seq<Byte>, b2: seq<Byte>): (r: int)
    requires |b1| <= |b2|
    ensures -1 <= r <= 1
  {
    if |b1| == 0 then 0
    else if ToUnsignedInt(b1[0]) == ToUnsignedInt(b2[0]) then ByteOrder(b1[1..], b2[1..])
    else if ToUnsignedInt(b1[0]) < ToUnsignedInt(b2[0]) then -1
    else 1
  }

  /** `compareByteByByte(a1, a2)`: the loop runs over the bytes of `a1` and reads the
      same position of `a2`, so `a2` must be at least as long (its callers compare
      addresses of one family). */
  method CompareByteByByte(a1: IpAddress, a2: IpAddress) returns (r: int)
    requires |a1.bytes| <= |a2.bytes|
    ensures r == ByteOrder(a1.bytes, a2.bytes)
    ensures -1 <= r <= 1
  {
    var bArr1, bArr2 := a1.bytes, a2.bytes;
    var i := 0;
    while i < |bArr1|
      invariant 0 <= i <= |bArr1|
      invariant ByteOrder(bArr1, bArr2) == ByteOrder(bArr1[i..], bArr2[i..])
    {
      var x1 := ToUnsignedInt(bArr1[i]);
      var x2 := ToUnsignedInt(bArr2[i]);
      assert bArr1[i..][1..] == bArr1[i + 1..] && bArr2[i..][1..] == bArr2[i + 1..];
      if x1 == x2 {
        i := i + 1;
        continue;
      }
      if x1 < x2 {
        return -1;
      } else {
        return 1;
      }
    }
    return 0;
  }

  /** The comparison is decided by the first position where the bytes differ. */
  lemma {:induction false} ByteOrderFirstDifference(b1: seq<Byte>, b2: seq<Byte>, k: nat)
    requires |b1| <= |b2| && k < |b1|
    requires b1[..k] == b2[..k] && b1[k] != b2[k]
    ensures ByteOrder(b1, b2) == if ToUnsignedInt(b1[k]) < ToUnsignedInt(b2[k]) then -1 else 1
  {
    if k > 0 {
      assert b1[0] == b1[..k][0] && b2[0] == b2[..k][0];
      assert b1[1..][..k - 1] == b1[..k][1..] && b2[1..][..k - 1] == b2[..k][1..];
      ByteOrderFirstDifference(b1[1..], b2[1..], k - 1);
    }
  }

  /** The comparison is zero exactly when the first array is a prefix of the second;
      for arrays of one length, exactly when they are equal. */
  lemma {:induction false} ByteOrderZeroIffPrefix(b1: seq<Byte>, b2: seq<Byte>)
    requires |b1| <= |b2|
    ensures ByteOrder(b1, b2) == 0 <==> b1 == b2[..|b1|]
  {
    if |b1| > 0 {
      ByteOrderZeroIffPrefix(b1[1..], b2[1..]);
      assert b1 == [b1[0]] + b1[1..];
      assert b2[..|b1|] == [b2[0]] + b2[1..][..|b1| - 1];
    }
  }

  /** Swapping the arguments negates the comparison. */
  lemma {:induction false} ByteOrderAntisymmetric(b1: seq<Byte>, b2: seq<Byte>)
    requires |b1| == |b2|
    ensures ByteOrder(b1, b2) == -ByteOrder(b2, b1)
  {
    if |b1| > 0 {
      ByteOrderAntisymmetric(b1[1..], b2[1..]);
    }
  }

  /** "Not after" is transitive. */
  lemma {:induction false} ByteOrderTransitive(b1: seq<Byte>, b2: seq<Byte>, b3: seq<Byte>)
    requires |b1| == |b2| == |b3|
    requires ByteOrder(b1, b2) <= 0 && ByteOrder(b2, b3) <= 0
    ensures ByteOrder(b1, b3) <= 0
  {
    if |b1| > 0 && ToUnsignedInt(b1[0]) == ToUnsignedInt(b2[0]) == ToUnsignedInt(b3[0]) {
      ByteOrderTransitive(b1[1..], b2[1..], b3[1..]);
    }
  }

  /** `IPv6_FIRST_TOTAL_ORDERING_COMPARATOR`: family first (IPv6 before IPv4), then
      the bytes. */
  function TotalOrderCompare(a1: IpAddress, a2: IpAddress): (r: int)
    ensures -1 <= r <= 1
  {
    var compareByType := IPv6FirstCompare(a1, a2);
    if compareByType == 0 then ByteOrder(a1.bytes, a2.bytes) else compareByType
  }

  /** Family dominates: every IPv6 address comes before every IPv4 address, whatever
      their bytes; within one family the unsigned bytes decide. */
  lemma TotalOrderFamilyFirst(a1: IpAddress, a2: IpAddress)
    ensures a1.V6? && a2.V4? ==> TotalOrderCompare(a1, a2) == -1
    ensures a1.V4? && a2.V6? ==> TotalOrderCompare(a1, a2) == 1
    ensures a1.V4? == a2.V4? ==> TotalOrderCompare(a1, a2) == ByteOrder(a1.bytes, a2.bytes)
  {
  }

  /** The total ordering is zero only for identical family and bytes. */
  lemma TotalOrderZeroIffEqual(a1: IpAddress, a2: IpAddress)
    ensures TotalOrderCompare(a1, a2) == 0 <==> a1 == a2
  {
    if a1.V4? == a2.V4? {
      ByteOrderZeroIffPrefix(a1.bytes, a2.bytes);
      assert a2.bytes[..|a1.bytes|] == a2.bytes;
    }
  }

  /** The total ordering is antisymmetric. */
  lemma TotalOrderAntisymmetric(a1: IpAddress, a2: IpAddress)
    ensures TotalOrderCompare(a1, a2) == -TotalOrderCompare(a2, a1)
  {
    if a1.V4? == a2.V4? {
      ByteOrderAntisymmetric(a1.bytes, a2.bytes);
    }
  }

  /** The total ordering is transitive. */
  lemma TotalOrderTransitive(a1: IpAddress, a2: IpAddress, a3: IpAddress)
    requires TotalOrderCompare(a1, a2) <= 0 && TotalOrderCompare(a2, a3) <= 0
    ensures TotalOrderCompare(a1, a3) <= 0
  {
    if a1.V4? == a2.V4? == a3.V4? {
      ByteOrderTransitive(a1.bytes, a2.bytes, a3.bytes);
    }
  }

  /** Any two addresses are comparable one way or the other. */
  lemma TotalOrderTotal(a1: IpAddress, a2: IpAddress)
    ensures TotalOrderCompare(a1, a2) <= 0 || TotalOrderCompare(a2, a1) <= 0
  {
    TotalOrderAntisymmetric(a1, a2);
  }

  /** The class test `a.getClass() == Inet4Address.class` used as a resolution filter. */
  predicate IsV4(a: IpAddress)
  {
    a.V4?
  }

  /** What `java.net.InetAddress` learns about a host string. `parseLiteral` is
      `InetAddressValidator.isValid` together with the parse of a literal (no DNS);
      `lookup` is `InetAddress.getAllByName` for a name, `None` when it throws
      `UnknownHostException`. */
  datatype NameService = NameService(
    parseLiteral: string -> Option<IpAddress>,
    lookup: string -> Option<seq<IpAddress>>)

  /** `InetAddress.getAllByName`: a literal stands for itself, a name goes to DNS. */
  function GetAllByName(ns: NameService, host: string): Option<seq<IpAddress>>
  {
    match ns.parseLiteral(host)
    case Some(a) => Some([a])
    case None => ns.lookup(host)
  }

  /** `InetAddress.getByName`: the first of `getAllByName`. */
  function GetByName(ns: NameService, host: string): (r: Option<IpAddress>)
    ensures r.Some? <==> GetAllByName(ns, host).Some? && |GetAllByName(ns, host).value| > 0
    ensures r.Some? ==> r.value == GetAllByName(ns, host).value[0]
  {
    match GetAllByName(ns, host)
    case Some(all) => if |all| > 0 then Some(all[0]) else None
    case None => None
  }

  /** The addresses of `s` that `keep` accepts, in their order (`Stream.filter`). */
  function Filter(s: seq<IpAddress>, keep: IpAddress -> bool): (r: seq<IpAddress>)
    ensures |r| <= |s|
    ensures forall a :: a in r <==> a in s && keep(a)
  {
    if |s| == 0 then []
    else (if keep(s[0]) then [s[0]] else []) + Filter(s[1..], keep)
  }

  /** Filtering a concatenation filters each part. */
  lemma {:induction false} FilterAppend(s: seq<IpAddress>, t: seq<IpAddress>, keep: IpAddress -> bool)
    ensures Filter(s + t, keep) == Filter(s, keep) + Filter(t, keep)
  {
    if |s| > 0 {
      assert (s + t)[1..] == s[1..] + t;
      FilterAppend(s[1..], t, keep);
    } else {
      assert s + t == t;
    }
  }

  /** `resolve(host, filter)`, `filter == None` standing for Java's `null`
      (no filtering). `None` is the `UnknownHostException`. */
  function Resolve(ns: NameService, host: string, filter: Option<IpAddress -> bool>): (r: Option<seq<IpAddress>>)
    ensures ns.parseLiteral(host).Some? ==> r.Some? && |r.value| <= 1
    ensures r.Some? ==> (GetAllByName(ns, host).Some? &&
      forall k :: 0 <= k < |r.value| ==> r.value[k] in GetAllByName(ns, host).value)
    ensures r.Some? && filter.Some? ==> forall k :: 0 <= k < |r.value| ==> filter.value(r.value[k])
  {
    match ns.parseLiteral(host)
    case Some(addr) =>
      if filter.None? || filter.value(addr) then Some([addr]) else Some([])
    case None =>
      match ns.lookup(host)
      case None => None
      case Some(ipAddresses) =>
        if filter.None? then Some(ipAddresses) else Some(Filter(ipAddresses, filter.value))
  }

  /** For a literal, `resolve` never fails and gives that address exactly when the
      filter accepts it. */
  lemma ResolveLiteral(ns: NameService, host: string, filter: Option<IpAddress -> bool>)
    requires ns.parseLiteral(host).Some?
    ensures var addr := ns.parseLiteral(host).value;
      Resolve(ns, host, filter) == Some(if filter.None? || filter.value(addr) then [addr] else [])
  {
  }

  /** In every case `resolve` is `getAllByName` followed by the filter: the literal
      short-cut agrees with the full lookup, the filtered results keep their order,
      and a lookup failure is the only failure. */
  lemma ResolveIsFilteredLookup(ns: NameService, host: string, filter: Option<IpAddress -> bool>)
    ensures Resolve(ns, host, filter).None? <==> GetAllByName(ns, host).None?
    ensures GetAllByName(ns, host).Some? ==>
      Resolve(ns, host, filter).value ==
        if filter.None? then GetAllByName(ns, host).value else Filter(GetAllByName(ns, host).value, filter.value)
  {
    match ns.parseLiteral(host)
    case Some(addr) =>
      if filter.Some? {
        assert Filter([addr], filter.value) == (if filter.value(addr) then [addr] else []) + Filter([], filter.value);
      }
    case None =>
  }

  /** The position of the first IPv4 address in `s`, or -1. */
  function FirstV4Index(s: seq<IpAddress>): (i: int)
    ensures -1 <= i < |s|
    ensures i == -1 <==> forall k :: 0 <= k < |s| ==> !s[k].V4?
    ensures 0 <= i ==> s[i].V4? && forall k :: 0 <= k < i ==> !s[k].V4?
  {
    if |s| == 0 then -1
    else if s[0].V4? then 0
    else
      var j := FirstV4Index(s[1..]);
      if j == -1 then -1 else j + 1
  }

  /** `PRIMARY_IPv4_ADDRESS`: the first IPv4 address among all primary addresses
      (`None` for `ALL_PRIMARY_ADDRESSES` failing). It fails when the primary
      addresses fail or hold no IPv4 address. */
  function PrimaryIPv4Address(allPrimary: Option<seq<IpAddress>>): (r: Option<IpAddress>)
    ensures r.None? <==> allPrimary.None? || forall k :: 0 <= k < |allPrimary.value| ==> !allPrimary.value[k].V4?
    ensures r.Some? ==> FirstV4Index(allPrimary.value) >= 0
    ensures r.Some? ==> r.value == allPrimary.value[FirstV4Index(allPrimary.value)]
  {
    match allPrimary
    case None => None
    case Some(addresses) =>
      var i := FirstV4Index(addresses);
      if i < 0 then None else Some(addresses[i])
  }
}
