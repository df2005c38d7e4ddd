/** The PAC helper functions of `DefaultPacHelperMethods`: Netscape's original set
    and Microsoft's IPv6-aware additions. A resolution failure becomes `false`,
    `null` (`None`), `""` or the loopback text. */
module DefaultPacHelperMethods {
  import opened Wrappers
  import opened JavaStrings
  import opened IpAddressUtils
  import opened AddressSort

  /** What the helpers see of the outside world: the name service, the text form of
      an address (`InetAddress.getHostAddress`), the primary addresses of this host
      (`ALL_PRIMARY_ADDRESSES.get()`, `None` when it throws) and the configured
      family preference (`systemConfig.isPreferIPv6Addresses()`). */
  datatype PacEnvironment = PacEnvironment(
    ns: NameService,
    hostAddress: IpAddress -> string,
    allPrimaryAddresses: Option<seq<IpAddress>>,
    preferIPv6: bool)

  // ---------------------------------------------------------------------------
  // Host name predicates
  // ---------------------------------------------------------------------------

  /** `isPlainHostName`: the host has no dot. */
  function IsPlainHostName(host: string): (r: bool)
    ensures r <==> forall k :: 0 <= k < |host| ==> host[k] != '.'
  {
    !('.' in host)
  }

  /** `dnsDomainLevels`: the number of dots in the host. */
  function DnsDomainLevels(host: string): (n: nat)
    ensures n == multiset(host)['.']
  {
    CountMatches(host, '.')
  }

  /** A host is plain exactly when it has no domain levels. */
  lemma PlainHostHasNoLevels(host: string)
    ensures IsPlainHostName(host) <==> DnsDomainLevels(host) == 0
  {
  }

  /** `dnsDomainIs`: compares `domain` with the host from its first dot, and with the
      host just after its first dot; never true when the host has no dot before its
      last character. */
  function DnsDomainIs(host: string, domain: string): (r: bool)
    ensures (forall p :: 0 <= p < |host| - 1 ==> host[p] != '.') ==> !r
    ensures forall p :: 0 <= p < |host| - 1 && host[p] == '.' && '.' !in host[..p] ==>
      (r <==> domain == host[p..] || domain == host[p + 1..])
  {
    var dotPos := IndexOf(host, '.');
    if dotPos != -1 && dotPos < |host| - 1 then
      if host[dotPos..] == domain then true
      else host[dotPos + 1..] == domain
    else false
  }

  /** A matching domain is always a non-empty suffix of the host that starts with a
      dot or just after one. */
  lemma DnsDomainIsSuffix(host: string, domain: string)
    requires DnsDomainIs(host, domain)
    ensures 0 < |domain| <= |host|
    ensures host[|host| - |domain|..] == domain
    ensures domain[0] == '.' || (|domain| < |host| && host[|host| - |domain| - 1] == '.')
  {
    var p := IndexOf(host, '.');
    if host[p..] != domain {
      assert host[p + 1..] == domain;
    }
  }

  /** A domain from the host's first dot matches. */
  lemma DnsDomainIsExample()
    ensures DnsDomainIs("www.x.com", ".x.com")
  {
    IndexOfFirst("www.x.com", '.', 3);
    assert "www.x.com"[3..] == ".x.com";
  }

  /** Only the first dot counts: a host with two labels before the domain does not
      match it, unlike a plain suffix test. */
  lemma DnsDomainIsFirstDotOnly()
    ensures !DnsDomainIs("a.www.x.com", ".x.com")
  {
    IndexOfFirst("a.www.x.com", '.', 1);
    assert |"a.www.x.com"[1..]| != |".x.com"|;
    assert |"a.www.x.com"[2..]| != |".x.com"|;
  }

  /** The first element of `parts` that is not empty (`filter(isNotEmpty).findFirst()`). */
  function FirstNonEmpty(parts: seq<string>): (r: Option<string>)
    ensures r.None? <==> forall k :: 0 <= k < |parts| ==> parts[k] == ""
    ensures r.Some? ==> r.value != ""
    ensures r.Some? ==> exists i :: 0 <= i < |parts| && parts[i] == r.value && forall k :: 0 <= k < i ==> parts[k] == ""
  {
    if |parts| == 0 then None
    else if parts[0] != "" then Some(parts[0])
    else
      assert forall k :: 0 <= k < |parts| - 1 ==> parts[1..][k] == parts[k + 1];
      FirstNonEmpty(parts[1..])
  }

  /** The first non-empty dot-separated label of `s`, read straight off the text:
      skip the leading dots, then take everything up to the next dot. */
  function FirstLabel(s: string): (r: Option<string>)
    ensures r.Some? ==> r.value != "" && '.' !in r.value
  {
    if |s| == 0 then None
    else if s[0] == '.' then FirstLabel(s[1..])
    else
      var end := IndexOf(s, '.');
      Some(if end == -1 then s else s[..end])
  }

  lemma {:induction false} FirstNonEmptyDropTrailing(parts: seq<string>)
    ensures FirstNonEmpty(DropTrailingEmpty(parts)) == FirstNonEmpty(parts)
  {
    var kept := DropTrailingEmpty(parts);
    if |parts| > 0 && |kept| > 0 {
      assert kept[0] == parts[0];
      if parts[0] == "" {
        assert DropTrailingEmpty(parts[1..]) == kept[1..] by {
          DropTrailingEmptyTail(parts);
        }
        FirstNonEmptyDropTrailing(parts[1..]);
      }
    } else if |parts| > 0 {
      assert forall k :: 0 <= k < |parts| ==> parts[k] == "";
    }
  }

  /** Dropping the first element commutes with dropping the trailing empty ones, as
      long as something is kept. */
  lemma {:induction false} DropTrailingEmptyTail(parts: seq<string>)
    requires |parts| > 0 && |DropTrailingEmpty(parts)| > 0
    ensures DropTrailingEmpty(parts[1..]) == DropTrailingEmpty(parts)[1..]
  {
    if parts[|parts| - 1] == "" {
      var init := parts[..|parts| - 1];
      assert DropTrailingEmpty(parts) == DropTrailingEmpty(init);
      if |init| == 1 {
        assert DropTrailingEmpty(init) == if init[0] == "" then [] else init;
        assert DropTrailingEmpty(parts[1..]) == DropTrailingEmpty([""]) == [];
      } else {
        DropTrailingEmptyTail(init);
        assert parts[1..][..|parts[1..]| - 1] == init[1..];
      }
    }
  }

  /** Splitting at the dots and taking the first non-empty piece finds the first label. */
  lemma {:induction false} FirstNonEmptySplitIsFirstLabel(s: string)
    ensures FirstNonEmpty(SplitOn(s, '.')) == FirstLabel(s)
    decreases |s|
  {
    var i := IndexOf(s, '.');
    if i == 0 {
      assert SplitOn(s, '.') == [""] + SplitOn(s[1..], '.');
      FirstNonEmptySplitIsFirstLabel(s[1..]);
    } else if i > 0 {
      assert SplitOn(s, '.')[0] == s[..i];
    }
  }

  /** `localHostOrDomainIs`: exact equality, or `host` is the first non-empty
      dot-separated label of `hostdom`; false when `hostdom` has no such label. */
  function LocalHostOrDomainIs(host: string, hostdom: string): (r: bool)
    ensures r <==> host == hostdom || FirstLabel(hostdom) == Some(host)
  {
    if host == hostdom then true
    else
      var found := FirstNonEmpty(JavaSplit(hostdom, '.'));
      assert found == FirstLabel(hostdom) by {
        FirstNonEmptySplitIsFirstLabel(hostdom);
        if '.' in hostdom {
          FirstNonEmptyDropTrailing(SplitOn(hostdom, '.'));
        }
      }
      match found
      case Some(first) => host == first
      case None => false
  }

  // ---------------------------------------------------------------------------
  // Resolution helpers (isResolvable, dnsResolve, myIpAddress, isInNet)
  // ---------------------------------------------------------------------------

  /** `isResolvable`: some IPv4 address resolves; a failed lookup is `false`. */
  function IsResolvable(env: PacEnvironment, host: string): (r: bool)
    ensures r <==> GetAllByName(env.ns, host).Some? && FirstV4Index(GetAllByName(env.ns, host).value) >= 0
  {
    ResolveIsFilteredLookup(env.ns, host, Some(IsV4));
    FilterV4Head(if GetAllByName(env.ns, host).Some? then GetAllByName(env.ns, host).value else []);
    match Resolve(env.ns, host, Some(IsV4))
    case Some(addresses) => |addresses| > 0
    case None => false
  }

  /** `dnsResolve`: the text of the first IPv4 address, or `null` (`None`) when none
      resolves. */
  function DnsResolve(env: PacEnvironment, host: string): (r: Option<string>)
    ensures r.Some? <==> IsResolvable(env, host)
    ensures r.Some? ==>
      var all := GetAllByName(env.ns, host).value;
      r.value == env.hostAddress(all[FirstV4Index(all)])
  {
    ResolveIsFilteredLookup(env.ns, host, Some(IsV4));
    FilterV4Head(if GetAllByName(env.ns, host).Some? then GetAllByName(env.ns, host).value else []);
    match Resolve(env.ns, host, Some(IsV4))
    case Some(addresses) => if |addresses| > 0 then Some(env.hostAddress(addresses[0])) else None
    case None => None
  }

  lemma {:induction false} FilterV4Head(s: seq<IpAddress>)
    ensures |Filter(s, IsV4)| > 0 <==> FirstV4Index(s) >= 0
    ensures |Filter(s, IsV4)| > 0 ==> Filter(s, IsV4)[0] == s[FirstV4Index(s)]
  {
    if |s| > 0 {
      FilterV4Head(s[1..]);
    }
  }

  /** `dnsResolve` gives the first IPv4 address the lookup returns, in lookup order,
      and `isResolvable` holds exactly when it gives one. */
  lemma DnsResolveFirstV4(env: PacEnvironment, host: string)
    ensures IsResolvable(env, host) <==> DnsResolve(env, host).Some?
    ensures DnsResolve(env, host).Some? <==>
      GetAllByName(env.ns, host).Some? && FirstV4Index(GetAllByName(env.ns, host).value) >= 0
    ensures DnsResolve(env, host).Some? ==>
      var all := GetAllByName(env.ns, host).value;
      DnsResolve(env, host).value == env.hostAddress(all[FirstV4Index(all)])
  {
    ResolveIsFilteredLookup(env.ns, host, Some(IsV4));
    if GetAllByName(env.ns, host).Some? {
      FilterV4Head(GetAllByName(env.ns, host).value);
    }
  }

  /** `myIpAddress`: the text of the primary IPv4 address, or "127.0.0.1" when it
      cannot be found. */
  function MyIpAddress(env: PacEnvironment): (r: string)
    ensures PrimaryIPv4Address(env.allPrimaryAddresses).None? ==> r == LOCALHOST
    ensures PrimaryIPv4Address(env.allPrimaryAddresses).Some? ==>
      var all := env.allPrimaryAddresses.value;
      r == env.hostAddress(all[FirstV4Index(all)])
  {
    match PrimaryIPv4Address(env.allPrimaryAddresses)
    case Some(address) => env.hostAddress(address)
    case None => LOCALHOST
  }

  /** `isInNet`: false when the host has no IPv4 address; otherwise the answer of
      `SubnetUtils(pattern, mask).getInfo().isInRange(address)`, which is a
      parameter here. */
  function IsInNet(env: PacEnvironment, host: string, pattern: string, mask: string,
                   isInRange: (string, string, string) -> bool): (r: bool)
    ensures !IsResolvable(env, host) ==> !r
    ensures IsResolvable(env, host) ==> r == isInRange(pattern, mask, DnsResolve(env, host).value)
  {
    DnsResolveFirstV4(env, host);
    match DnsResolve(env, host)
    case None => false
    case Some(address) => isInRange(pattern, mask, address)
  }

  /** What `PacUtilsDateTime.isInWeekdayRange`, `isInDateRange` or `isInTimeRange`
      does with the current time: an answer, or `PacDateTimeInputException`. */
  datatype RangeTest = InRange(answer: bool) | FaultyArguments

  /** `weekdayRange`, `dateRange` and `timeRange`: the range test's answer, `false`
      when the arguments are faulty. */
  function GuardedRangeTest(test: RangeTest): (r: bool)
    ensures r <==> test == InRange(true)
  {
    match test
    case InRange(answer) => answer
    case FaultyArguments => false
  }

  // ---------------------------------------------------------------------------
  // Microsoft extensions
  // ---------------------------------------------------------------------------

  /** `isResolvableEx`: some address of either family resolves. */
  function IsResolvableEx(env: PacEnvironment, host: string): (r: bool)
    ensures r <==> GetAllByName(env.ns, host).Some? && |GetAllByName(env.ns, host).value| > 0
  {
    ResolveIsFilteredLookup(env.ns, host, None);
    match Resolve(env.ns, host, None)
    case Some(addresses) => |addresses| > 0
    case None => false
  }

  /** `dnsResolveEx`: all addresses, sorted by family with `Collections.sort` (the
      preferred family first), and the text of the first; "" when nothing resolves. */
  function DnsResolveEx(env: PacEnvironment, host: string): (r: string)
    ensures !IsResolvableEx(env, host) ==> r == ""
    ensures IsResolvableEx(env, host) ==> r in HostAddresses(env, GetAllByName(env.ns, host).value)
  {
    ResolveIsFilteredLookup(env.ns, host, None);
    match Resolve(env.ns, host, None)
    case Some(addresses) =>
      if |addresses| > 0 then
        var sorted := if |addresses| > 1 then FamilySort(addresses, env.preferIPv6) else addresses;
        FamilySortHead(addresses, env.preferIPv6);
        env.hostAddress(sorted[0])
      else ""
    case None => ""
  }

  /** `dnsResolveEx` gives "" exactly when `isResolvableEx` fails, and otherwise the
      first address of the preferred family in lookup order, or the first address
      when there is none of that family. */
  lemma DnsResolveExPicksPreferred(env: PacEnvironment, host: string)
    ensures !IsResolvableEx(env, host) ==> DnsResolveEx(env, host) == ""
    ensures IsResolvableEx(env, host) ==>
      var all := GetAllByName(env.ns, host).value;
      var preferred := FirstOfFamily(all, !env.preferIPv6);
      DnsResolveEx(env, host) == env.hostAddress(if preferred >= 0 then all[preferred] else all[0])
  {
    ResolveIsFilteredLookup(env.ns, host, None);
    var r := Resolve(env.ns, host, None);
    if r.Some? && |r.value| > 0 {
      FamilySortHead(r.value, env.preferIPv6);
      if |r.value| == 1 {
        assert FamilySort(r.value, env.preferIPv6)[0] == r.value[0] by {
          FamilySortPermutation(r.value, env.preferIPv6);
          assert r.value[0] in multiset(FamilySort(r.value, env.preferIPv6));
        }
      }
    }
  }

  /** The texts of a list of addresses. */
  function HostAddresses(env: PacEnvironment, s: seq<IpAddress>): (r: seq<string>)
    ensures |r| == |s| && forall k :: 0 <= k < |s| ==> r[k] == env.hostAddress(s[k])
  {
    seq(|s|, k requires 0 <= k < |s| => env.hostAddress(s[k]))
  }

  /** `myIpAddressEx`: the texts of all primary addresses, sorted by family (the
      preferred one first, each family in its own order), joined with ';'; the
      loopback text when the primary addresses cannot be found. */
  function MyIpAddressEx(env: PacEnvironment): (r: string)
    ensures env.allPrimaryAddresses.None? ==> r == LOCALHOST
    ensures env.allPrimaryAddresses.Some? ==>
      r == Join(HostAddresses(env, FamilySort(env.allPrimaryAddresses.value, env.preferIPv6)), ';')
  {
    match env.allPrimaryAddresses
    case Some(addresses) => Join(HostAddresses(env, FamilySort(addresses, env.preferIPv6)), ';')
    case None => LOCALHOST
  }

  /** `isInNetEx`: the answer of `IpAddressMatcher(ipPrefix).matches(ipAddress)`, a
      parameter here (`None` for its `UnknownHostException`), `false` on failure. */
  function IsInNetEx(ipAddress: string, ipPrefix: string, matches: (string, string) -> Option<bool>): (r: bool)
    ensures r <==> matches(ipPrefix, ipAddress) == Some(true)
  {
    match matches(ipPrefix, ipAddress)
    case Some(answer) => answer
    case None => false
  }

  /** `getClientVersion`. */
  function GetClientVersion(): (v: string)
    ensures v == "1.0"
  {
    "1.0"
  }

  // ---------------------------------------------------------------------------
  // sortIpAddressList
  // ---------------------------------------------------------------------------

  /** The address of every entry (`InetAddress.getByName(entry.trim())`), in order,
      or `None` as soon as one of them does not resolve. */
  function ResolveEntries(ns: NameService, entries: seq<string>): (r: Option<seq<IpAddress>>)
    ensures r.None? <==> exists k :: 0 <= k < |entries| && GetByName(ns, Trim(entries[k])).None?
    ensures r.Some? ==> |r.value| == |entries|
    ensures r.Some? ==>
      forall k :: 0 <= k < |entries| ==> GetByName(ns, Trim(entries[k])) == Some(r.value[k])
  {
    if |entries| == 0 then Some([])
    else
      var last := |entries| - 1;
      var earlier := ResolveEntries(ns, entries[..last]);
      var a := GetByName(ns, Trim(entries[last]));
      if earlier.None? then
        var k :| 0 <= k < last && GetByName(ns, Trim(entries[..last][k])).None?;
        assert entries[..last][k] == entries[k];
        None
      else if a.None? then
        None
      else
        var r := earlier.value + [a.value];
        assert forall k :: 0 <= k < |entries| ==> GetByName(ns, Trim(entries[k])) == Some(r[k]) by {
          forall k | 0 <= k < |entries|
            ensures GetByName(ns, Trim(entries[k])) == Some(r[k])
          {
            if k < last {
              assert entries[..last][k] == entries[k] && r[k] == earlier.value[k];
            }
          }
        }
        Some(r)
  }

  /** `List.indexOf`: the first position of `a` in `s`, or -1. */
  function IndexOfAddress(s: seq<IpAddress>, a: IpAddress): (i: int)
    ensures -1 <= i < |s|
    ensures i == -1 <==> a !in s
    ensures 0 <= i ==> s[i] == a && forall k :: 0 <= k < i ==> s[k] != a
  {
    if |s| == 0 then -1
    else if s[0] == a then 0
    else
      var j := IndexOfAddress(s[1..], a);
      if j == -1 then -1 else j + 1
  }

  /** The text each sorted address carries out: the trimmed entry at the first
      position whose address equals it. */
  function OriginalTexts(entries: seq<string>, addresses: seq<IpAddress>, sorted: seq<IpAddress>): (r: seq<string>)
    requires |entries| == |addresses|
    requires forall k :: 0 <= k < |sorted| ==> sorted[k] in addresses
    ensures |r| == |sorted|
  {
    seq(|sorted|, k requires 0 <= k < |sorted| => Trim(entries[IndexOfAddress(addresses, sorted[k])]))
  }

  /** The trimmed entries in the total order of their addresses, each address
      written as the text of its first entry; `None` when an entry does not resolve. */
  function SortedEntryTexts(ns: NameService, entries: seq<string>): (r: Option<seq<string>>)
    ensures r.None? <==> ResolveEntries(ns, entries).None?
    ensures r.Some? ==> |r.value| == |entries|
  {
    match ResolveEntries(ns, entries)
    case None => None
    case Some(addresses) =>
      var sorted := SortByTotalOrder(addresses);
      SortedMembers(addresses, sorted);
      assert |multiset(sorted)| == |multiset(addresses)|;
      Some(OriginalTexts(entries, addresses, sorted))
  }

  /** What `sortIpAddressList` returns: "" for an empty list or when an entry does not
      resolve; otherwise the sorted entry texts joined with ';'. */
  function SortIpAddressListResult(ns: NameService, ipAddressList: string): (r: string)
    ensures ipAddressList == "" || ResolveEntries(ns, JavaSplit(ipAddressList, ';')).None? ==> r == ""
  {
    if ipAddressList == "" then ""
    else
      match SortedEntryTexts(ns, JavaSplit(ipAddressList, ';'))
      case None => ""
      case Some(texts) => Join(texts, ';')
  }

  lemma SortedMembers(addresses: seq<IpAddress>, sorted: seq<IpAddress>)
    requires multiset(sorted) == multiset(addresses)
    ensures forall k :: 0 <= k < |sorted| ==> sorted[k] in addresses
  {
    forall k | 0 <= k < |sorted| ensures sorted[k] in addresses {
      assert sorted[k] in multiset(sorted);
    }
  }

  /** `sortIpAddressList`: the loop resolves every entry and gives up with "" on the
      first one that fails; then the addresses are sorted with the total ordering and
      each is written back as the original text of its first occurrence. */
  method SortIpAddressList(ns: NameService, ipAddressList: string) returns (r: string)
    ensures r == SortIpAddressListResult(ns, ipAddressList)
  {
    if ipAddressList == "" {
      return "";
    }
    var arrAddresses := JavaSplit(ipAddressList, ';');
    var addresses: seq<IpAddress> := [];
    for i := 0 to |arrAddresses|
      invariant ResolveEntries(ns, arrAddresses[..i]) == Some(addresses)
    {
      var address := GetByName(ns, Trim(arrAddresses[i]));
      ResolveEntriesSnoc(ns, arrAddresses, i, addresses);
      if address.None? {
        return "";
      }
      addresses := addresses + [address.value];
    }
    assert arrAddresses[..|arrAddresses|] == arrAddresses;
    var sorted := SortByTotalOrder(addresses);
    SortedMembers(addresses, sorted);
    SortIpAddressListResolved(ns, ipAddressList, addresses, sorted);
    r := Join(OriginalTexts(arrAddresses, addresses, sorted), ';');
  }

  /** One more entry: a failure fails the whole list, a success extends the
      addresses. */
  lemma ResolveEntriesSnoc(ns: NameService, entries: seq<string>, i: nat, addresses: seq<IpAddress>)
    requires i < |entries| && ResolveEntries(ns, entries[..i]) == Some(addresses)
    ensures GetByName(ns, Trim(entries[i])).None? ==> ResolveEntries(ns, entries).None?
    ensures GetByName(ns, Trim(entries[i])).Some? ==>
      ResolveEntries(ns, entries[..i + 1]) == Some(addresses + [GetByName(ns, Trim(entries[i])).value])
  {
    var prefix := entries[..i + 1];
    assert prefix[..i] == entries[..i];
    assert prefix[i] == entries[i];
  }

  /** Once every entry resolves, the result is the sorted texts joined. */
  lemma SortIpAddressListResolved(ns: NameService, ipAddressList: string, addresses: seq<IpAddress>, sorted: seq<IpAddress>)
    requires ipAddressList != ""
    requires ResolveEntries(ns, JavaSplit(ipAddressList, ';')) == Some(addresses)
    requires sorted == SortByTotalOrder(addresses)
    requires forall k :: 0 <= k < |sorted| ==> sorted[k] in addresses
    ensures SortIpAddressListResult(ns, ipAddressList) ==
      Join(OriginalTexts(JavaSplit(ipAddressList, ';'), addresses, sorted), ';')
  {
    assert SortedEntryTexts(ns, JavaSplit(ipAddressList, ';')) ==
      Some(OriginalTexts(JavaSplit(ipAddressList, ';'), addresses, sorted));
  }

  /** An empty list, or one with an entry that does not resolve, gives "". */
  lemma SortIpAddressListFailure(ns: NameService, ipAddressList: string, k: nat)
    requires ipAddressList != "" ==>
      k < |JavaSplit(ipAddressList, ';')| && GetByName(ns, Trim(JavaSplit(ipAddressList, ';')[k])).None?
    ensures SortIpAddressListResult(ns, ipAddressList) == ""
  {
  }

  /** Position `i` is the first with its address. */
  predicate FirstWithAddress(addresses: seq<IpAddress>, i: nat)
    requires i < |addresses|
  {
    forall j :: 0 <= j < i ==> addresses[j] != addresses[i]
  }

  /** The sorted texts, written out: resolved addresses, sorted, each mapped back to
      the text of the first entry with that address. */
  lemma SortedEntryTextsUnfold(ns: NameService, entries: seq<string>)
    requires SortedEntryTexts(ns, entries).Some?
    ensures ResolveEntries(ns, entries).Some?
    ensures |ResolveEntries(ns, entries).value| == |entries|
    ensures var addresses := ResolveEntries(ns, entries).value;
      forall k :: 0 <= k < |SortByTotalOrder(addresses)| ==> SortByTotalOrder(addresses)[k] in addresses
    ensures var addresses := ResolveEntries(ns, entries).value;
      SortedEntryTexts(ns, entries).value == OriginalTexts(entries, addresses, SortByTotalOrder(addresses))
  {
    var addresses := ResolveEntries(ns, entries).value;
    SortedMembers(addresses, SortByTotalOrder(addresses));
  }

  /** Each slot of the output holds the trimmed text of the first entry whose
      address is the slot's address. */
  lemma SortedEntryTextsFirstEntry(ns: NameService, entries: seq<string>, k: nat)
    requires SortedEntryTexts(ns, entries).Some? && k < |entries|
    ensures var addresses := ResolveEntries(ns, entries).value;
      exists i :: 0 <= i < |entries| && SortedEntryTexts(ns, entries).value[k] == Trim(entries[i]) &&
        addresses[i] == SortByTotalOrder(addresses)[k] && FirstWithAddress(addresses, i)
  {
    SortedEntryTextsUnfold(ns, entries);
    var addresses := ResolveEntries(ns, entries).value;
    var sorted := SortByTotalOrder(addresses);
    var i := IndexOfAddress(addresses, sorted[k]);
    assert SortedEntryTexts(ns, entries).value[k] == Trim(entries[i]);
    assert addresses[i] == sorted[k] && FirstWithAddress(addresses, i);
  }

  /** The output texts, resolved again, give the entries' addresses in total order:
      the output is a sorted permutation of the input. */
  lemma SortedEntryTextsResolveSorted(ns: NameService, entries: seq<string>)
    requires SortedEntryTexts(ns, entries).Some?
    ensures var texts := SortedEntryTexts(ns, entries).value;
      var addresses := ResolveEntries(ns, entries).value;
      && ResolveEntries(ns, texts) == Some(SortByTotalOrder(addresses))
      && SortedByTotalOrder(ResolveEntries(ns, texts).value)
      && multiset(ResolveEntries(ns, texts).value) == multiset(addresses)
  {
    var addresses := ResolveEntries(ns, entries).value;
    var sorted := SortByTotalOrder(addresses);
    SortedMembers(addresses, sorted);
    var texts := OriginalTexts(entries, addresses, sorted);
    assert SortedEntryTexts(ns, entries) == Some(texts);
    forall k | 0 <= k < |texts|
      ensures GetByName(ns, Trim(texts[k])) == Some(sorted[k])
    {
      var i := IndexOfAddress(addresses, sorted[k]);
      TrimIdempotent(entries[i]);
    }
    ResolveEntriesAll(ns, texts, sorted);
  }

  /** When every entry resolves to the given address, `ResolveEntries` gives them all. */
  lemma ResolveEntriesAll(ns: NameService, entries: seq<string>, addresses: seq<IpAddress>)
    requires |entries| == |addresses|
    requires forall k :: 0 <= k < |entries| ==> GetByName(ns, Trim(entries[k])) == Some(addresses[k])
    ensures ResolveEntries(ns, entries) == Some(addresses)
  {
    var r := ResolveEntries(ns, entries);
    assert r.Some?;
    assert r.value == addresses;
  }

  /** Writing sorted texts back a second time, against their own sorted addresses,
      changes nothing: duplicates already carry the text of their first occurrence. */
  lemma OriginalTextsResorted(entries: seq<string>, addresses: seq<IpAddress>, sorted: seq<IpAddress>)
    requires |entries| == |addresses|
    requires forall k :: 0 <= k < |sorted| ==> sorted[k] in addresses
    ensures OriginalTexts(OriginalTexts(entries, addresses, sorted), sorted, sorted) ==
      OriginalTexts(entries, addresses, sorted)
  {
    var texts := OriginalTexts(entries, addresses, sorted);
    var again := OriginalTexts(texts, sorted, sorted);
    forall k | 0 <= k < |texts| ensures again[k] == texts[k] {
      var j := IndexOfAddress(sorted, sorted[k]);
      assert sorted[j] == sorted[k];
      TrimIdempotent(entries[IndexOfAddress(addresses, sorted[k])]);
    }
  }

  /** The sorted texts, sorted again, stay as they are. */
  lemma SortedEntryTextsFixpoint(ns: NameService, entries: seq<string>)
    requires SortedEntryTexts(ns, entries).Some?
    ensures var texts := SortedEntryTexts(ns, entries).value;
      SortedEntryTexts(ns, texts) == Some(texts)
  {
    var addresses := ResolveEntries(ns, entries).value;
    var sorted := SortByTotalOrder(addresses);
    SortedMembers(addresses, sorted);
    var texts := OriginalTexts(entries, addresses, sorted);
    assert SortedEntryTexts(ns, entries) == Some(texts);
    SortedEntryTextsResolveSorted(ns, entries);
    SortedByTotalOrderUnique(SortByTotalOrder(sorted), sorted);
    OriginalTextsResorted(entries, addresses, sorted);
    assert SortedEntryTexts(ns, texts) == Some(OriginalTexts(texts, sorted, sorted));
  }

  /** Trimming never brings in a character. */
  lemma TrimKeepsOut(s: string, c: char)
    requires c !in s
    ensures c !in Trim(s)
  {
    var off, r := TrimOffset(s), Trim(s);
    forall k | 0 <= k < |r| ensures r[k] != c {
      assert r[k] == s[off + k];
    }
  }

  /** Joining separator-free parts and splitting again gives the parts back, when the
      last part is not empty. */
  lemma JavaSplitJoin(parts: seq<string>, sep: char)
    requires forall k :: 0 <= k < |parts| ==> sep !in parts[k]
    requires |parts| > 0 && parts[|parts| - 1] != ""
    ensures JavaSplit(Join(parts, sep), sep) == parts
  {
    var s := Join(parts, sep);
    if |parts| == 1 {
      assert s == parts[0];
    } else {
      assert s == parts[0] + [sep] + Join(parts[1..], sep);
      assert s[|parts[0]|] == sep;
      SplitOnUnique(parts, sep);
    }
  }

  /** The sorted texts of non-blank, separator-free entries are non-blank and
      separator-free. */
  lemma SortedEntryTextsClean(ns: NameService, entries: seq<string>, sep: char)
    requires SortedEntryTexts(ns, entries).Some?
    requires forall k :: 0 <= k < |entries| ==> sep !in entries[k] && Trim(entries[k]) != ""
    ensures var texts := SortedEntryTexts(ns, entries).value;
      forall k :: 0 <= k < |texts| ==> sep !in texts[k] && texts[k] != ""
  {
    SortedEntryTextsUnfold(ns, entries);
    var addresses := ResolveEntries(ns, entries).value;
    var sorted := SortByTotalOrder(addresses);
    var texts := OriginalTexts(entries, addresses, sorted);
    forall k | 0 <= k < |texts| ensures sep !in texts[k] && texts[k] != "" {
      var i := IndexOfAddress(addresses, sorted[k]);
      assert texts[k] == Trim(entries[i]);
      TrimKeepsOut(entries[i], sep);
    }
  }

  /** Sorting an already sorted list gives it back: a list whose entries are not
      blank comes out of a second `sortIpAddressList` unchanged. */
  lemma SortIpAddressListIdempotent(ns: NameService, ipAddressList: string)
    requires forall k :: 0 <= k < |JavaSplit(ipAddressList, ';')| ==> Trim(JavaSplit(ipAddressList, ';')[k]) != ""
    ensures var once := SortIpAddressListResult(ns, ipAddressList);
      SortIpAddressListResult(ns, once) == once
  {
    var once := SortIpAddressListResult(ns, ipAddressList);
    var entries := JavaSplit(ipAddressList, ';');
    if ipAddressList != "" && SortedEntryTexts(ns, entries).Some? {
      var texts := SortedEntryTexts(ns, entries).value;
      assert once == Join(texts, ';');
      if once != "" {
        assert |texts| > 0;
        SortedEntryTextsClean(ns, entries, ';');
        JavaSplitJoin(texts, ';');
        assert JavaSplit(once, ';') == texts;
        SortedEntryTextsFixpoint(ns, entries);
        assert SortedEntryTexts(ns, texts) == Some(texts);
      }
    }
  }
}
