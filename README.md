# winfoom proxy agent: PAC helpers, address ordering, globs, proxy validation

This project models part of winfoom, a local HTTP proxy agent that forwards
requests to an upstream proxy. It covers:

- the PAC helper functions that a proxy auto-config script calls back into
  (`DefaultPacHelperMethods`);
- the IP address utilities those helpers use (`IpAddressUtils`): the family
  comparators, the IPv6-first total order, `compareByteByByte`, `resolve`, and the
  primary IPv4 address;
- the translation of a `shExpMatch` glob into a regular expression
  (`GlobPatternMatcher`);
- the validation of the user's proxy settings (`ProxyValidator`). A test request
  is sent through each PAC candidate in turn. A candidate that cannot be connected
  to is blacklisted and the next one is tried; any other failure ends the run with
  a message for the user. A failing run stops the proxy session;
- `LocalIOUtils.mergeProperties`, which makes one properties configuration carry
  exactly the keys of another.

Modules:

- `Wrappers`: `Option` and `Result`.
- `Sequences`: associativity of sequence concatenation.
- `JavaStrings`: `indexOf`, `countMatches`, `String.split` as Java does it (trailing
  empty strings are dropped), `trim` and joining.
- `IpAddressUtils`: addresses, the comparators, the total order, name resolution.
- `AddressSort`: the family sort (`Collections.sort` and `Stream.sorted` with the
  family comparator; both are stable) and a sort by the total order.
- `DefaultPacHelperMethods`, `GlobPatternMatcher`, `ProxyValidator` and
  `LocalIOUtils`: one module per source class.

The outside world is a parameter. `PacEnvironment` has four fields:

- the name service, a `NameService`;
- `getHostAddress`;
- the primary addresses of this host;
- the IPv6 preference.

A `NameService` has two fields: `parseLiteral`, the literal check together with the
parse of a literal, and `lookup`, the DNS query. `GetAllByName` and `GetByName` are
functions built from those two fields. The transport that
sends the test request is a `Probe`, a function from proxy type, host and port to
how the request ended. The PAC evaluation is a `PacEvaluation` value.

Two behaviours of the code worth noting:

- `dnsDomainIs` is also false when the host's first dot is its last character.
- `sortIpAddressList` writes each sorted address with the text of the first entry
  that has that address (`List.indexOf`). So when two entries resolve to the same
  address, both output slots hold the first entry's text.

## Model

| member | source | states |
|---|---|---|
| JavaStrings.IndexOf | src/main/java/org/kpax/winfoom/pac/DefaultPacHelperMethods.java:63 | the position of the first occurrence of the character, or -1 exactly when it is absent |
| JavaStrings.CountMatches | src/main/java/org/kpax/winfoom/pac/DefaultPacHelperMethods.java:130 | the number of occurrences of the character, as a multiset count |
| JavaStrings.SplitOn | src/main/java/org/kpax/winfoom/pac/DefaultPacHelperMethods.java:78 | the parts are separator-free, and joining them with the separator gives the input back |
| JavaStrings.SplitOnUnique | src/main/java/org/kpax/winfoom/pac/DefaultPacHelperMethods.java:227 | splitting a join of separator-free parts gives exactly those parts |
| JavaStrings.JavaSplit | src/main/java/org/kpax/winfoom/pac/DefaultPacHelperMethods.java:227 | `String.split`: separator-free parts that are the full split with its trailing empty parts dropped; without a separator, the input alone |
| JavaStrings.Trim | src/main/java/org/kpax/winfoom/pac/DefaultPacHelperMethods.java:231 | a slice of the input with no blank at either end; every character dropped at the ends is blank |
| JavaStrings.TrimIdempotent | src/main/java/org/kpax/winfoom/pac/DefaultPacHelperMethods.java:239 | trimming a second time changes nothing |
| DefaultPacHelperMethods.IsPlainHostName | src/main/java/org/kpax/winfoom/pac/DefaultPacHelperMethods.java:56-59 | true exactly when the host has no dot |
| DefaultPacHelperMethods.DnsDomainLevels | src/main/java/org/kpax/winfoom/pac/DefaultPacHelperMethods.java:128-131 | the number of dots in the host |
| DefaultPacHelperMethods.PlainHostHasNoLevels | src/main/java/org/kpax/winfoom/pac/DefaultPacHelperMethods.java:56-59 | a host is plain exactly when it has zero domain levels |
| DefaultPacHelperMethods.DnsDomainIs | src/main/java/org/kpax/winfoom/pac/DefaultPacHelperMethods.java:61-71 | false when no dot comes before the last character; otherwise true exactly when the domain equals the host from its first dot, or the host just after that dot |
| DefaultPacHelperMethods.DnsDomainIsSuffix | src/main/java/org/kpax/winfoom/pac/DefaultPacHelperMethods.java:61-71 | a matching domain is a non-empty suffix of the host that starts with a dot or follows one |
| DefaultPacHelperMethods.DnsDomainIsExample | src/main/java/org/kpax/winfoom/pac/DefaultPacHelperMethods.java:61-71 | "www.x.com" is in ".x.com" |
| DefaultPacHelperMethods.DnsDomainIsFirstDotOnly | src/main/java/org/kpax/winfoom/pac/DefaultPacHelperMethods.java:63-68 | only the first dot counts: "a.www.x.com" is not in ".x.com" |
| DefaultPacHelperMethods.FirstNonEmpty | src/main/java/org/kpax/winfoom/pac/DefaultPacHelperMethods.java:78-80 | the first non-empty part, every part before it empty; absent exactly when every part is empty |
| DefaultPacHelperMethods.FirstNonEmptySplitIsFirstLabel | src/main/java/org/kpax/winfoom/pac/DefaultPacHelperMethods.java:78-80 | the first non-empty part of the dot split is the first label read off the text (leading dots skipped, up to the next dot) |
| DefaultPacHelperMethods.LocalHostOrDomainIs | src/main/java/org/kpax/winfoom/pac/DefaultPacHelperMethods.java:73-83 | true exactly when host equals hostdom or equals the first non-empty label of hostdom |
| DefaultPacHelperMethods.IsResolvable | src/main/java/org/kpax/winfoom/pac/DefaultPacHelperMethods.java:85-93 | true exactly when the lookup succeeds and holds an IPv4 address |
| DefaultPacHelperMethods.DnsResolve | src/main/java/org/kpax/winfoom/pac/DefaultPacHelperMethods.java:95-107 | an address exactly when `isResolvable` holds, and then the text of the first IPv4 address of the lookup |
| DefaultPacHelperMethods.DnsResolveFirstV4 | src/main/java/org/kpax/winfoom/pac/DefaultPacHelperMethods.java:85-107 | `isResolvable` holds exactly when `dnsResolve` gives an address; that address is the first IPv4 one in lookup order; a failed lookup gives none |
| DefaultPacHelperMethods.MyIpAddress | src/main/java/org/kpax/winfoom/pac/DefaultPacHelperMethods.java:109-117 | the text of the first primary IPv4 address, or "127.0.0.1" when there is none or the lookup fails |
| DefaultPacHelperMethods.IsInNet | src/main/java/org/kpax/winfoom/pac/DefaultPacHelperMethods.java:119-126 | false for a host without an IPv4 address; otherwise the subnet test on the resolved address |
| DefaultPacHelperMethods.GuardedRangeTest | src/main/java/org/kpax/winfoom/pac/DefaultPacHelperMethods.java:140-171 | `weekdayRange`, `dateRange` and `timeRange` are true exactly when the range test answers true; faulty arguments give false |
| DefaultPacHelperMethods.IsResolvableEx | src/main/java/org/kpax/winfoom/pac/DefaultPacHelperMethods.java:178-185 | true exactly when the lookup succeeds with at least one address of either family |
| DefaultPacHelperMethods.DnsResolveEx | src/main/java/org/kpax/winfoom/pac/DefaultPacHelperMethods.java:187-201 | "" when nothing resolves; otherwise the text of one of the host's addresses |
| DefaultPacHelperMethods.DnsResolveExPicksPreferred | src/main/java/org/kpax/winfoom/pac/DefaultPacHelperMethods.java:187-201 | "" when `isResolvableEx` fails; otherwise the text of the first address of the preferred family in lookup order, or of the first address when that family is absent |
| DefaultPacHelperMethods.MyIpAddressEx | src/main/java/org/kpax/winfoom/pac/DefaultPacHelperMethods.java:203-215 | the texts of the family-sorted primary addresses joined with ';', or "127.0.0.1" when they cannot be found |
| DefaultPacHelperMethods.IsInNetEx | src/main/java/org/kpax/winfoom/pac/DefaultPacHelperMethods.java:248-255 | true exactly when the prefix matcher answers true; its failure gives false |
| DefaultPacHelperMethods.GetClientVersion | src/main/java/org/kpax/winfoom/pac/DefaultPacHelperMethods.java:243-246 | "1.0" |
| DefaultPacHelperMethods.ResolveEntries | src/main/java/org/kpax/winfoom/pac/DefaultPacHelperMethods.java:228-235 | fails exactly when some trimmed entry does not resolve; otherwise one address per entry, each the `getByName` of that entry |
| DefaultPacHelperMethods.IndexOfAddress | src/main/java/org/kpax/winfoom/pac/DefaultPacHelperMethods.java:239 | `List.indexOf`: the first position holding the address, -1 exactly when it is absent |
| DefaultPacHelperMethods.SortedEntryTexts | src/main/java/org/kpax/winfoom/pac/DefaultPacHelperMethods.java:237-240 | absent exactly when an entry does not resolve; otherwise one text per entry |
| DefaultPacHelperMethods.SortIpAddressListResult | src/main/java/org/kpax/winfoom/pac/DefaultPacHelperMethods.java:217-241 | "" for an empty list or when some entry does not resolve |
| DefaultPacHelperMethods.SortIpAddressList | src/main/java/org/kpax/winfoom/pac/DefaultPacHelperMethods.java:217-241 | the method, with its resolution loop, returns `SortIpAddressListResult` |
| DefaultPacHelperMethods.ResolveEntriesSnoc | src/main/java/org/kpax/winfoom/pac/DefaultPacHelperMethods.java:229-234 | one loop step: an entry that does not resolve fails the whole list; one that resolves extends the resolved prefix by its address |
| DefaultPacHelperMethods.SortIpAddressListResolved | src/main/java/org/kpax/winfoom/pac/DefaultPacHelperMethods.java:237-240 | when every entry resolves, the result is the entry texts of the sorted addresses joined with ';' |
| DefaultPacHelperMethods.SortIpAddressListFailure | src/main/java/org/kpax/winfoom/pac/DefaultPacHelperMethods.java:218-234 | an empty list, or one with an entry that does not resolve, gives "" |
| DefaultPacHelperMethods.SortedEntryTextsFirstEntry | src/main/java/org/kpax/winfoom/pac/DefaultPacHelperMethods.java:239 | each output slot is the trimmed text of the first entry whose address is that slot's sorted address |
| DefaultPacHelperMethods.SortedEntryTextsResolveSorted | src/main/java/org/kpax/winfoom/pac/DefaultPacHelperMethods.java:237-240 | the output texts resolve to the input addresses sorted by the total order: a sorted permutation |
| DefaultPacHelperMethods.ResolveEntriesAll | src/main/java/org/kpax/winfoom/pac/DefaultPacHelperMethods.java:229-235 | when each entry resolves to its given address, the loop yields exactly those addresses |
| DefaultPacHelperMethods.OriginalTextsResorted | src/main/java/org/kpax/winfoom/pac/DefaultPacHelperMethods.java:239 | mapping sorted texts back a second time changes nothing |
| DefaultPacHelperMethods.SortedEntryTextsFixpoint | src/main/java/org/kpax/winfoom/pac/DefaultPacHelperMethods.java:237-240 | sorting the sorted texts again gives them back |
| DefaultPacHelperMethods.JavaSplitJoin | src/main/java/org/kpax/winfoom/pac/DefaultPacHelperMethods.java:227 | splitting the ';' join of separator-free parts, the last one non-empty, gives the parts back |
| DefaultPacHelperMethods.SortedEntryTextsClean | src/main/java/org/kpax/winfoom/pac/DefaultPacHelperMethods.java:237-240 | the texts of non-blank, separator-free entries stay non-blank and separator-free |
| DefaultPacHelperMethods.SortIpAddressListIdempotent | src/main/java/org/kpax/winfoom/pac/DefaultPacHelperMethods.java:217-241 | `sortIpAddressList` of its own result returns that result unchanged |
| IpAddressUtils.ToUnsignedInt | src/main/java/org/kpax/winfoom/pac/net/IpAddressUtils.java:108-109 | `Byte.toUnsignedInt`: a value in 0..255 congruent to the byte modulo 256 |
| IpAddressUtils.IPv6FirstCompare | src/main/java/org/kpax/winfoom/pac/net/IpAddressUtils.java:70-78 | -1 for IPv6 before IPv4, 1 for IPv4 before IPv6, 0 exactly for the same family |
| IpAddressUtils.IPv4FirstCompare | src/main/java/org/kpax/winfoom/pac/net/IpAddressUtils.java:80-88 | -1 for IPv4 before IPv6, 1 for IPv6 before IPv4, 0 exactly for the same family |
| IpAddressUtils.IPv4FirstIsReversedIPv6First | src/main/java/org/kpax/winfoom/pac/net/IpAddressUtils.java:70-88 | the IPv4-first comparator is the IPv6-first one negated, and also with its arguments swapped |
| IpAddressUtils.AddressComparator | src/main/java/org/kpax/winfoom/pac/net/IpAddressUtils.java:123-125 | the IPv6-first comparator when IPv6 is preferred, else the IPv4-first one |
| IpAddressUtils.ByteOrder | src/main/java/org/kpax/winfoom/pac/net/IpAddressUtils.java:103-121 | the byte comparison answers -1, 0 or 1 |
| IpAddressUtils.CompareByteByByte | src/main/java/org/kpax/winfoom/pac/net/IpAddressUtils.java:103-121 | the loop over the first address's bytes computes `ByteOrder` |
| IpAddressUtils.ByteOrderFirstDifference | src/main/java/org/kpax/winfoom/pac/net/IpAddressUtils.java:107-119 | the first differing byte decides, compared as unsigned values |
| IpAddressUtils.ByteOrderZeroIffPrefix | src/main/java/org/kpax/winfoom/pac/net/IpAddressUtils.java:103-121 | 0 exactly when the first byte array is a prefix of the second |
| IpAddressUtils.ByteOrderAntisymmetric | src/main/java/org/kpax/winfoom/pac/net/IpAddressUtils.java:103-121 | on equal lengths, swapping the arguments negates the answer |
| IpAddressUtils.ByteOrderTransitive | src/main/java/org/kpax/winfoom/pac/net/IpAddressUtils.java:103-121 | on equal lengths, "at most" is transitive |
| IpAddressUtils.TotalOrderCompare | src/main/java/org/kpax/winfoom/pac/net/IpAddressUtils.java:90-96 | the total-order comparator answers -1, 0 or 1 |
| IpAddressUtils.TotalOrderFamilyFirst | src/main/java/org/kpax/winfoom/pac/net/IpAddressUtils.java:90-96 | IPv6 before IPv4; within a family the byte order decides |
| IpAddressUtils.TotalOrderZeroIffEqual | src/main/java/org/kpax/winfoom/pac/net/IpAddressUtils.java:90-96 | 0 exactly for equal addresses |
| IpAddressUtils.TotalOrderAntisymmetric | src/main/java/org/kpax/winfoom/pac/net/IpAddressUtils.java:90-96 | swapping the arguments negates the answer |
| IpAddressUtils.TotalOrderTransitive | src/main/java/org/kpax/winfoom/pac/net/IpAddressUtils.java:90-96 | "at most" is transitive |
| IpAddressUtils.TotalOrderTotal | src/main/java/org/kpax/winfoom/pac/net/IpAddressUtils.java:90-96 | any two addresses are comparable |
| IpAddressUtils.GetByName | src/main/java/org/kpax/winfoom/pac/DefaultPacHelperMethods.java:231 | `getByName`: the first address of the lookup, failing exactly when the lookup fails or is empty |
| IpAddressUtils.Filter | src/main/java/org/kpax/winfoom/pac/net/IpAddressUtils.java:145-149 | keeps exactly the addresses that pass the filter |
| IpAddressUtils.FilterAppend | src/main/java/org/kpax/winfoom/pac/net/IpAddressUtils.java:145-149 | filtering distributes over concatenation |
| IpAddressUtils.Resolve | src/main/java/org/kpax/winfoom/pac/net/IpAddressUtils.java:127-151 | a literal never fails and gives at most one address; a successful result holds only addresses `getAllByName` returns, each passing the filter |
| IpAddressUtils.ResolveLiteral | src/main/java/org/kpax/winfoom/pac/net/IpAddressUtils.java:132-139 | a literal address resolves to itself alone, or to nothing when the filter rejects it |
| IpAddressUtils.ResolveIsFilteredLookup | src/main/java/org/kpax/winfoom/pac/net/IpAddressUtils.java:127-151 | resolution fails exactly when the lookup fails, and otherwise is the lookup filtered |
| IpAddressUtils.FirstV4Index | src/main/java/org/kpax/winfoom/pac/net/IpAddressUtils.java:62-64 | the first IPv4 position, -1 exactly when there is none |
| IpAddressUtils.PrimaryIPv4Address | src/main/java/org/kpax/winfoom/pac/net/IpAddressUtils.java:60-68 | the first IPv4 primary address; absent exactly when the primary lookup failed or has no IPv4 address |
| AddressSort.OfFamilyOnly | src/main/java/org/kpax/winfoom/pac/DefaultPacHelperMethods.java:193 | selecting one family keeps only addresses of that family |
| AddressSort.OfFamilyAppend | src/main/java/org/kpax/winfoom/pac/DefaultPacHelperMethods.java:193 | selecting a family distributes over concatenation |
| AddressSort.OfFamilyPartition | src/main/java/org/kpax/winfoom/pac/DefaultPacHelperMethods.java:193 | the two families together are a permutation of the list |
| AddressSort.FamilySort | src/main/java/org/kpax/winfoom/pac/DefaultPacHelperMethods.java:193 | as long as the input, and no address of the other family comes before one of the preferred family |
| AddressSort.FamilySortPermutation | src/main/java/org/kpax/winfoom/pac/DefaultPacHelperMethods.java:193 | the family sort is a permutation of its input |
| AddressSort.FamilySortSorted | src/main/java/org/kpax/winfoom/pac/DefaultPacHelperMethods.java:193 | the family sort is ordered by `addressComparator` |
| AddressSort.FamilySortStable | src/main/java/org/kpax/winfoom/pac/DefaultPacHelperMethods.java:207-208 | the sort is stable: each family keeps its input order |
| AddressSort.SortedSplitsByFamily | src/main/java/org/kpax/winfoom/pac/DefaultPacHelperMethods.java:193 | a list sorted by the family comparator is its preferred family followed by the other |
| AddressSort.FamilySortUnique | src/main/java/org/kpax/winfoom/pac/DefaultPacHelperMethods.java:193 | any sorted list that keeps each family's input order is the family sort, as `Collections.sort` gives |
| AddressSort.FirstOfFamily | src/main/java/org/kpax/winfoom/pac/DefaultPacHelperMethods.java:194 | the first position of a family, -1 exactly when the family is absent |
| AddressSort.FamilySortHead | src/main/java/org/kpax/winfoom/pac/DefaultPacHelperMethods.java:192-194 | the head of the family sort is the first address of the preferred family, or the first address |
| AddressSort.InsertByTotalOrder | src/main/java/org/kpax/winfoom/pac/DefaultPacHelperMethods.java:238 | inserting into a sorted list keeps it sorted and adds exactly the address |
| AddressSort.SortByTotalOrder | src/main/java/org/kpax/winfoom/pac/DefaultPacHelperMethods.java:237-238 | sorted by the total order and a permutation of the input |
| AddressSort.SortedByTotalOrderUnique | src/main/java/org/kpax/winfoom/pac/DefaultPacHelperMethods.java:238 | two lists sorted by the total order with the same elements are equal, so the sort's result does not depend on the algorithm |
| GlobPatternMatcher.Translate | src/main/java/org/kpax/winfoom/pac/GlobPatternMatcher.java:70-92 | the piece of each character is non-empty, and an ordinary character is copied |
| GlobPatternMatcher.BodyAfter | src/main/java/org/kpax/winfoom/pac/GlobPatternMatcher.java:68-93 | the translation is at least as long as the glob, each character giving a non-empty piece |
| GlobPatternMatcher.Body | src/main/java/org/kpax/winfoom/pac/GlobPatternMatcher.java:68-93 | the translation of a whole glob is at least as long as the glob |
| GlobPatternMatcher.GlobToRegEx | src/main/java/org/kpax/winfoom/pac/GlobPatternMatcher.java:65-96 | the regex starts with '^' and ends with '$', around a translation at least as long as the glob |
| GlobPatternMatcher.BodyAfterAppend | src/main/java/org/kpax/winfoom/pac/GlobPatternMatcher.java:68-93 | the translation of a concatenation is the concatenation of the translations, the second part seeing whether the first ended with '[' |
| GlobPatternMatcher.BodySnoc | src/main/java/org/kpax/winfoom/pac/GlobPatternMatcher.java:68-93 | one more character adds exactly its piece |
| GlobPatternMatcher.ConvertGlobToRegEx | src/main/java/org/kpax/winfoom/pac/GlobPatternMatcher.java:65-96 | the loop computes "^", the per-character translation, then "$" |
| GlobPatternMatcher.BodyOfLiteral | src/main/java/org/kpax/winfoom/pac/GlobPatternMatcher.java:90-91 | a glob without special characters translates to itself |
| GlobPatternMatcher.GlobOfLiteral | src/main/java/org/kpax/winfoom/pac/GlobPatternMatcher.java:90-91 | the regex of such a glob is the glob between the anchors |
| GlobPatternMatcher.NegatedClassSpellings | src/main/java/org/kpax/winfoom/pac/GlobPatternMatcher.java:83-89 | "[!" and "[^" give the same regex |
| GlobPatternMatcher.ExclamationOutsideClass | src/main/java/org/kpax/winfoom/pac/GlobPatternMatcher.java:83-89 | a '!' that does not follow '[' stays a literal '!' |
| GlobPatternMatcher.GlobExample | src/main/java/org/kpax/winfoom/pac/GlobPatternMatcher.java:71-79 | "*." followed by a plain domain becomes "^.*?\\." then the domain, then "$" |
| GlobPatternMatcher.ToPattern | src/main/java/org/kpax/winfoom/pac/GlobPatternMatcher.java:44-50 | a null glob fails; otherwise the regex of the trimmed glob |
| GlobPatternMatcher.ToPatternIgnoresBlanks | src/main/java/org/kpax/winfoom/pac/GlobPatternMatcher.java:47 | blanks around a glob do not change its pattern |
| ProxyValidator.ClassifyProbe | src/main/java/org/kpax/winfoom/proxy/ProxyValidator.java:152-241 | success exactly for a status up to the success limit; a connect failure exactly for refused or timed-out connections; a runtime error passes through; an unknown host is "Wrong proxy host" exactly for an HTTP proxy and "Cannot connect to the provided test URL" otherwise; a failed SOCKS authentication is "Wrong user/password"; any other I/O failure is "Error on validation proxy settings" |
| ProxyValidator.StatusClassification | src/main/java/org/kpax/winfoom/proxy/ProxyValidator.java:212-223 | 407 is "Wrong user/password", 504 "Cannot connect to the provided test URL", any other failing status "Something is wrong with the provided test URL" |
| ProxyValidator.LoadPacProxyInfos | src/main/java/org/kpax/winfoom/proxy/ProxyValidator.java:137-150 | the candidates exactly when the evaluation succeeds; a runtime error passes through; a script failure is "Error on PAC script execution", a bad test URL "Invalid test URL", an I/O failure "Cannot load the PAC file", an invalid PAC file "The PAC file seems to be invalid" |
| ProxyValidator.LoadPacMessagesDistinct | src/main/java/org/kpax/winfoom/proxy/ProxyValidator.java:141-149 | different evaluation failures give different errors |
| ProxyValidator.ProbeCandidate | src/main/java/org/kpax/winfoom/proxy/ProxyValidator.java:106-110 | probes with the candidate's host name and port, or no host and port -1; success exactly for a success status, a connect failure exactly for a refused or timed-out connection |
| ProxyValidator.Failover | src/main/java/org/kpax/winfoom/proxy/ProxyValidator.java:101-120 | no candidates give a valid run; the blacklist is a prefix of the candidates, never all of them; every failure message is a test message or "Wrong proxy host/port" |
| ProxyValidator.ValidateSettings | src/main/java/org/kpax/winfoom/proxy/ProxyValidator.java:94-128 | static settings blacklist nothing; every failure message is one of the fixed validation messages |
| ProxyValidator.FirstDecisive | src/main/java/org/kpax/winfoom/proxy/ProxyValidator.java:102-111 | the first candidate whose test does not fail to connect, every earlier one failing to connect, or -1 when all fail |
| ProxyValidator.FailoverCharacterized | src/main/java/org/kpax/winfoom/proxy/ProxyValidator.java:102-120 | the candidates before the first decisive one are blacklisted and its test is the verdict; when all fail to connect, all but the last are blacklisted and the run ends "Wrong proxy host/port" |
| ProxyValidator.FailoverBlacklistsPrefix | src/main/java/org/kpax/winfoom/proxy/ProxyValidator.java:112-115 | the blacklist is a prefix of the candidates, in order, holding only connect failures and never the last candidate |
| ProxyValidator.FailoverStopsOnError | src/main/java/org/kpax/winfoom/proxy/ProxyValidator.java:106-119 | a non-connect failure ends the run at once with that failure and nothing blacklisted |
| ProxyValidator.EmptyCandidatesValid | src/main/java/org/kpax/winfoom/proxy/ProxyValidator.java:101-120 | an empty PAC answer validates without blacklisting |
| ProxyValidator.StaticSettingsNeverBlacklist | src/main/java/org/kpax/winfoom/proxy/ProxyValidator.java:121-128 | static settings blacklist nothing and are valid exactly when the test request gets a success status |
| ProxyValidator.FailoverScenario | src/main/java/org/kpax/winfoom/proxy/ProxyValidator.java:102-128 | a refused proxy then a working one: the first is blacklisted and the run is valid; both refused: "Wrong proxy host/port"; a 407: "Wrong user/password" with nothing blacklisted |
| ProxyValidator.FailoverStep | src/main/java/org/kpax/winfoom/proxy/ProxyValidator.java:112-115 | a connect failure with another candidate behind it blacklists the candidate and moves on |
| ProxyValidator.FailoverDecided | src/main/java/org/kpax/winfoom/proxy/ProxyValidator.java:106-118 | any other result, or a connect failure of the last candidate, is the run's verdict |
| ProxyValidator.ProxyBlacklist.Blacklist | src/main/java/org/kpax/winfoom/proxy/ProxyValidator.java:114 | appends the candidate to the blacklist |
| ProxyValidator.ProxyController.StopProxySession | src/main/java/org/kpax/winfoom/proxy/ProxyValidator.java:132 | counts one more stop of the proxy session |
| ProxyValidator.ProxyValidator.TryCandidates | src/main/java/org/kpax/winfoom/proxy/ProxyValidator.java:100-120 | the loop's result and the candidates it blacklists are those of the failover run |
| ProxyValidator.ProxyValidator.TestProxyConfig | src/main/java/org/kpax/winfoom/proxy/ProxyValidator.java:94-135 | returns the validation's outcome, blacklists what it skips, and stops the proxy session exactly when the validation fails |
| LocalIOUtils.Merged | src/main/java/org/kpax/winfoom/util/LocalIOUtils.java:98-111 | the merged configuration has exactly the keys of `from` |
| LocalIOUtils.MergedCharacterized | src/main/java/org/kpax/winfoom/util/LocalIOUtils.java:98-111 | after the merge `to` has exactly the keys of `from`; a shared key keeps `to`'s values, a new key gets `from`'s |
| LocalIOUtils.MergeIdempotent | src/main/java/org/kpax/winfoom/util/LocalIOUtils.java:98-111 | merging a second time changes nothing |
| LocalIOUtils.MergeSelf | src/main/java/org/kpax/winfoom/util/LocalIOUtils.java:98-111 | merging a configuration into itself leaves it unchanged |
| LocalIOUtils.PropertiesConfiguration.ContainsKey | src/main/java/org/kpax/winfoom/util/LocalIOUtils.java:101 | true exactly for a key of the configuration |
| LocalIOUtils.PropertiesConfiguration.GetProperty | src/main/java/org/kpax/winfoom/util/LocalIOUtils.java:108 | the values of a present key, null for an absent one |
| LocalIOUtils.PropertiesConfiguration.RemoveKey | src/main/java/org/kpax/winfoom/util/LocalIOUtils.java:102 | removes exactly that key |
| LocalIOUtils.PropertiesConfiguration.AddProperty | src/main/java/org/kpax/winfoom/util/LocalIOUtils.java:108 | appends to a present key's values, or adds the key |
| LocalIOUtils.RemoveKeysNotIn | src/main/java/org/kpax/winfoom/util/LocalIOUtils.java:99-104 | the first loop leaves `to` with just its keys that `from` also has |
| LocalIOUtils.AddKeysMissingFrom | src/main/java/org/kpax/winfoom/util/LocalIOUtils.java:105-110 | the second loop adds each key of `from` that `to` lacks, with `from`'s values, and keeps the rest |
| LocalIOUtils.MergeProperties | src/main/java/org/kpax/winfoom/util/LocalIOUtils.java:98-111 | `to` ends as the merge of the two old configurations; `from` is unchanged when it is a different object |

## Left out

- `shExpMatch` (DefaultPacHelperMethods.java 133-137): matching a string against a
  regular expression. `Pattern.compile` and Java's regex engine are not modelled.
  `ToPattern` gives the regex text, and the glob cache is left out.
- `weekdayRange`, `dateRange` and `timeRange`: the calendar work of
  `PacUtilsDateTime` and the clock. Its answer, or its argument error, is a
  `RangeTest` parameter.
- `isInNet` and `isInNetEx` take `SubnetUtils` and `IpAddressMatcher` as function
  parameters. Subnet arithmetic is not modelled.
- DefaultPacHelperMethods.IsInNet: the range test always answers. When the host
  resolves, `new SubnetUtils(pattern, mask)` throws `IllegalArgumentException` for
  a malformed pattern or mask, and `isInNet` does not catch it. The model does not
  capture that exception.
- `alert` and all logging: they only write to the log.
- `ALL_PRIMARY_ADDRESSES`: finding the host name, `HostnameUtils.removeDomain`, the
  native error, and the `SingletonSupplier` memoization are left out. The primary
  addresses, or their absence, are a field of `PacEnvironment`.
- `PRIMARY_IPv4_ADDRESS` is modelled as a function of the primary addresses, not as
  a cached value.
- `InetAddress.getAllByName`, `getByName`, `InetAddressValidator` and
  `getHostAddress` are the abstract `NameService` and a text function. Real DNS and
  address parsing and formatting are not modelled.
- IpAddressUtils.CompareByteByByte: requires the first address to be no longer than
  the second. The source's only caller compares addresses of one family, which
  have equal lengths. With a longer first array, the source returns at the first
  differing byte, or throws when the second array is a prefix of the first. That
  case is not modelled.
- `dnsResolveEx` sorts the list in place with `Collections.sort`. The model gives
  the result as a value: it proves the family sort sorted, a permutation and
  stable, and proves it is the only list with those properties.
- `sortIpAddressList` sorts with `Stream.sorted`. The model uses an insertion sort
  and proves that every sorted permutation equals it.
- DefaultPacHelperMethods.SortIpAddressListIdempotent: requires every trimmed entry
  to be non-blank. A blank entry makes the second split differ, so idempotence is
  not claimed for such lists.
- `testProxyConfig(type, host, port)`: building the HTTP client, the SOCKS socket
  factories, the authenticator, the proxy context and the request itself. They are
  replaced by a `Probe` that says how the request ended.
- `HttpUtils.MAX_HTTP_SUCCESS_CODE` is a parameter. `isSOCKSAuthenticationFailed`
  is a flag on the I/O failure.
- `HttpHost.create` of the test URL and the PAC evaluation (`findProxyForURL`,
  parsing of the PAC answer) are a `PacEvaluation` value.
- `ProxyController.stopProxySession` is counted; what tearing down the session does
  is not modelled.
- `PropertiesConfiguration` is a map from key to the list of its values. Key
  iteration order, list-delimiter splitting in `addProperty`, and the other
  members of `LocalIOUtils` (copying, closing, availability checks) are not part
  of this model.
- Null arguments: the model takes no null host, domain or list. Only the null
  glob of `toPattern` and the null host of a DIRECT candidate are modelled.
