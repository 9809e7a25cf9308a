# NativeDNS.Core, verified

A Dafny model of the core of NativeDNS: the parts of the DNS client that need no sockets. It covers, file by file,

- the DNS wire format (`dns_packet.cpp`): compressed names, questions, responses with their alias chains, the ageing and
  bounding of TTLs in place, queries, synthetic replies and truncation to the UDP size of a client;
- the rule engine (`rules.cpp`): canonical names, the greedy glob, validation with its cycle search, rule matching, and
  the conversions between UTF-8 and wide strings;
- failover (`router.cpp`, `exchange_group`): the expansion of a fallback group, the circuit breaker and the time budget;
- the resolver cache (`router.cpp`, `exchange_cached`) as a concurrent protocol: each locked region is one step, between
  which other threads may do anything; runs are arbitrary sequences of lookups, returns of leaders and wake-ups of
  followers, and the upstream exchange brings any reply or error;
- the configuration file (`config.cpp`): the XML parser, the serializer, and the proof that they are inverse to each other;
- packet rewriting (`windivert_interception.cpp`): UDP replies, TCP reflection and resets with their checksums;
- DNSCrypt padding (`dnscrypt.cpp`) and the leases of pooled connections (`dns_secure.cpp`, `pool_limits.hpp`).

Code that loops or updates state is a method, often of a class with the fields of the original, and is proved equal to a
specification function or relation; what the code is for is proved of that specification, as lemmas over all inputs, all
runs or all reachable states. Bytes are integers below 256; a `std::string` is a string of such bytes, one character each;
times are integers in nanoseconds. Errors are values that carry the code of `nd::Error`. The IDs of queries, the readings
of the clock, random choices, upstream replies, encryption and what a sort leaves are parameters, so that the
proofs hold for all of them.

Modules follow the source: `Dns*`, `AliasChain`, `HostName` and `QueryReplies` for the wire format, `Glob`, `FallbackGraph`, `Rules` and
`Utf8` for the rules, `Failover*` for failover, `Cache*` and `ResolverCache` for the cache, `Xml*`, `Config*` and
`SemicolonPattern` for the configuration, `Checksum`, `IpPackets`, `Interception` and `Tcp*` for packets, `DnsCrypt` and `ConnectionPool` for the
rest. Beside them stand modules that say what is accepted and what it means in terms of their own, with the figures of the
protocols written out, and prove the specifications equivalent to that: `ResponseMeaning`, `AgeingAcceptance`, `ReplyEchoes`,
`WireNames`, `NameShapes`, `GlobMeaning`, `RuleEvaluation`, `CacheFollowers`, `EntitySpelling`, `Utf8Order`, `XmlSpelling`, `ConfigFields`, `ConfigReading` and
`PacketShapes`. `dafny verify dfyconfig.toml` checks everything.

Where a property holds only under a condition, the condition is part of the theorem and the failing case is shown:

- A zero-address reply to a name of 127 labels cannot be read: its pointer to the name is one hop too many
  (`DnsReply.SyntheticReplyParses`, `QueryReplies.LongestNameIsNotBlocked`).
- A cached response whose owner names lead into the TTLs of earlier records may fail to age: the exact condition is that of
  `AgeingAcceptance.AgedExactlyWhen`.
- A failure counter below two does not mean that there is no delay once 2 ^ 32 failures in a row have wrapped it
  (`Failover.CounterWraps`, `Failover.WrappedCounter`).
- Cache keys tell queries apart for interface IDs without NULs and address texts without NULs and bars, which is all that
  any system reports; bars in an interface ID do no harm (`CacheKey.KeyInjective`, `CacheKey.NulsConfuse`).
- The comparator of the failover sort is not always a strict weak order (`Failover.OrderIsWeak`, `Failover.UnknownLatencyConfuses`),
  and the sort is trusted on no other group (`Failover.SortsStably`).
- Lists with empty items or semicolons in them do not survive the configuration file (`ConfigLists.SplitJoined`). Where
  cutting a rule's patterns at semicolons leaves something that is no pattern, or nothing, the text that was written is
  rejected (`ConfigText.ConfigRoundTrips`, `SemicolonPattern.SemicolonIsLost`).
- A DNSCrypt query of 3968 to 4000 bytes passes the size check of the source and still cannot be padded
  (`DnsCrypt.QuerySizing`).

## Model

| member | source | states |
|---|---|---|
| `DnsName.ReadName` | NativeDNS.Core/src/dns_packet.cpp:27-71 | The name reader, one cursor and a hop counter: for every packet and offset it gives the text and the end offset of the name there, or fails; it always ends because of the 128-hop counter |
| `DnsName.ReadLabel` | NativeDNS.Core/src/dns_packet.cpp:55-67 | The bytes of one label, checked and case-folded; fails exactly on a byte that may not stand in a label |
| `DnsName.PieceBelowPointer` | NativeDNS.Core/src/dns_packet.cpp:35-49 | Where a pointer stands, no label in front of it can reach over it |
| `DnsName.ConfinedBelowPointer` | NativeDNS.Core/src/dns_packet.cpp:36-47 | Once a pointer is met, the rest of the reading stays in front of it: another packet with those bytes reads the same |
| `DnsName.NameIsLocal` | NativeDNS.Core/src/dns_packet.cpp:27-71 | A name that reads well is a function of the bytes from offset 12 to its own end |
| `DnsName.EndIsLocal` | NativeDNS.Core/src/dns_packet.cpp:42-54 | The end offset of a name depends on the bytes in place only, never on what a pointer leads to |
| `DnsName.EndInside` | NativeDNS.Core/src/dns_packet.cpp:33-56 | A name that reads well ends inside the packet |
| `DnsName.NoWayOut` | NativeDNS.Core/src/dns_packet.cpp:39-41 | Behind the header, a name whose first end is a pointer can only fail: below the first pointer no closing zero can be reached |
| `DnsName.FirstNameIsPlain` | NativeDNS.Core/src/dns_packet.cpp:27-71 | If the name at offset 12 reads well it used no pointer |
| `DnsName.PlainHops` | NativeDNS.Core/src/dns_packet.cpp:33 | An uncompressed name of n labels spends n + 1 of the 128 hops |
| `DnsName.PlainLength` | NativeDNS.Core/src/dns_packet.cpp:68-69 | An uncompressed name that reads well takes at most 255 bytes |
| `WireNames.NameExactly` | NativeDNS.Core/src/dns_packet.cpp:27-71 | A name is read exactly where at most 128 offsets lead to a zero byte, over labels of 1 to 63 printable bytes and over pointers that lead back; the text is the labels on the way in lower case, at most 253 characters, and the name ends behind its first pointer or else behind the zero byte |
| `DnsName.PointerReads` | NativeDNS.Core/src/dns_packet.cpp:36-47 | A pointer of two bytes reads what stands at the offset it gives, one hop later, and the name ends behind it |
| `DnsQuestion.ParseQuestion` | NativeDNS.Core/src/dns_packet.cpp:240-254 | The question of a message, with every rejected header |
| `DnsQuestion.QuestionShape` | NativeDNS.Core/src/dns_packet.cpp:240-254 | An accepted question is uncompressed, lies inside the packet and ends by offset 271 |
| `DnsQuestion.QuestionIsLocal` | NativeDNS.Core/src/dns_packet.cpp:240-254 | Any packet with the same question bytes and a sound header asks the same question |
| `DnsQuestion.QuestionPrefixParses` | NativeDNS.Core/src/dns_packet.cpp:240-254 | The bytes up to the end of the question alone, their counts reset, parse to the very same question |
| `DnsQuestion.QuestionExactly` | NativeDNS.Core/src/dns_packet.cpp:240-254 | A question is accepted exactly in a packet of 12 to 65535 bytes that counts one, has an opcode of zero and goes on for four bytes behind its name; its fields byte by byte, and when the error is DNS_OPCODE |
| `DnsAgeing.AgeDnsResponse` | NativeDNS.Core/src/dns_packet.cpp:371-396 | The ageing of a cached response is its specification, error cases included; which packets it accepts is AgeingAcceptance.AgedExactlyWhen, and what it makes of them DnsAgeing.AgeingLaw |
| `DnsAgeing.AgeRecords` | NativeDNS.Core/src/dns_packet.cpp:382-392 | The ageing loop: reading and rewriting one buffer in place |
| `DnsAgeing.AgedLaw` | NativeDNS.Core/src/dns_packet.cpp:382-392 | Reading names in a buffer whose TTLs are already partly rewritten still visits the record boundaries of the original |
| `DnsAgeing.LayoutSurvives` | NativeDNS.Core/src/dns_packet.cpp:371-396 | Rewriting TTLs moves no record boundary |
| `DnsAgeing.AgeingLaw` | NativeDNS.Core/src/dns_packet.cpp:371-396 | A successful ageing sets the ID, makes each TTL outside OPT max(0, TTL - elapsed), changes no other byte and keeps every record boundary |
| `DnsAgeing.AgedQuestion` | NativeDNS.Core/src/dns_packet.cpp:373-377 | An aged packet asks the same question under the new ID |
| `DnsAgeing.AgeingComposes` | NativeDNS.Core/src/dns_packet.cpp:371-396 | Two successful ageings by a and then b equal one ageing by a + b |
| `AgeingAcceptance.AgedExactlyWhen` | NativeDNS.Core/src/dns_packet.cpp:371-396 | A packet is aged exactly when it is a reply whose records fill it and each owner name can be read with the TTLs in front of it lowered |
| `AgeingAcceptance.ResponsesAge` | NativeDNS.Core/src/dns_packet.cpp:371-396 | Every accepted, untruncated response is handed on at once, and after any time unless an owner name leads into a TTL in front of it |
| `AgeingAcceptance.AgedWhereNamesAvoid` | NativeDNS.Core/src/dns_packet.cpp:382-392 | A reply that can be read is aged by any time when no owner name leads into a TTL in front of it |
| `AgeingAcceptance.LooksTell` | NativeDNS.Core/src/dns_packet.cpp:27-71 | A name that can be read is told by the bytes it is read from |
| `AgeingAcceptance.LoweredTtls` | NativeDNS.Core/src/dns_packet.cpp:388-391 | The TTLs of an aged packet in figures: each outside OPT is lowered by the seconds, to zero at least |
| `AliasChain.Chase` | NativeDNS.Core/src/dns_packet.cpp:324-333 | The alias loop finds exactly the names reachable from the question name, or the cycle |
| `AliasChain.ChainIsBounded` | NativeDNS.Core/src/dns_packet.cpp:326 | The bound of one more step than there are aliases never cuts an acyclic chain short |
| `AliasChain.ChainEnds` | NativeDNS.Core/src/dns_packet.cpp:326-329 | Behind its end an alias chain stays ended |
| `DnsResponse.ParseResponse` | NativeDNS.Core/src/dns_packet.cpp:255-346 | The whole response parser is its specification, every rejection included; what is accepted is ResponseMeaning.AcceptedExactly, and what it means ResponseMeaning.CodeAndCacheTime and DnsResponse.AddressesFollowAliases |
| `DnsResponse.ScanRecords` | NativeDNS.Core/src/dns_packet.cpp:279-323 | The record loop: all records are read, and they end where the packet ends |
| `DnsResponse.ScanRecord` | NativeDNS.Core/src/dns_packet.cpp:281-320 | What one record adds, and which records are rejected |
| `DnsResponse.ReadSoa` | NativeDNS.Core/src/dns_packet.cpp:312-318 | The MINIMUM field of a SOA record whose two names leave exactly 20 bytes |
| `DnsResponse.ScanDescribes` | NativeDNS.Core/src/dns_packet.cpp:269-323 | What was gathered, in terms of the records: addresses in order, the alias of each owner, the least TTL, whether a requested or signing record was there |
| `DnsResponse.ResponseScanned` | NativeDNS.Core/src/dns_packet.cpp:255-346 | Which responses are accepted, and what their records say about the answer |
| `DnsResponse.AddressesFollowAliases` | NativeDNS.Core/src/dns_packet.cpp:290-298 | On success without truncation the addresses are exactly the requested-type ones whose owner is reachable from the question name through the aliases |
| `DnsResponse.AliasMapUnique` | NativeDNS.Core/src/dns_packet.cpp:297-298 | The answers determine the alias map |
| `DnsResponse.AnswersInLayout` | NativeDNS.Core/src/dns_packet.cpp:279-323 | The answers are the first records of the packet, by position |
| `DnsResponse.CachedNoLongerThanAnswers` | NativeDNS.Core/src/dns_packet.cpp:305-309 | A positive answer may be cached for a positive time, no longer than any of its answer records lives |
| `ResponseMeaning.AcceptedExactly` | NativeDNS.Core/src/dns_packet.cpp:255-333 | A response is accepted exactly when it has the ID, name, type and class asked for and the QR bit, and is either truncated or has at most 4096 records that fill it, each sound, with aliases that lead nowhere in circles |
| `ResponseMeaning.ScannedExactly` | NativeDNS.Core/src/dns_packet.cpp:279-323 | The record loop succeeds exactly when every record can be read and is sound: lengths of addresses, names that end where their data ends, one OPT record of the root in the last section, and SOA data of two names and 20 bytes |
| `ResponseMeaning.CodeAndCacheTime` | NativeDNS.Core/src/dns_packet.cpp:299-344 | The code has four bits of the header and eight of the OPT record. A negative answer is cached for the least, over the SOA records of the authority section and the class asked for, of the TTL and the last four bytes of the data, attained by one of them; any other for the least TTL of an answer. It is cached exactly for codes 0 and 3, types other than 251 and 252, no TKEY or TSIG, and a time neither 0 nor 2 ^ 32 - 1 |
| `ResponseMeaning.TruncatedMeans` | NativeDNS.Core/src/dns_packet.cpp:258-268 | A truncated response is told by its flags alone: its code, no address, nothing to cache |
| `ResponseMeaning.FieldsOfRecord` | NativeDNS.Core/src/dns_packet.cpp:281-289 | The fields of a record, byte by byte behind its owner name |
| `DnsClamping.ClampDnsTtl` | NativeDNS.Core/src/dns_packet.cpp:347-370 | Bounding the TTLs of a response equals its specification |
| `DnsClamping.CollectOffsets` | NativeDNS.Core/src/dns_packet.cpp:358-366 | The first loop gathers the TTL offsets of all records outside OPT, or stops at a record that freezes the response |
| `DnsClamping.WriteTtls` | NativeDNS.Core/src/dns_packet.cpp:367-368 | The second loop writes each gathered TTL, in place |
| `DnsClamping.PutAllIsRewrite` | NativeDNS.Core/src/dns_packet.cpp:357-368 | Gathering offsets first and writing afterwards is the same as rewriting record by record |
| `DnsClamping.ClampingLaw` | NativeDNS.Core/src/dns_packet.cpp:347-370 | A truncated, authenticated or signed response is returned as it is; any other has every TTL outside OPT moved into the bounds and nothing else changed |
| `DnsClamping.ClampingTwice` | NativeDNS.Core/src/dns_packet.cpp:367-368 | Bounding again with the same bounds changes nothing |
| `DnsClamping.BoundedTtls` | NativeDNS.Core/src/dns_packet.cpp:347-370 | The TTLs of a bounded response in figures, unless it is truncated, authenticated, or has a record of type 46, 249 or 250 |
| `DnsClamping.BoundedExactly` | NativeDNS.Core/src/dns_packet.cpp:347-352 | A response is bounded exactly when the bounds are in order and it can be parsed |
| `DnsReply.EdnsRequest` | NativeDNS.Core/src/dns_packet.cpp:80-105 | The options a request asks for, and every malformed record section |
| `DnsReply.SyntheticResponse` | NativeDNS.Core/src/dns_packet.cpp:106-145 | The reply built for a query equals its specification |
| `DnsReply.CutAfterQuestion` | NativeDNS.Core/src/dns_packet.cpp:113-120 | The packet cut behind its question, flags and counts rewritten |
| `DnsReply.SyntheticReplyParses` | NativeDNS.Core/src/dns_packet.cpp:106-145 | Every synthetic reply is at most 310 bytes and is accepted by the response parser with the code asked for and the zero address exactly when asked for - except, exactly, a zero-address reply to a name of 127 labels |
| `DnsReply.MakeErrorResponse` | NativeDNS.Core/src/dns_packet.cpp:205-207 | An error reply is the synthetic reply without an address; the response parser reads it as the code asked for, no address, not to be cached |
| `DnsReply.MakeBlockResponse` | NativeDNS.Core/src/dns_packet.cpp:208-213 | Silent drop is the error CONFIG; any other mode gives the synthetic reply with its code and, for the zero-address mode, the zero address, and what the response parser makes of it |
| `ReplyEchoes.OptionsExactly` | NativeDNS.Core/src/dns_packet.cpp:80-105 | The options of a request are accepted exactly when its records fill it and its one OPT record stands where it may; DO bit and payload size are then those of that record, the size held between 512 and 1232 |
| `ReplyEchoes.SyntheticEchoes` | NativeDNS.Core/src/dns_packet.cpp:106-145 | A synthetic reply is made exactly for a sound query and a code of four bits; it has the ID and the question of the query bit for bit, its RD and CD flags and no others, and the DO bit and payload size of the query in an OPT record of its own |
| `QueryReplies.QueriesAreAnswered` | NativeDNS.Core/src/dns_packet.cpp:106-145 | Every query for an accepted name gets its synthetic reply, which means what was asked for except exactly a zero address for a name of 127 labels |
| `QueryReplies.LongestNameIsNotBlocked` | NativeDNS.Core/src/dns_packet.cpp:30-41 | The failing case: the zero-address reply to an A query for a name of 127 labels is rejected by the response parser |
| `DnsReply.ClientUdpPayloadSize` | NativeDNS.Core/src/dns_packet.cpp:214-221 | The size a client accepts: between 512 and 1232, and 512 without EDNS |
| `DnsReply.FitUdpResponse` | NativeDNS.Core/src/dns_packet.cpp:222-239 | Fitting a response to the client equals its specification |
| `DnsReply.FittedReply` | NativeDNS.Core/src/dns_packet.cpp:222-239 | A fitted response is within the limit of the client, and is the response itself or its question alone, parsed as truncated |
| `ReplyEchoes.ClientSizeExactly` | NativeDNS.Core/src/dns_packet.cpp:214-221 | The size a client accepts is told exactly for sound queries: that of its OPT record between 512 and 1232, and 512 without one |
| `ReplyEchoes.FittedExactly` | NativeDNS.Core/src/dns_packet.cpp:222-239 | A response is fitted exactly when the size of the client is known and, if it is too long, it responds to the request; it is then its own question under its own ID and flags with TC set and all counts zero |
| `HostName.NormalizeAsciiName` | NativeDNS.Core/src/rules.cpp:65-111 | The canonical name, for names and for patterns, in both vocabularies; rejected exactly when a label is unsound or the name too long |
| `HostName.JoinLabels` | NativeDNS.Core/src/rules.cpp:74-107 | The label loop: every label is checked and folded, and joined by dots |
| `HostName.NormalizeLabel` | NativeDNS.Core/src/rules.cpp:80-98 | One label: length, characters, hyphens at its ends |
| `HostName.Trim` | NativeDNS.Core/src/rules.cpp:66-73 | Blanks around the name and one trailing dot are dropped |
| `HostName.NormalizeTwice` | NativeDNS.Core/src/rules.cpp:65-111 | A canonical name is its own canonical form |
| `HostName.NoWildcard` | NativeDNS.Core/src/rules.cpp:93-95 | A canonical host name has neither star nor question mark |
| `NameShapes.SpellingAccepted` | NativeDNS.Core/src/rules.cpp:65-111 | Every spelling of a name is accepted and brought to its canonical form: blanks around it and one dot behind it do not count, labels have 1 to 63 characters of their alphabet, 253 in all, and letters become lower-case |
| `NameShapes.AcceptedSpelling` | NativeDNS.Core/src/rules.cpp:65-111 | Whatever is accepted is such a spelling |
| `DnsQuery.MakeQuery` | NativeDNS.Core/src/dns_packet.cpp:177-203 | The query for a host name equals its specification |
| `DnsQuery.EncodeName` | NativeDNS.Core/src/dns_packet.cpp:187-199 | The label loop writes the encoded name |
| `DnsQuery.NameReads` | NativeDNS.Core/src/dns_packet.cpp:27-71 | An encoded canonical name reads back wherever it stands, as long as hops are left for its labels |
| `DnsQuery.FewLabels` | NativeDNS.Core/src/rules.cpp:108-109 | A canonical name has at most 127 labels |
| `DnsQuery.QueryRoundTrip` | NativeDNS.Core/src/dns_packet.cpp:177-203 | Every query parses back to the canonical name, the type asked for, class 1 and an end equal to its size |
| `DnsQuery.HopLimitIsReached` | NativeDNS.Core/src/dns_packet.cpp:33 | A name of 127 labels is a name, and reading it spends all 128 hops |
| `Glob.HostMatches` | NativeDNS.Core/src/rules.cpp:174-192 | The greedy matcher terminates, accepts only what the pattern means, and on hosts without a star accepts exactly that |
| `Glob.StarMatchesAll` | NativeDNS.Core/src/rules.cpp:174-192 | The pattern * means every host |
| `GlobMeaning.MatchesExactly` | NativeDNS.Core/src/rules.cpp:174-192 | A host matches a pattern exactly when it falls into one part for each character of the pattern: any text for a star, any one character for a question mark, and itself for all others |
| `FallbackGraph.FindsNoCycle` | NativeDNS.Core/src/rules.cpp:285-297 | The three-colour search over all servers succeeds exactly on acyclic fallback graphs |
| `FallbackGraph.Visit` | NativeDNS.Core/src/rules.cpp:286-295 | One visit: success lists the servers below behind what they fall back to; failure exhibits a cycle |
| `FallbackGraph.FinishedIsAcyclic` | NativeDNS.Core/src/rules.cpp:285-297 | Servers listed after everything they fall back to have no cycle |
| `FallbackGraph.Append` | NativeDNS.Core/src/router.cpp:104-115 | The recursive expansion lists a server and all it leads to, none twice |
| `FallbackGraph.FallbackGroup` | NativeDNS.Core/src/router.cpp:102-116 | The group of a primary holds each server reachable from it exactly once, the primary first; fallbacks that name no server are passed over |
| `Rules.Validate` | NativeDNS.Core/src/rules.cpp:225-319 | A configuration is accepted exactly when it is valid |
| `Rules.CheckServers` | NativeDNS.Core/src/rules.cpp:236-297 | The server checks accept exactly distinct, sound servers with a closed and acyclic fallback graph |
| `Rules.CheckServer` | NativeDNS.Core/src/rules.cpp:237-277 | One server is accepted exactly when it is sound for its protocol |
| `Rules.CheckFallbacks` | NativeDNS.Core/src/rules.cpp:271-276 | Fallbacks are accepted exactly when nonzero, distinct and none is the server itself |
| `Rules.CheckRules` | NativeDNS.Core/src/rules.cpp:298-318 | The rules are accepted exactly when each is sound, IDs are distinct and the one Default is last |
| `Rules.MatchRule` | NativeDNS.Core/src/rules.cpp:320-330 | On valid rules every host that is a name finds the first enabled matching rule and never reaches the final error |
| `Rules.MatchesRule` | NativeDNS.Core/src/rules.cpp:325-327 | A rule matches exactly when one of its patterns means the host |
| `Rules.DefaultMatchesAll` | NativeDNS.Core/src/rules.cpp:306-309 | The Default rule of a valid configuration is enabled and matches every host |
| `Rules.EvaluateRule` | NativeDNS.Core/src/rules.cpp:331-405 | On a valid configuration every host that is a name gets the decision of its first usable rule and never reaches the final error |
| `Rules.Decide` | NativeDNS.Core/src/rules.cpp:342-402 | What a chosen rule decides: the first reason to refuse it, and exactly when it gives way to a captive portal or reinjects the query |
| `Rules.SomethingUsable` | NativeDNS.Core/src/rules.cpp:369-371 | The Default rule is never passed over |
| `RuleEvaluation.PassedOverForCause` | NativeDNS.Core/src/rules.cpp:331-371 | An enabled, matching rule in front of the chosen one was passed over for one reason only: it is no Default, such rules are to be ignored, and the interface it asks for is missing or down |
| `RuleEvaluation.FirstMatchDecides` | NativeDNS.Core/src/rules.cpp:331-371 | Where such rules are not to be ignored the first match decides |
| `RuleEvaluation.DecisionTold` | NativeDNS.Core/src/rules.cpp:342-402 | The error, the route, the captive bypass and the reinjection of a decision, each exactly |
| `RuleEvaluation.UrlExactly` | NativeDNS.Core/src/rules.cpp:259-267 | The URLs a DoH server may have: https, an authority, no credentials, no white space |
| `ConfigModel.RuntimeOptions` | NativeDNS.Core/src/config.cpp:397-433 | Accepted options have TTL bounds in order and below 2 ^ 31; which settings they come from is ConfigModel.OptionsTold |
| `ConfigModel.OptionsTold` | NativeDNS.Core/src/config.cpp:397-433 | Settings give options exactly when each option is what the setting of its own name says, under its plain name or else under its old prefix; unset, a switch is off and the bounds are 0 and 2147483647 |
| `Decimal.NumberRoundTrip` | NativeDNS.Core/src/config.cpp:257-263 | Every 32-bit number reads back from its text |
| `Decimal.TextInjective` | NativeDNS.Core/src/router.cpp:229 | Different numbers have different texts |
| `RouteKeys.RouteKeyInjective` | NativeDNS.Core/src/network.cpp:60-64 | Two routes have one key exactly when they are the same network, whatever their interface IDs look like |
| `RouteKeys.FieldBegins` | NativeDNS.Core/src/network.cpp:60-64 | A field without bars begins behind the last bar |
| `RouteKeys.FieldEnds` | NativeDNS.Core/src/network.cpp:60-64 | A field without bars ends at the first bar |
| `Failover.HealthOverHistories` | NativeDNS.Core/src/router.cpp:181-213 | Over every history of an entry: the counter holds the failures in a row modulo 2 ^ 32; with two or more the delay counts from the last failure, 30 seconds doubling up to 240; no delay exactly below two failures in a row |
| `Failover.CounterWraps` | NativeDNS.Core/src/router.cpp:199-205 | A counter below two means no delay exactly when the failures in a row are below two or do not wrap the counter |
| `Failover.WrappedCounter` | NativeDNS.Core/src/router.cpp:201 | The failing case: after 2 ^ 32 failures in a row the counter reads zero and the delay stands |
| `Failover.Delay` | NativeDNS.Core/src/router.cpp:202-205 | The delays: 30, 60, 120 and then always 240 seconds |
| `Failover.LatencyMoves` | NativeDNS.Core/src/router.cpp:183-190 | A success clears failures and delay, and moves the latency a fifth of the way to what was measured |
| `Failover.OrderIsWeak` | NativeDNS.Core/src/router.cpp:139-154 | The comparator of the sort is a strict weak order on a group exactly when no server of unknown latency stands in one class with two different latencies |
| `Failover.UnknownLatencyConfuses` | NativeDNS.Core/src/router.cpp:139-154 | The failing case: latencies of 1 ms, unknown and 2 ms, all ready, are not strictly weakly ordered |
| `Failover.SortedInTurn` | NativeDNS.Core/src/router.cpp:139-154 | Unless unknown latencies confuse it, the sort leaves servers to be probed first and open circuits last, where there are closed ones, the lower latency first where both are known, and otherwise the order of the group |
| `FailoverGroup.KeysDiffer` | NativeDNS.Core/src/router.cpp:125-127 | Different servers have different health entries on one route |
| `FailoverGroup.NoServerTwice` | NativeDNS.Core/src/router.cpp:157-177 | No server is asked twice, and each for exactly the lesser of its own timeout and what is left, one millisecond at least |
| `FailoverGroup.OthersKeepHealth` | NativeDNS.Core/src/router.cpp:181-206 | An exchange changes the health of its own server only |
| `FailoverGroup.AttemptsTell` | NativeDNS.Core/src/router.cpp:178-206 | What an attempt leaves at the server asked: nothing if cancelled, one failure more, or none and a latency in milliseconds |
| `FailoverGroup.Upstreams.Candidates` | NativeDNS.Core/src/router.cpp:102-118 | The candidates are the enabled servers the primary leads to, each once, an enabled primary first |
| `FailoverGroup.Upstreams.Budget` | NativeDNS.Core/src/router.cpp:121-124 | The budget is the sum of the timeouts, two minutes at most |
| `FailoverGroup.Upstreams.Register` | NativeDNS.Core/src/router.cpp:129-134 | Every candidate gets an entry, and all others are dropped when there were too many |
| `FailoverGroup.Upstreams.Exchange` | NativeDNS.Core/src/router.cpp:170-206 | One exchange: what is asked, for how long, and what the health entry learns |
| `FailoverGroup.Upstreams.TryInOrder` | NativeDNS.Core/src/router.cpp:156-218 | In any order of the candidates, each at the time its turn comes: it is asked exactly when, by the health the attempts before have left, its circuit is closed or no other candidate is ready; turns end only with an answer, a cancellation, the deadline or the last candidate |
| `FailoverGroup.Upstreams.AsksWhenMay` | NativeDNS.Core/src/router.cpp:161-169 | The test of the loop is the test stated: an open circuit is passed over exactly when another candidate is ready |
| `FailoverGroup.Upstreams.ExchangeGroup` | NativeDNS.Core/src/router.cpp:97-219 | The whole call, whatever the sort, the clock and the servers do: result, attempts and health, with the early return and the all-disabled error, and for every candidate whose turn comes that it is asked exactly when its circuit is closed or no other is ready |
| `FailoverGroup.BestIsAskedFirst` | NativeDNS.Core/src/router.cpp:135-169 | Where unknown latencies do not confuse the order and some circuit is closed, the first server asked has a closed circuit, is a probe if any is, and has the least latency of its class as far as known |
| `FailoverGroup.SeesOldHealth` | NativeDNS.Core/src/router.cpp:161-168 | A candidate not asked yet has the health it had at the start |
| `CacheKey.KeyInjective` | NativeDNS.Core/src/router.cpp:226-236 | For NUL-free interface IDs, bars in them or not, and addresses of original servers free of NULs and bars: keys are equal exactly for the same upstream over the same network and the same query bytes behind the ID |
| `CacheKey.KeyOfSame` | NativeDNS.Core/src/router.cpp:226-236 | Upstreams and queries with equal identities share a key |
| `CacheKey.NulsConfuse` | NativeDNS.Core/src/router.cpp:226-236 | Why NULs are excluded: an interface ID with NULs in it, which no system reports, would make two different queries share a key |
| `CacheLedger.TotalWithout` | NativeDNS.Core/src/router.cpp:244-246 | Removing an entry lowers the total by exactly its size |
| `CacheLedger.TotalWith` | NativeDNS.Core/src/router.cpp:308-310 | Adding an entry under a free key raises the total by exactly its size |
| `CacheLedger.RoomIsEnough` | NativeDNS.Core/src/router.cpp:290-310 | After making room and storing, the cache is within its bounds; only an entry too large by itself exceeds the bytes |
| `CacheLedger.BoundedPart` | NativeDNS.Core/src/router.cpp:242-249 | Dropping entries keeps the bounds |
| `CacheLedger.Ledger.Sweep` | NativeDNS.Core/src/router.cpp:242-249 | The sweep drops exactly what has expired and keeps the counter exact |
| `CacheLedger.Ledger.MakeRoom` | NativeDNS.Core/src/router.cpp:292-306 | Eviction removes earliest-expiring entries, no more than needed, keeps the counter exact and ends when the entry fits or nothing is left |
| `CacheLedger.Ledger.Insert` | NativeDNS.Core/src/router.cpp:307-310 | Storing keeps the counter exact if and only if nothing was replaced |
| `CacheSafety.AddLeader` | NativeDNS.Core/src/router.cpp:261-268 | A new leader with a cell of its own keeps calls, cells and requests in flight consistent |
| `CacheSafety.LeaderSettles` | NativeDNS.Core/src/router.cpp:311-316 | A leader that fills its cell and leaves the requests in flight keeps them consistent, and no other leader is touched |
| `CacheSafety.FollowerEnds` | NativeDNS.Core/src/router.cpp:270-280 | A follower that ends, for whatever reason, leaves the others consistent |
| `CacheRuns.LookupKeeps` | NativeDNS.Core/src/router.cpp:237-281 | A lookup - sweep, then hit, join, refusal or lead - keeps the state safe |
| `CacheRuns.FinishKeeps` | NativeDNS.Core/src/router.cpp:282-338 | The return of a leader, with a reply or an error, keeps the state safe; storing is right only because nothing is both cached and in flight |
| `CacheRuns.WakeKeeps` | NativeDNS.Core/src/router.cpp:270-280 | A follower that wakes up - cancelled, too late, served or to wait on - keeps the state safe |
| `CacheRuns.RunsAreSafe` | NativeDNS.Core/src/router.cpp:220-339 | In every interleaving of lookups, returns and wake-ups from the empty cache, every state is safe |
| `CacheResults.OneLeaderPerKey` | NativeDNS.Core/src/router.cpp:257-268 | Two live leaders never ask for the same key |
| `CacheResults.InFlightIsLed` | NativeDNS.Core/src/router.cpp:257-268 | Every request in flight has a live leader asking for it and is not cached; there are at most 256 |
| `CacheResults.FollowersShareTheOutcome` | NativeDNS.Core/src/router.cpp:276-280 | A filled cell gives every follower the packet of its leader, or its error; an empty one has a live leader |
| `CacheResults.BooksBalance` | NativeDNS.Core/src/router.cpp:242-249 | The byte counter equals the total size and is never negative, there are at most 4096 entries, and at most 32 MiB when no entry alone is larger |
| `CacheResults.AnswersAreGenuine` | NativeDNS.Core/src/router.cpp:252-256 | Whatever a hit or a follower is given is a TTL-bounded upstream reply, got for the same query bytes by a call to the same upstream over the same network, aged by nothing or by less than it may be cached, under the ID of the caller |
| `CacheResults.LeadersAreAnswered` | NativeDNS.Core/src/router.cpp:284-288 | A leader is given the TTL-bounded reply to its own query, ID included |
| `CacheResults.HitsAreFresh` | NativeDNS.Core/src/router.cpp:250-256 | What a lookup step hands out of the cache is younger than the response may be cached, has the ID of the caller and each TTL lowered by the whole seconds stored, and shows no answer record of a positive response with TTL 0 |
| `CacheFollowers.LookupDecides` | NativeDNS.Core/src/router.cpp:237-281 | A call hits what has not expired; otherwise it waits at most 120 seconds on who asks already; otherwise, and only with 256 other keys in flight, it is refused; otherwise it leads |
| `CacheFollowers.LeaderStores` | NativeDNS.Core/src/router.cpp:284-316 | A leader whose reply is sound and may be cached stores it under its key for the cache time, a day at most; nothing is dropped where fewer than 4096 entries and enough of 32 MiB are taken |
| `CacheFollowers.FollowersAreServed` | NativeDNS.Core/src/router.cpp:270-280 | In every run a follower that wakes up, not cancelled, less than 120 seconds after it joined ends with the packet of its leader under its own ID, or the error of its leader, once that is there, and waits on while it is not; from then on it ends with TIMEOUT |
| `CacheFollowers.LedPacketsHandOn` | NativeDNS.Core/src/router.cpp:276-280 | Handing on an untruncated packet of a leader never fails |
| `ResolverCache.Snapshot.Enter` | NativeDNS.Core/src/router.cpp:220-281 | The first locked region is the lookup step, and a request below two bytes is malformed; what the step decides is CacheFollowers.LookupDecides |
| `ResolverCache.Snapshot.Return` | NativeDNS.Core/src/router.cpp:282-338 | The return of a leader is the finishing step, and its result is the outcome |
| `ResolverCache.Snapshot.Wake` | NativeDNS.Core/include/nativedns/detail/cancellation.hpp:28-40 | Waking from a wait is the waking step |
| `ResolverCache.Digest` | NativeDNS.Core/src/router.cpp:284-287 | The reply of the upstream, TTL-bounded and parsed against the question of the request |
| `ConnectionPool.SecureTransport.Sweep` | NativeDNS.Core/src/dns_secure.cpp:509-519 | Exactly the keys whose connections are all idle and from other networks are dropped |
| `ConnectionPool.SecureTransport.LimitIdle` | NativeDNS.Core/src/pool_limits.hpp:8-22 | At 128 keys a new one drops every key without a lease, and is refused exactly when none is left to drop |
| `ConnectionPool.SecureTransport.Turn` | NativeDNS.Core/src/dns_secure.cpp:520-542 | A lease is of a connection not leased before and of the network generation asked for, and of a new one only where all of the key are leased; a wait means the key is full of leased ones, and a refusal that all 128 keys have leases; nothing leased ever leaves the pool |
| `ConnectionPool.SecureTransport.Release` | NativeDNS.Core/src/dns_secure.cpp:493-498 | The end of a lease frees that connection and no other |
| `ConnectionPool.SecureTransport.Resume` | NativeDNS.Core/src/dns_secure.cpp:514-538 | The turn after a wait: cancelled, too late, or as a first turn under the key of the server |
| `ConnectionPool.SecureTransport.Acquire` | NativeDNS.Core/src/dns_secure.cpp:500-542 | The sweep and the first turn: the lease is under the key of the server, of its generation, and of a new connection only where all of that key are leased; when to wait, and when to be refused |
| `ConnectionPool.SecureTransport.constructor` | NativeDNS.Core/src/dns_secure.cpp:528 | A key holds at most 4 connections over DoT and 8 over DoH |
| `ConnectionPool.DropIdle` | NativeDNS.Core/src/pool_limits.hpp:13-20 | Dropping a key without leases keeps every lease in the pool |
| `ConnectionPool.GrowKey` | NativeDNS.Core/src/dns_secure.cpp:525-541 | One more connection under a key keeps connections distinct and under their own keys |
| `ConnectionPool.KeysTell` | NativeDNS.Core/src/dns_secure.cpp:500-507 | Connections are shared exactly by requests to the same URL, address, port and host name over the same network, with the same bootstrap addresses and certificate hashes |
| `DnsCrypt.QuerySizing` | NativeDNS.Core/src/dnscrypt.cpp:508-518 | A query can be padded exactly when it has 12 to 3967 bytes and at most 4036 are asked for; the padded size is the least multiple of 64 that leaves room for the mark and reaches the size asked for, and at most 4096 go out |
| `DnsCrypt.TcpSizing` | NativeDNS.Core/src/dnscrypt.cpp:212-226 | For every query the protocol allows and every random choice: a choice exists exactly when the query can be padded, and it goes out in just the size chosen with 1 to 256 bytes of padding |
| `DnsCrypt.UnpaddedIsPadded` | NativeDNS.Core/src/dnscrypt.cpp:580-588 | Unpadding yields a message exactly when it is given that message padded |
| `DnsCrypt.Unpad` | NativeDNS.Core/src/dnscrypt.cpp:580-588 | The unpadding loop equals its specification |
| `DnsCrypt.BuildQuery` | NativeDNS.Core/src/dnscrypt.cpp:502-548 | The query on the wire: magic, key, nonce and the sealed, padded message, of 68 bytes and a multiple of 64; the errors of sizes, of both keys and of sealing, in their order |
| `DnsCrypt.OpenResponse` | NativeDNS.Core/src/dnscrypt.cpp:550-589 | Opening a response, with its errors in order |
| `DnsCrypt.ResponseRoundTrip` | NativeDNS.Core/src/dnscrypt.cpp:550-589 | A message padded and sealed under the nonce of the query is opened as that message |
| `DnsCrypt.OpenedExactly` | NativeDNS.Core/src/dnscrypt.cpp:550-589 | A response is opened as a message exactly when it has at least 49 bytes, the magic of a resolver and the nonce of the query, the encryption system is 1 or 2, and its box opens under the nonce of 24 bytes to the message padded |
| `DnsCrypt.ForeignNonce` | NativeDNS.Core/src/dnscrypt.cpp:558-559 | A response under another nonce is refused before anything is opened |
| `DnsCrypt.PadCertificateRequest` | NativeDNS.Core/src/dnscrypt.cpp:114-139 | The padded certificate request, or the size error |
| `DnsCrypt.CertificateRequestParses` | NativeDNS.Core/src/dnscrypt.cpp:114-139 | For every provider name the padded request has 512 bytes, asks its question, and parses with EDNS size 1232 |
| `Checksum.ChecksumAdd` | NativeDNS.Core/src/platform/windows/windivert_interception.cpp:87-96 | The accumulator gains the sum of the words, modulo 2 ^ 32 |
| `Checksum.ChecksumFinish` | NativeDNS.Core/src/platform/windows/windivert_interception.cpp:97-102 | The folding loop gives the complement, zero written as all ones |
| `Checksum.FinishedIsRight` | NativeDNS.Core/src/platform/windows/windivert_interception.cpp:97-102 | A sum and its checksum together fold to all ones, for every sum |
| `Checksum.FoldKeepsResidue` | NativeDNS.Core/src/platform/windows/windivert_interception.cpp:98-99 | Folding keeps the residue by 65535, and only zero folds to zero |
| `Checksum.SumOfParts` | NativeDNS.Core/src/platform/windows/windivert_interception.cpp:87-96 | Sums over parts add up behind an even number of bytes |
| `Checksum.WrittenChecksum` | NativeDNS.Core/src/platform/windows/windivert_interception.cpp:266-292 | With zero in the field while summing, the written checksum makes the whole fold to all ones |
| `IpPackets.Ipv6Transport` | NativeDNS.Core/src/platform/windows/windivert_interception.cpp:115-155 | The walk over IPv6 extension headers, with its limit of 16 and all rejections |
| `IpPackets.ChainIsLocal` | NativeDNS.Core/src/platform/windows/windivert_interception.cpp:115-155 | The chain of extension headers is told by its own bytes |
| `IpPackets.UdpView` | NativeDNS.Core/src/platform/windows/windivert_interception.cpp:156-193 | Which captured packets are whole, unfragmented UDP DNS queries, and where their payload is |
| `IpPackets.TcpView` | NativeDNS.Core/src/platform/windows/windivert_interception.cpp:209-235 | Which captured packets are whole, unfragmented TCP segments, and where their payload is |
| `PacketShapes.ChainFollowed` | NativeDNS.Core/src/platform/windows/windivert_interception.cpp:115-155 | Every chain of at most 16 extension headers is followed to the transport header behind it |
| `PacketShapes.FollowedIsChain` | NativeDNS.Core/src/platform/windows/windivert_interception.cpp:115-155 | Whatever is followed is such a chain |
| `PacketShapes.UdpExactly` | NativeDNS.Core/src/platform/windows/windivert_interception.cpp:156-193 | Exactly the whole DNS queries over UDP are taken up: over IPv4 with any options and flags but no fragment, the don't-fragment bit set or not, and over IPv6 behind any chain |
| `PacketShapes.TcpExactly` | NativeDNS.Core/src/platform/windows/windivert_interception.cpp:209-235 | Exactly the whole, unfragmented TCP segments with a header of 20 bytes or more are taken up |
| `PacketShapes.PseudoHeaderBytes` | NativeDNS.Core/src/platform/windows/windivert_interception.cpp:267-286 | The pseudo header that is added up: addresses, protocol and length |
| `Interception.CheckedIsRight` | NativeDNS.Core/src/platform/windows/windivert_interception.cpp:266-292 | Fresh checksums fold to all ones with the pseudo header and, for IPv4, over the IP header |
| `Interception.NoOverflow` | NativeDNS.Core/src/platform/windows/windivert_interception.cpp:267-287 | No sum of a packet that fits an IP length field reaches 2 ^ 32 |
| `Interception.WriteChecksums` | NativeDNS.Core/src/platform/windows/windivert_interception.cpp:357-384 | Writing checksums over a 32-bit accumulator equals the unbounded sums |
| `Interception.SwapRanges` | NativeDNS.Core/src/platform/windows/windivert_interception.cpp:252-259 | Swapping two address ranges byte by byte |
| `Interception.MakeInterceptedUdpResponse` | NativeDNS.Core/src/platform/windows/windivert_interception.cpp:248-294 | The reply to a captured query equals its specification |
| `Interception.UdpReplyLaw` | NativeDNS.Core/src/platform/windows/windivert_interception.cpp:248-294 | For every accepted query the reply goes back where the query came from, from port 53, carries the response, states its real lengths and has right checksums; the other header bytes are those of the query |
| `TcpReflection.MakeReflectedTcpPacket` | NativeDNS.Core/src/platform/windows/windivert_interception.cpp:337-386 | Reflecting a segment equals its specification, with its rejections |
| `TcpReflection.ReflectionLaw` | NativeDNS.Core/src/platform/windows/windivert_interception.cpp:337-386 | Reflection keeps every byte but addresses, ports and checksums; hosts trade places, one port is replaced, and the checksums are right |
| `TcpReflection.ThereAndBack` | NativeDNS.Core/src/platform/windows/windivert_interception.cpp:337-386 | A segment from C:c to S:53 goes to the proxy as from S:c to C:proxy, and whatever the proxy sends back from C:proxy to S:c is accepted and arrives as from S:53 to C:c |
| `TcpReset.MakeInterceptedTcpReset` | NativeDNS.Core/src/platform/windows/windivert_interception.cpp:296-327 | The reset for a captured segment equals its specification |
| `TcpReset.BuildReset` | NativeDNS.Core/src/platform/windows/windivert_interception.cpp:302-326 | The reset segment before it is reflected, byte by byte |
| `TcpReset.ResetLaw` | NativeDNS.Core/src/platform/windows/windivert_interception.cpp:296-327 | Every segment to port 53 gets a reset, except exactly that a reset gets none; it goes back where the segment came from with sequence number, acknowledgment and flags of section 3.10.7.1 of RFC 9293 modulo 2 ^ 32, real lengths and right checksums |
| `TcpReset.SegmentViewed` | NativeDNS.Core/src/platform/windows/windivert_interception.cpp:303-326 | The shortened segment is still an acceptable packet with its header in the same place |
| `Utf8.DecodeUtf8` | NativeDNS.Core/src/rules.cpp:10-47 | Decoding equals its specification: overlong, truncated, surrogate and too large sequences are rejected |
| `Utf8.DecodedIsEncoded` | NativeDNS.Core/src/rules.cpp:10-63 | A text that decodes is the encoding of what it decodes to: no code point has two spellings |
| `Utf8.EncodedIsDecoded` | NativeDNS.Core/src/rules.cpp:10-63 | Every sequence of scalar values is decoded from its encoding |
| `Utf8Order.EncodedShape` | NativeDNS.Core/src/rules.cpp:48-63 | An encoding has one to four bytes by the size of its code point, a leading byte that says so, and continuation bytes |
| `Utf8Order.EncodedKeepsOrder` | NativeDNS.Core/src/rules.cpp:48-63 | Encodings are ordered as their code points are |
| `Utf8.Widen` | NativeDNS.Core/src/rules.cpp:113-131 | Widening to 16-bit units, surrogate pairs included |
| `Utf8.Narrow` | NativeDNS.Core/src/rules.cpp:132-152 | Narrowing from 16-bit units, with unpaired surrogates rejected |
| `Utf8.WideRoundTrip` | NativeDNS.Core/src/rules.cpp:113-152 | Whatever text widens, narrows back to itself |
| `Utf8.NarrowRoundTrip` | NativeDNS.Core/src/rules.cpp:113-152 | Whatever wide string narrows, widens back to itself exactly when its text is within the limit of 4 MiB |
| `Utf8.SizeLimits` | NativeDNS.Core/src/rules.cpp:113-152 | Up to 4 MiB what is well-formed is converted; longer texts and wide strings are refused with INPUT_LIMIT |
| `XmlText.DecodeEntity` | NativeDNS.Core/src/config.cpp:18-76 | Named and numeric entities are decoded as specified, with overflow, zero and surrogates rejected; what they mean is told by the lemmas of EntitySpelling |
| `EntitySpelling.EverySpellingDecodes` | NativeDNS.Core/src/config.cpp:29-73 | Every decimal and hexadecimal spelling of a scalar value but zero - digits of either case by place value, x or X, leading zeros - is decoded to its UTF-8 encoding |
| `EntitySpelling.DecodedIsSpelled` | NativeDNS.Core/src/config.cpp:29-73 | Whatever numeric entity is decoded spells the scalar value it is decoded to |
| `EntitySpelling.FiveNames` | NativeDNS.Core/src/config.cpp:19-28 | Apart from numbers there are the five names amp, lt, gt, quot and apos, with their characters |
| `XmlText.Escape` | NativeDNS.Core/src/config.cpp:308-341 | Escaping equals its specification, with texts that are not UTF-8 and control characters rejected |
| `XmlText.EscapedReads` | NativeDNS.Core/src/config.cpp:146-169 | Whatever value can be escaped is read back, up to the closing quote |
| `XmlParsing.XmlParser.Parse` | NativeDNS.Core/src/config.cpp:82-97 | The parser equals the specification of a document |
| `XmlParsing.XmlParser.ParseElement` | NativeDNS.Core/src/config.cpp:170-199 | Elements: depth and node limits, name, attributes, children |
| `XmlParsing.XmlParser.ParseChildren` | NativeDNS.Core/src/config.cpp:200-236 | Children, comments and the closing tag; text and CDATA are rejected |
| `XmlParsing.XmlParser.ParseAttributes` | NativeDNS.Core/src/config.cpp:183-199 | Attributes up to the end of the tag, duplicates rejected |
| `XmlParsing.XmlParser.QuotedValue` | NativeDNS.Core/src/config.cpp:146-169 | A quoted value with its entities |
| `XmlParsing.XmlParser.SkipMisc` | NativeDNS.Core/src/config.cpp:115-132 | White space, instructions and comments are skipped, declarations rejected |
| `XmlPrinting.FieldsRead` | NativeDNS.Core/src/config.cpp:183-199 | Printed attributes are read as the attributes they are |
| `XmlPrinting.CoreReads` | NativeDNS.Core/src/config.cpp:170-237 | Every printed tree no deeper than the limit is read back, whatever follows it |
| `XmlPrinting.LinesRead` | NativeDNS.Core/src/config.cpp:200-236 | Printed children are read back on top of those there are |
| `XmlDocument.CoreIsLong` | NativeDNS.Core/src/config.cpp:173-174 | A printed element takes at least 21 characters for itself and each element below it |
| `XmlDocument.DocumentReads` | NativeDNS.Core/src/config.cpp:82-97 | Every printed document of at most 4 MiB is read back, and the limit of 200000 elements is never met |
| `XmlSpelling.EveryDocumentReads` | NativeDNS.Core/src/config.cpp:79-237 | Every document of the grammar - white space of six kinds, values in either quote with references, comments, instructions outside the root, elements closed at once or by a tag - of at most 4 MiB, 16 levels below the root and 200000 elements is read for what it means |
| `XmlSpelling.ReadDocumentIsSpelled` | NativeDNS.Core/src/config.cpp:79-237 | Whatever is read is such a document, and means what was read |
| `XmlSpelling.ElementRead` | NativeDNS.Core/src/config.cpp:170-237 | Every well-spelled element is read, whatever follows it |
| `XmlSpelling.ElementSpelled` | NativeDNS.Core/src/config.cpp:170-237 | Every element that is read was well spelled |
| `ConfigLists.Join` | NativeDNS.Core/src/config.cpp:348-356 | Joining with semicolons |
| `ConfigLists.Split` | NativeDNS.Core/src/config.cpp:357-365 | Splitting at semicolons, empty items dropped |
| `ConfigLists.SplitJoined` | NativeDNS.Core/src/config.cpp:348-365 | Splitting what was joined gives the items back exactly when none is empty or holds a semicolon |
| `ConfigLists.SplitIds` | NativeDNS.Core/src/config.cpp:375-380 | Splitting into numbers, or the error of the first bad one |
| `ConfigLists.IdsRoundTrip` | NativeDNS.Core/src/config.cpp:366-380 | Every list of IDs is read back |
| `ConfigReading.SplitExactly` | NativeDNS.Core/src/config.cpp:357-365 | A list is read as the pieces between its semicolons but for the empty ones, wherever they stand |
| `ConfigReading.NumberExactly` | NativeDNS.Core/src/config.cpp:257-263 | A number is read exactly from digits alone, one at least, with leading zeros or without, whose place value is below 2 ^ 32 |
| `ConfigTree.MetadataRoundTrip` | NativeDNS.Core/src/config.cpp:381-395 | Metadata written in key order is read back |
| `ConfigReading.MetadataExactly` | NativeDNS.Core/src/config.cpp:385-396 | Elements are read as metadata exactly when each is a Meta without children or foreign attributes, no two have one key, and the map holds their pairs and nothing else |
| `ConfigTree.EnumReads` | NativeDNS.Core/src/config.cpp:620-621 | Levels and block modes survive the casts to unsigned and back, negative values included |
| `ConfigFields.ServerExactly` | NativeDNS.Core/src/config.cpp:624-665 | An element is read as a server exactly when it has no foreign attribute and each field is what the attribute of its own name says, or its default |
| `ConfigFields.RuleExactly` | NativeDNS.Core/src/config.cpp:666-692 | An element is read as a rule exactly when each field is what the attribute of its own name says, or its default |
| `ConfigFields.LoggingExactly` | NativeDNS.Core/src/config.cpp:615-623 | The logging settings, each from its own attribute |
| `ConfigFields.RootExactly` | NativeDNS.Core/src/config.cpp:599-606 | The root element: its name, its version, and what testing starts from |
| `ConfigReading.ConfigExactly` | NativeDNS.Core/src/config.cpp:599-698 | An element is read as a configuration exactly when it has the name, the attributes and the children of one, settings and logging once at most; each server and rule is what its child tells, in order, and what is not told has its default |
| `ConfigRoundTrip.ServerReads` | NativeDNS.Core/src/config.cpp:624-665 | A written server is read back but for its runtime fields and its lists cut at semicolons |
| `ConfigRoundTrip.RuleReads` | NativeDNS.Core/src/config.cpp:666-692 | A written rule is read back but for its patterns cut at semicolons |
| `ConfigRoundTrip.LoggingReads` | NativeDNS.Core/src/config.cpp:615-623 | The written logging settings are read back |
| `ConfigRoundTrip.ConfigReads` | NativeDNS.Core/src/config.cpp:599-698 | The elements of a configuration are read as the configuration its text tells |
| `ConfigRoundTrip.ToldWhole` | NativeDNS.Core/include/nativedns/model.hpp:13-60 | A text tells all of a configuration exactly when its lists are separable and its runtime fields are at their defaults |
| `ConfigShape.TreeFine` | NativeDNS.Core/src/config.cpp:556-598 | The XML of every configuration is well named, shallow and ample enough for the node limit |
| `ConfigText.SerializeConfig` | NativeDNS.Core/src/config.cpp:556-598 | Serializing a valid configuration equals its specification, size limit included; an invalid one is refused |
| `ConfigText.ConfigFromRoot` | NativeDNS.Core/src/config.cpp:599-698 | Reading the root element: what it describes if that is valid, else an error |
| `ConfigText.ReadMetadata` | NativeDNS.Core/src/config.cpp:385-396 | Reading metadata, duplicates and foreign children rejected |
| `ConfigText.ParseConfig` | NativeDNS.Core/src/config.cpp:699-701 | Parsing a text gives the configuration it tells if that is valid, else an error; which texts are read is XmlSpelling.ReadDocumentIsSpelled, and what they tell ConfigReading.ConfigExactly with ConfigFields.ServerExactly and its companions |
| `ConfigText.TextTells` | NativeDNS.Core/src/config.cpp:556-698 | What is written is read as the text tells it, before it is validated |
| `ConfigText.ConfigRoundTrips` | NativeDNS.Core/src/config.cpp:556-701 | Whatever valid configuration is serialized is parsed, validation included, exactly when the patterns of each rule still are patterns once cut at their semicolons; it is then what the text tells, and the very same configuration exactly when its lists are separable and its runtime fields default |
| `ConfigValidity.ToldIsValid` | NativeDNS.Core/src/config.cpp:556-698 | What the text of a valid configuration tells is valid exactly when the patterns of each rule, cut at their semicolons, are 1 to 4096 patterns again |
| `SemicolonPattern.SemicolonIsLost` | NativeDNS.Core/src/config.cpp:357-365 | The failing case: a configuration with the pattern ; is valid and is serialized, and every parse of its text is an error |
| `ConfigText.TextsDiffer` | NativeDNS.Core/src/config.cpp:556-598 | Different configurations that a text can tell have different texts |

## Left out

- Sockets, TLS, curl, libsodium, WinDivert calls, firewall, task scheduler, nftables and process control: foreign calls.
- The graphical interface, the importer of foreign profiles, the logger, file publishing and backups, `BoundedExecutor`,
  `NetworkMonitor`, the IPC header codec and the commits of `ConfigEditor`: they would only add easy members.
- Message texts of errors and logs: only the codes are modelled, and conditions that only differ in text are one case.
- Text forms of IP addresses: addresses of answers are kept as bytes, and whether an endpoint text is numeric is a parameter
  of `Rules.Validate`, as are the checks on DNSCrypt server parameters.
- The lookup of a network interface by ID or name is a parameter of `Rules.EvaluateRule`.
- The transport's own exchange: in `FailoverGroup` and `CacheProtocol` it returns any packet or any error code. An exception
  that is no `nd::Error` is an error with the code INTERNAL in the cache, and does not occur in failover.
- The failover call is modelled without other threads changing health entries meanwhile; `Failover.HealthOverHistories`
  covers every interleaving of single updates of one entry. The size bound of the health map under concurrency is left out.
- `std::stable_sort` itself: it is a parameter that permutes, and sorts stably where its comparator is a strict weak order.
- Failover.Health: latencies are real numbers where the source has `double`, so rounding is not modelled.
- Which of several entries with the same earliest expiry is evicted: `CacheLedger.Ledger.MakeRoom` allows any of them.
- The condition variables of cache and pool: a wake-up may come at any time, with or without a change.
- Shared ownership of cells and connections: a cell is a place in a sequence that is never reused, and connections live on.
- The text of a pool key: `ConnectionPool` uses the tuple the text encodes.
- The header and fields of DNSCrypt certificates, relay packets and the certificate cache.
- The 4-byte `wchar_t` branch of `widen` and `narrow`, in which a unit is a code point.
- Files as such: reading a configuration starts from its text, and serializing ends with it.
- Interception.UdpReplyLaw: checksums over IPv6 take the destination of the fixed header, as the source does; where a routing
  header is present, section 8.1 of RFC 8200 would take the final destination.
- Xml.Parsed: names and white space are those of the C locale.
- DnsAgeing.AgeingComposes: is about calls that succeed; which ones do is `AgeingAcceptance.AgedExactlyWhen`.
- Glob.HostMatches: for a host with a star in it only soundness is stated; canonical host names have none.
